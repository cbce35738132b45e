/**
 The register block of the I2C peripheral: status bits, the command word, and the
 history of accesses software has made to it.

 A device is an arbitrary function from that history to the value the next register
 read returns, so a statement about every `Device` assumes nothing about the hardware.
 */
module I2cRegisters {
  import opened MachineWords

  datatype Reg = STATUS | RXDATA

  datatype Access =
    | ReadStatus(value: Word)
    | ReadRx(value: Word)
    | WriteStatus(mask: Word)
    | WriteDivisor(divisor: Half)
    | WriteTx(data: Byte)
    | WriteCommand(word: Word)
    | WriteFault(mask: Word)

  /** Everything that has happened on the register port, oldest access innermost. */
  datatype History = Boot | Then(past: History, last: Access)

  type Device = (History, Reg) -> Word

  // REG_STATUS, bits 0 to 6.
  predicate Ready(w: Word) { w % 2 == 1 }
  predicate BusIdle(w: Word) { (w / 0x02) % 2 == 1 }
  predicate Done(w: Word) { (w / 0x04) % 2 == 1 }
  predicate AckValid(w: Word) { (w / 0x08) % 2 == 1 }
  predicate AckHigh(w: Word) { (w / 0x10) % 2 == 1 }
  predicate ReadValid(w: Word) { (w / 0x20) % 2 == 1 }
  predicate CmdIllegal(w: Word) { (w / 0x40) % 2 == 1 }

  // REG_FAULT, bits 1 to 3; bit 0 says that any of them is up.
  predicate AbortSeen(w: Word) { (w / 0x02) % 2 == 1 }
  predicate SdaUnstable(w: Word) { (w / 0x04) % 2 == 1 }
  predicate SclHighTimeout(w: Word) { (w / 0x08) % 2 == 1 }

  /** DONE, ACK_VALID, ACK, RD_DATA_VALID and CMD_ILLEGAL: the write-one-to-clear bits. */
  const STICKY: Word := 0x7C

  /** ABORT_SEEN, SDA_UNSTABLE and SCL_HIGH_TIMEOUT. */
  const ALL_FAULTS: Word := 0x0E

  const CODE_START: Byte := 0
  const CODE_WR: Byte := 1
  const CODE_RD: Byte := 2
  const CODE_STOP: Byte := 3
  const CODE_RESTART: Byte := 4

  // TX status codes.
  const TX_OK: Byte := 0
  const ERR_CMD: Byte := 1
  const ERR_ADDR_NACK: Byte := 2
  const ERR_DATA_NACK_BASE: Byte := 3

  /** REG_CMD[2:0] is the command code, bit 7 the abort flag, bit 8 rd_last. */
  function Pack(code: Byte, abort: bool, rdLast: bool): Word {
    code % 8 + (if abort then 0x80 else 0) + (if rdLast then 0x100 else 0)
  }

  /** What the command register is asked to do; a write carries the byte staged in REG_TXDATA. */
  datatype Cmd = Start | Write(data: Byte) | Read(last: bool) | Stop | Restart | Abort | Unknown

  /** How the peripheral reads a command word.  Abort shares the START code, so bit 7 is looked at first. */
  function Decode(word: Word, staged: Byte): Cmd {
    if (word / 0x80) % 2 == 1 then Abort
    else match word % 8
      case 0 => Start
      case 1 => Write(staged)
      case 2 => Read((word / 0x100) % 2 == 1)
      case 3 => Stop
      case 4 => Restart
      case _ => Unknown
  }

  /** The word software writes for each command. */
  function Encode(cmd: Cmd): Word
    requires !cmd.Unknown?
  {
    match cmd
    case Start => Pack(CODE_START, false, false)
    case Write(_) => Pack(CODE_WR, false, false)
    case Read(last) => Pack(CODE_RD, false, last)
    case Stop => Pack(CODE_STOP, false, false)
    case Restart => Pack(CODE_RESTART, false, false)
    case Abort => Pack(CODE_START, true, false)
  }

  /** No command word is mistaken for another; in particular an abort is never taken for a START. */
  lemma DecodeEncode(cmd: Cmd, staged: Byte)
    requires !cmd.Unknown?
    requires cmd.Write? ==> cmd.data == staged
    ensures Decode(Encode(cmd), staged) == cmd
  {
    match cmd
    case Read(last) => assert Encode(cmd) == if last then 0x102 else 2;
    case _ =>
  }
}
