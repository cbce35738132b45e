/** The ADXL345 driver over blocking SPI exchanges. */
module Adxl345 {
  import opened MachineWords
  import opened SpiDevice
  import opened SpiDriver
  import opened Adxl345Bus

  const REG_DEVID: Byte := 0x00
  const REG_DATA_FORMAT: Byte := 0x31
  const REG_BW_RATE: Byte := 0x2C
  const REG_POWER_CTL: Byte := 0x2D
  const REG_DATAX0: Byte := 0x32
  const DEVID_VALUE: Byte := 0xE5
  const RATE_100_HZ: Byte := 0x0A
  const POWER_CTL_MEASURE: Byte := 0x08

  datatype Status = Ok | ErrNullPtr | ErrDataFormat | ErrDevid

  /** Between calls the port is enabled, as `spi_init` leaves it, nothing is on its way and chip select is released. */
  predicate Between(s: Spi) { Calm(s) && !s.open && Closed(s.log) }

  /** The last byte exchanged. */
  function LastRx(log: seq<Launch>): Byte
    requires log != []
  {
    log[|log| - 1].rx
  }

  /** What is left to exchange, taken one byte further. */
  lemma OneMore(peer: Peer, log: seq<Launch>, o: Out, rest: seq<Out>)
    ensures Exchanges(peer, log, [o] + rest)
         == Exchanges(peer, log + [Launch(o.tx, o.final, peer(log, o.tx, o.final))], rest)
  {
    assert ([o] + rest)[1..] == rest;
  }

  lemma NoMore(peer: Peer, log: seq<Launch>)
    ensures Exchanges(peer, log, []) == log
  {
  }

  method WriteReg(port: SpiPort, reg: Byte, value: Byte) returns (status: Status)
    requires Between(port.s)
    modifies port
    ensures Between(port.s) && status == Ok
    ensures port.s.log == Exchanges(port.env.peer, old(port.s.log), WriteOuts(reg, value))
  {
    ghost var peer, log := port.env.peer, port.s.log;
    OneMore(peer, log, Out(Command(reg, false, false), false), [Out(value, true)]);
    var _ := port.TransferByteBlocking(Command(reg, false, false), false);
    OneMore(peer, port.s.log, Out(value, true), []);
    assert [Out(value, true)] + [] == [Out(value, true)];
    var _ := port.TransferByteBlocking(value, true);
    return Ok;
  }

  /** `value` points to one byte, or nowhere. */
  method ReadReg(port: SpiPort, reg: Byte, value: array?<Byte>) returns (status: Status)
    requires Between(port.s) && (value != null ==> value.Length == 1)
    modifies port, value
    ensures Between(port.s)
    ensures value == null ==> status == ErrNullPtr && port.s == old(port.s)
    ensures value != null ==>
      && status == Ok && port.s.log == Exchanges(port.env.peer, old(port.s.log), ReadOuts(reg, 1))
      && port.s.log != [] && value[0] == LastRx(port.s.log)
  {
    if value == null { return ErrNullPtr; }
    ghost var peer := port.env.peer;
    assert ReadOuts(reg, 1) == [Out(Command(reg, true, false), false)] + [Out(0, true)];
    OneMore(peer, port.s.log, Out(Command(reg, true, false), false), [Out(0, true)]);
    var _ := port.TransferByteBlocking(Command(reg, true, false), false);
    OneMore(peer, port.s.log, Out(0, true), []);
    assert [Out(0, true)] + [] == [Out(0, true)];
    value[0] := port.TransferByteBlocking(0x00, true);
    return Ok;
  }

  /**
   Send the command, then clock in `len` bytes.  Exactly `len + 1` bytes are launched, as one frame,
   and byte `i` of the buffer is what came back for dummy byte `i`.
   */
  method ReadRegs(port: SpiPort, start: Byte, buf: array?<Byte>, len: Word) returns (status: Status)
    requires Between(port.s) && (buf != null ==> len <= buf.Length)
    modifies port, buf
    ensures Between(port.s)
    ensures buf == null || len == 0 ==>
      status == ErrNullPtr && port.s == old(port.s) && (buf != null ==> buf[..] == old(buf[..]))
    ensures buf != null && len != 0 ==>
      && status == Ok && port.s.log == Exchanges(port.env.peer, old(port.s.log), ReadOuts(start, len))
      && |port.s.log| == |old(port.s.log)| + 1 + len
      && (forall i :: 0 <= i < len ==> buf[i] == port.s.log[|old(port.s.log)| + 1 + i].rx)
      && (forall i :: len <= i < buf.Length ==> buf[i] == old(buf[i]))
  {
    hide Exchanges, Command;
    if buf == null || len == 0 { return ErrNullPtr; }
    ghost var peer, log := port.env.peer, port.s.log;
    ghost var goal := Exchanges(peer, log, ReadOuts(start, len));
    OneMore(peer, log, Out(Command(start, true, len > 1), false), Dummies(0, len));
    var _ := port.TransferByteBlocking(Command(start, true, len > 1), false);
    var i := 0;
    while i < len
      invariant i <= len && Calm(port.s)
      invariant |port.s.log| == |log| + 1 + i
      invariant Exchanges(peer, port.s.log, Dummies(i, len)) == goal
      invariant i == len ==> !port.s.open && Closed(port.s.log)
      invariant forall k :: 0 <= k < i ==> buf[k] == port.s.log[|log| + 1 + k].rx
      invariant forall k :: i <= k < buf.Length ==> buf[k] == old(buf[k])
    {
      assert Dummies(i, len) == [Out(0, i == len - 1)] + Dummies(i + 1, len);
      OneMore(peer, port.s.log, Out(0, i == len - 1), Dummies(i + 1, len));
      buf[i] := port.TransferByteBlocking(0x00, i == len - 1);
      i := i + 1;
    }
    NoMore(peer, port.s.log);
    return Ok;
  }

  // ---------------------------------------------------------------- samples

  /** `(int16_t)(lo | (hi << 8))`. */
  function LittleEndianS16(lo: Byte, hi: Byte): (v: int)
    ensures -0x8000 <= v < 0x8000
  {
    var u := lo + hi * 0x100;
    if u < 0x8000 then u else u - 0x1_0000
  }

  /** Every 16-bit value is the decoding of exactly its own two bytes, low byte first. */
  lemma LittleEndianRoundTrip(v: int, lo: Byte, hi: Byte)
    requires -0x8000 <= v < 0x8000
    ensures LittleEndianS16(lo, hi) == v <==> lo == v % 0x100 && hi == (v / 0x100) % 0x100
  {
    var u := if v < 0 then v + 0x1_0000 else v;
    assert u / 0x100 == (v / 0x100) % 0x100 && u % 0x100 == v % 0x100;
  }

  class RawXyz {
    var x: int
    var y: int
    var z: int
  }

  /**
   The three words are those of the sensor's registers 0x32 to 0x37, each register as it was at its exchange,
   number `n` and the following; no register is changed.
   */
  ghost predicate Measured(xyz: RawXyz, sensor: Sensor, origin: Adxl, log: seq<Launch>, after: seq<Launch>, n: nat)
    reads xyz
  {
    var regs := Replay(origin, log).regs;
    && Replay(origin, after).regs == regs
    && xyz.x == LittleEndianS16(Value(sensor, n, regs, 0x32), Value(sensor, n + 1, regs, 0x33))
    && xyz.y == LittleEndianS16(Value(sensor, n + 2, regs, 0x34), Value(sensor, n + 3, regs, 0x35))
    && xyz.z == LittleEndianS16(Value(sensor, n + 4, regs, 0x36), Value(sensor, n + 5, regs, 0x37))
  }

  lemma XyzOnSensor(peer: Peer, sensor: Sensor, origin: Adxl, log: seq<Launch>, xyz: RawXyz)
    requires Models(peer, sensor, origin) && origin.mode.AwaitCommand? && Closed(log)
    requires var after, n := Exchanges(peer, log, ReadOuts(REG_DATAX0, 6)), |log| + 1;
             && |after| == n + 6
             && xyz.x == LittleEndianS16(after[n].rx, after[n + 1].rx)
             && xyz.y == LittleEndianS16(after[n + 2].rx, after[n + 3].rx)
             && xyz.z == LittleEndianS16(after[n + 4].rx, after[n + 5].rx)
    ensures Measured(xyz, sensor, origin, log, Exchanges(peer, log, ReadOuts(REG_DATAX0, 6)), |log| + 1)
  {
    hide LittleEndianS16, Value, Replay, Exchanges, Models, Closed, Window;
    ReadRefines(peer, sensor, origin, log, REG_DATAX0, 6);
    var after, n, regs := Exchanges(peer, log, ReadOuts(REG_DATAX0, 6)), |log| + 1, Replay(origin, log).regs;
    InWindow(after, sensor, regs, n, 0);
    InWindow(after, sensor, regs, n, 1);
    InWindow(after, sensor, regs, n, 2);
    InWindow(after, sensor, regs, n, 3);
    InWindow(after, sensor, regs, n, 4);
    InWindow(after, sensor, regs, n, 5);
  }

  lemma InWindow(after: seq<Launch>, sensor: Sensor, regs: Registers, n: nat, k: nat)
    requires k < 6 && |after| == n + 6 && Window(after, sensor, regs, n, n + 6, REG_DATAX0 - n)
    ensures after[n + k].rx == Value(sensor, n + k, regs, 0x32 + k)
  {
    hide Value;
    assert (REG_DATAX0 - n + (n + k)) % 0x40 == 0x32 + k;
  }

  method ReadXyzRaw(port: SpiPort, xyz: RawXyz?) returns (status: Status)
    requires Between(port.s)
    modifies port, xyz
    ensures Between(port.s)
    ensures xyz == null ==> status == ErrNullPtr && port.s == old(port.s)
    ensures xyz != null ==>
      var log, n := port.s.log, |old(port.s.log)| + 1;
      && status == Ok && log == Exchanges(port.env.peer, old(port.s.log), ReadOuts(REG_DATAX0, 6))
      && |log| == n + 6
      && xyz.x == LittleEndianS16(log[n].rx, log[n + 1].rx)
      && xyz.y == LittleEndianS16(log[n + 2].rx, log[n + 3].rx)
      && xyz.z == LittleEndianS16(log[n + 4].rx, log[n + 5].rx)
    ensures xyz != null ==>
      forall sensor, origin :: Models(port.env.peer, sensor, origin) && origin.mode.AwaitCommand? ==>
        Measured(xyz, sensor, origin, old(port.s.log), port.s.log, |old(port.s.log)| + 1)
  {
    hide LittleEndianS16, Exchanges, Models, Measured;
    if xyz == null { return ErrNullPtr; }
    var buf := new Byte[6];
    var _ := ReadRegs(port, REG_DATAX0, buf, 6);
    ghost var log, n := port.s.log, |old(port.s.log)| + 1;
    assert forall i :: 0 <= i < 6 ==> buf[i] == log[n + i].rx;
    assert buf[0] == log[n + 0].rx && buf[1] == log[n + 1].rx && buf[2] == log[n + 2].rx;
    assert buf[3] == log[n + 3].rx && buf[4] == log[n + 4].rx && buf[5] == log[n + 5].rx;
    xyz.x := LittleEndianS16(buf[0], buf[1]);
    xyz.y := LittleEndianS16(buf[2], buf[3]);
    xyz.z := LittleEndianS16(buf[4], buf[5]);
    forall sensor, origin | Models(port.env.peer, sensor, origin) && origin.mode.AwaitCommand?
      ensures Measured(xyz, sensor, origin, old(port.s.log), port.s.log, |old(port.s.log)| + 1)
    {
      XyzOnSensor(port.env.peer, sensor, origin, old(port.s.log), xyz);
    }
    return Ok;
  }

  // ---------------------------------------------------------------- bring-up

  datatype Ended = Ended(log: seq<Launch>, status: Status)

  function Wrote(peer: Peer, log: seq<Launch>, reg: Byte, value: Byte): seq<Launch> {
    Exchanges(peer, log, WriteOuts(reg, value))
  }

  function Read1(peer: Peer, log: seq<Launch>, reg: Byte): (after: seq<Launch>)
    ensures after != []
  {
    ExchangesGrow(peer, log, ReadOuts(reg, 1));
    Exchanges(peer, log, ReadOuts(reg, 1))
  }

  function InitDefault(peer: Peer, log: seq<Launch>): Ended {
    var log1 := Read1(peer, Wrote(peer, log, REG_DATA_FORMAT, 0x00), REG_DATA_FORMAT);
    if LastRx(log1) != 0x00 then Ended(log1, ErrDataFormat)
    else
      var log2 := Read1(peer, log1, REG_DEVID);
      if LastRx(log2) != DEVID_VALUE then Ended(log2, ErrDevid)
      else
        var log3 := Wrote(peer, log2, REG_BW_RATE, RATE_100_HZ);
        Ended(Wrote(peer, log3, REG_POWER_CTL, POWER_CTL_MEASURE), Ok)
  }

  method InitializeDefault(port: SpiPort) returns (status: Status)
    requires Between(port.s)
    modifies port
    ensures Between(port.s) && Ended(port.s.log, status) == InitDefault(port.env.peer, old(port.s.log))
  {
    hide Exchanges;
    var value := new Byte[1];
    var _ := WriteReg(port, REG_DATA_FORMAT, 0x00);
    var _ := ReadReg(port, REG_DATA_FORMAT, value);
    if value[0] != 0x00 { return ErrDataFormat; }
    var _ := ReadReg(port, REG_DEVID, value);
    if value[0] != DEVID_VALUE { return ErrDevid; }
    var _ := WriteReg(port, REG_BW_RATE, RATE_100_HZ);
    var _ := WriteReg(port, REG_POWER_CTL, POWER_CTL_MEASURE);
    return Ok;
  }

  lemma WriteOnSensor(peer: Peer, sensor: Sensor, origin: Adxl, log: seq<Launch>, reg: Byte, value: Byte)
    requires Models(peer, sensor, origin) && origin.mode.AwaitCommand? && Closed(log) && reg < 0x40
    ensures var after := Wrote(peer, log, reg, value);
            Closed(after) && Replay(origin, after).regs == Store(Replay(origin, log).regs, reg, value)
  {
    hide Replay, Exchanges, WriteOuts, Frames, Models, Closed, IsFrame, Store;
    OutsAreFrames(reg, value, 0, 0);
    OneFrame(peer, log, WriteOuts(reg, value));
    WriteRefines(peer, origin, log, reg, value);
  }

  lemma ReadOnSensor(peer: Peer, sensor: Sensor, origin: Adxl, log: seq<Launch>, reg: Byte)
    requires Models(peer, sensor, origin) && origin.mode.AwaitCommand? && Closed(log) && reg < 0x40
    ensures var after := Read1(peer, log, reg);
            var regs := Replay(origin, log).regs;
            && Closed(after) && Replay(origin, after).regs == regs
            && LastRx(after) == Value(sensor, |log| + 1, regs, reg)
  {
    hide Value, Replay, Exchanges, ReadOuts, Frames, Models, Closed, IsFrame, Window, LastRx;
    OutsAreFrames(0, 0, reg, 1);
    OneFrame(peer, log, ReadOuts(reg, 1));
    ReadRefines(peer, sensor, origin, log, reg, 1);
    OneRegister(Read1(peer, log, reg), sensor, Replay(origin, log).regs, |log| + 1, reg);
  }

  lemma OneRegister(after: seq<Launch>, sensor: Sensor, regs: Registers, at: nat, reg: Byte)
    requires |after| == at + 1 && reg < 0x40 && Window(after, sensor, regs, at, |after|, reg - at)
    ensures LastRx(after) == Value(sensor, at, regs, reg)
  {
    hide Value;
    assert after[at].rx == Value(sensor, at, regs, (reg - at + at) % 0x40);
  }

  /**
   Bring-up on the sensor: its first write forces 4-wire mode, whatever mode it was in, so the DATA_FORMAT
   check always passes; then the identity decides.  Success means 4-wire, 100 Hz and measuring, with
   nothing else changed.
   */
  lemma InitOnSensor(peer: Peer, sensor: Sensor, origin: Adxl, log: seq<Launch>)
    requires Models(peer, sensor, origin) && origin.mode.AwaitCommand? && Closed(log)
    ensures var r := InitDefault(peer, log);
            var before, after := Replay(origin, log).regs, Replay(origin, r.log).regs;
            && Closed(r.log)
            && r.status == (if before[0x00] == 0xE5 then Ok else ErrDevid)
            && (r.status == Ok ==> after == before[0x31 := 0x00][0x2C := 0x0A][0x2D := 0x08])
            && (r.status != Ok ==> after == before[0x31 := 0x00])
  {
    hide Wrote, Read1, Replay, Models, Closed, LastRx;
    WriteOnSensor(peer, sensor, origin, log, REG_DATA_FORMAT, 0x00);
    var log0 := Wrote(peer, log, REG_DATA_FORMAT, 0x00);
    ReadOnSensor(peer, sensor, origin, log0, REG_DATA_FORMAT);
    var log1 := Read1(peer, log0, REG_DATA_FORMAT);
    ReadOnSensor(peer, sensor, origin, log1, REG_DEVID);
    var log2 := Read1(peer, log1, REG_DEVID);
    WriteOnSensor(peer, sensor, origin, log2, REG_BW_RATE, RATE_100_HZ);
    var log3 := Wrote(peer, log2, REG_BW_RATE, RATE_100_HZ);
    WriteOnSensor(peer, sensor, origin, log3, REG_POWER_CTL, POWER_CTL_MEASURE);
  }

  /** The bytes sent and their XFER_END flags are `txs`, two bytes to a frame. */
  predicate SentPairs(log: seq<Launch>, after: seq<Launch>, txs: seq<Byte>) {
    && |after| == |log| + |txs| && after[..|log|] == log
    && forall k :: 0 <= k < |txs| ==> after[|log| + k].tx == txs[k] && (after[|log| + k].final <==> k % 2 == 1)
  }

  /**
   What goes out, on any wire: write 0x00 to 0x31, read 0x31, read 0x00, write 0x0A to 0x2C, write 0x08 to 0x2D; or
   the first two or three of these, if a check fails.
   */
  lemma InitSends(peer: Peer, log: seq<Launch>)
    ensures var r, txs := InitDefault(peer, log), [0x31, 0x00, 0xB1, 0x00, 0x80, 0x00, 0x2C, 0x0A, 0x2D, 0x08];
            match r.status
            case Ok => SentPairs(log, r.log, txs)
            case ErrDataFormat => SentPairs(log, r.log, txs[..4])
            case ErrDevid => SentPairs(log, r.log, txs[..6])
            case ErrNullPtr => false
  {
    hide Wrote, Read1, LastRx, SentPairs;
    var log0 := Wrote(peer, log, REG_DATA_FORMAT, 0x00);
    var log1 := Read1(peer, log0, REG_DATA_FORMAT);
    var log2 := Read1(peer, log1, REG_DEVID);
    var log3 := Wrote(peer, log2, REG_BW_RATE, RATE_100_HZ);
    var log4 := Wrote(peer, log3, REG_POWER_CTL, POWER_CTL_MEASURE);
    WriteSends(peer, log, REG_DATA_FORMAT, 0x00);
    ReadSends(peer, log0, REG_DATA_FORMAT);
    ReadSends(peer, log1, REG_DEVID);
    WriteSends(peer, log2, REG_BW_RATE, RATE_100_HZ);
    WriteSends(peer, log3, REG_POWER_CTL, POWER_CTL_MEASURE);
    var one: seq<Byte> := [0x31, 0x00];
    var two, three := one + [0xB1, 0x00], one + [0xB1, 0x00] + [0x80, 0x00];
    Both(log, log0, log1, one, [0xB1, 0x00]);
    Both(log, log1, log2, two, [0x80, 0x00]);
    Both(log, log2, log3, three, [0x2C, 0x0A]);
    Both(log, log3, log4, three + [0x2C, 0x0A], [0x2D, 0x08]);
    Starts();
  }

  lemma Starts()
    ensures var txs := [0x31, 0x00, 0xB1, 0x00, 0x80, 0x00, 0x2C, 0x0A, 0x2D, 0x08];
            && [0x31, 0x00] + [0xB1, 0x00] == txs[..4]
            && [0x31, 0x00] + [0xB1, 0x00] + [0x80, 0x00] == txs[..6]
            && [0x31, 0x00] + [0xB1, 0x00] + [0x80, 0x00] + [0x2C, 0x0A] + [0x2D, 0x08] == txs
  {
  }

  lemma Both(log: seq<Launch>, mid: seq<Launch>, after: seq<Launch>, first: seq<Byte>, second: seq<Byte>)
    requires SentPairs(log, mid, first) && SentPairs(mid, after, second) && |first| % 2 == 0
    ensures SentPairs(log, after, first + second)
  {
    assert after[..|log|] == after[..|mid|][..|log|] == log;
    forall k | 0 <= k < |first + second|
      ensures after[|log| + k].tx == (first + second)[k] && (after[|log| + k].final <==> k % 2 == 1)
    {
      if k < |first| {
        assert after[|log| + k] == after[..|mid|][|log| + k] == mid[|log| + k];
      } else {
        assert |log| + k == |mid| + (k - |first|);
      }
    }
  }

  lemma TwoSent(peer: Peer, log: seq<Launch>, outs: seq<Out>)
    requires |outs| == 2 && !outs[0].final && outs[1].final
    ensures SentPairs(log, Exchanges(peer, log, outs), [outs[0].tx, outs[1].tx])
  {
    hide Exchanges;
    ExchangesGrow(peer, log, outs);
    var after := Exchanges(peer, log, outs);
    forall k | 0 <= k < 2
      ensures after[|log| + k].tx == [outs[0].tx, outs[1].tx][k] && (after[|log| + k].final <==> k % 2 == 1)
    {
      assert after[|log| + k].tx == outs[k].tx && after[|log| + k].final == outs[k].final;
    }
  }

  lemma WriteSends(peer: Peer, log: seq<Launch>, reg: Byte, value: Byte)
    requires reg < 0x40
    ensures SentPairs(log, Wrote(peer, log, reg, value), [reg, value])
  {
    hide Exchanges, SentPairs;
    TwoSent(peer, log, WriteOuts(reg, value));
  }

  lemma ReadSends(peer: Peer, log: seq<Launch>, reg: Byte)
    requires reg < 0x40
    ensures SentPairs(log, Read1(peer, log, reg), [reg + 0x80, 0x00])
  {
    hide Exchanges, SentPairs;
    TwoSent(peer, log, ReadOuts(reg, 1));
  }

  /** With no sensor that answers, a line stuck at any byte is rejected, and the status says at which check. */
  lemma InitOnStuckLine(peer: Peer, log: seq<Launch>, b: Byte)
    requires forall l, tx, final :: peer(l, tx, final) == b
    ensures InitDefault(peer, log).status == if b != 0 then ErrDataFormat else ErrDevid
  {
    hide Exchanges;
    var log0 := Wrote(peer, log, REG_DATA_FORMAT, 0x00);
    LastOfRead(peer, log0, REG_DATA_FORMAT);
    LastOfRead(peer, Read1(peer, log0, REG_DATA_FORMAT), REG_DEVID);
  }

  /** A register read ends with the peer's answer to its dummy byte. */
  lemma LastOfRead(peer: Peer, log: seq<Launch>, reg: Byte)
    ensures exists l :: LastRx(Read1(peer, log, reg)) == peer(l, 0, true)
  {
    var c := Out(Command(reg, true, false), false);
    assert ReadOuts(reg, 1) == [c] + [Out(0, true)];
    OneMore(peer, log, c, [Out(0, true)]);
    var log1 := log + [Launch(c.tx, false, peer(log, c.tx, false))];
    OneMore(peer, log1, Out(0, true), []);
    assert [Out(0, true)] + [] == [Out(0, true)];
    assert Read1(peer, log, reg) == log1 + [Launch(0, true, peer(log1, 0, true))];
  }
}
