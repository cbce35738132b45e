/**
 The I2C byte engine behind the registers, and one register-file slave on its bus.

 What the hardware does, with where the repository's RTL says so
 (core: rtl/peripherals/i2c/core/i2c_master_core.sv, registers: rtl/peripherals/i2c/regs/i2c_regs.sv):
 - IDLE accepts only START; HOLD accepts WR, RD, STOP and RESTART (core 222-248); ready is shown there
   and nowhere else, and only there is a command taken (core 915-916, registers 277-280);
 - a command that is taken clears the sticky result bits, and its own result sets them; a clear takes
   ACK_VALID and ACK together (registers 457-541);
 - an abort request is taken everywhere but in IDLE, and ends in IDLE (core 252-257, 521-524, 661-677);
 - an SDA fault during a byte, or an SCL line that does not rise, aborts the command in flight without
   any result (core 252-257, 375-407, 883-897);
 - the core latches the three fault events for good, and its latches win over clears of the register
   (core 467-481, registers 543-600).
 Everything else is left to the environment: how long each command takes, whether the slave
 acknowledges, when a line fault strikes, what the live sensor registers hold, the upper status bits.
 That DONE may be seen before the engine is back in HOLD, as in an earlier core
 (docs/notebook/ENG_NOTEBOOK_I2C.md:452-454), is allowed for.
 */
module I2cEngine {
  import opened MachineWords
  import opened I2cRegisters
  import opened I2cTranscript

  // ---------------------------------------------------------------- the slave

  const SLAVE_ADDRESS: Byte := 0x68

  /** The accelerometer, temperature and gyroscope outputs: they change by themselves. */
  predicate Live(r: Byte) { 0x3B <= r <= 0x48 }

  /** The outputs and WHO_AM_I are not changed by writes. */
  predicate ReadOnly(r: Byte) { Live(r) || r == 0x75 }

  type Registers = s: seq<Byte> | |s| == 0x100 witness seq(0x100, _ => 0)

  datatype Mode = Deaf | AwaitAddress | AwaitPointer | Storing | Serving

  datatype Slave = Slave(mode: Mode, pointer: Byte, regs: Registers)

  /** Would the slave take this byte as its own? */
  predicate Accepts(s: Slave, b: Byte) {
    match s.mode
    case AwaitAddress => b / 2 == SLAVE_ADDRESS
    case AwaitPointer | Storing => true
    case Deaf | Serving => false
  }

  function Store(regs: Registers, r: Byte, b: Byte): Registers {
    if ReadOnly(r) then regs else regs[r := b]
  }

  function TakeByte(s: Slave, b: Byte): Slave {
    match s.mode
    case AwaitAddress => s.(mode := if b % 2 == 1 then Serving else AwaitPointer)
    case AwaitPointer => s.(pointer := b, mode := Storing)
    case Storing => s.(regs := Store(s.regs, s.pointer, b), pointer := LowByte(s.pointer + 1))
    case Deaf | Serving => s
  }

  /** What one bus operation does to the slave. */
  function SlaveOn(s: Slave, op: Op): Slave {
    match op.cmd
    case Start | Restart => s.(mode := AwaitAddress)
    case Write(b) => if op.report == Acked then TakeByte(s, b) else s.(mode := Deaf)
    case Read(last) =>
      if s.mode != Serving then s
      else s.(pointer := LowByte(s.pointer + 1), mode := if last then Deaf else Serving)
    case Stop | Abort => s.(mode := Deaf)
    case Unknown => s
  }

  /** The slave after everything on the wire so far. */
  function Replay(origin: Slave, wire: seq<Op>): Slave {
    if wire == [] then origin else SlaveOn(Replay(origin, wire[..|wire| - 1]), wire[|wire| - 1])
  }

  lemma ReplayOne(origin: Slave, wire: seq<Op>, op: Op)
    ensures Replay(origin, wire + [op]) == SlaveOn(Replay(origin, wire), op)
  {
    assert (wire + [op])[..|wire + [op]| - 1] == wire;
  }

  // ---------------------------------------------------------------- the engine

  datatype Flow = Idle | Hold | Busy(cmd: Cmd) | Closing(toIdle: bool) | Aborting

  /** One byte handed out by the slave, and the register it came from. */
  datatype Reading = Reading(register: Byte, value: Byte)

  /** The three fault events, as bits. */
  datatype Faults = Faults(abort: bool, sda: bool, scl: bool)

  /** Why the engine aborted. */
  datatype Cause = Requested | SdaMoved | SclStuck

  datatype Engine = Engine(
    flow: Flow,
    done: bool, ackValid: bool, ackHigh: bool, readValid: bool, illegal: bool, // sticky status bits
    rx: Byte, staged: Byte,
    latch: Faults,          // the fault events as the core latches them
    shown: Faults,          // the fault register
    aborts: seq<Cause>,     // every abort since reset
    misuse: bool,           // a command was ever written that the engine could not take
    wire: seq<Op>,          // what has happened on the bus
    served: seq<Reading>)   // what the slave has handed out

  /** The state of the lines while a command is carried out. */
  datatype Line = Clean | Moving | Stuck

  /** What the environment decides at one register access. */
  datatype Choice = Choice(
    go: bool,               // the engine makes progress
    settle: bool,           // ... all the way to where the next command can be taken
    ack: bool,              // the slave is willing to acknowledge
    line: Cmd -> Line,      // whether a line fault strikes the command in flight
    taken: bool,            // ... after it has had its effect on the bus
    upper: Byte,            // the status bits above CMD_ILLEGAL
    live: Byte -> Byte)     // the sensor outputs

  datatype Machine = Machine(boot: Engine, origin: Slave, env: History -> Choice)

  predicate Settled(e: Engine) { e.flow.Idle? || e.flow.Hold? }

  predicate Legal(flow: Flow, cmd: Cmd) {
    match flow
    case Idle => cmd.Start?
    case Hold => cmd.Write? || cmd.Read? || cmd.Stop? || cmd.Restart?
    case _ => false
  }

  function Rest(cmd: Cmd): Flow { if cmd.Stop? then Idle else Hold }

  function Value(s: Slave, live: Byte -> Byte): Byte {
    if s.mode != Serving then 0xFF else if Live(s.pointer) then live(s.pointer) else s.regs[s.pointer]
  }

  /** What a command comes to on the bus. */
  function Effect(s: Slave, cmd: Cmd, c: Choice): Op {
    match cmd
    case Write(b) => Op(cmd, if c.ack && Accepts(s, b) then Acked else Nacked)
    case Read(_) => Op(cmd, Got(Value(s, c.live)))
    case _ => Op(cmd, Plain)
  }

  function ServedBy(s: Slave, op: Op): seq<Reading> {
    if op.cmd.Read? && op.report.Got? && s.mode == Serving then [Reading(s.pointer, op.report.value)] else []
  }

  function Put(origin: Slave, e: Engine, op: Op): Engine {
    e.(wire := e.wire + [op], served := e.served + ServedBy(Replay(origin, e.wire), op))
  }

  /** The command in flight is carried out, and its result recorded. */
  function Land(origin: Slave, e: Engine, cmd: Cmd, c: Choice): Engine {
    var op := Effect(Replay(origin, e.wire), cmd, c);
    var f := Put(origin, e, op);
    match op.report
    case Acked => f.(done := true, ackValid := true, ackHigh := false)
    case Nacked => f.(done := true, ackValid := true, ackHigh := true)
    case Got(v) => f.(done := true, readValid := true, rx := v)
    case _ => f
  }

  function Or(a: Faults, b: Faults): Faults { Faults(a.abort || b.abort, a.sda || b.sda, a.scl || b.scl) }

  function Event(cause: Cause): Faults { Faults(true, cause == SdaMoved, cause == SclStuck) }

  /** An abort begins: a STOP-like sequence on the bus, an event in the core, and from there in the register. */
  function Begin(origin: Slave, e: Engine, cause: Cause): Engine {
    var latch := Or(e.latch, Event(cause));
    Put(origin, e, Op(Abort, Plain)).(flow := Aborting, aborts := e.aborts + [cause],
                                      latch := latch, shown := Or(e.shown, latch))
  }

  /** SDA is watched during bytes only; SCL whenever it is to rise. */
  predicate Strikes(line: Line, cmd: Cmd) { line.Stuck? || (line.Moving? && (cmd.Write? || cmd.Read?)) }

  /** A line fault ends the command in flight, which may or may not have reached the slave. */
  function Fail(origin: Slave, e: Engine, cmd: Cmd, c: Choice): Engine {
    var before := if c.taken then Put(origin, e, Effect(Replay(origin, e.wire), cmd, c)) else e;
    Begin(origin, before, if c.line(cmd).Stuck? then SclStuck else SdaMoved)
  }

  /** Where the engine goes by itself when no command is in flight. */
  function Subside(flow: Flow): Flow {
    match flow
    case Closing(toIdle) => if toIdle then Idle else Hold
    case Aborting => Idle
    case _ => flow
  }

  /** Progress made between one register access and the next. */
  function Tick(origin: Slave, e: Engine, c: Choice): Engine {
    if !c.go then e
    else if !e.flow.Busy? then e.(flow := Subside(e.flow))
    else if Strikes(c.line(e.flow.cmd), e.flow.cmd) then
      Fail(origin, e, e.flow.cmd, c).(flow := if c.settle then Idle else Aborting)
    else
      Land(origin, e, e.flow.cmd, c).(flow := if c.settle then Rest(e.flow.cmd) else Closing(e.flow.cmd.Stop?))
  }

  /** An abort request is lost on an idle engine, and starts the clean-up over in one that is aborting. */
  function TakeAbort(origin: Slave, e: Engine): Engine {
    if e.flow.Idle? || e.flow.Aborting? then e else Begin(origin, e, Requested)
  }

  function Forgotten(e: Engine): Engine {
    e.(done := false, ackValid := false, ackHigh := false, readValid := false, illegal := false)
  }

  function Accept(origin: Slave, e: Engine, cmd: Cmd): Engine {
    if cmd.Abort? then TakeAbort(origin, e)
    else if !Settled(e) then e.(misuse := true)
    else if Legal(e.flow, cmd) then Forgotten(e).(flow := Busy(cmd))
    else Forgotten(e).(misuse := true, illegal := true)
  }

  function Without(f: Faults, mask: Word): Faults {
    Faults(f.abort && !AbortSeen(mask), f.sda && !SdaUnstable(mask), f.scl && !SclHighTimeout(mask))
  }

  function Apply(origin: Slave, e: Engine, a: Access): Engine {
    match a
    case WriteStatus(mask) =>
      var acked := e.ackValid && !AckValid(mask) && !AckHigh(mask);
      e.(done := e.done && !Done(mask), ackValid := acked, ackHigh := e.ackHigh && !AckValid(mask) && !AckHigh(mask),
         readValid := e.readValid && !ReadValid(mask), illegal := e.illegal && !CmdIllegal(mask))
    case WriteFault(mask) => e.(shown := Or(Without(e.shown, mask), e.latch))
    case WriteTx(b) => e.(staged := b)
    case WriteCommand(w) => Accept(origin, e, Decode(w, e.staged))
    case _ => e
  }

  /** The engine as the history leaves it. */
  function EngineAt(m: Machine, h: History): Engine
    decreases h, 0
  {
    match h
    case Boot => m.boot
    case Then(past, a) => Apply(m.origin, Now(m, past), a)
  }

  /** The engine at the moment of the access that follows. */
  function Now(m: Machine, h: History): Engine
    decreases h, 1
  {
    Tick(m.origin, EngineAt(m, h), m.env(h))
  }

  /** A bit, and above it the rest of the word. */
  function Prepend(bit: bool, rest: nat): (w: nat)
    ensures (w % 2 == 1 <==> bit) && w / 2 == rest && w <= 2 * rest + 1
  {
    2 * rest + if bit then 1 else 0
  }

  lemma Halvings(w: nat, w1: nat, w2: nat, w3: nat, w4: nat, w5: nat, w6: nat)
    requires w / 2 == w1 && w1 / 2 == w2 && w2 / 2 == w3 && w3 / 2 == w4 && w4 / 2 == w5 && w5 / 2 == w6
    ensures w / 0x02 == w1 && w / 0x04 == w2 && w / 0x08 == w3
    ensures w / 0x10 == w4 && w / 0x20 == w5 && w / 0x40 == w6
  {
  }

  function StatusWord(e: Engine, c: Choice): (w: Word)
    ensures Ready(w) <==> Settled(e)
    ensures BusIdle(w) <==> e.flow.Idle?
    ensures Done(w) <==> e.done
    ensures AckValid(w) <==> e.ackValid
    ensures AckHigh(w) <==> e.ackHigh
    ensures ReadValid(w) <==> e.readValid
    ensures CmdIllegal(w) <==> e.illegal
  {
    hide Prepend;
    var w6 := Prepend(e.illegal, c.upper);
    var w5 := Prepend(e.readValid, w6);
    var w4 := Prepend(e.ackHigh, w5);
    var w3 := Prepend(e.ackValid, w4);
    var w2 := Prepend(e.done, w3);
    var w1 := Prepend(e.flow.Idle?, w2);
    var w := Prepend(Settled(e), w1);
    Halvings(w, w1, w2, w3, w4, w5, w6);
    w
  }

  /** The device is this machine: every register read shows the engine as it is at that moment. */
  ghost predicate Models(d: Device, m: Machine) {
    forall h :: d(h, STATUS) == StatusWord(Now(m, h), m.env(h)) && d(h, RXDATA) == Now(m, h).rx
  }
}
