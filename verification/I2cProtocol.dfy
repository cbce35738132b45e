/**
 What the I2C driver does to the register port, as functions of the device and the history so far.

 A bus transaction is a plan: a list of phases.  Every phase waits for the engine, clears the
 sticky result bits, issues one command, and then looks for the result that kind of command has.
 */
module I2cProtocol {
  import opened MachineWords
  import opened I2cRegisters

  const POLL_LIMIT: nat := 200000

  function AddrWrite(slave: Byte): Byte { slave % 0x80 * 2 }

  function AddrRead(slave: Byte): Byte { slave % 0x80 * 2 + 1 }

  /** The NACK code of data byte `index`, held in eight bits. */
  function NackCode(index: nat): Byte { LowByte(ERR_DATA_NACK_BASE + index) }

  // ---------------------------------------------------------------- polling

  datatype Wait = Wait(h: History, ok: bool)

  function Seen(d: Device, h: History): Word { d(h, STATUS) }

  function Look(d: Device, h: History): History { Then(h, ReadStatus(d(h, STATUS))) }

  function WaitReady(d: Device, h: History, n: nat): Wait
    decreases n
  {
    if n == 0 then Wait(h, false)
    else if Ready(Seen(d, h)) then Wait(Look(d, h), true)
    else WaitReady(d, Look(d, h), n - 1)
  }

  function WaitIdleReady(d: Device, h: History, n: nat): Wait
    decreases n
  {
    if n == 0 then Wait(h, false)
    else if !Ready(Seen(d, h)) then WaitIdleReady(d, Look(d, h), n - 1)
    else if BusIdle(Seen(d, Look(d, h))) then Wait(Look(d, Look(d, h)), true)
    else WaitIdleReady(d, Look(d, Look(d, h)), n - 1)
  }

  function WaitCycle(d: Device, h: History, n: nat): Wait
    decreases n
  {
    if n == 0 then Wait(h, false)
    else if CmdIllegal(Seen(d, h)) then Wait(Look(d, h), false)
    else if Done(Seen(d, h)) then Wait(Look(d, h), true)
    else WaitCycle(d, Look(d, h), n - 1)
  }

  function AbortPoll(d: Device, h: History, n: nat): History
    decreases n
  {
    if n == 0 then h
    else if !BusIdle(Seen(d, h)) then AbortPoll(d, Look(d, h), n - 1)
    else if Ready(Seen(d, Look(d, h))) then Look(d, Look(d, h))
    else AbortPoll(d, Look(d, Look(d, h)), n - 1)
  }

  /** One round of the polling after an abort. */
  lemma AbortRound(d: Device, h: History, n: nat)
    requires n > 0
    ensures AbortPoll(d, h, n) ==
            if !BusIdle(Seen(d, h)) then AbortPoll(d, Look(d, h), n - 1)
            else if Ready(Seen(d, Look(d, h))) then Look(d, Look(d, h))
            else AbortPoll(d, Look(d, Look(d, h)), n - 1)
  {
  }

  lemma AbortDone(d: Device, h: History)
    ensures AbortPoll(d, h, 0) == h
  {
  }

  function AbortToIdle(d: Device, h: History): History {
    AbortPoll(d, Then(h, WriteCommand(Encode(Abort))), POLL_LIMIT)
  }

  // ---------------------------------------------------------------- phases

  datatype Phase = Phase(cmd: Cmd, nackCode: Byte)

  predicate ValidPhase(ph: Phase) { !ph.cmd.Unknown? && !ph.cmd.Abort? }

  /** Where a phase left the port: was the command issued, with what code, and what was received. */
  datatype Step = Step(h: History, issued: bool, code: Byte, rx: seq<Byte>)

  function Stage(h: History, cmd: Cmd): History {
    if cmd.Write? then Then(h, WriteTx(cmd.data)) else h
  }

  function RunPhase(d: Device, h: History, ph: Phase): Step
    requires ValidPhase(ph)
  {
    var w := WaitReady(d, h, POLL_LIMIT);
    if !w.ok then Step(w.h, false, ERR_CMD, [])
    else
      var staged := Stage(Then(w.h, WriteStatus(STICKY)), ph.cmd);
      if !Ready(Seen(d, staged)) then Step(Look(d, staged), false, ERR_CMD, [])
      else Conclude(d, Then(Look(d, staged), WriteCommand(Encode(ph.cmd))), ph)
  }

  /** After the command word: START and RESTART come back to a held bus, STOP to an idle one. */
  function Conclude(d: Device, h: History, ph: Phase): Step
    requires ValidPhase(ph)
  {
    match ph.cmd
    case Write(_) => ConcludeWrite(d, WaitCycle(d, h, POLL_LIMIT), ph.nackCode)
    case Read(_) => ConcludeRead(d, WaitCycle(d, h, POLL_LIMIT))
    case Stop =>
      var w := WaitIdleReady(d, h, POLL_LIMIT);
      Step(w.h, true, if w.ok then TX_OK else ERR_CMD, [])
    case Start | Restart =>
      var w := WaitReady(d, h, POLL_LIMIT);
      if !w.ok then Step(w.h, true, ERR_CMD, [])
      else Step(Look(d, w.h), true, if BusIdle(Seen(d, w.h)) then ERR_CMD else TX_OK, [])
  }

  function ConcludeWrite(d: Device, w: Wait, nackCode: Byte): Step {
    if !w.ok then Step(w.h, true, ERR_CMD, [])
    else
      var status := Seen(d, w.h);
      Step(Look(d, w.h), true,
           if !AckValid(status) then ERR_CMD else if AckHigh(status) then nackCode else TX_OK, [])
  }

  function ConcludeRead(d: Device, w: Wait): Step {
    if !w.ok then Step(w.h, true, ERR_CMD, [])
    else if !ReadValid(Seen(d, w.h)) then Step(Look(d, w.h), true, ERR_CMD, [])
    else
      var h := Look(d, w.h);
      Step(Then(h, ReadRx(d(h, RXDATA))), true, TX_OK, [LowByte(d(h, RXDATA))])
  }

  // ---------------------------------------------------------------- plans

  datatype Plan = End | Next(phase: Phase, rest: Plan)

  predicate ValidPlan(plan: Plan) {
    plan.Next? ==> ValidPhase(plan.phase) && ValidPlan(plan.rest)
  }

  datatype Outcome = Outcome(h: History, code: Byte, rx: seq<Byte>)

  /**
   Run the phases in order.  The first failure ends the transaction with an abort, unless it is a
   START that was never issued.
   */
  function Transact(d: Device, h: History, plan: Plan, got: seq<Byte>): Outcome
    requires ValidPlan(plan)
    decreases plan
  {
    match plan
    case End => Outcome(h, TX_OK, got)
    case Next(ph, rest) =>
      var s := RunPhase(d, h, ph);
      if s.code == TX_OK then Transact(d, s.h, rest, got + s.rx)
      else Outcome(if ph.cmd.Start? && !s.issued then s.h else AbortToIdle(d, s.h), s.code, got)
  }

  /** One phase of a transaction, taken on its own. */
  lemma Advance(d: Device, h: History, ph: Phase, rest: Plan, got: seq<Byte>)
    requires ValidPhase(ph) && ValidPlan(rest)
    ensures var s := RunPhase(d, h, ph);
            && (!ph.cmd.Read? ==> got + s.rx == got)
            && (s.code == TX_OK ==> Transact(d, h, Next(ph, rest), got) == Transact(d, s.h, rest, got + s.rx))
            && (s.code != TX_OK ==>
                  Transact(d, h, Next(ph, rest), got) ==
                  Outcome(if ph.cmd.Start? && !s.issued then s.h else AbortToIdle(d, s.h), s.code, got))
  {
  }

  const START: Phase := Phase(Start, ERR_CMD)

  const RESTART: Phase := Phase(Restart, ERR_CMD)

  const STOP: Phase := Phase(Stop, ERR_CMD)

  function Address(b: Byte): Phase { Phase(Write(b), ERR_ADDR_NACK) }

  function Datum(tx: seq<Byte>, i: nat): Phase
    requires i < |tx|
  {
    Phase(Write(tx[i]), NackCode(i))
  }

  function Fetch(i: nat, n: nat): Phase { Phase(Read(i + 1 == n), ERR_CMD) }

  const FINISH: Plan := Next(STOP, End)

  function SendFrom(tx: seq<Byte>, i: nat, rest: Plan): (plan: Plan)
    requires i <= |tx| && ValidPlan(rest)
    ensures ValidPlan(plan)
    decreases |tx| - i
  {
    if i == |tx| then rest else Next(Datum(tx, i), SendFrom(tx, i + 1, rest))
  }

  lemma SendStep(tx: seq<Byte>, i: nat, rest: Plan)
    requires i <= |tx| && ValidPlan(rest)
    ensures SendFrom(tx, i, rest) == if i == |tx| then rest else Next(Datum(tx, i), SendFrom(tx, i + 1, rest))
  {
  }

  function FetchFrom(i: nat, n: nat, rest: Plan): (plan: Plan)
    requires i <= n && ValidPlan(rest)
    ensures ValidPlan(plan)
    decreases n - i
  {
    if i == n then rest else Next(Fetch(i, n), FetchFrom(i + 1, n, rest))
  }

  function Addressed(address: Byte, rest: Plan): (plan: Plan)
    requires ValidPlan(rest)
    ensures ValidPlan(plan)
  {
    Next(START, Next(Address(address), rest))
  }

  function TxPlan(slave: Byte, tx: seq<Byte>): (plan: Plan)
    ensures ValidPlan(plan)
  {
    Addressed(AddrWrite(slave), SendFrom(tx, 0, FINISH))
  }

  function RxPlan(slave: Byte, n: nat): (plan: Plan)
    ensures ValidPlan(plan)
  {
    Addressed(AddrRead(slave), FetchFrom(0, n, FINISH))
  }

  function ReadBack(slave: Byte, n: nat): (plan: Plan)
    ensures ValidPlan(plan)
  {
    if n == 0 then FINISH
    else Next(RESTART, Next(Address(AddrRead(slave)), FetchFrom(0, n, FINISH)))
  }

  function TxRxPlan(slave: Byte, tx: seq<Byte>, n: nat): (plan: Plan)
    ensures ValidPlan(plan)
  {
    Addressed(AddrWrite(slave), SendFrom(tx, 0, ReadBack(slave, n)))
  }

  // ---------------------------------------------------------------- start-up

  function ForceIdle(d: Device, h: History): History {
    var settled := CheckIdleReady(d, h);
    if settled.ok then settled.h
    else
      var stopped := TryStop(d, settled.h);
      var again := CheckIdleReady(d, stopped);
      WaitIdleReady(d, if again.ok then again.h else AbortToIdle(d, again.h), POLL_LIMIT).h
  }

  /** `ready && idle`, with the second read made only when the first says ready. */
  function CheckIdleReady(d: Device, h: History): Wait {
    if !Ready(Seen(d, h)) then Wait(Look(d, h), false)
    else Wait(Look(d, Look(d, h)), BusIdle(Seen(d, Look(d, h))))
  }

  function TryStop(d: Device, h: History): History {
    var check := CheckIdleReady(d, h);
    if Ready(Seen(d, h)) && !check.ok then
      var cleared := Then(check.h, WriteStatus(STICKY));
      WaitIdleReady(d, CommandStop(d, cleared), POLL_LIMIT).h
    else check.h
  }

  function CommandStop(d: Device, h: History): History {
    if Ready(Seen(d, h)) then Then(Look(d, h), WriteCommand(Encode(Stop))) else Look(d, h)
  }

  /** The quarter-bit divisor, rounded up so that the bus is never faster than requested. */
  function Divisor(freqKHz: Half, coreMHz: Byte): Half {
    if freqKHz == 0 || coreMHz == 0 then 1
    else
      var d := (coreMHz * 1000 + 4 * freqKHz - 1) / (4 * freqKHz);
      if d < 1 then 1 else if d > 0xFFFF then 0xFFFF else d
  }

  function ClearAll(h: History): History {
    Then(Then(h, WriteStatus(STICKY)), WriteFault(ALL_FAULTS))
  }

  function Init(d: Device, h: History, freqKHz: Half, coreMHz: Byte): History {
    ClearAll(ForceIdle(d, ClearAll(Then(h, WriteDivisor(Divisor(freqKHz, coreMHz))))))
  }
}
