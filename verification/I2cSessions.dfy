/** Start-up recovery, and arbitrary sequences of driver calls, on the engine. */
module I2cSessions {
  import opened MachineWords
  import opened I2cRegisters
  import opened I2cProtocol
  import opened I2cTranscript
  import opened I2cTransactions
  import opened I2cGuarantees
  import opened I2cEngine
  import opened I2cEngineRuns
  import opened I2cEnginePhases
  import opened I2cEngineTransactions
  import opened I2cFaults
  import Text = I2cStrings

  // ---------------------------------------------------------------- start-up from any state

  /** A state the engine can really be in, in which it has not been misused more than before. */
  ghost predicate Steady(e: Engine, misuse: bool) { Sound(e) && e.misuse == misuse }

  lemma ReachSteady(origin: Slave, e: Engine, f: Engine, misuse: bool)
    requires Steady(e, misuse) && Reach(origin, e, f)
    ensures Steady(f, misuse) && (Quiescent(e) ==> Quiescent(f))
  {
    hide Replay, Possible;
  }

  lemma SteadyNow(m: Machine, h: History, misuse: bool)
    requires Steady(EngineAt(m, h), misuse)
    ensures Steady(Now(m, h), misuse) && (Quiescent(EngineAt(m, h)) ==> Quiescent(Now(m, h)))
  {
    hide Reach, Tick;
    var e := EngineAt(m, h);
    SelfReach(m.origin, e);
    ReachTick(m.origin, e, e, m.env(h));
    NowIs(m, h);
    ReachSteady(m.origin, e, Now(m, h), misuse);
  }

  lemma SteadyAccess(m: Machine, h: History, a: Access, misuse: bool)
    requires Steady(EngineAt(m, h), misuse) && !a.WriteCommand?
    ensures var f := EngineAt(m, Then(h, a));
            Steady(f, misuse) && (Quiescent(EngineAt(m, h)) ==> Quiescent(f)) && f.flow == Now(m, h).flow
  {
    SteadyNow(m, h, misuse);
  }

  lemma SteadyCheck(d: Device, m: Machine, h: History, misuse: bool)
    requires Models(d, m) && Steady(EngineAt(m, h), misuse)
    ensures var w := CheckIdleReady(d, h);
            var f := EngineAt(m, w.h);
            Steady(f, misuse) && (w.ok ==> f.flow.Idle?) && (Ready(Seen(d, h)) && !w.ok ==> f.flow.Hold?)
  {
    hide Models, EngineAt;
    SteadyAccess(m, h, ReadStatus(Seen(d, h)), misuse);
    LookNow(d, m, h);
    if Ready(Seen(d, h)) { LookSettled(d, m, Look(d, h)); }
  }

  /** The STOP of the recovery is written only when the engine is holding the bus. */
  lemma SteadyStop(d: Device, m: Machine, h: History, misuse: bool)
    requires Models(d, m) && Steady(EngineAt(m, h), misuse)
    ensures Steady(EngineAt(m, TryStop(d, h)), misuse)
  {
    hide Models, EngineAt, Reach;
    SteadyCheck(d, m, h, misuse);
    var check := CheckIdleReady(d, h);
    if Ready(Seen(d, h)) && !check.ok {
      var cleared := Then(check.h, WriteStatus(STICKY));
      Cleared(m, check.h);
      LookSettled(d, m, cleared);
      Issued(m, Look(d, cleared), Stop);
      var stopping := CommandStop(d, cleared);
      var e := EngineAt(m, stopping);
      SelfReach(m.origin, e);
      WaitIdleReadyReach(d, m, e, stopping, POLL_LIMIT);
      ReachSteady(m.origin, e, EngineAt(m, WaitIdleReady(d, stopping, POLL_LIMIT).h), misuse);
    }
  }

  lemma SteadyAbort(d: Device, m: Machine, h: History, misuse: bool)
    requires Models(d, m) && Steady(EngineAt(m, h), misuse)
    ensures var g := EngineAt(m, AbortToIdle(d, h)); Quiescent(g) && Steady(g, misuse)
  {
    hide Models, EngineAt, Reach;
    AbortOnEngine(d, m, h);
    ReachSteady(m.origin, EngineAt(m, h), Now(m, h), misuse);
  }

  /** Recovery gives the engine no wrong command, and leaves it idle or going there, from any state. */
  lemma SteadyForce(d: Device, m: Machine, h: History, misuse: bool)
    requires Models(d, m) && Steady(EngineAt(m, h), misuse)
    ensures var g := EngineAt(m, ForceIdle(d, h)); Quiescent(g) && Steady(g, misuse)
  {
    hide Models, EngineAt, Reach, CheckIdleReady, TryStop, AbortToIdle, Steady;
    SteadyCheck(d, m, h, misuse);
    var settled := CheckIdleReady(d, h);
    if !settled.ok {
      SteadyStop(d, m, settled.h, misuse);
      var stopped := TryStop(d, settled.h);
      SteadyCheck(d, m, stopped, misuse);
      var again := CheckIdleReady(d, stopped);
      var last := ForcedAt(d, h);
      if !again.ok { SteadyAbort(d, m, again.h, misuse); }
      var e := EngineAt(m, last);
      SelfReach(m.origin, e);
      SteadySound(e, misuse);
      WaitIdleReadyReach(d, m, e, last, POLL_LIMIT);
      ReachSteady(m.origin, e, EngineAt(m, WaitIdleReady(d, last, POLL_LIMIT).h), misuse);
    }
  }

  lemma SteadySound(e: Engine, misuse: bool)
    requires Steady(e, misuse)
    ensures Sound(e)
  {
  }

  /** Where recovery stands when only its closing wait is left. */
  function ForcedAt(d: Device, h: History): History {
    var again := CheckIdleReady(d, TryStop(d, CheckIdleReady(d, h).h));
    if again.ok then again.h else AbortToIdle(d, again.h)
  }

  /** `i2c_init` on every engine, from every state, with no assumption on how long anything takes. */
  lemma InitOnEngine(d: Device, m: Machine, h: History, freqKHz: Half, coreMHz: Byte)
    requires Models(d, m) && Sound(EngineAt(m, h))
    ensures var e, g := EngineAt(m, h), EngineAt(m, Init(d, h, freqKHz, coreMHz));
            Quiescent(g) && g.misuse == e.misuse
  {
    hide Models, EngineAt, ForceIdle;
    var misuse := EngineAt(m, h).misuse;
    var h1 := Then(h, WriteDivisor(Divisor(freqKHz, coreMHz)));
    SteadyAccess(m, h, WriteDivisor(Divisor(freqKHz, coreMHz)), misuse);
    SteadyClear(m, h1, misuse);
    SteadyForce(d, m, ClearAll(h1), misuse);
    SteadyClear(m, ForceIdle(d, ClearAll(h1)), misuse);
  }

  lemma SteadyClear(m: Machine, h: History, misuse: bool)
    requires Steady(EngineAt(m, h), misuse)
    ensures var f := EngineAt(m, ClearAll(h)); Steady(f, misuse) && (Quiescent(EngineAt(m, h)) ==> Quiescent(f))
  {
    hide EngineAt;
    SteadyAccess(m, h, WriteStatus(STICKY), misuse);
    SteadyAccess(m, Then(h, WriteStatus(STICKY)), WriteFault(ALL_FAULTS), misuse);
  }

  // ---------------------------------------------------------------- recovery converges

  function Looks(d: Device, h: History, n: nat): History
    decreases n
  {
    if n == 0 then h else Looks(d, Look(d, h), n - 1)
  }

  /** Whatever is in flight, and any abort, is over within the polling limit. */
  ghost predicate Prompt(d: Device, m: Machine) {
    forall h :: Settled(EngineAt(m, Looks(d, h, POLL_LIMIT)))
  }

  lemma {:induction false} PromptWait(d: Device, m: Machine, h: History, n: nat)
    requires Models(d, m) && Quiescent(EngineAt(m, h)) && n > 0
    requires Settled(EngineAt(m, Looks(d, h, n)))
    ensures EngineAt(m, WaitIdleReady(d, h, n).h).flow.Idle?
    decreases n
  {
    hide Models, EngineAt, Tick;
    LookNow(d, m, h);
    TickRested(m.origin, EngineAt(m, h), m.env(h));
    if Ready(Seen(d, h)) {
      LookSettled(d, m, Look(d, h));
    } else if n > 1 {
      PromptWait(d, m, Look(d, h), n - 1);
    }
  }

  predicate NoResults(e: Engine) { !e.done && !e.ackValid && !e.ackHigh && !e.readValid && !e.illegal }

  lemma ClearedWhenIdle(m: Machine, h: History)
    requires EngineAt(m, h).flow.Idle?
    ensures var f := EngineAt(m, ClearAll(h)); f.flow.Idle? && NoResults(f) && f.aborts == EngineAt(m, h).aborts
  {
    hide EngineAt;
    Cleared(m, h);
    Takes(m, Then(h, WriteStatus(STICKY)), WriteFault(ALL_FAULTS));
  }

  /**
   On an engine whose operations and aborts finish within the polling limit, `i2c_init` ends idle
   with nothing left over in the status register, whatever state it started from.  A fault bit, though,
   is down afterwards if and only if its event has never happened since reset: the clears do nothing.
   */
  lemma InitConverges(d: Device, m: Machine, h: History, freqKHz: Half, coreMHz: Byte)
    requires Models(d, m) && Prompt(d, m) && Sound(EngineAt(m, h))
    ensures var g := EngineAt(m, Init(d, h, freqKHz, coreMHz));
            && g.flow.Idle? && NoResults(g) && g.misuse == EngineAt(m, h).misuse
            && (Truthful(m.boot) ==> g.shown == Events(g.aborts))
  {
    hide Models, EngineAt, ForceIdle, Prompt, Truthful;
    InitOnEngine(d, m, h, freqKHz, coreMHz);
    var misuse := EngineAt(m, h).misuse;
    var h1 := Then(h, WriteDivisor(Divisor(freqKHz, coreMHz)));
    SteadyAccess(m, h, WriteDivisor(Divisor(freqKHz, coreMHz)), misuse);
    SteadyClear(m, h1, misuse);
    ForceConverges(d, m, ClearAll(h1), misuse);
    ClearedWhenIdle(m, ForceIdle(d, ClearAll(h1)));
    if Truthful(m.boot) {
      FaultsTell(m, Init(d, h, freqKHz, coreMHz));
      RegisterTells(EngineAt(m, Init(d, h, freqKHz, coreMHz)));
    }
  }

  lemma RegisterTells(e: Engine)
    requires Truthful(e)
    ensures e.shown == Events(e.aborts)
  {
  }

  /** On an idle engine `i2c_init` leaves every fault bit as it is: one that is up stays up. */
  lemma InitKeepsFaults(d: Device, m: Machine, h: History, freqKHz: Half, coreMHz: Byte)
    requires Models(d, m) && Truthful(m.boot) && EngineAt(m, h).flow.Idle?
    ensures var e, g := EngineAt(m, h), EngineAt(m, Init(d, h, freqKHz, coreMHz));
            g.flow.Idle? && g.shown == e.shown
  {
    hide Models, EngineAt, Truthful, ClearAll;
    var divisor := Divisor(freqKHz, coreMHz);
    var h1 := Then(h, WriteDivisor(divisor));
    Takes(m, h, WriteDivisor(divisor));
    ClearedWhenIdle(m, h1);
    var h2 := ClearAll(h1);
    LookSettled(d, m, h2);
    LookSettled(d, m, Look(d, h2));
    ClearedWhenIdle(m, ForceIdle(d, h2));
    FaultsTell(m, h);
    FaultsTell(m, Init(d, h, freqKHz, coreMHz));
    RegisterTells(EngineAt(m, h));
    RegisterTells(EngineAt(m, Init(d, h, freqKHz, coreMHz)));
  }

  lemma ForceConverges(d: Device, m: Machine, h: History, misuse: bool)
    requires Models(d, m) && Prompt(d, m) && Steady(EngineAt(m, h), misuse)
    ensures EngineAt(m, ForceIdle(d, h)).flow.Idle?
  {
    hide Models, EngineAt, CheckIdleReady, TryStop, AbortToIdle, Steady;
    SteadyCheck(d, m, h, misuse);
    var settled := CheckIdleReady(d, h);
    if !settled.ok {
      SteadyStop(d, m, settled.h, misuse);
      var stopped := TryStop(d, settled.h);
      SteadyCheck(d, m, stopped, misuse);
      var again := CheckIdleReady(d, stopped);
      if !again.ok { SteadyAbort(d, m, again.h, misuse); }
      PromptWait(d, m, ForcedAt(d, h), POLL_LIMIT);
    }
  }

  // ---------------------------------------------------------------- any sequence of calls

  /** A call of the driver's interface; a string is followed for `budget` rounds of its loop. */
  datatype Call =
    | Tx(slave: Byte, tx: seq<Byte>)
    | TxString(slave: Byte, msg: seq<Byte>, budget: nat)
    | Rx(slave: Byte, n: nat)
    | TxRx(slave: Byte, tx: seq<Byte>, n: nat)
    | Setup(freqKHz: Half, coreMHz: Byte)

  /** The call comes back: only a string that is never terminated and never refused does not. */
  ghost predicate Returns(d: Device, h: History, call: Call) {
    call.TxString? ==> Text.Readable(call.msg) && Text.Returns(d, h, call.slave, call.msg, call.budget)
  }

  ghost function RunCall(d: Device, h: History, call: Call): History
    requires Returns(d, h, call)
  {
    match call
    case TxString(slave, msg, budget) => Transact(d, h, Text.StringPlan(slave, msg, budget), []).h
    case Tx(slave, tx) => Transact(d, h, TxPlan(slave, tx), []).h
    case Rx(slave, n) => if n == 0 then h else Transact(d, h, RxPlan(slave, n), []).h
    case TxRx(slave, tx, n) => Transact(d, h, TxRxPlan(slave, tx, n), []).h
    case Setup(freqKHz, coreMHz) => Init(d, h, freqKHz, coreMHz)
  }

  ghost predicate AllReturn(d: Device, h: History, calls: seq<Call>)
    decreases |calls|
  {
    calls == [] || (Returns(d, h, calls[0]) && AllReturn(d, RunCall(d, h, calls[0]), calls[1..]))
  }

  ghost function RunCalls(d: Device, h: History, calls: seq<Call>): History
    requires AllReturn(d, h, calls)
    decreases |calls|
  {
    if calls == [] then h else RunCalls(d, RunCall(d, h, calls[0]), calls[1..])
  }

  lemma {:induction false} SendCloses(tx: seq<Byte>, i: nat, rest: Plan)
    requires i <= |tx| && ValidPlan(rest) && Closes(rest)
    ensures Closes(SendFrom(tx, i, rest))
    decreases |tx| - i
  {
    if i < |tx| { SendCloses(tx, i + 1, rest); }
  }

  lemma {:induction false} FetchCloses(i: nat, n: nat, rest: Plan)
    requires i <= n && ValidPlan(rest) && Closes(rest)
    ensures Closes(FetchFrom(i, n, rest))
    decreases n - i
  {
    if i < n { FetchCloses(i + 1, n, rest); }
  }

  lemma PlansClose(slave: Byte, tx: seq<Byte>, n: nat)
    ensures Opening(TxRxPlan(slave, tx, n)) && Closes(TxRxPlan(slave, tx, n).rest)
    ensures Opening(RxPlan(slave, n)) && Closes(RxPlan(slave, n).rest)
  {
    PlanPhases(slave, tx, n);
    FetchCloses(0, n, FINISH);
    ClosesNoStart(FetchFrom(0, n, FINISH));
    assert Closes(ReadBack(slave, n)) by {
      assert n > 0 ==> Closes(Next(Address(AddrRead(slave)), FetchFrom(0, n, FINISH)));
    }
    SendCloses(tx, 0, ReadBack(slave, n));
    assert NoStart(RxPlan(slave, n).rest);
  }

  lemma InitQuiet(d: Device, h: History, freqKHz: Half, coreMHz: Byte)
    requires Quiet(h)
    ensures Quiet(Init(d, h, freqKHz, coreMHz))
  {
    hide ForceIdle, ClearAll, ViewOf;
    var h1 := Then(h, WriteDivisor(Divisor(freqKHz, coreMHz)));
    DivisorQuiet(h, Divisor(freqKHz, coreMHz));
    ClearQuiet(h1);
    ForceQuiet(d, ClearAll(h1));
    ClearQuiet(ForceIdle(d, ClearAll(h1)));
  }

  lemma DivisorQuiet(h: History, divisor: Half)
    ensures ViewOf(Then(h, WriteDivisor(divisor))) == ViewOf(h)
  {
  }

  lemma ClearQuiet(h: History)
    ensures ViewOf(ClearAll(h)) == ViewOf(h)
  {
    assert ViewOf(Then(h, WriteStatus(STICKY))) == ViewOf(h);
  }

  lemma ForceQuiet(d: Device, h: History)
    requires Quiet(h)
    ensures Quiet(ForceIdle(d, h))
  {
    hide ViewOf, AbortToIdle, WaitIdleReady, TryStop;
    CheckQuiet(d, h);
    var settled := CheckIdleReady(d, h);
    StopQuiet(d, settled.h);
    CheckQuiet(d, TryStop(d, settled.h));
    var again := CheckIdleReady(d, TryStop(d, settled.h));
    AbortView(d, again.h);
    WaitIdleReadyView(d, ForcedAt(d, h), POLL_LIMIT);
  }

  lemma CheckQuiet(d: Device, h: History)
    requires Quiet(h)
    ensures Quiet(CheckIdleReady(d, h).h)
  {
    assert ViewOf(Look(d, h)) == ViewOf(h);
    assert ViewOf(Look(d, Look(d, h))) == ViewOf(h);
  }

  lemma StopQuiet(d: Device, h: History)
    requires Quiet(h)
    ensures Quiet(TryStop(d, h))
  {
    hide WaitIdleReady, CheckIdleReady;
    CheckQuiet(d, h);
    var cleared := Then(CheckIdleReady(d, h).h, WriteStatus(STICKY));
    assert ViewOf(cleared) == ViewOf(CheckIdleReady(d, h).h);
    assert ViewOf(Look(d, cleared)) == ViewOf(cleared);
    DecodeEncode(Stop, ViewOf(cleared).staged);
    assert Quiet(CommandStop(d, cleared));
    WaitIdleReadyView(d, CommandStop(d, cleared), POLL_LIMIT);
  }

  lemma CallOnEngine(d: Device, m: Machine, h: History, call: Call)
    requires Models(d, m) && Quiet(h) && Quiescent(EngineAt(m, h)) && Returns(d, h, call)
    ensures var e, g := EngineAt(m, h), EngineAt(m, RunCall(d, h, call));
            Quiet(RunCall(d, h, call)) && Quiescent(g) && g.misuse == e.misuse
  {
    hide Models, EngineAt, Transact, Init, Since, Text.StringPlan;
    match call
    case TxString(slave, msg, budget) =>
      Text.ReturnedIsBuffer(d, h, slave, msg, budget);
      var tx := Text.Walked(msg, 0, budget);
      PlansClose(slave, tx, 0);
      TransactionOnEngine(d, m, h, TxPlan(slave, tx));
    case Tx(slave, tx) =>
      PlansClose(slave, tx, 0);
      TransactionOnEngine(d, m, h, TxPlan(slave, tx));
    case Rx(slave, n) =>
      PlansClose(slave, [], n);
      TransactionOnEngine(d, m, h, RxPlan(slave, n));
    case TxRx(slave, tx, n) =>
      PlansClose(slave, tx, n);
      TransactionOnEngine(d, m, h, TxRxPlan(slave, tx, n));
    case Setup(freqKHz, coreMHz) =>
      InitQuiet(d, h, freqKHz, coreMHz);
      InitOnEngine(d, m, h, freqKHz, coreMHz);
  }

  /**
   After any number of calls, whatever they returned and however long the engine took, the engine is
   idle or on its way there, and it has never been given a command it could not take: START only when
   idle, WR, RD, RESTART and STOP only when holding the bus.
   */
  lemma {:induction false} AnySession(d: Device, m: Machine, h: History, calls: seq<Call>)
    requires Models(d, m) && Quiet(h) && Quiescent(EngineAt(m, h)) && AllReturn(d, h, calls)
    ensures var e, g := EngineAt(m, h), EngineAt(m, RunCalls(d, h, calls));
            Quiet(RunCalls(d, h, calls)) && Quiescent(g) && g.misuse == e.misuse
    decreases |calls|
  {
    if calls != [] {
      CallOnEngine(d, m, h, calls[0]);
      AnySession(d, m, RunCall(d, h, calls[0]), calls[1..]);
    }
  }
}
