/** What the fault register says about the past, and what it says about a transaction reported as done. */
module I2cFaults {
  import opened MachineWords
  import opened I2cRegisters
  import opened I2cProtocol
  import opened I2cTranscript
  import opened I2cTransactions
  import opened I2cEngine
  import opened I2cEngineRuns
  import opened I2cEnginePhases
  import opened I2cEngineTransactions

  /** The fault events among all the aborts since reset. */
  function Events(aborts: seq<Cause>): Faults { Faults(aborts != [], SdaMoved in aborts, SclStuck in aborts) }

  /** Core latches and fault register show exactly the events since reset; at reset there are none. */
  predicate Truthful(e: Engine) { e.latch == Events(e.aborts) && e.shown == e.latch }

  lemma ClearsNothing(origin: Slave, e: Engine, mask: Word)
    requires Truthful(e)
    ensures Apply(origin, e, WriteFault(mask)) == e
  {
  }

  lemma OneMoreEvent(aborts: seq<Cause>, cause: Cause)
    ensures Events(aborts + [cause]) == Or(Events(aborts), Event(cause))
  {
    assert SdaMoved in aborts + [cause] <==> SdaMoved in aborts || cause == SdaMoved;
    assert SclStuck in aborts + [cause] <==> SclStuck in aborts || cause == SclStuck;
  }

  lemma BeginTruthful(origin: Slave, e: Engine, cause: Cause)
    requires Truthful(e)
    ensures Truthful(Begin(origin, e, cause))
  {
    hide Put, Events, Event;
    PutKeeps(origin, e, Op(Abort, Plain));
    OneMoreEvent(e.aborts, cause);
  }

  predicate SameFaults(e: Engine, f: Engine) { f.latch == e.latch && f.shown == e.shown && f.aborts == e.aborts }

  lemma PutSameFaults(origin: Slave, e: Engine, op: Op)
    ensures SameFaults(e, Put(origin, e, op))
  {
  }

  lemma LandSameFaults(origin: Slave, e: Engine, cmd: Cmd, c: Choice)
    ensures SameFaults(e, Land(origin, e, cmd, c))
  {
    hide Put, Effect;
    PutSameFaults(origin, e, Effect(Replay(origin, e.wire), cmd, c));
  }

  lemma FailTruthful(origin: Slave, e: Engine, cmd: Cmd, c: Choice)
    requires Truthful(e)
    ensures Truthful(Fail(origin, e, cmd, c))
  {
    hide Put, Begin, Effect, Events;
    var op := Effect(Replay(origin, e.wire), cmd, c);
    PutSameFaults(origin, e, op);
    BeginTruthful(origin, if c.taken then Put(origin, e, op) else e, if c.line(cmd).Stuck? then SclStuck else SdaMoved);
  }

  lemma TickTruthful(origin: Slave, e: Engine, c: Choice)
    requires Truthful(e)
    ensures Truthful(Tick(origin, e, c))
  {
    hide Land, Fail, Events, Strikes;
    if e.flow.Busy? {
      LandSameFaults(origin, e, e.flow.cmd, c);
      FailTruthful(origin, e, e.flow.cmd, c);
    }
  }

  lemma ApplyTruthful(origin: Slave, e: Engine, a: Access)
    requires Truthful(e)
    ensures Truthful(Apply(origin, e, a))
  {
    hide Begin;
    match a
    case WriteFault(mask) => ClearsNothing(origin, e, mask);
    case WriteCommand(_) => BeginTruthful(origin, e, Requested);
    case ReadStatus(_) | ReadRx(_) | WriteStatus(_) | WriteDivisor(_) | WriteTx(_) =>
  }

  /** Whatever software does from reset on, a fault bit is down if and only if its event has never happened. */
  lemma {:induction false} FaultsTell(m: Machine, h: History)
    requires Truthful(m.boot)
    ensures Truthful(EngineAt(m, h))
  {
    hide Tick, Apply;
    if h.Then? {
      FaultsTell(m, h.past);
      TickTruthful(m.origin, EngineAt(m, h.past), m.env(h.past));
      ApplyTruthful(m.origin, Now(m, h.past), h.last);
    }
  }

  /**
   A transaction reported as done: the bus carried out exactly what was reported if and only if the engine
   aborted nothing meanwhile.  If it did, it was the closing STOP, on an SCL line that did not rise, and
   ABORT_SEEN shows it if it was down before.
   */
  lemma SuccessIsTrue(d: Device, m: Machine, h: History, plan: Plan)
    requires Models(d, m) && Quiet(h) && Quiescent(EngineAt(m, h))
    requires Opening(plan) && Closes(plan.rest) && Transact(d, h, plan, []).code == TX_OK
    ensures var out := Transact(d, h, plan, []);
            var e, g := EngineAt(m, h), EngineAt(m, out.h);
            && (Grown(e, g) == Since(h, out.h) <==> g.aborts == e.aborts)
            && (g.aborts != e.aborts ==> g.aborts == e.aborts + [SclStuck])
            && (Truthful(m.boot) && !e.shown.abort ==> (g.aborts == e.aborts <==> !g.shown.abort))
  {
    hide Models, EngineAt, Transact, Since, Chain, Grown;
    TransactionOnEngine(d, m, h, plan);
    var out := Transact(d, h, plan, []);
    if Truthful(m.boot) {
      FaultsTell(m, h);
      FaultsTell(m, out.h);
    }
    if StopLost(Since(h, out.h), Grown(EngineAt(m, h), EngineAt(m, out.h))) {
      LostIsDifferent(Since(h, out.h), Grown(EngineAt(m, h), EngineAt(m, out.h)));
    }
  }

  lemma LostIsDifferent(seen: seq<Op>, bus: seq<Op>)
    requires StopLost(seen, bus)
    ensures seen != bus
  {
  }
}
