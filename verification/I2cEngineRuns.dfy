/**
 The driver on the engine: what polling can meet, what one phase does to the bus, and why the
 result a phase looks at always belongs to the command it issued.
 */
module I2cEngineRuns {
  import opened MachineWords
  import opened I2cRegisters
  import opened I2cProtocol
  import opened I2cTranscript
  import opened I2cEngine

  // ---------------------------------------------------------------- what time can do

  predicate Ahead(f: Flow, g: Flow) {
    f == g || (f.Aborting? && g.Idle?) || (f.Closing? && g == if f.toIdle then Idle else Hold)
  }

  /** `op` is an outcome the command can have with this slave; a stored register is read as it is. */
  predicate Possible(s: Slave, op: Op) {
    match op.cmd
    case Write(b) => op.report == Nacked || (op.report == Acked && Accepts(s, b))
    case Read(_) => op.report.Got? && (s.mode == Serving && !Live(s.pointer) ==> op.report.value == s.regs[s.pointer])
    case _ => op.report == Plain
  }

  /** The status bits and the holding register show the result of `op`. */
  predicate Shows(e: Engine, op: Op) {
    match op.cmd
    case Write(_) => e.done && e.ackValid && (e.ackHigh <==> op.report == Nacked)
    case Read(_) => e.done && e.readValid && op.report == Got(e.rx)
    case _ => true
  }

  predicate SameBus(e: Engine, f: Engine) {
    f.wire == e.wire && f.served == e.served && f.misuse == e.misuse && f.aborts == e.aborts
  }

  /** Exactly one more thing has happened on the bus. */
  ghost predicate Happened(origin: Slave, e: Engine, f: Engine, op: Op) {
    && f.wire == e.wire + [op]
    && Possible(Replay(origin, e.wire), op)
    && f.served == e.served + ServedBy(Replay(origin, e.wire), op)
    && f.misuse == e.misuse
  }

  function LastOp(e: Engine): Op {
    if e.wire == [] then Op(Unknown, Plain) else e.wire[|e.wire| - 1]
  }

  /** Between `e` and `f` the command in flight has happened on the bus, and nothing else has. */
  ghost predicate Landed(origin: Slave, e: Engine, f: Engine, cmd: Cmd) {
    && Happened(origin, e, f, LastOp(f)) && LastOp(f).cmd == cmd && Shows(f, LastOp(f))
    && (f.flow == Rest(cmd) || f.flow == Closing(cmd.Stop?))
    && f.staged == e.staged && f.illegal == e.illegal && f.aborts == e.aborts
  }

  /** The engine as it was when the abort began that is the last thing on its wire. */
  function Before(e: Engine, f: Engine): Engine {
    e.(wire := if f.wire == [] then [] else f.wire[..|f.wire| - 1], served := f.served)
  }

  /** The command did not happen, or happened once. */
  ghost predicate AtMost(origin: Slave, e: Engine, f: Engine, cmd: Cmd) {
    SameBus(e, f) || (Happened(origin, e, f, LastOp(f)) && LastOp(f).cmd == cmd && f.aborts == e.aborts)
  }

  /** A line fault that can strike this command. */
  predicate Faulty(cause: Cause, cmd: Cmd) { cause == SclStuck || (cause == SdaMoved && (cmd.Write? || cmd.Read?)) }

  /** Between `e` and `f` the engine has aborted the command in flight by itself. */
  ghost predicate Lost(origin: Slave, e: Engine, f: Engine, cmd: Cmd) {
    && AtMost(origin, e, Before(e, f), cmd) && Happened(origin, Before(e, f), f, ABORTED)
    && (f.flow.Aborting? || f.flow.Idle?)
    && exists cause :: Faulty(cause, cmd) && f.aborts == e.aborts + [cause]
  }

  /** ... and without any result. */
  ghost predicate Failed(origin: Slave, e: Engine, f: Engine, cmd: Cmd) {
    Lost(origin, e, f, cmd) && f.done == e.done && f.illegal == e.illegal
  }

  /** Everything polling alone can lead to. */
  ghost predicate Reach(origin: Slave, e: Engine, f: Engine) {
    if e.flow.Busy? then f == e || Landed(origin, e, f, e.flow.cmd) || Failed(origin, e, f, e.flow.cmd)
    else f == e.(flow := f.flow) && Ahead(e.flow, f.flow)
  }

  lemma EffectPossible(s: Slave, cmd: Cmd, c: Choice)
    requires !cmd.Unknown? && !cmd.Abort?
    ensures var op := Effect(s, cmd, c); op.cmd == cmd && Possible(s, op)
  {
  }

  lemma PutHappens(origin: Slave, e: Engine, op: Op)
    requires Possible(Replay(origin, e.wire), op)
    ensures Happened(origin, e, Put(origin, e, op), op) && LastOp(Put(origin, e, op)) == op
  {
    hide Possible, Replay, ServedBy;
  }

  lemma LandLands(origin: Slave, e: Engine, cmd: Cmd, c: Choice, flow: Flow)
    requires !cmd.Unknown? && !cmd.Abort?
    requires flow == Rest(cmd) || flow == Closing(cmd.Stop?)
    ensures Landed(origin, e, Land(origin, e, cmd, c).(flow := flow), cmd)
  {
    hide Replay, ServedBy, Value, Accepts, Possible, Put, Effect, LastOp, Happened;
    var s := Replay(origin, e.wire);
    var op := Effect(s, cmd, c);
    EffectPossible(s, cmd, c);
    EffectReport(s, cmd, c);
    PutHappens(origin, e, op);
    PutKeeps(origin, e, op);
    var f := Land(origin, e, cmd, c).(flow := flow);
    LandsOnWire(e, Put(origin, e, op), f);
    HappenedAlike(origin, e, Put(origin, e, op), f, op);
    assert Shows(f, op);
  }

  lemma EffectReport(s: Slave, cmd: Cmd, c: Choice)
    requires !cmd.Unknown? && !cmd.Abort?
    ensures var report := Effect(s, cmd, c).report;
            match cmd
            case Write(_) => report == Acked || report == Nacked
            case Read(_) => report.Got?
            case _ => report == Plain
  {
  }

  lemma LandsOnWire(e: Engine, g: Engine, f: Engine)
    requires g.wire == f.wire
    ensures LastOp(g) == LastOp(f)
  {
  }

  lemma HappenedAlike(origin: Slave, e: Engine, f: Engine, g: Engine, op: Op)
    requires f.wire == g.wire && f.served == g.served && f.misuse == g.misuse && Happened(origin, e, f, op)
    ensures Happened(origin, e, g, op)
  {
  }

  lemma BeginHappens(origin: Slave, e: Engine, cause: Cause, flow: Flow)
    ensures var f := Begin(origin, e, cause).(flow := flow);
            && Happened(origin, e, f, ABORTED) && LastOp(f) == ABORTED && f.aborts == e.aborts + [cause]
            && f.staged == e.staged && f.done == e.done && f.illegal == e.illegal
  {
    hide Replay;
    PutHappens(origin, e, ABORTED);
  }

  lemma FailFails(origin: Slave, e: Engine, cmd: Cmd, c: Choice, flow: Flow)
    requires !cmd.Unknown? && !cmd.Abort? && Strikes(c.line(cmd), cmd) && (flow.Idle? || flow.Aborting?)
    ensures Failed(origin, e, Fail(origin, e, cmd, c).(flow := flow), cmd)
  {
    hide Replay, Possible, Effect, Happened, Begin, Put, Strikes, LastOp, Faulty, Failed;
    var op := Effect(Replay(origin, e.wire), cmd, c);
    EffectPossible(Replay(origin, e.wire), cmd, c);
    PutHappens(origin, e, op);
    PutKeeps(origin, e, op);
    StruckIsFaulty(c.line(cmd), cmd);
    BreaksOff(origin, e, if c.taken then Put(origin, e, op) else e, cmd, if c.line(cmd).Stuck? then SclStuck else SdaMoved, flow);
  }

  lemma BreaksOff(origin: Slave, e: Engine, mid: Engine, cmd: Cmd, cause: Cause, flow: Flow)
    requires mid == e.(wire := mid.wire, served := mid.served) && AtMost(origin, e, mid, cmd) && Faulty(cause, cmd)
    requires flow.Idle? || flow.Aborting?
    ensures Failed(origin, e, Begin(origin, mid, cause).(flow := flow), cmd)
  {
    hide Happened, Begin, Before, LastOp, Faulty, AtMost;
    var f := Begin(origin, mid, cause).(flow := flow);
    BeginHappens(origin, mid, cause, flow);
    SameBegin(origin, e, mid, f);
  }

  lemma StruckIsFaulty(line: Line, cmd: Cmd)
    requires Strikes(line, cmd)
    ensures Faulty(if line.Stuck? then SclStuck else SdaMoved, cmd)
  {
  }

  lemma PutKeeps(origin: Slave, e: Engine, op: Op)
    ensures Put(origin, e, op) == e.(wire := Put(origin, e, op).wire, served := Put(origin, e, op).served)
  {
  }

  lemma SameBegin(origin: Slave, e: Engine, mid: Engine, f: Engine)
    requires mid == e.(wire := mid.wire, served := mid.served) && Happened(origin, mid, f, ABORTED)
    ensures Before(e, f) == mid
  {
    hide Replay, Possible;
    assert f.wire[..|f.wire| - 1] == mid.wire;
  }

  lemma ReachTick(origin: Slave, e: Engine, f: Engine, c: Choice)
    requires Reach(origin, e, f)
    requires e.flow.Busy? ==> !e.flow.cmd.Unknown? && !e.flow.cmd.Abort?
    ensures Reach(origin, e, Tick(origin, f, c))
  {
    hide Tick, Landed, Failed, Ahead;
    if e.flow.Busy? && f == e {
      TickBusy(origin, e, c);
    } else if e.flow.Busy? {
      var cmd := e.flow.cmd;
      ReachedIsRested(origin, e, f, cmd);
      TickRested(origin, f, c);
      if Landed(origin, e, f, cmd) {
        StaysLanded(origin, e, f, Tick(origin, f, c), cmd);
      } else {
        StaysFailed(origin, e, f, Tick(origin, f, c), cmd);
      }
    } else {
      AheadNotBusy(e.flow, f.flow);
      TickRested(origin, f, c);
      AheadOn(e.flow, f.flow, Tick(origin, f, c).flow);
    }
  }

  lemma AheadNotBusy(f: Flow, g: Flow)
    requires Ahead(f, g) && !f.Busy?
    ensures !g.Busy?
  {
  }

  lemma AheadOn(f: Flow, g: Flow, k: Flow)
    requires Ahead(f, g) && Ahead(g, k)
    ensures Ahead(f, k)
  {
  }

  lemma TickBusy(origin: Slave, e: Engine, c: Choice)
    requires e.flow.Busy? && !e.flow.cmd.Unknown? && !e.flow.cmd.Abort?
    ensures var f, cmd := Tick(origin, e, c), e.flow.cmd;
            && (f == e || Landed(origin, e, f, cmd) || Failed(origin, e, f, cmd))
            && (!Strikes(c.line(cmd), cmd) ==> f == e || Landed(origin, e, f, cmd))
            && (c.go && Strikes(c.line(cmd), cmd) ==> Failed(origin, e, f, cmd))
  {
    hide Land, Landed, Fail, Failed, Strikes;
    var cmd := e.flow.cmd;
    if c.go {
      if Strikes(c.line(cmd), cmd) {
        FailFails(origin, e, cmd, c, if c.settle then Idle else Aborting);
      } else {
        LandLands(origin, e, cmd, c, if c.settle then Rest(cmd) else Closing(cmd.Stop?));
      }
    }
  }

  lemma ReachedIsRested(origin: Slave, e: Engine, f: Engine, cmd: Cmd)
    requires Landed(origin, e, f, cmd) || Failed(origin, e, f, cmd)
    ensures !f.flow.Busy? && f != e
  {
    hide Replay, Possible;
  }

  lemma TickRested(origin: Slave, e: Engine, c: Choice)
    requires !e.flow.Busy?
    ensures var f := Tick(origin, e, c); f == e.(flow := f.flow) && Ahead(e.flow, f.flow)
  {
    hide Land, Fail, Subside, Ahead;
    SubsidesAhead(e.flow);
    assert !c.go ==> Tick(origin, e, c) == e;
  }

  lemma SubsidesAhead(f: Flow)
    ensures Ahead(f, f) && Ahead(f, Subside(f))
  {
  }

  /** After landing, only the flow still moves. */
  lemma StaysLanded(origin: Slave, e: Engine, f: Engine, g: Engine, cmd: Cmd)
    requires Landed(origin, e, f, cmd) && g == f.(flow := g.flow) && Ahead(f.flow, g.flow)
    ensures Landed(origin, e, g, cmd) && LastOp(g) == LastOp(f)
  {
    hide Replay, Possible;
  }

  lemma StaysFailed(origin: Slave, e: Engine, f: Engine, g: Engine, cmd: Cmd)
    requires Failed(origin, e, f, cmd) && g == f.(flow := g.flow) && Ahead(f.flow, g.flow)
    ensures Failed(origin, e, g, cmd)
  {
    hide Replay, Possible;
    assert Before(e, g) == Before(e, f);
  }

  // ---------------------------------------------------------------- polling

  /** A command an engine can be busy with. */
  predicate Sound(e: Engine) { e.flow.Busy? ==> !e.flow.cmd.Unknown? && !e.flow.cmd.Abort? }

  ghost predicate ReachAt(m: Machine, e: Engine, h: History) { Reach(m.origin, e, EngineAt(m, h)) }

  /** A status read shows the engine as it is when the read is made. */
  lemma LookNow(d: Device, m: Machine, h: History)
    requires Models(d, m)
    ensures var e, w := EngineAt(m, Look(d, h)), Seen(d, h);
            && e == Tick(m.origin, EngineAt(m, h), m.env(h))
            && (Ready(w) <==> Settled(e)) && (BusIdle(w) <==> e.flow.Idle?)
            && (Done(w) <==> e.done) && (AckValid(w) <==> e.ackValid) && (AckHigh(w) <==> e.ackHigh)
            && (ReadValid(w) <==> e.readValid) && (CmdIllegal(w) <==> e.illegal)
  {
    hide StatusWord, Tick;
  }

  lemma LookReach(d: Device, m: Machine, e: Engine, h: History)
    requires Models(d, m) && Sound(e) && ReachAt(m, e, h)
    ensures ReachAt(m, e, Look(d, h))
    ensures var f := EngineAt(m, Look(d, h)); Ready(Seen(d, h)) <==> Settled(f)
  {
    hide Tick, Reach;
    LookNow(d, m, h);
    ReachTick(m.origin, e, EngineAt(m, h), m.env(h));
  }

  lemma SettledNow(m: Machine, h: History)
    requires Settled(EngineAt(m, h))
    ensures Now(m, h) == EngineAt(m, h)
  {
    hide EngineAt, Land, Fail;
    SettledTick(m.origin, EngineAt(m, h), m.env(h));
  }

  lemma SettledTick(origin: Slave, e: Engine, c: Choice)
    requires Settled(e)
    ensures Tick(origin, e, c) == e
  {
    hide Land, Fail;
  }

  /** An access finds a settled engine as it was left. */
  lemma Takes(m: Machine, h: History, a: Access)
    requires Settled(EngineAt(m, h))
    ensures EngineAt(m, Then(h, a)) == Apply(m.origin, EngineAt(m, h), a)
  {
    hide Now, Apply;
    SettledNow(m, h);
  }

  /** Once the engine is settled, looking at it changes nothing. */
  lemma LookSettled(d: Device, m: Machine, h: History)
    requires Models(d, m) && Settled(EngineAt(m, h))
    ensures EngineAt(m, Look(d, h)) == EngineAt(m, h)
    ensures Ready(Seen(d, h)) && (BusIdle(Seen(d, h)) <==> EngineAt(m, h).flow.Idle?)
  {
    hide EngineAt, Tick, StatusWord;
    LookNow(d, m, h);
    SettledTick(m.origin, EngineAt(m, h), m.env(h));
  }

  lemma {:induction false} WaitReadyReach(d: Device, m: Machine, e: Engine, h: History, n: nat)
    requires Models(d, m) && Sound(e) && ReachAt(m, e, h)
    ensures var w := WaitReady(d, h, n); ReachAt(m, e, w.h) && (w.ok ==> Settled(EngineAt(m, w.h)))
    decreases n
  {
    hide ReachAt, EngineAt, Models;
    LookReach(d, m, e, h);
    if n > 0 && !Ready(Seen(d, h)) { WaitReadyReach(d, m, e, Look(d, h), n - 1); }
  }

  lemma {:induction false} WaitIdleReadyReach(d: Device, m: Machine, e: Engine, h: History, n: nat)
    requires Models(d, m) && Sound(e) && ReachAt(m, e, h)
    ensures var w := WaitIdleReady(d, h, n); ReachAt(m, e, w.h) && (w.ok ==> EngineAt(m, w.h).flow.Idle?)
    decreases n
  {
    hide ReachAt, EngineAt, Models;
    LookReach(d, m, e, h);
    if n > 0 {
      if !Ready(Seen(d, h)) {
        WaitIdleReadyReach(d, m, e, Look(d, h), n - 1);
      } else {
        LookSettled(d, m, Look(d, h));
        LookReach(d, m, e, Look(d, h));
        if !BusIdle(Seen(d, Look(d, h))) { WaitIdleReadyReach(d, m, e, Look(d, Look(d, h)), n - 1); }
      }
    }
  }

  lemma {:induction false} AbortPollReach(d: Device, m: Machine, e: Engine, h: History, n: nat)
    requires Models(d, m) && Sound(e) && ReachAt(m, e, h)
    ensures ReachAt(m, e, AbortPoll(d, h, n))
    decreases n
  {
    hide ReachAt, EngineAt, Models;
    LookReach(d, m, e, h);
    if n > 0 {
      if !BusIdle(Seen(d, h)) {
        AbortPollReach(d, m, e, Look(d, h), n - 1);
      } else {
        LookReach(d, m, e, Look(d, h));
        if !Ready(Seen(d, Look(d, h))) { AbortPollReach(d, m, e, Look(d, Look(d, h)), n - 1); }
      }
    }
  }

  /**
   Waiting for a byte command whose sticky bits were cleared before it was issued: DONE can only
   have been raised by that command, so it is seen exactly when the command has happened.  If the
   engine aborts the command by itself, DONE is never seen.
   */
  lemma {:induction false} WaitCycleReach(d: Device, m: Machine, e: Engine, h: History, n: nat)
    requires Models(d, m) && EngineAt(m, h) == e
    requires e.flow.Busy? && (e.flow.cmd.Write? || e.flow.cmd.Read?) && !e.done && !e.illegal
    ensures var w := WaitCycle(d, h, n);
            var f := EngineAt(m, w.h);
            if w.ok then Landed(m.origin, e, f, e.flow.cmd)
            else f == e || Failed(m.origin, e, f, e.flow.cmd)
    decreases n
  {
    hide Tick, EngineAt, Models, Landed, Failed;
    LookNow(d, m, h);
    ReachTick(m.origin, e, e, m.env(h));
    var f, cmd := EngineAt(m, Look(d, h)), e.flow.cmd;
    if Landed(m.origin, e, f, cmd) {
      LandedShows(m.origin, e, f, cmd);
    } else if n > 0 && f == e {
      WaitCycleReach(d, m, e, Look(d, h), n - 1);
    } else if n > 0 {
      FailedShows(m.origin, e, f, cmd);
      FailedCycle(d, m, e, Look(d, h), n - 1, cmd);
    }
  }

  lemma LandedShows(origin: Slave, e: Engine, f: Engine, cmd: Cmd)
    requires Landed(origin, e, f, cmd) && (cmd.Write? || cmd.Read?)
    ensures f.done && f.illegal == e.illegal
  {
    hide Replay, Possible;
  }

  lemma FailedShows(origin: Slave, e: Engine, f: Engine, cmd: Cmd)
    requires Failed(origin, e, f, cmd)
    ensures f.done == e.done && f.illegal == e.illegal
  {
    hide Replay, Possible;
  }

  /** A command the engine has aborted never shows DONE. */
  lemma {:induction false} FailedCycle(d: Device, m: Machine, e: Engine, h: History, n: nat, cmd: Cmd)
    requires Models(d, m) && Failed(m.origin, e, EngineAt(m, h), cmd) && !e.done && !e.illegal
    ensures var w := WaitCycle(d, h, n); !w.ok && Failed(m.origin, e, EngineAt(m, w.h), cmd)
    decreases n
  {
    hide Tick, EngineAt, Models, Failed;
    if n > 0 {
      LookNow(d, m, h);
      var f, g := EngineAt(m, h), EngineAt(m, Look(d, h));
      ReachedIsRested(m.origin, e, f, cmd);
      TickRested(m.origin, f, m.env(h));
      StaysFailed(m.origin, e, f, g, cmd);
      FailedShows(m.origin, e, g, cmd);
      FailedCycle(d, m, e, Look(d, h), n - 1, cmd);
    }
  }
}
