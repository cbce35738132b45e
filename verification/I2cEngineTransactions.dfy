/** Whole transactions on the engine: the bus carries out what the driver was told, and nothing else. */
module I2cEngineTransactions {
  import opened MachineWords
  import opened I2cRegisters
  import opened I2cProtocol
  import opened I2cTranscript
  import opened I2cTransactions
  import opened I2cEngine
  import opened I2cEngineRuns
  import opened I2cEnginePhases

  // ---------------------------------------------------------------- sequences of bus operations

  function ReplayAlong(s: Slave, ops: seq<Op>): Slave
    decreases |ops|
  {
    if ops == [] then s else ReplayAlong(SlaveOn(s, ops[0]), ops[1..])
  }

  function ServedAlong(s: Slave, ops: seq<Op>): seq<Reading>
    decreases |ops|
  {
    if ops == [] then [] else ServedBy(s, ops[0]) + ServedAlong(SlaveOn(s, ops[0]), ops[1..])
  }

  ghost predicate PossibleAlong(s: Slave, ops: seq<Op>)
    decreases |ops|
  {
    ops == [] || (Possible(s, ops[0]) && PossibleAlong(SlaveOn(s, ops[0]), ops[1..]))
  }

  function SlaveAt(m: Machine, e: Engine): Slave { Replay(m.origin, e.wire) }

  /** From `e` to `f` exactly `ops` happened on the bus, each as the slave then was; no command was misused. */
  ghost predicate Chain(m: Machine, e: Engine, f: Engine, ops: seq<Op>) {
    && f.wire == e.wire + ops
    && PossibleAlong(SlaveAt(m, e), ops)
    && f.served == e.served + ServedAlong(SlaveAt(m, e), ops)
    && SlaveAt(m, f) == ReplayAlong(SlaveAt(m, e), ops)
    && f.misuse == e.misuse
  }

  lemma ChainNone(m: Machine, e: Engine, f: Engine)
    requires SameBus(e, f)
    ensures Chain(m, e, f, [])
  {
  }

  lemma AlongCons(s: Slave, op: Op, ops: seq<Op>)
    ensures ReplayAlong(s, [op] + ops) == ReplayAlong(SlaveOn(s, op), ops)
    ensures ServedAlong(s, [op] + ops) == ServedBy(s, op) + ServedAlong(SlaveOn(s, op), ops)
    ensures PossibleAlong(s, [op] + ops) <==> Possible(s, op) && PossibleAlong(SlaveOn(s, op), ops)
  {
    hide SlaveOn, Possible, ServedBy;
    assert ([op] + ops)[1..] == ops;
  }

  lemma ChainCons(m: Machine, e: Engine, f: Engine, g: Engine, op: Op, ops: seq<Op>)
    requires Happened(m.origin, e, f, op) && Chain(m, f, g, ops)
    ensures Chain(m, e, g, [op] + ops)
  {
    hide ReplayAlong, ServedAlong, PossibleAlong, Replay, SlaveOn, Possible, ServedBy;
    ReplayOne(m.origin, e.wire, op);
    AlongCons(SlaveAt(m, e), op, ops);
    assert g.wire == e.wire + ([op] + ops);
    assert g.served == e.served + (ServedBy(SlaveAt(m, e), op) + ServedAlong(SlaveAt(m, f), ops));
  }

  // ---------------------------------------------------------------- the abort

  predicate Told(report: Report) { report == Acked || report == Nacked || report.Got? }

  /**
   `bus` is what happened when the driver was told `seen` and then aborted: the same, except that
   the last command before the abort, if nothing was reported for it, may have happened in some way
   or not at all; and if it was a STOP that did happen, there was nothing left to abort.
   */
  ghost predicate Shadow(seen: seq<Op>, bus: seq<Op>) {
    seen != [] && seen[|seen| - 1] == ABORTED &&
    (bus == seen ||
     (var k := |seen| - 2;
      k >= 0 && !Told(seen[k].report) &&
      (bus == seen[..k] + [ABORTED] ||
       (seen[k].cmd.Stop? && bus == seen[..k + 1]) ||
       (|bus| == |seen| && bus[..k] == seen[..k] && bus[k].cmd == seen[k].cmd && bus[k + 1] == ABORTED))))
  }

  lemma ShadowCons(op: Op, seen: seq<Op>, bus: seq<Op>)
    requires Shadow(seen, bus)
    ensures Shadow([op] + seen, [op] + bus)
  {
    var k := |seen| - 2;
    if bus != seen {
      assert ([op] + seen)[..k + 1] == [op] + seen[..k];
      assert ([op] + seen)[..k + 2] == [op] + seen[..k + 1];
      assert |bus| == |seen| ==> ([op] + bus)[..k + 1] == [op] + bus[..k];
      if bus == seen[..k] + [ABORTED] {
        assert [op] + bus == ([op] + seen)[..k + 1] + [ABORTED];
      }
    }
  }

  /** The driver was told that everything was carried out, but the engine aborted the closing STOP, after or before it was. */
  ghost predicate StopLost(seen: seq<Op>, bus: seq<Op>) {
    && seen != [] && seen[|seen| - 1] == Op(Stop, Plain)
    && (bus == seen + [ABORTED] || bus == seen[..|seen| - 1] + [ABORTED])
  }

  lemma StopLostCons(op: Op, seen: seq<Op>, bus: seq<Op>)
    requires StopLost(seen, bus)
    ensures StopLost([op] + seen, [op] + bus)
  {
    assert ([op] + seen)[..|seen|] == [op] + seen[..|seen| - 1];
    assert [op] + (seen + [ABORTED]) == ([op] + seen) + [ABORTED];
    assert [op] + (seen[..|seen| - 1] + [ABORTED]) == ([op] + seen[..|seen| - 1]) + [ABORTED];
  }

  /** An abort has no effect on an idle engine, nor on one that is aborting; in every other state it is taken. */
  ghost predicate TookAbort(origin: Slave, t: Engine, g: Engine) {
    if Quiescent(t) then SameBus(t, g) else Happened(origin, t, g, ABORTED)
  }

  /** Whatever the state, after an abort the engine can only go idle. */
  lemma AbortOnEngine(d: Device, m: Machine, h: History)
    requires Models(d, m) && Sound(EngineAt(m, h))
    ensures var f, t, g := EngineAt(m, h), Now(m, h), EngineAt(m, AbortToIdle(d, h));
            Reach(m.origin, f, t) && Quiescent(g) && TookAbort(m.origin, t, g)
  {
    hide EngineAt, Models, Tick, Reach, TakeAbort, Happened;
    var f := EngineAt(m, h);
    SelfReach(m.origin, f);
    ReachTick(m.origin, f, f, m.env(h));
    NowIs(m, h);
    var aborted := Then(h, WriteCommand(Encode(Abort)));
    Aborted(m, h);
    var e := EngineAt(m, aborted);
    Taken(m.origin, Now(m, h));
    SelfReach(m.origin, e);
    AbortPollReach(d, m, e, aborted, POLL_LIMIT);
    AbortingReach(m.origin, e, EngineAt(m, AbortToIdle(d, h)));
    SameBusTook(m.origin, Now(m, h), e, EngineAt(m, AbortToIdle(d, h)));
  }

  lemma Taken(origin: Slave, t: Engine)
    ensures var e := TakeAbort(origin, t); Quiescent(e) && TookAbort(origin, t, e)
  {
    hide Replay, Begin, Happened;
    BeginHappens(origin, t, Requested, Aborting);
    BeginFlow(origin, t);
  }

  lemma BeginFlow(origin: Slave, t: Engine)
    ensures Begin(origin, t, Requested).flow.Aborting?
    ensures Begin(origin, t, Requested).(flow := Aborting) == Begin(origin, t, Requested)
  {
  }

  lemma SameBusTook(origin: Slave, t: Engine, e: Engine, g: Engine)
    requires TookAbort(origin, t, e) && SameBus(e, g)
    ensures TookAbort(origin, t, g)
  {
    hide Replay, Possible;
  }

  lemma NowIs(m: Machine, h: History)
    ensures Now(m, h) == Tick(m.origin, EngineAt(m, h), m.env(h))
  {
  }

  lemma Aborted(m: Machine, h: History)
    ensures EngineAt(m, Then(h, WriteCommand(Encode(Abort)))) == TakeAbort(m.origin, Now(m, h))
  {
    hide Tick, TakeAbort;
    DecodeEncode(Abort, Now(m, h).staged);
  }

  lemma AbortingReach(origin: Slave, e: Engine, f: Engine)
    requires Quiescent(e) && Reach(origin, e, f)
    ensures Quiescent(f) && SameBus(e, f)
  {
    hide Landed, Failed;
  }

  // ---------------------------------------------------------------- transactions

  /** A plan that, once START is done, closes with STOP and issues neither after it. */
  ghost predicate Closes(plan: Plan) {
    plan.Next? && !plan.phase.cmd.Start? &&
    if plan.phase.cmd.Stop? then plan.rest.End? else Closes(plan.rest)
  }

  /**
   What a call is allowed to have done, given what its caller's transcript says.  Success is the truth
   exactly if the engine has not aborted by itself since.
   */
  ghost predicate Faithful(m: Machine, e: Engine, f: Engine, seen: seq<Op>, ok: bool, bus: seq<Op>) {
    && Chain(m, e, f, bus)
    && (if ok then f.flow.Idle? && CarriedOut(e, f, seen, bus) else Quiescent(f) && Shadow(seen, bus))
  }

  ghost predicate CarriedOut(e: Engine, f: Engine, seen: seq<Op>, bus: seq<Op>) {
    (bus == seen && f.aborts == e.aborts) || (StopLost(seen, bus) && f.aborts == e.aborts + [SclStuck])
  }

  /** What happened between two states, when the later one only adds to the wire. */
  function Grown(e: Engine, f: Engine): seq<Op> {
    if |e.wire| <= |f.wire| then f.wire[|e.wire|..] else []
  }

  lemma ChainGrown(m: Machine, e: Engine, f: Engine, ops: seq<Op>)
    requires Chain(m, e, f, ops)
    ensures Grown(e, f) == ops
  {
    assert f.wire[|e.wire|..] == ops;
  }

  lemma LooseSound(origin: Slave, e: Engine, f: Engine, cmd: Cmd)
    requires Loose(origin, e, f, cmd) && !cmd.Unknown? && !cmd.Abort?
    ensures Sound(f)
  {
    hide Replay, Happened, AtMost;
  }

  /** A phase that failed, and the abort that follows it. */
  lemma BrokenPhase(d: Device, m: Machine, h: History, ph: Phase)
    requires Models(d, m) && ValidPhase(ph) && Fit(EngineAt(m, h), ph.cmd) && Quiet(h)
    requires RunPhase(d, h, ph).code != TX_OK && (ph.cmd.Start? ==> RunPhase(d, h, ph).issued)
    ensures var s := RunPhase(d, h, ph);
            var e, g := EngineAt(m, h), EngineAt(m, AbortToIdle(d, s.h));
            && Quiescent(g) && Chain(m, e, g, Grown(e, g))
            && Shadow(if s.issued then [Op(ph.cmd, Answer(s.h)), ABORTED] else [ABORTED], Grown(e, g))
  {
    hide Models, EngineAt, RunPhase, ViewOf, Ops, Chain, Shadow, Grown, Loose, Done1, Lost, TookAbort, Reach, SameBus, CodeMatches;
    var s := RunPhase(d, h, ph);
    var e, f, t, g := EngineAt(m, h), EngineAt(m, s.h), Now(m, s.h), EngineAt(m, AbortToIdle(d, s.h));
    PhaseOnEngine(d, m, h, ph);
    PhaseView(d, h, ph);
    if s.issued {
      LooseSound(m.origin, e, f, ph.cmd);
      AbortOnEngine(d, m, s.h);
      NotTold(ph, Answer(s.h), s);
      BrokenShadow(m, e, f, t, g, ph.cmd, Answer(s.h));
    } else {
      AbortOnEngine(d, m, s.h);
      UnissuedShadow(m, e, f, t, g);
    }
  }

  lemma NotTold(ph: Phase, report: Report, s: Step)
    requires ValidPhase(ph) && CodeMatches(ph, report, s) && s.code != TX_OK
    ensures Told(report) ==> report == Nacked && ph.cmd.Write?
    ensures ph.cmd.Stop? ==> report == Plain
  {
  }

  lemma UnissuedShadow(m: Machine, e: Engine, f: Engine, t: Engine, g: Engine)
    requires SameBus(e, f) && Engaged(f) && Reach(m.origin, f, t) && TookAbort(m.origin, t, g)
    ensures Chain(m, e, g, Grown(e, g)) && Shadow([ABORTED], Grown(e, g))
  {
    hide Replay, SlaveOn, ReplayAlong, ServedAlong, PossibleAlong, Landed, Failed;
    OneAbort(m, e, t, g);
  }

  /** Nothing and then the abort. */
  lemma OneAbort(m: Machine, e: Engine, t: Engine, g: Engine)
    requires SameBus(e, t) && Happened(m.origin, t, g, ABORTED)
    ensures Chain(m, e, g, [ABORTED]) && Grown(e, g) == [ABORTED]
  {
    hide Replay, SlaveOn, ReplayAlong, ServedAlong, PossibleAlong, Grown, Chain, Possible, ServedBy;
    ChainNone(m, g, g);
    ChainCons(m, e, g, g, ABORTED, []);
    assert [ABORTED] + [] == [ABORTED];
    ChainGrown(m, e, g, [ABORTED]);
  }

  /** One command and then the abort. */
  lemma OpAbort(m: Machine, e: Engine, t: Engine, g: Engine, op: Op)
    requires Happened(m.origin, e, t, op) && Happened(m.origin, t, g, ABORTED)
    ensures Chain(m, e, g, [op, ABORTED]) && Grown(e, g) == [op, ABORTED]
  {
    hide Replay, SlaveOn, ReplayAlong, ServedAlong, PossibleAlong, Grown, Chain, Possible, ServedBy;
    OneAbort(m, t, t, g);
    ChainCons(m, e, t, g, op, [ABORTED]);
    assert [op] + [ABORTED] == [op, ABORTED];
    ChainGrown(m, e, g, [op, ABORTED]);
  }

  /** One command and nothing after it. */
  lemma OpOnly(m: Machine, e: Engine, t: Engine, g: Engine, op: Op)
    requires Happened(m.origin, e, t, op) && SameBus(t, g)
    ensures Chain(m, e, g, [op]) && Grown(e, g) == [op]
  {
    hide Replay, SlaveOn, ReplayAlong, ServedAlong, PossibleAlong, Grown, Chain, Possible, ServedBy;
    ChainNone(m, t, g);
    ChainCons(m, e, t, g, op, []);
    assert [op] + [] == [op];
    ChainGrown(m, e, g, [op]);
  }

  /** A command the engine aborted by itself, followed by nothing more. */
  lemma LostChain(m: Machine, e: Engine, t: Engine, g: Engine, cmd: Cmd)
    requires Lost(m.origin, e, t, cmd) && SameBus(t, g)
    ensures var mid := LastOp(Before(e, t));
            && (Grown(e, g) == [ABORTED] || (Grown(e, g) == [mid, ABORTED] && mid.cmd == cmd && Possible(SlaveAt(m, e), mid)))
            && Chain(m, e, g, Grown(e, g))
  {
    hide Replay, SlaveOn, ReplayAlong, ServedAlong, PossibleAlong, Grown, Chain, Possible, ServedBy;
    var mid := Before(e, t);
    HappenedOn(m.origin, mid, t, g, ABORTED);
    if SameBus(e, mid) { OneAbort(m, e, mid, g); } else { OpAbort(m, e, mid, g, LastOp(mid)); }
  }

  lemma HappenedOn(origin: Slave, e: Engine, t: Engine, g: Engine, op: Op)
    requires Happened(origin, e, t, op) && SameBus(t, g)
    ensures Happened(origin, e, g, op)
  {
    hide Replay, Possible, ServedBy;
  }

  lemma LooseReach(origin: Slave, e: Engine, f: Engine, t: Engine, cmd: Cmd)
    requires Loose(origin, e, f, cmd) && Reach(origin, f, t)
    ensures Loose(origin, e, t, cmd)
    ensures Done1(origin, e, f, cmd) ==> Done1(origin, e, t, cmd) && LastOp(t) == LastOp(f)
  {
    hide Replay, Possible, Happened;
    if f.flow.Busy? && !Done1(origin, e, f, cmd) && !Lost(origin, e, f, cmd) {
      ReachIsLoose(origin, f, t, cmd);
      SameBusLoose(origin, e, f, t, cmd);
    } else if Done1(origin, e, f, cmd) {
      DoneStays(origin, e, f, t, cmd);
    } else {
      LostStays(origin, e, f, t, cmd);
    }
  }

  lemma DoneStays(origin: Slave, e: Engine, f: Engine, t: Engine, cmd: Cmd)
    requires Done1(origin, e, f, cmd) && Reach(origin, f, t)
    ensures Done1(origin, e, t, cmd) && LastOp(t) == LastOp(f)
  {
    hide Replay, Possible, ServedBy, Landed, Failed;
  }

  lemma LostStays(origin: Slave, e: Engine, f: Engine, t: Engine, cmd: Cmd)
    requires Lost(origin, e, f, cmd) && Reach(origin, f, t)
    ensures Lost(origin, e, t, cmd)
  {
    hide Replay, Possible, ServedBy, Landed, Failed;
    assert Before(e, t) == Before(e, f);
  }

  lemma BrokenShadow(m: Machine, e: Engine, f: Engine, t: Engine, g: Engine, cmd: Cmd, report: Report)
    requires Loose(m.origin, e, f, cmd) && Reach(m.origin, f, t) && TookAbort(m.origin, t, g)
    requires report == Nacked ==> Done1(m.origin, e, f, cmd) && LastOp(f) == Op(cmd, Nacked)
    requires Told(report) ==> report == Nacked && cmd.Write?
    requires cmd.Stop? ==> report == Plain
    ensures Chain(m, e, g, Grown(e, g)) && Shadow([Op(cmd, report), ABORTED], Grown(e, g))
  {
    hide Reach, Replay, SlaveOn, ReplayAlong, ServedAlong, PossibleAlong, Chain, Grown, Happened, AtMost, Lost;
    LooseReach(m.origin, e, f, t, cmd);
    assert [Op(cmd, report), ABORTED][..0] + [ABORTED] == [ABORTED];
    if SameBus(e, t) && t.flow == Busy(cmd) {
      OneAbort(m, e, t, g);
    } else if Done1(m.origin, e, t, cmd) {
      if Quiescent(t) {
        OpOnly(m, e, t, g, LastOp(t));
        StopIsPlain(m.origin, e, t);
        assert [Op(cmd, report), ABORTED][..1] == [Op(cmd, report)];
      } else {
        OpAbort(m, e, t, g, LastOp(t));
      }
    } else {
      LostRests(m.origin, e, t, cmd);
      LostChain(m, e, t, g, cmd);
    }
  }

  lemma LostRests(origin: Slave, e: Engine, t: Engine, cmd: Cmd)
    requires Lost(origin, e, t, cmd)
    ensures Quiescent(t)
  {
    hide Replay, Happened, AtMost;
  }

  lemma StopIsPlain(origin: Slave, e: Engine, t: Engine)
    requires Happened(origin, e, t, LastOp(t))
    ensures LastOp(t).cmd.Stop? ==> LastOp(t) == Op(Stop, Plain)
  {
    hide Replay;
  }

  lemma BodyFollows(d: Device, h: History, plan: Plan, got: seq<Byte>)
    requires Quiet(h) && ValidPlan(plan) && NoStart(plan)
    ensures Follows(h, Transact(d, h, plan, got).h) && Quiet(Transact(d, h, plan, got).h)
  {
    if Transact(d, h, plan, got).code == TX_OK { BodyRuns(d, h, plan, got); } else { BodyBreaks(d, h, plan, got); }
  }

  lemma {:induction false} ClosesNoStart(plan: Plan)
    requires Closes(plan)
    ensures NoStart(plan)
    decreases plan
  {
    if !plan.phase.cmd.Stop? { ClosesNoStart(plan.rest); }
  }

  /** A STOP reported as done: the transaction is closed, or the engine aborted the STOP. */
  lemma StopOnEngine(d: Device, m: Machine, h: History, ph: Phase)
    requires ph.cmd.Stop? && Models(d, m) && Quiet(h) && Engaged(EngineAt(m, h)) && RunPhase(d, h, ph).code == TX_OK
    ensures var s := RunPhase(d, h, ph);
            var e, g := EngineAt(m, h), EngineAt(m, s.h);
            Faithful(m, e, g, [Op(Stop, Answer(s.h))], true, Grown(e, g))
  {
    hide Models, EngineAt, RunPhase, ViewOf, Ops, Chain, Grown, Happened, Done1, Lost, CodeMatches, SameBus;
    PhaseView(d, h, ph);
    PhaseOnEngine(d, m, h, ph);
    var s := RunPhase(d, h, ph);
    var e, g := EngineAt(m, h), EngineAt(m, s.h);
    SelfSame(g);
    if Done1(m.origin, e, g, Stop) {
      DoneIs(m.origin, e, g, Stop);
      OpOnly(m, e, g, g, LastOp(g));
      StopIsPlain(m.origin, e, g);
      DoneCmd(m.origin, e, g, Stop);
    } else {
      LostChain(m, e, g, g, Stop);
      LostStop(m.origin, e, g);
    }
  }

  lemma SelfSame(e: Engine)
    ensures SameBus(e, e)
  {
  }

  lemma DoneIs(origin: Slave, e: Engine, f: Engine, cmd: Cmd)
    requires Done1(origin, e, f, cmd)
    ensures Happened(origin, e, f, LastOp(f)) && LastOp(f).cmd == cmd && f.aborts == e.aborts
  {
  }

  lemma LostStop(origin: Slave, e: Engine, f: Engine)
    requires Lost(origin, e, f, Stop)
    ensures f.aborts == e.aborts + [SclStuck]
  {
    hide Replay, Happened, AtMost;
  }

  lemma {:induction false} BodyOnEngine(d: Device, m: Machine, h: History, plan: Plan, got: seq<Byte>)
    requires Models(d, m) && Quiet(h) && ValidPlan(plan) && Closes(plan) && Engaged(EngineAt(m, h))
    ensures var out := Transact(d, h, plan, got);
            var e, g := EngineAt(m, h), EngineAt(m, out.h);
            Faithful(m, e, g, Since(h, out.h), out.code == TX_OK, Grown(e, g))
    decreases plan
  {
    hide Models, EngineAt, RunPhase, Transact, ViewOf, Ops, Since, Chain, Shadow, CarriedOut, Grown, Happened, Done1, Lost, CutShort, Received;
    var ph, rest := plan.phase, plan.rest;
    var s, out := RunPhase(d, h, ph), Transact(d, h, plan, got);
    Advance(d, h, ph, rest, got);
    PhaseView(d, h, ph);
    PhaseOnEngine(d, m, h, ph);
    if s.code != TX_OK {
      BreaksHere(d, h, ph, []);
      BrokenPhase(d, m, h, ph);
    } else if ph.cmd.Stop? {
      Finished(d, s.h, got + s.rx);
      Onward(d, h, ph, out.h);
      StopOnEngine(d, m, h, ph);
      assert Since(h, out.h) == [Op(ph.cmd, Answer(s.h))] + [] == [Op(Stop, Answer(s.h))];
    } else {
      BodyOnEngine(d, m, s.h, rest, got + s.rx);
      ClosesNoStart(rest);
      BodyFollows(d, s.h, rest, got + s.rx);
      Onward(d, h, ph, out.h);
      DoneIs(m.origin, EngineAt(m, h), EngineAt(m, s.h), ph.cmd);
      Further(m, EngineAt(m, h), EngineAt(m, s.h), EngineAt(m, out.h), Op(ph.cmd, Answer(s.h)),
              Since(s.h, out.h), out.code == TX_OK);
    }
  }

  lemma Further(m: Machine, e: Engine, f: Engine, g: Engine, op: Op, seen: seq<Op>, ok: bool)
    requires Happened(m.origin, e, f, op) && f.aborts == e.aborts && Faithful(m, f, g, seen, ok, Grown(f, g))
    ensures Faithful(m, e, g, [op] + seen, ok, Grown(e, g))
  {
    hide Chain, Shadow, StopLost, Grown, Happened;
    ChainCons(m, e, f, g, op, Grown(f, g));
    ChainGrown(m, e, g, [op] + Grown(f, g));
    if !ok {
      ShadowCons(op, seen, Grown(f, g));
    } else if StopLost(seen, Grown(f, g)) {
      StopLostCons(op, seen, Grown(f, g));
    }
  }

  /** A call that ended without issuing anything leaves the engine where it was, as far as the bus is concerned. */
  ghost predicate Untouched(m: Machine, e: Engine, g: Engine) {
    Quiescent(g) && Chain(m, e, g, [])
  }

  /**
   Any transaction, on any engine and from idle or a pending abort.  If it succeeds, the engine is idle,
   and the bus has carried out exactly the operations the driver was told about, with exactly those
   results, if and only if the engine has not aborted by itself meanwhile; if it has, it was the closing
   STOP, on an SCL line that did not rise.  If it fails, the bus has carried out what was reported and at
   most one abort.  In every case the engine ends idle or aborting, and was never given a command it could
   not take.
   */
  lemma TransactionOnEngine(d: Device, m: Machine, h: History, plan: Plan)
    requires Models(d, m) && Quiet(h) && Quiescent(EngineAt(m, h))
    requires Opening(plan) && Closes(plan.rest)
    ensures var out := Transact(d, h, plan, []);
            var e, g := EngineAt(m, h), EngineAt(m, out.h);
            var seen := Since(h, out.h);
            Quiet(out.h) &&
            if seen == [] then out.code == ERR_CMD && Untouched(m, e, g)
            else Faithful(m, e, g, seen, out.code == TX_OK, Grown(e, g))
  {
    hide Models, EngineAt, RunPhase, Transact, ViewOf, Ops, Since, Chain, Shadow, CarriedOut, Grown, Happened, Done1, Lost, CutShort, Received;
    var ph, rest := START, plan.rest;
    var s, out := RunPhase(d, h, ph), Transact(d, h, plan, []);
    Advance(d, h, ph, rest, []);
    PhaseView(d, h, ph);
    PhaseOnEngine(d, m, h, ph);
    if s.code == TX_OK {
      BodyOnEngine(d, m, s.h, rest, []);
      BodyFollows(d, s.h, rest, []);
      Onward(d, h, ph, out.h);
      DoneIs(m.origin, EngineAt(m, h), EngineAt(m, s.h), ph.cmd);
      Further(m, EngineAt(m, h), EngineAt(m, s.h), EngineAt(m, out.h), Op(ph.cmd, Answer(s.h)),
              Since(s.h, out.h), out.code == TX_OK);
    } else if s.issued {
      BreaksHere(d, h, ph, []);
      BrokenPhase(d, m, h, ph);
    } else {
      NothingSince(h, s.h);
      ChainNone(m, EngineAt(m, h), EngineAt(m, s.h));
    }
  }
}
