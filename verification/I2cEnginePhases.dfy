/** One phase of a transaction on the engine: what it may do to the bus, and that it is told the truth. */
module I2cEnginePhases {
  import opened I2cRegisters
  import opened I2cProtocol
  import opened I2cTranscript
  import opened I2cEngine
  import opened I2cEngineRuns

  /** Between calls: idle, or on the way there from an abort. */
  predicate Quiescent(e: Engine) { e.flow.Idle? || e.flow.Aborting? }

  /** Between the phases of a transaction: holding the bus, or about to. */
  predicate Engaged(e: Engine) { e.flow.Hold? || e.flow == Closing(false) }

  predicate Fit(e: Engine, cmd: Cmd) { if cmd.Start? then Quiescent(e) else Engaged(e) }

  predicate After(e: Engine, cmd: Cmd) { if cmd.Stop? then e.flow.Idle? else Engaged(e) }

  // ---------------------------------------------------------------- issuing

  /** The command has just been taken, and no earlier result is left to be mistaken for its own. */
  predicate Fresh(e: Engine, f: Engine, cmd: Cmd) {
    SameBus(e, f) && f.flow == Busy(cmd) && !f.done && !f.ackValid && !f.readValid && !f.illegal
  }

  /** The history in which the command of a phase has just been written. */
  function IssuedAt(d: Device, h: History, cmd: Cmd): History
    requires !cmd.Unknown?
  {
    var cleared := Then(WaitReady(d, h, POLL_LIMIT).h, WriteStatus(STICKY));
    Then(Look(d, Stage(cleared, cmd)), WriteCommand(Encode(cmd)))
  }

  lemma IssueOnEngine(d: Device, m: Machine, h: History, ph: Phase)
    requires Models(d, m) && ValidPhase(ph) && Fit(EngineAt(m, h), ph.cmd)
    ensures var s := RunPhase(d, h, ph);
            var e := EngineAt(m, h);
            if WaitReady(d, h, POLL_LIMIT).ok then
              s == Conclude(d, IssuedAt(d, h, ph.cmd), ph) && Fresh(e, EngineAt(m, IssuedAt(d, h, ph.cmd)), ph.cmd)
            else
              !s.issued && SameBus(e, EngineAt(m, s.h)) && Fit(EngineAt(m, s.h), ph.cmd)
  {
    hide Models, EngineAt, Conclude, WaitReady;
    ReadyFor(d, m, h, ph.cmd);
    var w := WaitReady(d, h, POLL_LIMIT);
    if w.ok {
      var cleared := Then(w.h, WriteStatus(STICKY));
      var staged := Stage(cleared, ph.cmd);
      Cleared(m, w.h);
      Staged(m, cleared, ph.cmd);
      LookSettled(d, m, staged);
      Issued(m, Look(d, staged), ph.cmd);
    }
  }

  lemma ReadyFor(d: Device, m: Machine, h: History, cmd: Cmd)
    requires Models(d, m) && Fit(EngineAt(m, h), cmd)
    requires !cmd.Unknown? && !cmd.Abort?
    ensures var w := WaitReady(d, h, POLL_LIMIT);
            var f := EngineAt(m, w.h);
            && SameBus(EngineAt(m, h), f) && Fit(f, cmd)
            && (w.ok ==> Settled(f) && Legal(f.flow, cmd))
  {
    hide Models, EngineAt, WaitReady, Reach, Fit, SameBus, Legal;
    var e := EngineAt(m, h);
    FitIsNotBusy(e, cmd);
    assert ReachAt(m, e, h) by { SelfReach(m.origin, e); }
    WaitReadyReach(d, m, e, h, POLL_LIMIT);
    ReachFit(m.origin, e, EngineAt(m, WaitReady(d, h, POLL_LIMIT).h), cmd);
  }

  lemma FitIsNotBusy(e: Engine, cmd: Cmd)
    requires Fit(e, cmd)
    ensures !e.flow.Busy?
  {
  }

  lemma SelfReach(origin: Slave, e: Engine)
    ensures Reach(origin, e, e)
  {
  }

  lemma ReachFit(origin: Slave, e: Engine, f: Engine, cmd: Cmd)
    requires Reach(origin, e, f) && Fit(e, cmd) && !cmd.Unknown? && !cmd.Abort?
    ensures SameBus(e, f) && Fit(f, cmd) && (Settled(f) ==> Legal(f.flow, cmd))
  {
    hide Landed, Failed, Replay;
    if cmd.Start? {
      assert f.flow.Idle? || f.flow.Aborting?;
    } else {
      assert f.flow.Hold? || f.flow == Closing(false);
    }
  }

  lemma Cleared(m: Machine, h: History)
    requires Settled(EngineAt(m, h))
    ensures EngineAt(m, Then(h, WriteStatus(STICKY))) ==
            EngineAt(m, h).(done := false, ackValid := false, ackHigh := false, readValid := false, illegal := false)
  {
    hide EngineAt;
    Takes(m, h, WriteStatus(STICKY));
    ClearingSticky(m.origin, EngineAt(m, h));
  }

  lemma ClearingSticky(origin: Slave, e: Engine)
    ensures Apply(origin, e, WriteStatus(STICKY)) ==
            e.(done := false, ackValid := false, ackHigh := false, readValid := false, illegal := false)
  {
    assert Done(STICKY) && AckValid(STICKY) && AckHigh(STICKY) && ReadValid(STICKY) && CmdIllegal(STICKY);
  }

  lemma Staged(m: Machine, h: History, cmd: Cmd)
    requires Settled(EngineAt(m, h))
    ensures EngineAt(m, Stage(h, cmd)) ==
            EngineAt(m, h).(staged := if cmd.Write? then cmd.data else EngineAt(m, h).staged)
  {
    hide EngineAt;
    if cmd.Write? { Takes(m, h, WriteTx(cmd.data)); }
  }

  lemma Issued(m: Machine, h: History, cmd: Cmd)
    requires Settled(EngineAt(m, h)) && Legal(EngineAt(m, h).flow, cmd)
    requires cmd.Write? ==> EngineAt(m, h).staged == cmd.data
    ensures EngineAt(m, Then(h, WriteCommand(Encode(cmd)))) == Forgotten(EngineAt(m, h)).(flow := Busy(cmd))
  {
    hide EngineAt, Decode, Encode;
    DecodeEncode(cmd, EngineAt(m, h).staged);
    Takes(m, h, WriteCommand(Encode(cmd)));
  }

  // ---------------------------------------------------------------- concluding

  /** The command has happened, and no more than that. */
  ghost predicate Done1(origin: Slave, e: Engine, f: Engine, cmd: Cmd) {
    && Happened(origin, e, f, LastOp(f)) && LastOp(f).cmd == cmd && f.aborts == e.aborts
    && (f.flow == Rest(cmd) || f.flow == Closing(cmd.Stop?))
  }

  /** The command is still in flight, or it has happened, or the engine has aborted it. */
  ghost predicate Loose(origin: Slave, e: Engine, f: Engine, cmd: Cmd) {
    (SameBus(e, f) && f.flow == Busy(cmd)) || Done1(origin, e, f, cmd) || Lost(origin, e, f, cmd)
  }

  lemma LandedDone(origin: Slave, e: Engine, f: Engine, cmd: Cmd)
    requires Landed(origin, e, f, cmd)
    ensures Done1(origin, e, f, cmd)
    ensures !cmd.Stop? ==> Engaged(f)
  {
    hide Replay, Possible;
  }

  lemma ReachIsLoose(origin: Slave, e: Engine, f: Engine, cmd: Cmd)
    requires Reach(origin, e, f) && e.flow == Busy(cmd)
    ensures Loose(origin, e, f, cmd)
    ensures Settled(f) ==> (Done1(origin, e, f, cmd) && f.flow == Rest(cmd)) || (Lost(origin, e, f, cmd) && f.flow.Idle?)
  {
    hide Replay, Possible, Happened, AtMost;
  }

  lemma WriteOnEngine(d: Device, m: Machine, h: History, ph: Phase)
    requires Models(d, m) && ph.cmd.Write?
    requires var e := EngineAt(m, h); e.flow == Busy(ph.cmd) && !e.done && !e.illegal
    ensures var w := WaitCycle(d, h, POLL_LIMIT);
            var s := Conclude(d, h, ph);
            var e, f := EngineAt(m, h), EngineAt(m, s.h);
            && Loose(m.origin, e, f, ph.cmd)
            && (w.ok ==> Done1(m.origin, e, f, ph.cmd) && Engaged(f) && AckReport(Seen(d, w.h)) == LastOp(f).report)
            && (s.code == TX_OK ==> w.ok)
  {
    hide Models, EngineAt, WaitCycle, Landed, Lost;
    var e := EngineAt(m, h);
    WaitCycleReach(d, m, e, h, POLL_LIMIT);
    var w := WaitCycle(d, h, POLL_LIMIT);
    if w.ok {
      LandedLook(d, m, e, w.h, ph.cmd);
      LandedDone(m.origin, e, EngineAt(m, Look(d, w.h)), ph.cmd);
    }
  }

  /** A later look sees the same result. */
  lemma LandedLook(d: Device, m: Machine, e: Engine, h: History, cmd: Cmd)
    requires Models(d, m) && Landed(m.origin, e, EngineAt(m, h), cmd)
    ensures var f, w := EngineAt(m, Look(d, h)), Seen(d, h);
            && Landed(m.origin, e, f, cmd) && LastOp(f) == LastOp(EngineAt(m, h))
            && (cmd.Write? ==> AckReport(w) == LastOp(f).report)
            && (cmd.Read? ==> ReadValid(w) && LastOp(f).report == Got(f.rx))
  {
    hide Models, EngineAt, Tick, Landed;
    LookNow(d, m, h);
    var f, g := EngineAt(m, h), EngineAt(m, Look(d, h));
    ReachedIsRested(m.origin, e, f, cmd);
    TickRested(m.origin, f, m.env(h));
    StaysLanded(m.origin, e, f, g, cmd);
    LandedResult(m.origin, e, g, cmd);
  }

  lemma LandedResult(origin: Slave, e: Engine, f: Engine, cmd: Cmd)
    requires Landed(origin, e, f, cmd)
    ensures LastOp(f).cmd == cmd && Shows(f, LastOp(f))
    ensures cmd.Write? ==> LastOp(f).report == Acked || LastOp(f).report == Nacked
  {
    hide Replay;
  }

  /** REG_RXDATA is read from the engine as it is at that moment, and reading it changes nothing. */
  lemma LandedRx(d: Device, m: Machine, e: Engine, h: History, cmd: Cmd)
    requires Models(d, m) && Landed(m.origin, e, EngineAt(m, h), cmd)
    ensures var f := EngineAt(m, Then(h, ReadRx(d(h, RXDATA))));
            && Landed(m.origin, e, f, cmd) && LastOp(f) == LastOp(EngineAt(m, h))
            && (cmd.Read? ==> LastOp(f).report == Got(d(h, RXDATA)))
  {
    hide Tick, Landed;
    ReachedIsRested(m.origin, e, EngineAt(m, h), cmd);
    TickRested(m.origin, EngineAt(m, h), m.env(h));
    StaysLanded(m.origin, e, EngineAt(m, h), Now(m, h), cmd);
    LandedResult(m.origin, e, Now(m, h), cmd);
  }

  lemma StillLoose(origin: Slave, e: Engine, f: Engine, cmd: Cmd)
    requires e.flow == Busy(cmd) && (f == e || Failed(origin, e, f, cmd))
    ensures Loose(origin, e, f, cmd)
  {
    hide Replay, Happened, AtMost;
  }

  lemma ReadOnEngine(d: Device, m: Machine, h: History, ph: Phase)
    requires Models(d, m) && ph.cmd.Read?
    requires var e := EngineAt(m, h); e.flow == Busy(ph.cmd) && !e.done && !e.illegal
    ensures var s := Conclude(d, h, ph);
            var e, f := EngineAt(m, h), EngineAt(m, s.h);
            && Loose(m.origin, e, f, ph.cmd)
            && (s.code == TX_OK ==>
                  Done1(m.origin, e, f, ph.cmd) && Engaged(f) && |s.rx| == 1 && LastOp(f).report == Got(s.rx[0]))
  {
    hide Models, EngineAt, WaitCycle, Landed, Failed, Lost, Done1, LastOp;
    var e := EngineAt(m, h);
    WaitCycleReach(d, m, e, h, POLL_LIMIT);
    var w := WaitCycle(d, h, POLL_LIMIT);
    if !w.ok {
      StillLoose(m.origin, e, EngineAt(m, w.h), ph.cmd);
    } else {
      LandedLook(d, m, e, w.h, ph.cmd);
      var h2 := Look(d, w.h);
      LandedRx(d, m, e, h2, ph.cmd);
      LandedDone(m.origin, e, EngineAt(m, h2), ph.cmd);
      LandedDone(m.origin, e, EngineAt(m, Then(h2, ReadRx(d(h2, RXDATA)))), ph.cmd);
    }
  }

  /** START and RESTART look at BUS_IDLE and so notice that the engine has aborted them; STOP does not. */
  lemma FrameOnEngine(d: Device, m: Machine, h: History, ph: Phase)
    requires Models(d, m) && (ph.cmd.Start? || ph.cmd.Restart? || ph.cmd.Stop?)
    requires EngineAt(m, h).flow == Busy(ph.cmd)
    ensures var s := Conclude(d, h, ph);
            var e, f := EngineAt(m, h), EngineAt(m, s.h);
            && Loose(m.origin, e, f, ph.cmd)
            && (s.code == TX_OK ==>
                  f.flow == Rest(ph.cmd) &&
                  (Done1(m.origin, e, f, ph.cmd) || (ph.cmd.Stop? && Lost(m.origin, e, f, ph.cmd))))
  {
    hide Models, EngineAt, WaitReady, WaitIdleReady, Reach, Lost, Done1;
    var e := EngineAt(m, h);
    SelfReach(m.origin, e);
    if ph.cmd.Stop? {
      WaitIdleReadyReach(d, m, e, h, POLL_LIMIT);
      ReachIsLoose(m.origin, e, EngineAt(m, WaitIdleReady(d, h, POLL_LIMIT).h), ph.cmd);
    } else {
      WaitReadyReach(d, m, e, h, POLL_LIMIT);
      var w := WaitReady(d, h, POLL_LIMIT);
      ReachIsLoose(m.origin, e, EngineAt(m, w.h), ph.cmd);
      if w.ok { LookSettled(d, m, w.h); }
    }
  }

  // ---------------------------------------------------------------- a whole phase

  lemma HappenedFrom(origin: Slave, e0: Engine, e: Engine, f: Engine, op: Op)
    requires SameBus(e0, e) && Happened(origin, e, f, op)
    ensures Happened(origin, e0, f, op)
  {
    hide Replay, Possible, ServedBy;
  }

  lemma LostFrom(origin: Slave, e0: Engine, e: Engine, f: Engine, cmd: Cmd)
    requires SameBus(e0, e) && Lost(origin, e, f, cmd)
    ensures Lost(origin, e0, f, cmd)
  {
    hide Happened, Faulty, LastOp, Before, AtMost;
    BeforeAlike(e0, e, f);
    HappenedFrom(origin, Before(e0, f), Before(e, f), f, ABORTED);
    AtMostFrom(origin, e0, e, Before(e0, f), Before(e, f), cmd);
  }

  lemma AtMostFrom(origin: Slave, e0: Engine, e: Engine, f0: Engine, f: Engine, cmd: Cmd)
    requires SameBus(e0, e) && SameBus(f0, f) && LastOp(f0) == LastOp(f) && AtMost(origin, e, f, cmd)
    ensures AtMost(origin, e0, f0, cmd)
  {
    hide Happened, LastOp;
    if !SameBus(e, f) {
      HappenedFrom(origin, e0, e, f, LastOp(f));
      HappenedTo(origin, e0, f0, f, LastOp(f));
    }
  }

  lemma BeforeAlike(e0: Engine, e: Engine, f: Engine)
    requires SameBus(e0, e)
    ensures SameBus(Before(e0, f), Before(e, f)) && LastOp(Before(e0, f)) == LastOp(Before(e, f))
  {
  }

  lemma HappenedTo(origin: Slave, e: Engine, f0: Engine, f: Engine, op: Op)
    requires SameBus(f0, f) && Happened(origin, e, f, op)
    ensures Happened(origin, e, f0, op)
  {
    hide Replay, Possible, ServedBy;
  }

  lemma SameBusLoose(origin: Slave, e0: Engine, e: Engine, f: Engine, cmd: Cmd)
    requires SameBus(e0, e) && Loose(origin, e, f, cmd)
    ensures Loose(origin, e0, f, cmd)
    ensures Done1(origin, e, f, cmd) ==> Done1(origin, e0, f, cmd)
    ensures Lost(origin, e, f, cmd) ==> Lost(origin, e0, f, cmd)
  {
    hide Replay, Possible, ServedBy, Happened, Lost, LastOp;
    if Done1(origin, e, f, cmd) { HappenedFrom(origin, e0, e, f, LastOp(f)); }
    if Lost(origin, e, f, cmd) { LostFrom(origin, e0, e, f, cmd); }
  }

  /**
   One phase on the engine.  If the phase succeeds, or reports a refusal, then the last thing that
   happened on the bus is this command, with the very result that was reported for it; save that a STOP
   may have been aborted by the engine.
   */
  lemma PhaseOnEngine(d: Device, m: Machine, h: History, ph: Phase)
    requires Models(d, m) && ValidPhase(ph) && Fit(EngineAt(m, h), ph.cmd) && Quiet(h)
    ensures var s := RunPhase(d, h, ph);
            var e, f := EngineAt(m, h), EngineAt(m, s.h);
            && (!s.issued ==> SameBus(e, f) && Fit(f, ph.cmd))
            && (s.issued ==> Loose(m.origin, e, f, ph.cmd))
            && (s.code == TX_OK ==> s.issued && After(f, ph.cmd))
            && (s.issued && (s.code == TX_OK || Answer(s.h) == Nacked) ==>
                  || (Done1(m.origin, e, f, ph.cmd) && LastOp(f) == Op(ph.cmd, Answer(s.h)))
                  || (ph.cmd.Stop? && Answer(s.h) == Plain && Lost(m.origin, e, f, ph.cmd)))
  {
    hide Models, EngineAt, ViewOf, Ops, RunPhase, Conclude, Loose, Done1, Lost, Fresh, SameBus, WaitReady, IssuedAt, WaitCycle;
    IssueOnEngine(d, m, h, ph);
    PhaseView(d, h, ph);
    if WaitReady(d, h, POLL_LIMIT).ok {
      var h1 := IssuedAt(d, h, ph.cmd);
      var e, e1, s := EngineAt(m, h), EngineAt(m, h1), RunPhase(d, h, ph);
      FreshBusy(e, e1, ph.cmd);
      var f := EngineAt(m, s.h);
      IssuedView(d, h, ph.cmd);
      ConcludeIssued(d, h1, ph);
      match ph.cmd {
        case Write(_) =>
          WriteOnEngine(d, m, h1, ph);
          WriteView(d, h1, ph);
        case Read(_) =>
          ReadOnEngine(d, m, h1, ph);
          ReadView(d, h1, ph);
        case Start | Restart | Stop =>
          FrameOnEngine(d, m, h1, ph);
          FrameView(d, h1, ph);
      }
      SameBusLoose(m.origin, e, e1, f, ph.cmd);
      DoneCmd(m.origin, e, f, ph.cmd);
    }
  }

  lemma FreshBusy(e: Engine, f: Engine, cmd: Cmd)
    requires Fresh(e, f, cmd)
    ensures f.flow == Busy(cmd) && !f.done && !f.illegal && SameBus(e, f)
  {
  }

  lemma DoneCmd(origin: Slave, e: Engine, f: Engine, cmd: Cmd)
    ensures Done1(origin, e, f, cmd) ==> LastOp(f).cmd == cmd
    ensures Done1(origin, e, f, cmd) && !cmd.Write? && !cmd.Read? ==> LastOp(f) == Op(cmd, Plain)
  {
  }

  lemma IssuedView(d: Device, h: History, cmd: Cmd)
    requires Quiet(h) && !cmd.Unknown? && !cmd.Abort?
    ensures var v := ViewOf(IssuedAt(d, h, cmd));
            v.current == if cmd.Write? || cmd.Read? then Open(cmd, AwaitDone) else Closed
  {
    WaitReadyView(d, h, POLL_LIMIT);
    IssueView(d, WaitReady(d, h, POLL_LIMIT).h, cmd);
  }
}
