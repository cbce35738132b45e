/** The recovery of `i2c_init`, step by step, on an engine whose operations finish within the polling limit. */
module I2cRecovery {
  import opened MachineWords
  import opened I2cRegisters
  import opened I2cProtocol
  import opened I2cTranscript
  import opened I2cTransactions
  import opened I2cEngine
  import opened I2cEngineRuns
  import opened I2cEnginePhases
  import opened I2cEngineTransactions
  import opened I2cSessions
  import Progress = I2cProgress

  // ---------------------------------------------------------------- the abort

  lemma {:induction false} PromptAbortPoll(d: Device, m: Machine, h: History, n: nat)
    requires Models(d, m) && Quiescent(EngineAt(m, h)) && n > 0
    requires Settled(EngineAt(m, Looks(d, h, n)))
    ensures EngineAt(m, AbortPoll(d, h, n)).flow.Idle?
    decreases n
  {
    hide Models, EngineAt, Tick;
    LookNow(d, m, h);
    TickRested(m.origin, EngineAt(m, h), m.env(h));
    if BusIdle(Seen(d, h)) {
      LookSettled(d, m, Look(d, h));
    } else if n > 1 {
      PromptAbortPoll(d, m, Look(d, h), n - 1);
    }
  }

  /** Whatever the engine was doing, `i2c_priv_abort_to_idle` comes back with it idle. */
  lemma AbortEndsIdle(d: Device, m: Machine, h: History)
    requires Models(d, m) && Prompt(d, m)
    ensures EngineAt(m, AbortToIdle(d, h)).flow.Idle?
  {
    hide Models, EngineAt, AbortPoll, TakeAbort, Looks;
    var aborted := Then(h, WriteCommand(Encode(Abort)));
    Aborted(m, h);
    Taken(m.origin, Now(m, h));
    PromptAbortPoll(d, m, aborted, POLL_LIMIT);
  }

  // ---------------------------------------------------------------- the STOP

  /** A held bus stays held while software looks, and looking twice finds it ready but not idle. */
  lemma HeldCheck(d: Device, m: Machine, h: History)
    requires Models(d, m) && EngineAt(m, h).flow.Hold?
    ensures var w := CheckIdleReady(d, h); !w.ok && Ready(Seen(d, h)) && EngineAt(m, w.h) == EngineAt(m, h)
  {
    hide Models, EngineAt;
    LookSettled(d, m, h);
    LookSettled(d, m, Look(d, h));
  }

  lemma IdleCheck(d: Device, m: Machine, h: History)
    requires Models(d, m) && EngineAt(m, h).flow.Idle?
    ensures var w := CheckIdleReady(d, h); w.ok && EngineAt(m, w.h) == EngineAt(m, h)
    ensures var w := WaitIdleReady(d, h, POLL_LIMIT); EngineAt(m, w.h) == EngineAt(m, h)
  {
    hide Models, EngineAt;
    LookSettled(d, m, h);
    LookSettled(d, m, Look(d, h));
  }

  /** Between the two checks: the STOP, and the wait for it. */
  function StoppedAt(d: Device, h: History): History { TryStop(d, CheckIdleReady(d, h).h) }

  lemma HeldStop(d: Device, m: Machine, h: History)
    requires Models(d, m) && Prompt(d, m) && EngineAt(m, h).flow.Hold?
    ensures var e, g := EngineAt(m, h), EngineAt(m, TryStop(d, h));
            g.flow.Idle? && (Done1(m.origin, e, g, Stop) || Lost(m.origin, e, g, Stop))
  {
    hide Models, EngineAt, Prompt, Looks, WaitIdleReady, Done1, Lost, Reach, CheckIdleReady;
    HeldCheck(d, m, h);
    var check := CheckIdleReady(d, h);
    var cleared := Then(check.h, WriteStatus(STICKY));
    Cleared(m, check.h);
    LookSettled(d, m, cleared);
    Issued(m, Look(d, cleared), Stop);
    var stopping := CommandStop(d, cleared);
    var e := EngineAt(m, stopping);
    InTime(d, m, stopping);
    SelfReach(m.origin, e);
    WaitIdleReadyReach(d, m, e, stopping, POLL_LIMIT);
    var g := EngineAt(m, WaitIdleReady(d, stopping, POLL_LIMIT).h);
    ReachIsLoose(m.origin, e, g, Stop);
    SameBusLoose(m.origin, EngineAt(m, h), e, g, Stop);
  }

  lemma InTime(d: Device, m: Machine, h: History)
    requires Models(d, m) && Prompt(d, m) && EngineAt(m, h).flow == Busy(Stop)
    ensures WaitIdleReady(d, h, POLL_LIMIT).ok
  {
    hide Models, EngineAt, WaitIdleReady, Looks;
    Progress.IdleInTime(d, m, h, POLL_LIMIT);
  }

  /** What the driver has issued by then is one STOP. */
  lemma StopIssued(d: Device, h: History)
    requires Quiet(h) && Ready(Seen(d, h)) && !CheckIdleReady(d, h).ok
    requires Ready(Seen(d, Then(CheckIdleReady(d, h).h, WriteStatus(STICKY))))
    ensures var g := TryStop(d, h); Quiet(g) && ViewOf(g).ops == ViewOf(h).ops + [Op(Stop, Plain)]
  {
    hide WaitIdleReady;
    var check := CheckIdleReady(d, h).h;
    CheckViews(d, h);
    var cleared := Then(check, WriteStatus(STICKY));
    assert ViewOf(Look(d, cleared)) == ViewOf(cleared) == ViewOf(check);
    DecodeEncode(Stop, ViewOf(cleared).staged);
    WaitIdleReadyView(d, CommandStop(d, cleared), POLL_LIMIT);
  }

  lemma CheckViews(d: Device, h: History)
    requires Quiet(h)
    ensures ViewOf(CheckIdleReady(d, h).h) == ViewOf(h)
  {
    LookView(d, h);
    LookView(d, Look(d, h));
  }

  /**
   Recovery from a held bus sends one STOP and aborts nothing, and the engine ends idle.  On the bus that STOP
   has been carried out, unless SCL did not rise for it and the engine aborted it by itself.
   */
  lemma RecoveryFromHold(d: Device, m: Machine, h: History)
    requires Models(d, m) && Prompt(d, m) && Quiet(h) && EngineAt(m, h).flow.Hold?
    ensures var e, g := EngineAt(m, h), EngineAt(m, ForceIdle(d, h));
            && g.flow.Idle? && Since(h, ForceIdle(d, h)) == [Op(Stop, Plain)]
            && CarriedOut(e, g, [Op(Stop, Plain)], Grown(e, g))
  {
    hide Models, EngineAt, Prompt, TryStop, CheckIdleReady, WaitIdleReady, ViewOf, Done1, Lost, Grown, CarriedOut;
    HeldCheck(d, m, h);
    var settled := CheckIdleReady(d, h).h;
    HeldStop(d, m, settled);
    var stopped := TryStop(d, settled);
    IdleCheck(d, m, stopped);
    var again := CheckIdleReady(d, stopped).h;
    IdleCheck(d, m, again);
    CheckViews(d, h);
    HeldIssues(d, m, settled);
    CheckViews(d, stopped);
    WaitIdleReadyView(d, again, POLL_LIMIT);
    OneStop(m, EngineAt(m, h), EngineAt(m, ForceIdle(d, h)));
  }

  lemma HeldIssues(d: Device, m: Machine, h: History)
    requires Models(d, m) && Quiet(h) && EngineAt(m, h).flow.Hold?
    ensures var g := TryStop(d, h); Quiet(g) && ViewOf(g).ops == ViewOf(h).ops + [Op(Stop, Plain)]
  {
    hide Models, EngineAt, ViewOf, TryStop, CheckIdleReady;
    HeldCheck(d, m, h);
    Cleared(m, CheckIdleReady(d, h).h);
    LookSettled(d, m, Then(CheckIdleReady(d, h).h, WriteStatus(STICKY)));
    StopIssued(d, h);
  }

  lemma OneStop(m: Machine, e: Engine, g: Engine)
    requires Done1(m.origin, e, g, Stop) || Lost(m.origin, e, g, Stop)
    ensures CarriedOut(e, g, [Op(Stop, Plain)], Grown(e, g))
  {
    hide Replay, Happened, AtMost, Done1, Lost, Grown, SameBus, Chain;
    SelfSame(g);
    if Done1(m.origin, e, g, Stop) {
      DoneIs(m.origin, e, g, Stop);
      OpOnly(m, e, g, g, LastOp(g));
      StopIsPlain(m.origin, e, g);
    } else {
      LostChain(m, e, g, g, Stop);
      LostStop(m.origin, e, g);
    }
  }
}
