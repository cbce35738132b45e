/**
 The order of the register accesses themselves, on any device: how every command is prepared, and when the
 received byte is fetched.
 */
module I2cHandshake {
  import opened MachineWords
  import opened I2cRegisters
  import opened I2cProtocol
  import opened I2cPolls
  import opened I2cSessions
  import Text = I2cStrings

  // ---------------------------------------------------------------- polling

  /** From `h` to `h1` nothing was done but read the status. */
  predicate Polled(h: History, h1: History)
    decreases h1
  {
    h1 == h || (h1.Then? && h1.last.ReadStatus? && Polled(h, h1.past))
  }

  lemma {:induction false} PolledOn(h0: History, h1: History, h2: History)
    requires Polled(h0, h1) && Polled(h1, h2)
    ensures Polled(h0, h2)
    decreases h2
  {
    if h2 != h1 { PolledOn(h0, h1, h2.past); }
  }

  lemma LookPolled(d: Device, h: History)
    ensures Polled(h, Look(d, h)) && Polled(h, Look(d, Look(d, h)))
  {
    assert Polled(h, h) && Polled(h, Look(d, h));
  }

  lemma {:induction false} WaitReadyPolled(d: Device, h: History, n: nat)
    ensures Polled(h, WaitReady(d, h, n).h)
    decreases n
  {
    LookPolled(d, h);
    if n > 0 && !Ready(Seen(d, h)) {
      WaitReadyPolled(d, Look(d, h), n - 1);
      PolledOn(h, Look(d, h), WaitReady(d, h, n).h);
    }
  }

  lemma {:induction false} WaitCyclePolled(d: Device, h: History, n: nat)
    ensures Polled(h, WaitCycle(d, h, n).h)
    decreases n
  {
    LookPolled(d, h);
    if n > 0 && !CmdIllegal(Seen(d, h)) && !Done(Seen(d, h)) {
      WaitCyclePolled(d, Look(d, h), n - 1);
      PolledOn(h, Look(d, h), WaitCycle(d, h, n).h);
    }
  }

  lemma {:induction false} WaitIdleReadyPolled(d: Device, h: History, n: nat)
    ensures Polled(h, WaitIdleReady(d, h, n).h)
    decreases n
  {
    LookPolled(d, h);
    if n == 0 {
    } else if !Ready(Seen(d, h)) {
      WaitIdleReadyPolled(d, Look(d, h), n - 1);
      PolledOn(h, Look(d, h), WaitIdleReady(d, h, n).h);
    } else if !BusIdle(Seen(d, Look(d, h))) {
      WaitIdleReadyPolled(d, Look(d, Look(d, h)), n - 1);
      PolledOn(h, Look(d, Look(d, h)), WaitIdleReady(d, h, n).h);
    }
  }

  lemma {:induction false} AbortPolled(d: Device, h: History, n: nat)
    ensures Polled(h, AbortPoll(d, h, n))
    decreases n
  {
    LookPolled(d, h);
    if n == 0 {
    } else if !BusIdle(Seen(d, h)) {
      AbortPolled(d, Look(d, h), n - 1);
      PolledOn(h, Look(d, h), AbortPoll(d, h, n));
    } else if !Ready(Seen(d, Look(d, h))) {
      AbortPolled(d, Look(d, Look(d, h)), n - 1);
      PolledOn(h, Look(d, Look(d, h)), AbortPoll(d, h, n));
    }
  }

  lemma CheckPolled(d: Device, h: History)
    ensures Polled(h, CheckIdleReady(d, h).h)
  {
    LookPolled(d, h);
  }

  // ---------------------------------------------------------------- the order of accesses

  /** The last access wrote ones to all five sticky bits of the status. */
  predicate Cleared(h: History) { h.Then? && h.last == WriteStatus(0x7C) }

  /** The last access saw the engine ready, and before it the results of the previous command were cleared. */
  predicate Prepared(h: History, word: Word) {
    && h.Then? && h.last.ReadStatus? && h.last.value % 2 == 1
    && if word % 8 == 1 then h.past.Then? && h.past.last.WriteTx? && Cleared(h.past.past) else Cleared(h.past)
  }

  /** The last access saw RD_DATA_VALID. */
  predicate Announced(h: History) { h.Then? && h.last.ReadStatus? && (h.last.value / 0x20) % 2 == 1 }

  /**
   Every command but an abort is written right after a status read that showed ready, and since the results of the
   one before were cleared nothing else was done but stage the byte, if it is one that sends.  The received byte is
   fetched right after RD_DATA_VALID was seen.
   */
  predicate Orderly(h: History) {
    match h
    case Boot => true
    case Then(past, WriteCommand(word)) => Orderly(past) && ((word / 0x80) % 2 == 1 || Prepared(past, word))
    case Then(past, ReadRx(_)) => Orderly(past) && Announced(past)
    case Then(past, _) => Orderly(past)
  }

  lemma {:induction false} PolledOrderly(h: History, h1: History)
    requires Polled(h, h1) && Orderly(h)
    ensures Orderly(h1)
    decreases h1
  {
    if h1 != h { PolledOrderly(h, h1.past); }
  }

  lemma AbortOrderly(d: Device, h: History)
    requires Orderly(h)
    ensures Orderly(AbortToIdle(d, h))
  {
    hide AbortPoll, Polled, Encode;
    var aborted := Then(h, WriteCommand(Encode(Abort)));
    AbortWord();
    AbortPolled(d, aborted, POLL_LIMIT);
    PolledOrderly(aborted, AbortToIdle(d, h));
  }

  lemma AbortWord()
    ensures (Encode(Abort) / 0x80) % 2 == 1
  {
  }

  /** Clear, stage, look, and write the command if ready was seen. */
  lemma IssueOrderly(d: Device, h: History, cmd: Cmd)
    requires Orderly(h) && !cmd.Unknown? && !cmd.Abort?
    ensures var looked := Look(d, Stage(Then(h, WriteStatus(STICKY)), cmd));
            && Orderly(looked)
            && (Ready(looked.last.value) ==> Orderly(Then(looked, WriteCommand(Encode(cmd)))))
  {
    var cleared := Then(h, WriteStatus(STICKY));
    var staged := Stage(cleared, cmd);
    assert Orderly(cleared) && Orderly(staged);
    CodeIsWrite(cmd);
  }

  lemma CodeIsWrite(cmd: Cmd)
    requires !cmd.Unknown?
    ensures Encode(cmd) % 8 == 1 <==> cmd.Write?
  {
  }

  lemma ConcludeOrderly(d: Device, h: History, ph: Phase)
    requires ValidPhase(ph) && Orderly(h)
    ensures Orderly(Conclude(d, h, ph).h)
  {
    hide WaitReady, WaitCycle, WaitIdleReady;
    WaitReadyPolled(d, h, POLL_LIMIT);
    WaitCyclePolled(d, h, POLL_LIMIT);
    WaitIdleReadyPolled(d, h, POLL_LIMIT);
    PolledOrderly(h, WaitReady(d, h, POLL_LIMIT).h);
    PolledOrderly(h, WaitCycle(d, h, POLL_LIMIT).h);
    PolledOrderly(h, WaitIdleReady(d, h, POLL_LIMIT).h);
  }

  lemma PhaseOrderly(d: Device, h: History, ph: Phase)
    requires ValidPhase(ph) && Orderly(h)
    ensures Orderly(RunPhase(d, h, ph).h)
  {
    hide WaitReady, Conclude, Encode, Orderly, Stage;
    WaitReadyPolled(d, h, POLL_LIMIT);
    var w := WaitReady(d, h, POLL_LIMIT);
    PolledOrderly(h, w.h);
    IssueOrderly(d, w.h, ph.cmd);
    var looked := Look(d, Stage(Then(w.h, WriteStatus(STICKY)), ph.cmd));
    if Ready(looked.last.value) { ConcludeOrderly(d, Then(looked, WriteCommand(Encode(ph.cmd))), ph); }
  }

  lemma {:induction false} TransactOrderly(d: Device, h: History, plan: Plan, got: seq<Byte>)
    requires ValidPlan(plan) && Orderly(h)
    ensures Orderly(Transact(d, h, plan, got).h)
    decreases plan
  {
    hide RunPhase, Orderly, AbortToIdle;
    if plan.Next? {
      PhaseOrderly(d, h, plan.phase);
      var s := RunPhase(d, h, plan.phase);
      if s.code == TX_OK { TransactOrderly(d, s.h, plan.rest, got + s.rx); } else { AbortOrderly(d, s.h); }
    }
  }

  lemma StopOrderly(d: Device, h: History)
    requires Orderly(h)
    ensures Orderly(TryStop(d, h))
  {
    hide CheckIdleReady, WaitIdleReady, Orderly, Encode;
    CheckPolled(d, h);
    var check := CheckIdleReady(d, h).h;
    PolledOrderly(h, check);
    IssueOrderly(d, check, Stop);
    var stopping := CommandStop(d, Then(check, WriteStatus(STICKY)));
    WaitIdleReadyPolled(d, stopping, POLL_LIMIT);
    PolledOrderly(stopping, WaitIdleReady(d, stopping, POLL_LIMIT).h);
  }

  lemma ForceOrderly(d: Device, h: History)
    requires Orderly(h)
    ensures Orderly(ForceIdle(d, h))
  {
    hide CheckIdleReady, WaitIdleReady, TryStop, AbortToIdle, Orderly;
    CheckPolled(d, h);
    var settled := CheckIdleReady(d, h).h;
    PolledOrderly(h, settled);
    StopOrderly(d, settled);
    var stopped := TryStop(d, settled);
    CheckPolled(d, stopped);
    var again := CheckIdleReady(d, stopped);
    PolledOrderly(stopped, again.h);
    AbortOrderly(d, again.h);
    var last := if again.ok then again.h else AbortToIdle(d, again.h);
    WaitIdleReadyPolled(d, last, POLL_LIMIT);
    PolledOrderly(last, WaitIdleReady(d, last, POLL_LIMIT).h);
  }

  lemma InitOrderly(d: Device, h: History, freqKHz: Half, coreMHz: Byte)
    requires Orderly(h)
    ensures Orderly(Init(d, h, freqKHz, coreMHz))
  {
    hide ForceIdle, Divisor;
    var h1 := Then(h, WriteDivisor(Divisor(freqKHz, coreMHz)));
    ClearOrderly(h1);
    ForceOrderly(d, ClearAll(h1));
    ClearOrderly(ForceIdle(d, ClearAll(h1)));
  }

  lemma ClearOrderly(h: History)
    requires Orderly(h)
    ensures Orderly(ClearAll(h))
  {
    assert Orderly(Then(h, WriteStatus(STICKY)));
  }

  // ---------------------------------------------------------------- the frame of start-up

  /** `h1` is a continuation of `h`. */
  predicate Continues(h: History, h1: History)
    decreases h1
  {
    h1 == h || (h1.Then? && Continues(h, h1.past))
  }

  lemma {:induction false} Onwards(h0: History, h1: History, h2: History)
    requires Continues(h0, h1) && Continues(h1, h2)
    ensures Continues(h0, h2)
    decreases h2
  {
    if h2 != h1 { Onwards(h0, h1, h2.past); }
  }

  lemma {:induction false} PolledOnwards(h0: History, h1: History, h2: History)
    requires Continues(h0, h1) && Polled(h1, h2)
    ensures Continues(h0, h2)
    decreases h2
  {
    if h2 != h1 { PolledOnwards(h0, h1, h2.past); }
  }

  lemma ForcedContinues(d: Device, h: History)
    ensures Continues(h, ForcedAt(d, h))
  {
    hide CheckIdleReady, WaitIdleReady, AbortPoll, Polled, Encode;
    CheckPolled(d, h);
    var settled := CheckIdleReady(d, h).h;
    PolledOnwards(h, h, settled);
    CheckPolled(d, settled);
    var check := CheckIdleReady(d, settled).h;
    PolledOnwards(h, settled, check);
    var stopping := CommandStop(d, Then(check, WriteStatus(STICKY)));
    assert Continues(h, Then(check, WriteStatus(STICKY))) && Continues(h, Look(d, Then(check, WriteStatus(STICKY))));
    WaitIdleReadyPolled(d, stopping, POLL_LIMIT);
    PolledOnwards(h, stopping, WaitIdleReady(d, stopping, POLL_LIMIT).h);
    var stopped := TryStop(d, settled);
    CheckPolled(d, stopped);
    var again := CheckIdleReady(d, stopped);
    PolledOnwards(h, stopped, again.h);
    var aborted := Then(again.h, WriteCommand(Encode(Abort)));
    AbortPolled(d, aborted, POLL_LIMIT);
    PolledOnwards(h, aborted, AbortToIdle(d, again.h));
  }

  lemma ForceContinues(d: Device, h: History)
    ensures Continues(h, ForceIdle(d, h))
  {
    hide CheckIdleReady, WaitIdleReady, TryStop, AbortToIdle, Polled;
    CheckPolled(d, h);
    PolledOnwards(h, h, CheckIdleReady(d, h).h);
    ForcedContinues(d, h);
    var last := ForcedAt(d, h);
    WaitIdleReadyPolled(d, last, POLL_LIMIT);
    PolledOnwards(h, last, WaitIdleReady(d, last, POLL_LIMIT).h);
  }

  /** The last two status reads showed ready, and then idle. */
  predicate SawIdle(h: History) {
    && h.Then? && h.last.ReadStatus? && (h.last.value / 0x02) % 2 == 1
    && h.past.Then? && h.past.last.ReadStatus? && h.past.last.value % 2 == 1
  }

  lemma {:induction false} WaitEnds(d: Device, h: History, n: nat)
    ensures SawIdle(WaitIdleReady(d, h, n).h) || Polls(WaitIdleReady(d, h, n).h) >= Polls(h) + n
    decreases n
  {
    if n == 0 {
    } else if !Ready(Seen(d, h)) {
      WaitEnds(d, Look(d, h), n - 1);
    } else if !BusIdle(Seen(d, Look(d, h))) {
      WaitEnds(d, Look(d, Look(d, h)), n - 1);
      assert Polls(Look(d, Look(d, h))) == Polls(h) + 2;
    }
  }

  lemma {:induction false} MorePolls(h: History, h1: History)
    requires Continues(h, h1)
    ensures Polls(h) <= Polls(h1)
    decreases h1
  {
    if h1 != h { MorePolls(h, h1.past); }
  }

  /** On any device recovery ends by seeing the engine ready and idle, or only after 200000 status reads. */
  lemma RecoveryEnds(d: Device, h: History)
    ensures SawIdle(ForceIdle(d, h)) || Polls(ForceIdle(d, h)) >= Polls(h) + 200_000
  {
    hide TryStop, AbortToIdle, WaitIdleReady, Polls, Continues;
    var settled := CheckIdleReady(d, h);
    if settled.ok {
      assert SawIdle(Look(d, Look(d, h)));
    } else {
      ForcedContinues(d, h);
      MorePolls(h, ForcedAt(d, h));
      WaitEnds(d, ForcedAt(d, h), POLL_LIMIT);
    }
  }

  /** The history with all results and all faults cleared. */
  function Wiped(h: History): History { Then(Then(h, WriteStatus(0x7C)), WriteFault(0x0E)) }

  /**
   Start-up sets the clock and wipes both registers before anything else is looked at, and wipes them again at
   its end.
   */
  lemma InitFrame(d: Device, h: History, freqKHz: Half, coreMHz: Byte)
    ensures exists divisor, last ::
              Init(d, h, freqKHz, coreMHz) == Wiped(last) && Continues(Wiped(Then(h, WriteDivisor(divisor))), last)
  {
    hide ForceIdle, Divisor, Continues;
    var divisor := Divisor(freqKHz, coreMHz);
    var wiped := Wiped(Then(h, WriteDivisor(divisor)));
    ForceContinues(d, wiped);
    assert Init(d, h, freqKHz, coreMHz) == Wiped(ForceIdle(d, wiped));
  }

  // ---------------------------------------------------------------- sessions

  lemma CallOrderly(d: Device, h: History, call: Call)
    requires Orderly(h) && Returns(d, h, call)
    ensures Orderly(RunCall(d, h, call))
  {
    hide Init, Transact, Orderly, Text.StringPlan;
    match call
    case Setup(freqKHz, coreMHz) => InitOrderly(d, h, freqKHz, coreMHz);
    case TxString(slave, msg, budget) => TransactOrderly(d, h, Text.StringPlan(slave, msg, budget), []);
    case Tx(slave, tx) => TransactOrderly(d, h, TxPlan(slave, tx), []);
    case Rx(slave, n) => TransactOrderly(d, h, RxPlan(slave, n), []);
    case TxRx(slave, tx, n) => TransactOrderly(d, h, TxRxPlan(slave, tx, n), []);
  }

  /** On every device, whatever it shows, any session keeps to that order. */
  lemma {:induction false} SessionOrderly(d: Device, h: History, calls: seq<Call>)
    requires Orderly(h) && AllReturn(d, h, calls)
    ensures Orderly(RunCalls(d, h, calls))
    decreases |calls|
  {
    hide RunCall, Orderly;
    if calls != [] {
      CallOrderly(d, h, calls[0]);
      SessionOrderly(d, RunCall(d, h, calls[0]), calls[1..]);
    }
  }
}
