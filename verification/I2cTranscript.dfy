/**
 What an observer of the register port can say about a run: the commands issued, in order, and
 what the device reported for each.  Nothing here refers to the driver or to a model of the engine.
 */
module I2cTranscript {
  import opened MachineWords
  import opened I2cRegisters
  import opened I2cProtocol

  datatype Report =
    | Plain                 // START, RESTART, STOP and ABORT carry no result
    | Acked | Nacked | NoAck
    | Got(value: Byte) | NoData
    | Illegal | Unanswered

  datatype Op = Op(cmd: Cmd, report: Report)

  const ABORTED: Op := Op(Abort, Plain)

  datatype Awaiting = AwaitDone | AwaitResult | AwaitData

  /** The last command, if its result is still to be seen. */
  datatype Current = Closed | Open(cmd: Cmd, stage: Awaiting)

  datatype View = View(staged: Byte, ops: seq<Op>, current: Current)

  function Close(v: View, report: Report): View
    requires v.current.Open?
  {
    v.(ops := v.ops + [Op(v.current.cmd, report)], current := Closed)
  }

  function Settle(v: View): View {
    if v.current.Open? then Close(v, Unanswered) else v
  }

  function Issue(v: View, cmd: Cmd): View
    requires v.current.Closed?
  {
    if cmd.Write? || cmd.Read? then v.(current := Open(cmd, AwaitDone))
    else v.(ops := v.ops + [Op(cmd, Plain)])
  }

  function AckReport(w: Word): Report {
    if !AckValid(w) then NoAck else if AckHigh(w) then Nacked else Acked
  }

  function ObserveStatus(v: View, w: Word): View {
    match v.current
    case Open(_, AwaitDone) =>
      if CmdIllegal(w) then Close(v, Illegal)
      else if Done(w) then v.(current := Open(v.current.cmd, AwaitResult))
      else v
    case Open(Write(_), AwaitResult) =>
      Close(v, AckReport(w))
    case Open(_, AwaitResult) =>
      if ReadValid(w) then v.(current := Open(v.current.cmd, AwaitData)) else Close(v, NoData)
    case _ => v
  }

  function Observe(v: View, a: Access): View {
    match a
    case WriteTx(b) => v.(staged := b)
    case WriteCommand(w) => Issue(Settle(v), Decode(w, v.staged))
    case ReadStatus(w) => ObserveStatus(v, w)
    case ReadRx(w) => if v.current.Open? && v.current.stage == AwaitData then Close(v, Got(LowByte(w))) else v
    case _ => v
  }

  function ViewOf(h: History): View {
    match h
    case Boot => View(0, [], Closed)
    case Then(past, last) => Observe(ViewOf(past), last)
  }

  /** No command is waiting for its result. */
  predicate Quiet(h: History) { ViewOf(h).current.Closed? }

  /** The transcript of everything issued so far. */
  function Ops(h: History): seq<Op> { Settle(ViewOf(h)).ops }

  lemma LookView(d: Device, h: History)
    ensures ViewOf(Look(d, h)) == ObserveStatus(ViewOf(h), Seen(d, h))
  {
  }

  lemma RxView(h: History, w: Word)
    ensures ViewOf(Then(h, ReadRx(w))) == Observe(ViewOf(h), ReadRx(w))
  {
  }

  // ---------------------------------------------------------------- waits leave a quiet view alone

  lemma {:induction false} WaitReadyView(d: Device, h: History, n: nat)
    requires Quiet(h)
    ensures ViewOf(WaitReady(d, h, n).h) == ViewOf(h)
    decreases n
  {
    if n > 0 && !Ready(Seen(d, h)) { WaitReadyView(d, Look(d, h), n - 1); }
  }

  lemma {:induction false} WaitIdleReadyView(d: Device, h: History, n: nat)
    requires Quiet(h)
    ensures ViewOf(WaitIdleReady(d, h, n).h) == ViewOf(h)
    decreases n
  {
    if n == 0 {
    } else if !Ready(Seen(d, h)) {
      WaitIdleReadyView(d, Look(d, h), n - 1);
    } else {
      assert ViewOf(Look(d, Look(d, h))) == ViewOf(h);
      if !BusIdle(Seen(d, Look(d, h))) { WaitIdleReadyView(d, Look(d, Look(d, h)), n - 1); }
    }
  }

  lemma {:induction false} AbortPollView(d: Device, h: History, n: nat)
    requires Quiet(h)
    ensures ViewOf(AbortPoll(d, h, n)) == ViewOf(h)
    decreases n
  {
    if n == 0 {
    } else if !BusIdle(Seen(d, h)) {
      AbortPollView(d, Look(d, h), n - 1);
    } else {
      assert ViewOf(Look(d, Look(d, h))) == ViewOf(h);
      if !Ready(Seen(d, Look(d, h))) { AbortPollView(d, Look(d, Look(d, h)), n - 1); }
    }
  }

  /** Waiting for a byte command ends with DONE seen, with the command refused, or still unanswered. */
  lemma {:induction false} WaitCycleView(d: Device, h: History, n: nat)
    requires ViewOf(h).current.Open? && ViewOf(h).current.stage == AwaitDone
    ensures var w := WaitCycle(d, h, n);
            var v := ViewOf(h);
            ViewOf(w.h) ==
            if w.ok then v.(current := Open(v.current.cmd, AwaitResult))
            else if ViewOf(w.h).current.Open? then v
            else Close(v, Illegal)
    decreases n
  {
    if n > 0 && !CmdIllegal(Seen(d, h)) && !Done(Seen(d, h)) { WaitCycleView(d, Look(d, h), n - 1); }
  }

  lemma AbortView(d: Device, h: History)
    ensures Quiet(AbortToIdle(d, h))
    ensures ViewOf(AbortToIdle(d, h)).ops == Ops(h) + [Op(Abort, Plain)]
  {
    var aborted := Then(h, WriteCommand(Encode(Abort)));
    DecodeEncode(Abort, ViewOf(h).staged);
    AbortPollView(d, aborted, POLL_LIMIT);
  }

  // ---------------------------------------------------------------- one phase

  /** The code a phase returns is decided by what the device reported for its command. */
  predicate CodeMatches(ph: Phase, report: Report, s: Step) {
    match ph.cmd
    case Write(_) =>
      !report.Got? && s.rx == [] && s.code == (if report == Acked then TX_OK else if report == Nacked then ph.nackCode else ERR_CMD)
    case Read(_) =>
      report != Nacked && report != Acked && (report.Got? ==> s.code == TX_OK && s.rx == [report.value]) &&
      (!report.Got? ==> s.code == ERR_CMD && s.rx == [])
    case _ => report == Plain && s.rx == [] && (s.code == TX_OK || s.code == ERR_CMD)
  }

  /** What was reported for the most recent command. */
  function Answer(h: History): Report {
    var ops := Ops(h);
    if ops == [] then Plain else ops[|ops| - 1].report
  }

  /** From the end of a quiet wait to the command word. */
  lemma IssueView(d: Device, h: History, cmd: Cmd)
    requires Quiet(h) && !cmd.Unknown?
    ensures var staged := Stage(Then(h, WriteStatus(STICKY)), cmd);
            var v := ViewOf(h).(staged := if cmd.Write? then cmd.data else ViewOf(h).staged);
            && ViewOf(Look(d, staged)) == v
            && ViewOf(Then(Look(d, staged), WriteCommand(Encode(cmd)))) == Issue(v, cmd)
  {
    var v := ViewOf(h).(staged := if cmd.Write? then cmd.data else ViewOf(h).staged);
    var cleared := Then(h, WriteStatus(STICKY));
    assert ViewOf(cleared) == ViewOf(h);
    assert ViewOf(Stage(cleared, cmd)) == v;
    DecodeEncode(cmd, v.staged);
  }

  lemma WriteView(d: Device, h: History, ph: Phase)
    requires ph.cmd.Write? && ViewOf(h).current == Open(ph.cmd, AwaitDone)
    ensures var s := Conclude(d, h, ph);
            var w := WaitCycle(d, h, POLL_LIMIT);
            && (s.code == TX_OK ==> Quiet(s.h))
            && Ops(s.h) == ViewOf(h).ops + [Op(ph.cmd, Answer(s.h))]
            && CodeMatches(ph, Answer(s.h), s)
            && (Answer(s.h) == if w.ok then AckReport(Seen(d, w.h)) else Answer(w.h))
            && (!w.ok ==> Answer(w.h) == Unanswered || Answer(w.h) == Illegal)
  {
    hide ViewOf, WaitCycle;
    WaitCycleView(d, h, POLL_LIMIT);
    LookView(d, WaitCycle(d, h, POLL_LIMIT).h);
  }

  lemma ReadView(d: Device, h: History, ph: Phase)
    requires ph.cmd.Read? && ViewOf(h).current == Open(ph.cmd, AwaitDone)
    ensures var s := Conclude(d, h, ph);
            var w := WaitCycle(d, h, POLL_LIMIT);
            && (s.code == TX_OK ==> Quiet(s.h))
            && Ops(s.h) == ViewOf(h).ops + [Op(ph.cmd, Answer(s.h))]
            && CodeMatches(ph, Answer(s.h), s)
            && (Answer(s.h).Got? ==> w.ok && Answer(s.h).value == LowByte(d(Look(d, w.h), RXDATA)))
  {
    hide ViewOf, WaitCycle;
    WaitCycleView(d, h, POLL_LIMIT);
    var w := WaitCycle(d, h, POLL_LIMIT);
    LookView(d, w.h);
    RxView(Look(d, w.h), d(Look(d, w.h), RXDATA));
  }

  lemma FrameView(d: Device, h: History, ph: Phase)
    requires Quiet(h) && (ph.cmd.Start? || ph.cmd.Restart? || ph.cmd.Stop?)
    ensures var s := Conclude(d, h, ph);
            ViewOf(s.h) == ViewOf(h) && s.issued && s.rx == [] && (s.code == TX_OK || s.code == ERR_CMD)
  {
    if ph.cmd.Stop? { WaitIdleReadyView(d, h, POLL_LIMIT); } else { WaitReadyView(d, h, POLL_LIMIT); }
  }

  lemma ConcludeIssued(d: Device, h: History, ph: Phase)
    requires ValidPhase(ph)
    ensures Conclude(d, h, ph).issued
  {
  }

  /** From the command word to the result of the phase. */
  lemma ConcludeView(d: Device, h: History, ph: Phase, v: View)
    requires ValidPhase(ph) && v.current.Closed? && ViewOf(h) == Issue(v, ph.cmd)
    ensures var s := Conclude(d, h, ph);
            && s.issued && (s.code == TX_OK ==> Quiet(s.h))
            && Ops(s.h) == v.ops + [Op(ph.cmd, Answer(s.h))] && CodeMatches(ph, Answer(s.h), s)
  {
    hide ViewOf, Conclude;
    ConcludeIssued(d, h, ph);
    match ph.cmd
    case Write(_) => WriteView(d, h, ph);
    case Read(_) => ReadView(d, h, ph);
    case Start | Restart | Stop => FrameView(d, h, ph);
  }

  lemma PhaseView(d: Device, h: History, ph: Phase)
    requires Quiet(h) && ValidPhase(ph)
    ensures var s := RunPhase(d, h, ph);
            && (s.code == TX_OK ==> Quiet(s.h) && s.issued)
            && (!s.issued ==> s.code == ERR_CMD && s.rx == [] && Quiet(s.h) && Ops(s.h) == Ops(h))
            && (s.issued ==> Ops(s.h) == Ops(h) + [Op(ph.cmd, Answer(s.h))] && CodeMatches(ph, Answer(s.h), s))
  {
    hide ViewOf, Conclude, WaitReady, Stage, Encode, CodeMatches, Answer, Issue;
    WaitReadyView(d, h, POLL_LIMIT);
    var w := WaitReady(d, h, POLL_LIMIT);
    IssueView(d, w.h, ph.cmd);
    var staged := Stage(Then(w.h, WriteStatus(STICKY)), ph.cmd);
    var v := ViewOf(w.h).(staged := if ph.cmd.Write? then ph.cmd.data else ViewOf(w.h).staged);
    ConcludeView(d, Then(Look(d, staged), WriteCommand(Encode(ph.cmd))), ph, v);
  }
}
