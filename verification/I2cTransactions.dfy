/**
 Whole transactions, on every device whatever its registers return: which commands are issued,
 what the returned code and bytes mean, and how many status reads they can cost.
 */
module I2cTransactions {
  import opened MachineWords
  import opened I2cRegisters
  import opened I2cProtocol
  import opened I2cTranscript

  function Phases(plan: Plan): seq<Phase> {
    match plan
    case End => []
    case Next(ph, rest) => [ph] + Phases(rest)
  }

  /** What was issued between two points of a run. */
  function Since(h0: History, h1: History): seq<Op> {
    if |Ops(h0)| <= |Ops(h1)| then Ops(h1)[|Ops(h0)|..] else []
  }

  ghost predicate Follows(h0: History, h1: History) { Ops(h1) == Ops(h0) + Since(h0, h1) }

  /** The bytes the device reported for read commands, in order. */
  function Received(ops: seq<Op>): seq<Byte> {
    if ops == [] then []
    else (if ops[0].report.Got? then [ops[0].report.value] else []) + Received(ops[1..])
  }

  /** The command of a phase was issued and the driver went on to the next one. */
  predicate Answered(ph: Phase, op: Op) {
    op.cmd == ph.cmd &&
    match ph.cmd
    case Write(_) => op.report == Acked || (op.report == Nacked && ph.nackCode == TX_OK)
    case Read(_) => op.report.Got?
    case _ => op.report == Plain
  }

  /** The error code of a transaction whose last command before the abort was this one. */
  function Fault(ph: Phase, op: Op): Byte {
    if op.report == Nacked && ph.nackCode != TX_OK then ph.nackCode else ERR_CMD
  }

  /** Every phase was carried out, in order. */
  ghost predicate Ran(ps: seq<Phase>, ops: seq<Op>) {
    |ops| == |ps| && forall j :: 0 <= j < |ps| ==> Answered(ps[j], ops[j])
  }

  /** Some phases were carried out, at most one more was issued and failed, and then came one ABORT. */
  ghost predicate CutShort(ps: seq<Phase>, ops: seq<Op>, code: Byte) {
    && 0 < |ops| <= |ps| + 1
    && ops[|ops| - 1] == ABORTED
    && (forall j :: 0 <= j < |ops| - 1 ==> ops[j].cmd == ps[j].cmd)
    && (forall j :: 0 <= j < |ops| - 2 ==> Answered(ps[j], ops[j]))
    && code != TX_OK
    && code == if |ops| == 1 then ERR_CMD else Fault(ps[|ops| - 2], ops[|ops| - 2])
  }

  lemma RanCons(ph: Phase, ps: seq<Phase>, op: Op, ops: seq<Op>)
    requires Answered(ph, op) && Ran(ps, ops)
    ensures Ran([ph] + ps, [op] + ops)
  {
  }

  lemma CutShortCons(ph: Phase, ps: seq<Phase>, op: Op, ops: seq<Op>, code: Byte)
    requires Answered(ph, op) && CutShort(ps, ops, code)
    ensures CutShort([ph] + ps, [op] + ops, code)
  {
    var all, done := [ph] + ps, [op] + ops;
    assert forall j :: 0 < j < |done| ==> done[j] == ops[j - 1];
    assert forall j :: 0 < j < |all| ==> all[j] == ps[j - 1];
  }

  ghost predicate NoStart(plan: Plan) {
    plan.Next? ==> !plan.phase.cmd.Start? && NoStart(plan.rest)
  }

  /** The part of a transaction after START, when it completes. */
  lemma {:induction false} BodyRuns(d: Device, h: History, plan: Plan, got: seq<Byte>)
    requires Quiet(h) && ValidPlan(plan)
    requires Transact(d, h, plan, got).code == TX_OK
    ensures var out := Transact(d, h, plan, got);
            && Quiet(out.h) && Follows(h, out.h)
            && Ran(Phases(plan), Since(h, out.h))
            && out.rx == got + Received(Since(h, out.h))
    decreases plan
  {
    hide RunPhase, Transact, Ops, ViewOf;
    if plan.End? {
      Finished(d, h, got);
    } else {
      var ph, rest := plan.phase, plan.rest;
      PhaseView(d, h, ph);
      Advance(d, h, ph, rest, got);
      var s := RunPhase(d, h, ph);
      BodyRuns(d, s.h, rest, got + s.rx);
      Glue(h, s.h, Transact(d, h, plan, got).h, Op(ph.cmd, Answer(s.h)));
      RanCons(ph, Phases(rest), Op(ph.cmd, Answer(s.h)), Since(s.h, Transact(d, h, plan, got).h));
    }
  }

  lemma Finished(d: Device, h: History, got: seq<Byte>)
    ensures Transact(d, h, End, got) == Outcome(h, TX_OK, got)
    ensures Follows(h, h) && Since(h, h) == []
  {
  }

  lemma Glue(h0: History, h1: History, h2: History, op: Op)
    requires Ops(h1) == Ops(h0) + [op] && Follows(h1, h2)
    ensures Follows(h0, h2) && Since(h0, h2) == [op] + Since(h1, h2)
    ensures Received(Since(h0, h2)) == (if op.report.Got? then [op.report.value] else []) + Received(Since(h1, h2))
  {
    hide Ops, Received;
    assert Ops(h2) == Ops(h0) + ([op] + Since(h1, h2));
    assert Since(h0, h2) == [op] + Since(h1, h2);
    ReceivedOne(op, Since(h1, h2));
  }

  lemma ReceivedOne(op: Op, ops: seq<Op>)
    ensures Received([op] + ops) == (if op.report.Got? then [op.report.value] else []) + Received(ops)
  {
    assert ([op] + ops)[1..] == ops;
  }

  lemma BrokenAtOnce(ph: Phase, ps: seq<Phase>, report: Report, s: Step)
    requires ValidPhase(ph) && s.code != TX_OK && CodeMatches(ph, report, s)
    ensures CutShort([ph] + ps, [Op(ph.cmd, report), ABORTED], s.code)
    ensures Received([Op(ph.cmd, report), ABORTED]) == []
  {
    assert [Op(ph.cmd, report), ABORTED][1..] == [ABORTED];
    assert Received([ABORTED]) == [];
  }

  lemma NotIssued(ps: seq<Phase>)
    ensures CutShort(ps, [ABORTED], ERR_CMD)
  {
  }

  /** The part of a transaction after START, when it fails: it always ends in exactly one ABORT. */
  lemma {:induction false} BodyBreaks(d: Device, h: History, plan: Plan, got: seq<Byte>)
    requires Quiet(h) && ValidPlan(plan) && NoStart(plan)
    requires Transact(d, h, plan, got).code != TX_OK
    ensures var out := Transact(d, h, plan, got);
            && Quiet(out.h) && Follows(h, out.h)
            && CutShort(Phases(plan), Since(h, out.h), out.code)
            && out.rx == got + Received(Since(h, out.h))
    decreases plan
  {
    hide RunPhase, Transact, Ops, ViewOf, CutShort, Since, Follows, CodeMatches, Received;
    if plan.End? {
      Finished(d, h, got);
    } else {
      var ph, rest := plan.phase, plan.rest;
      PhaseView(d, h, ph);
      Advance(d, h, ph, rest, got);
      var s := RunPhase(d, h, ph);
      var out := Transact(d, h, plan, got);
      if s.code != TX_OK {
        BreaksHere(d, h, ph, Phases(rest));
      } else {
        BodyBreaks(d, s.h, rest, got + s.rx);
        Onward(d, h, ph, out.h);
        CutShortCons(ph, Phases(rest), Op(ph.cmd, Answer(s.h)), Since(s.h, out.h), out.code);
      }
    }
  }

  /** A phase that succeeds adds one answered command, and the bytes it received. */
  lemma Onward(d: Device, h: History, ph: Phase, end: History)
    requires Quiet(h) && ValidPhase(ph)
    requires RunPhase(d, h, ph).code == TX_OK && Follows(RunPhase(d, h, ph).h, end)
    ensures var s := RunPhase(d, h, ph);
            var op := Op(ph.cmd, Answer(s.h));
            && Answered(ph, op) && Follows(h, end)
            && Since(h, end) == [op] + Since(s.h, end)
            && Received(Since(h, end)) == s.rx + Received(Since(s.h, end))
  {
    hide RunPhase, Ops, ViewOf;
    PhaseView(d, h, ph);
    var s := RunPhase(d, h, ph);
    Glue(h, s.h, end, Op(ph.cmd, Answer(s.h)));
  }

  /** A phase that fails, followed by the abort. */
  lemma BreaksHere(d: Device, h: History, ph: Phase, ps: seq<Phase>)
    requires Quiet(h) && ValidPhase(ph) && RunPhase(d, h, ph).code != TX_OK
    ensures var s := RunPhase(d, h, ph);
            var end := AbortToIdle(d, s.h);
            && Quiet(end) && Follows(h, end) && Received(Since(h, end)) == []
            && CutShort([ph] + ps, Since(h, end), s.code)
            && Since(h, end) == (if s.issued then [Op(ph.cmd, Answer(s.h)), ABORTED] else [ABORTED])
  {
    hide RunPhase, ViewOf, CutShort, Received, CodeMatches;
    PhaseView(d, h, ph);
    var s := RunPhase(d, h, ph);
    AbortOps(d, s.h);
    if s.issued {
      Glue(h, s.h, AbortToIdle(d, s.h), Op(ph.cmd, Answer(s.h)));
      assert Since(h, AbortToIdle(d, s.h)) == [Op(ph.cmd, Answer(s.h)), ABORTED];
      BrokenAtOnce(ph, ps, Answer(s.h), s);
    } else {
      NotIssued([ph] + ps);
    }
  }

  lemma AbortOps(d: Device, h: History)
    ensures Quiet(AbortToIdle(d, h)) && Follows(h, AbortToIdle(d, h)) && Since(h, AbortToIdle(d, h)) == [ABORTED]
    ensures Received([ABORTED]) == []
  {
    AbortView(d, h);
    assert Ops(AbortToIdle(d, h)) == Ops(h) + [ABORTED];
  }

  /** Nothing at all was issued: the engine never became ready for START. */
  ghost predicate Declined(ops: seq<Op>, out: Outcome) {
    ops == [] && out.code == ERR_CMD && out.rx == []
  }

  ghost predicate Opening(plan: Plan) {
    plan.Next? && plan.phase == START && ValidPlan(plan) && NoStart(plan.rest)
  }

  /**
   Any transaction on any device: it runs all its phases; or it declines to start; or it is cut
   short, and then exactly one ABORT follows.  Either way the bytes handed back are those reported.
   */
  lemma Transaction(d: Device, h: History, plan: Plan)
    requires Quiet(h) && Opening(plan)
    ensures var out := Transact(d, h, plan, []);
            var ops := Since(h, out.h);
            && Quiet(out.h) && Follows(h, out.h) && out.rx == Received(ops)
            && (out.code == TX_OK ==> Ran(Phases(plan), ops))
            && (out.code != TX_OK ==> Declined(ops, out) || (|ops| >= 2 && CutShort(Phases(plan), ops, out.code)))
  {
    hide RunPhase, Transact, Ops, ViewOf, CutShort, Since, Follows, CodeMatches;
    var out := Transact(d, h, plan, []);
    if out.code == TX_OK {
      BodyRuns(d, h, plan, []);
    } else {
      PhaseView(d, h, START);
      Advance(d, h, START, plan.rest, []);
      var s := RunPhase(d, h, START);
      if s.code == TX_OK {
        BodyBreaks(d, s.h, plan.rest, []);
        Onward(d, h, START, out.h);
        AtLeastAbort(Phases(plan.rest), Since(s.h, out.h), out.code);
        CutShortCons(START, Phases(plan.rest), Op(Cmd.Start, Answer(s.h)), Since(s.h, out.h), out.code);
      } else if s.issued {
        BreaksHere(d, h, START, Phases(plan.rest));
      } else {
        NothingSince(h, s.h);
      }
    }
  }

  lemma AtLeastAbort(ps: seq<Phase>, ops: seq<Op>, code: Byte)
    requires CutShort(ps, ops, code)
    ensures |ops| >= 1
  {
  }

  lemma NothingSince(h0: History, h1: History)
    requires Ops(h1) == Ops(h0)
    ensures Follows(h0, h1) && Since(h0, h1) == []
  {
  }
}
