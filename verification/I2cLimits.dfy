/**
 Where the eight-bit counters of the transmit functions run out: a device on which the NACK of data
 byte 253 goes unnoticed, and one on which an unterminated string is sent for ever.
 */
module I2cLimits {
  import opened MachineWords
  import opened I2cRegisters
  import opened I2cProtocol
  import opened I2cTranscript
  import opened I2cTransactions
  import opened I2cGuarantees

  /**
   A device that is always prompt, has data for every read and acknowledges every write, except the
   operation with index `refused` in the transcript.
   */
  function Scripted(refused: int): Device {
    (h, reg) =>
      var v := ViewOf(h);
      if v.ops != [] && v.ops[|v.ops| - 1].cmd == Cmd.Stop then 0x03
      else if v.current.Open? && |v.ops| == refused then 0x3D
      else 0x2D
  }

  /** The bus is taken, nothing is outstanding. */
  ghost predicate Underway(h: History) {
    Quiet(h) && ViewOf(h).ops != [] && ViewOf(h).ops[|ViewOf(h).ops| - 1].cmd != Cmd.Stop
  }

  lemma Script(refused: int, h: History)
    requires ViewOf(h).ops == [] || ViewOf(h).ops[|ViewOf(h).ops| - 1].cmd != Cmd.Stop
    ensures Seen(Scripted(refused), h)
         == if ViewOf(h).current.Open? && |ViewOf(h).ops| == refused then 0x3D else 0x2D
  {
  }

  lemma ScriptStopped(refused: int, h: History)
    requires ViewOf(h).ops != [] && ViewOf(h).ops[|ViewOf(h).ops| - 1].cmd == Cmd.Stop
    ensures Seen(Scripted(refused), h) == 0x03
  {
  }

  /** The polling before a command, and the command itself, on a scripted device. */
  lemma ScriptedIssue(refused: int, h: History, ph: Phase) returns (issued: History)
    requires Quiet(h) && ValidPhase(ph)
    requires ViewOf(h).ops == [] || Underway(h)
    ensures RunPhase(Scripted(refused), h, ph) == Conclude(Scripted(refused), issued, ph)
    ensures ViewOf(issued).ops == if ph.cmd.Write? || ph.cmd.Read? then ViewOf(h).ops else ViewOf(h).ops + [Op(ph.cmd, Plain)]
    ensures ViewOf(issued).current == if ph.cmd.Write? || ph.cmd.Read? then Open(ph.cmd, AwaitDone) else Closed
  {
    hide Scripted, ViewOf, Conclude;
    var d := Scripted(refused);
    Script(refused, h);
    WaitReadyView(d, h, POLL_LIMIT);
    var h1 := Look(d, h);
    assert WaitReady(d, h, POLL_LIMIT) == Wait(h1, true);
    IssueView(d, h1, ph.cmd);
    var staged := Stage(Then(h1, WriteStatus(STICKY)), ph.cmd);
    StagedView(h1, ph.cmd);
    Script(refused, staged);
    issued := Then(Look(d, staged), WriteCommand(Encode(ph.cmd)));
  }

  lemma StagedView(h: History, cmd: Cmd)
    ensures ViewOf(Stage(Then(h, WriteStatus(STICKY)), cmd)) ==
            ViewOf(h).(staged := if cmd.Write? then cmd.data else ViewOf(h).staged)
  {
    assert ViewOf(Then(h, WriteStatus(STICKY))) == ViewOf(h);
  }

  lemma ScriptedFrame(refused: int, h: History, cmd: Cmd)
    requires Quiet(h) && (cmd.Start? || cmd.Restart? || cmd.Stop?)
    requires ViewOf(h).ops == [] || Underway(h)
    ensures var s := RunPhase(Scripted(refused), h, Phase(cmd, ERR_CMD));
            s.code == TX_OK && s.rx == [] && Quiet(s.h) && ViewOf(s.h).ops == ViewOf(h).ops + [Op(cmd, Plain)]
  {
    hide Scripted, ViewOf, RunPhase;
    var d := Scripted(refused);
    var h1 := ScriptedIssue(refused, h, Phase(cmd, ERR_CMD));
    FrameView(d, h1, Phase(cmd, ERR_CMD));
    if cmd.Stop? { StopConcludes(refused, h1); } else { StartConcludes(refused, h1, cmd); }
  }

  lemma StartConcludes(refused: int, h: History, cmd: Cmd)
    requires Underway(h) && (cmd.Start? || cmd.Restart?)
    ensures Conclude(Scripted(refused), h, Phase(cmd, ERR_CMD)).code == TX_OK
  {
    hide Scripted, ViewOf;
    var d := Scripted(refused);
    Script(refused, h);
    assert WaitReady(d, h, POLL_LIMIT) == Wait(Look(d, h), true);
    QuietLook(d, h);
    Script(refused, Look(d, h));
  }

  lemma StopConcludes(refused: int, h: History)
    requires Quiet(h) && ViewOf(h).ops != [] && ViewOf(h).ops[|ViewOf(h).ops| - 1].cmd == Cmd.Stop
    ensures Conclude(Scripted(refused), h, STOP).code == TX_OK
  {
    hide Scripted, ViewOf, WaitIdleReady;
    var d := Scripted(refused);
    ScriptStopped(refused, h);
    QuietLook(d, h);
    ScriptStopped(refused, Look(d, h));
    IdleAtOnce(d, h, POLL_LIMIT);
  }

  lemma QuietLook(d: Device, h: History)
    requires Quiet(h)
    ensures ViewOf(Look(d, h)) == ViewOf(h)
  {
  }

  lemma IdleAtOnce(d: Device, h: History, n: nat)
    requires n > 0 && Seen(d, h) == 0x03 && Seen(d, Look(d, h)) == 0x03
    ensures WaitIdleReady(d, h, n).ok
  {
  }

  lemma ScriptedWrite(refused: int, h: History, b: Byte, nackCode: Byte)
    requires Underway(h)
    ensures var s := RunPhase(Scripted(refused), h, Phase(Cmd.Write(b), nackCode));
            var ops := ViewOf(h).ops;
            var refuse := |ops| == refused;
            s.code == (if refuse then nackCode else TX_OK) && s.rx == [] && Underway(s.h) &&
            ViewOf(s.h).ops == ops + [Op(Cmd.Write(b), if refuse then Nacked else Acked)]
  {
    hide Scripted, ViewOf, RunPhase, WaitCycle, AckValid, AckHigh;
    var d, ph := Scripted(refused), Phase(Cmd.Write(b), nackCode);
    var h1 := ScriptedIssue(refused, h, ph);
    DoneAtOnce(refused, h1);
    WaitCycleView(d, h1, POLL_LIMIT);
    var h2 := Look(d, h1);
    Script(refused, h2);
    ScriptBits(Seen(d, h2));
    LookView(d, h2);
  }

  lemma ScriptBits(w: Word)
    requires w == 0x2D || w == 0x3D
    ensures Ready(w) && !BusIdle(w) && Done(w) && AckValid(w) && (AckHigh(w) <==> w == 0x3D)
    ensures ReadValid(w) && !CmdIllegal(w)
  {
  }

  lemma DoneAtOnce(refused: int, h: History)
    requires ViewOf(h).ops != [] && ViewOf(h).ops[|ViewOf(h).ops| - 1].cmd != Cmd.Stop
    ensures WaitCycle(Scripted(refused), h, POLL_LIMIT) == Wait(Look(Scripted(refused), h), true)
  {
    hide Scripted, ViewOf, Done, CmdIllegal;
    Script(refused, h);
    ScriptBits(Seen(Scripted(refused), h));
  }

  lemma ScriptedRead(refused: int, h: History, last: bool)
    requires Underway(h)
    ensures var s := RunPhase(Scripted(refused), h, Phase(Cmd.Read(last), ERR_CMD));
            s.code == TX_OK && Underway(s.h) && |ViewOf(s.h).ops| == |ViewOf(h).ops| + 1
  {
    hide Scripted, ViewOf, RunPhase, WaitCycle, ReadValid;
    var d, ph := Scripted(refused), Phase(Cmd.Read(last), ERR_CMD);
    var h1 := ScriptedIssue(refused, h, ph);
    DoneAtOnce(refused, h1);
    WaitCycleView(d, h1, POLL_LIMIT);
    Script(refused, Look(d, h1));
    ScriptBits(Seen(d, Look(d, h1)));
    ReadView(d, h1, ph);
  }

  // ---------------------------------------------------------------- the code that wraps

  lemma ScriptedFinish(refused: int, h: History, got: seq<Byte>)
    requires Underway(h)
    ensures Transact(Scripted(refused), h, FINISH, got).code == TX_OK
  {
    hide RunPhase, Scripted;
    ScriptedFrame(refused, h, Cmd.Stop);
    Advance(Scripted(refused), h, STOP, End, got);
    Finished(Scripted(refused), RunPhase(Scripted(refused), h, STOP).h, got);
  }

  lemma {:induction false} ScriptedFetch(refused: int, h: History, i: nat, n: nat, got: seq<Byte>)
    requires Underway(h) && i <= n
    ensures Transact(Scripted(refused), h, FetchFrom(i, n, FINISH), got).code == TX_OK
    decreases n - i
  {
    hide RunPhase, Transact, Scripted, ViewOf;
    if i == n {
      ScriptedFinish(refused, h, got);
    } else {
      ScriptedRead(refused, h, i + 1 == n);
      Advance(Scripted(refused), h, Fetch(i, n), FetchFrom(i + 1, n, FINISH), got);
      var s := RunPhase(Scripted(refused), h, Fetch(i, n));
      ScriptedFetch(refused, s.h, i + 1, n, got + s.rx);
    }
  }

  /** Whatever follows the data bytes succeeds, as long as the second address byte is not the one refused. */
  lemma ScriptedReadBack(refused: int, h: History, slave: Byte, n: nat)
    requires Underway(h) && (n > 0 ==> |ViewOf(h).ops| + 1 != refused)
    ensures Transact(Scripted(refused), h, ReadBack(slave, n), []).code == TX_OK
  {
    hide RunPhase, Transact, Scripted, ViewOf;
    if n == 0 {
      ScriptedFinish(refused, h, []);
    } else {
      var d, address, fetches := Scripted(refused), AddrRead(slave), FetchFrom(0, n, FINISH);
      ScriptedFrame(refused, h, Cmd.Restart);
      Advance(d, h, RESTART, Next(Address(address), fetches), []);
      var h1 := RunPhase(d, h, RESTART).h;
      ScriptedWrite(refused, h1, address, ERR_ADDR_NACK);
      Advance(d, h1, Address(address), fetches, []);
      ScriptedFetch(refused, RunPhase(d, h1, Address(address)).h, 0, n, []);
    }
  }

  /** The refusal of data byte 253 does not stop the transmission. */
  lemma {:induction false} SendPastRefusal(h: History, slave: Byte, tx: seq<Byte>, n: nat, i: nat)
    requires Underway(h) && |ViewOf(h).ops| == 2 + i && i <= |tx| <= 255 && (n > 0 ==> |tx| != 252)
    ensures var out := Transact(Scripted(255), h, SendFrom(tx, i, ReadBack(slave, n)), []);
            && out.code == TX_OK
            && (i <= 253 < |tx| ==> |Ops(out.h)| > 255 && Ops(out.h)[255] == Op(Cmd.Write(tx[253]), Nacked))
    decreases |tx| - i
  {
    hide RunPhase, Transact, Scripted, ViewOf;
    if i == |tx| {
      ScriptedReadBack(255, h, slave, n);
    } else {
      var d, ph, rest := Scripted(255), Datum(tx, i), SendFrom(tx, i + 1, ReadBack(slave, n));
      CodeWrapsAt253(i);
      ScriptedWrite(255, h, tx[i], NackCode(i));
      Advance(d, h, ph, rest, []);
      var s := RunPhase(d, h, ph);
      SendPastRefusal(s.h, slave, tx, n, i + 1);
      if i == 253 {
        BodyRuns(d, s.h, rest, []);
        assert Ops(s.h)[255] == Op(Cmd.Write(tx[253]), Nacked);
      }
    }
  }

  /** Reaching the data bytes on a scripted device, from power-up. */
  lemma ScriptedOpening(refused: int, address: Byte, rest: Plan) returns (h: History)
    requires refused > 1 || refused < 0
    requires ValidPlan(rest)
    ensures Underway(h) && |ViewOf(h).ops| == 2
    ensures Transact(Scripted(refused), Boot, Addressed(address, rest), []) == Transact(Scripted(refused), h, rest, [])
  {
    hide RunPhase, Transact, Scripted;
    var d := Scripted(refused);
    ScriptedFrame(refused, Boot, Cmd.Start);
    var h1 := RunPhase(d, Boot, START).h;
    Advance(d, Boot, START, Next(Address(address), rest), []);
    ScriptedWrite(refused, h1, address, ERR_ADDR_NACK);
    h := RunPhase(d, h1, Address(address)).h;
    Advance(d, h1, Address(address), rest, []);
  }

  ghost predicate SuccessMeansAcked(slave: Byte, tx: seq<Byte>, n: nat) {
    forall d: Device, h: History ::
      var out := Transact(d, h, TxRxPlan(slave, tx, n), []);
      Quiet(h) && out.code == TX_OK ==> AllAcked(Since(h, out.h))
  }

  /**
   Success means that every byte was acknowledged exactly for messages of at most 253 data bytes,
   whether anything is read back or not.  From 254 on there is a device that refuses data byte 253
   and still gets the OK code returned.
   */
  lemma AckedIffShort(slave: Byte, tx: seq<Byte>, n: nat)
    requires |tx| <= 255
    ensures SuccessMeansAcked(slave, tx, n) <==> |tx| <= 253
  {
    hide Transact, Scripted;
    if |tx| <= 253 {
      forall d: Device, h: History | Quiet(h) && Transact(d, h, TxRxPlan(slave, tx, n), []).code == TX_OK
        ensures AllAcked(Since(h, Transact(d, h, TxRxPlan(slave, tx, n), []).h))
      {
        TxRxAcked(d, h, slave, tx, n);
      }
    } else {
      var d, plan := Scripted(255), TxRxPlan(slave, tx, n);
      var h := ScriptedOpening(255, AddrWrite(slave), SendFrom(tx, 0, ReadBack(slave, n)));
      SendPastRefusal(h, slave, tx, n, 0);
      var out := Transact(d, Boot, plan, []);
      assert Since(Boot, out.h) == Ops(out.h);
      assert Quiet(Boot) && out.code == TX_OK && !AllAcked(Since(Boot, out.h));
    }
  }
}
