/**
 The promises of the transaction functions, spelled out command by command.  They hold on every
 device, whatever values its registers return.
 */
module I2cGuarantees {
  import opened MachineWords
  import opened I2cRegisters
  import opened I2cProtocol
  import opened I2cTranscript
  import opened I2cTransactions

  function Commands(ops: seq<Op>): (cs: seq<Cmd>)
    ensures |cs| == |ops| && forall i :: 0 <= i < |ops| ==> cs[i] == ops[i].cmd
  {
    seq(|ops|, i requires 0 <= i < |ops| => ops[i].cmd)
  }

  function Writes(tx: seq<Byte>): (cs: seq<Cmd>)
    ensures |cs| == |tx| && forall i :: 0 <= i < |tx| ==> cs[i] == Cmd.Write(tx[i])
  {
    seq(|tx|, i requires 0 <= i < |tx| => Cmd.Write(tx[i]))
  }

  /** Only the last read tells the slave to stop. */
  function Reads(n: nat): (cs: seq<Cmd>)
    ensures |cs| == n && forall i :: 0 <= i < n ==> cs[i] == Cmd.Read(i == n - 1)
  {
    seq(n, i => Cmd.Read(i == n - 1))
  }

  /** The half after the written bytes: turn the bus round and read, if anything is to be read; then STOP. */
  function Answering(slave: Byte, n: nat): seq<Cmd> {
    if n == 0 then [Cmd.Stop] else [Cmd.Restart, Cmd.Write(slave % 0x80 * 2 + 1)] + Reads(n) + [Cmd.Stop]
  }

  /** A combined write-then-read transaction as it should appear on the bus. */
  function Frame(slave: Byte, tx: seq<Byte>, n: nat): seq<Cmd> {
    [Cmd.Start, Cmd.Write(slave % 0x80 * 2)] + Writes(tx) + Answering(slave, n)
  }

  // ---------------------------------------------------------------- plans, flattened

  function Data(tx: seq<Byte>, i: nat): (ps: seq<Phase>)
    requires i <= |tx|
    ensures |ps| == |tx| - i && forall k :: 0 <= k < |ps| ==> ps[k] == Datum(tx, i + k)
  {
    seq(|tx| - i, k requires 0 <= k < |tx| - i => Datum(tx, i + k))
  }

  function Fetches(i: nat, n: nat): (ps: seq<Phase>)
    requires i <= n
    ensures |ps| == n - i && forall k :: 0 <= k < |ps| ==> ps[k] == Fetch(i + k, n)
  {
    seq(n - i, k requires 0 <= k < n - i => Fetch(i + k, n))
  }

  lemma {:induction false} PhasesOfSend(tx: seq<Byte>, i: nat, rest: Plan)
    requires i <= |tx| && ValidPlan(rest)
    ensures Phases(SendFrom(tx, i, rest)) == Data(tx, i) + Phases(rest)
    ensures NoStart(rest) ==> NoStart(SendFrom(tx, i, rest))
    decreases |tx| - i
  {
    if i < |tx| {
      PhasesOfSend(tx, i + 1, rest);
      assert Data(tx, i) == [Datum(tx, i)] + Data(tx, i + 1);
    }
  }

  lemma {:induction false} PhasesOfFetch(i: nat, n: nat, rest: Plan)
    requires i <= n && ValidPlan(rest)
    ensures Phases(FetchFrom(i, n, rest)) == Fetches(i, n) + Phases(rest)
    ensures NoStart(rest) ==> NoStart(FetchFrom(i, n, rest))
    decreases n - i
  {
    if i < n {
      PhasesOfFetch(i + 1, n, rest);
      assert Fetches(i, n) == [Fetch(i, n)] + Fetches(i + 1, n);
    }
  }

  function BackPhases(slave: Byte, n: nat): seq<Phase> {
    if n == 0 then [STOP] else [RESTART, Address(AddrRead(slave))] + Fetches(0, n) + [STOP]
  }

  function TxRxPhases(slave: Byte, tx: seq<Byte>, n: nat): seq<Phase> {
    [START, Address(AddrWrite(slave))] + Data(tx, 0) + BackPhases(slave, n)
  }

  lemma PhasesOfReadBack(slave: Byte, n: nat)
    ensures NoStart(ReadBack(slave, n)) && Phases(ReadBack(slave, n)) == BackPhases(slave, n)
  {
    assert Phases(FINISH) == [STOP] by { assert Phases(End) == []; }
    PhasesOfFetch(0, n, FINISH);
    var fetches := FetchFrom(0, n, FINISH);
    assert Phases(Next(Address(AddrRead(slave)), fetches)) == [Address(AddrRead(slave))] + Phases(fetches);
  }

  lemma PlanPhases(slave: Byte, tx: seq<Byte>, n: nat)
    ensures Opening(TxRxPlan(slave, tx, n))
    ensures Phases(TxRxPlan(slave, tx, n)) == TxRxPhases(slave, tx, n)
  {
    PhasesOfReadBack(slave, n);
    PhasesOfSend(tx, 0, ReadBack(slave, n));
    var body := SendFrom(tx, 0, ReadBack(slave, n));
    assert Phases(Next(Address(AddrWrite(slave)), body)) == [Address(AddrWrite(slave))] + Phases(body);
  }

  lemma PhaseCommands(slave: Byte, tx: seq<Byte>, n: nat)
    ensures var ps, frame := TxRxPhases(slave, tx, n), Frame(slave, tx, n);
            |ps| == |frame| && forall j :: 0 <= j < |ps| ==> ps[j].cmd == frame[j]
  {
    var ps, cs := BackPhases(slave, n), Answering(slave, n);
    assert |ps| == |cs| && forall j :: 0 <= j < |ps| ==> ps[j].cmd == cs[j];
    assert forall j :: 0 <= j < |tx| ==> Data(tx, 0)[j].cmd == Writes(tx)[j];
  }

  // ---------------------------------------------------------------- command traces

  ghost predicate Spells(ps: seq<Phase>, frame: seq<Cmd>) {
    |ps| == |frame| && forall j :: 0 <= j < |ps| ==> ps[j].cmd == frame[j]
  }

  /** Nothing, or a proper start of the frame followed by exactly one ABORT. */
  ghost predicate Abandoned(cs: seq<Cmd>, frame: seq<Cmd>) {
    cs == [] || (2 <= |cs| <= |frame| + 1 && cs == frame[..|cs| - 1] + [Cmd.Abort])
  }

  lemma RanSpells(ps: seq<Phase>, frame: seq<Cmd>, ops: seq<Op>)
    requires Ran(ps, ops) && Spells(ps, frame)
    ensures Commands(ops) == frame
  {
    assert forall j :: 0 <= j < |ps| ==> Answered(ps[j], ops[j]);
  }

  lemma CutAbandoned(ps: seq<Phase>, frame: seq<Cmd>, ops: seq<Op>, code: Byte)
    requires CutShort(ps, ops, code) && |ops| >= 2 && Spells(ps, frame)
    ensures Abandoned(Commands(ops), frame)
  {
    var n := |ops| - 1;
    assert forall j :: 0 <= j < n ==> Commands(ops)[j] == ops[j].cmd == ps[j].cmd == frame[j];
    assert Commands(ops)[n] == Cmd.Abort;
  }

  lemma Trace(d: Device, h: History, plan: Plan, frame: seq<Cmd>)
    requires Quiet(h) && Opening(plan) && Spells(Phases(plan), frame)
    ensures var out := Transact(d, h, plan, []);
            var cs := Commands(Since(h, out.h));
            if out.code == TX_OK then cs == frame else Abandoned(cs, frame)
  {
    hide Transact, Since, Commands, Spells, Ran, CutShort, Abandoned, Phases;
    Transaction(d, h, plan);
    var out := Transact(d, h, plan, []);
    var ops := Since(h, out.h);
    if out.code == TX_OK {
      RanSpells(Phases(plan), frame, ops);
    } else if ops == [] {
      NothingAbandoned(frame);
    } else {
      CutAbandoned(Phases(plan), frame, ops, out.code);
    }
  }

  lemma NothingAbandoned(frame: seq<Cmd>)
    ensures Abandoned(Commands([]), frame)
  {
  }

  /**
   `i2c_txrx_buf`: success means exactly START, address+W, the bytes, RESTART, address+R, the reads
   with rd_last on the last one only, STOP.  Failure means no command at all, or a proper start of
   that sequence and then one ABORT.
   */
  lemma TxRxTrace(d: Device, h: History, slave: Byte, tx: seq<Byte>, n: nat)
    requires Quiet(h)
    ensures var out := Transact(d, h, TxRxPlan(slave, tx, n), []);
            var cs := Commands(Since(h, out.h));
            if out.code == TX_OK then cs == Frame(slave, tx, n) else Abandoned(cs, Frame(slave, tx, n))
  {
    hide Transact;
    PlanPhases(slave, tx, n);
    PhaseCommands(slave, tx, n);
    Trace(d, h, TxRxPlan(slave, tx, n), Frame(slave, tx, n));
  }

  /** `i2c_rx_pkg` in the same terms. */
  lemma RxTrace(d: Device, h: History, slave: Byte, n: nat)
    requires Quiet(h)
    ensures var out := Transact(d, h, RxPlan(slave, n), []);
            var cs := Commands(Since(h, out.h));
            var frame := [Cmd.Start, Cmd.Write(AddrRead(slave))] + Reads(n) + [Cmd.Stop];
            if out.code == TX_OK then cs == frame else Abandoned(cs, frame)
  {
    hide Transact;
    var frame := [Cmd.Start, Cmd.Write(AddrRead(slave))] + Reads(n) + [Cmd.Stop];
    assert Phases(FINISH) == [STOP] by { assert Phases(End) == []; }
    PhasesOfFetch(0, n, FINISH);
    var body := FetchFrom(0, n, FINISH);
    assert Phases(Next(Address(AddrRead(slave)), body)) == [Address(AddrRead(slave))] + Phases(body);
    assert Phases(RxPlan(slave, n)) == [START, Address(AddrRead(slave))] + Fetches(0, n) + [STOP];
    Trace(d, h, RxPlan(slave, n), frame);
  }

  // ---------------------------------------------------------------- received bytes

  lemma {:induction false} ReceivedSplit(a: seq<Op>, b: seq<Op>)
    ensures Received(a + b) == Received(a) + Received(b)
    decreases |a|
  {
    hide Received;
    ReceivedCons(a);
    ReceivedCons(a + b);
    if a == [] {
      assert a + b == b;
    } else {
      assert (a + b)[1..] == a[1..] + b;
      ReceivedSplit(a[1..], b);
      assert (Gotten(a[0]) + Received(a[1..])) + Received(b) == Gotten(a[0]) + (Received(a[1..]) + Received(b));
    }
  }

  function Gotten(op: Op): seq<Byte> { if op.report.Got? then [op.report.value] else [] }

  lemma ReceivedCons(ops: seq<Op>)
    ensures Received(ops) == if ops == [] then [] else Gotten(ops[0]) + Received(ops[1..])
  {
  }

  lemma {:induction false} ReceivedNone(ops: seq<Op>)
    requires forall j :: 0 <= j < |ops| ==> !ops[j].report.Got?
    ensures Received(ops) == []
    decreases |ops|
  {
    if ops != [] { ReceivedNone(ops[1..]); }
  }

  lemma {:induction false} ReceivedAll(ops: seq<Op>)
    requires forall j :: 0 <= j < |ops| ==> ops[j].report.Got?
    ensures |Received(ops)| == |ops|
    ensures forall j :: 0 <= j < |ops| ==> Received(ops)[j] == ops[j].report.value
    decreases |ops|
  {
    if ops != [] { ReceivedAll(ops[1..]); }
  }

  lemma ReceivedMiddle(ops: seq<Op>, a: nat, b: nat)
    requires a <= b <= |ops|
    requires forall j :: 0 <= j < |ops| ==> (ops[j].report.Got? <==> a <= j < b)
    ensures |Received(ops)| == b - a
    ensures forall k :: 0 <= k < b - a ==> Received(ops)[k] == ops[a + k].report.value
  {
    ReceivedNone(ops[..a]);
    ReceivedAll(ops[a..b]);
    ReceivedNone(ops[b..]);
    assert ops == ops[..a] + (ops[a..b] + ops[b..]);
    ReceivedSplit(ops[..a], ops[a..b] + ops[b..]);
    ReceivedSplit(ops[a..b], ops[b..]);
  }

  /** What comes before the reads of a transaction. */
  function BeforeReads(slave: Byte, tx: seq<Byte>): (ps: seq<Phase>)
    ensures |ps| == |tx| + 4
  {
    [START, Address(AddrWrite(slave))] + Data(tx, 0) + [RESTART, Address(AddrRead(slave))]
  }

  lemma NoReadBefore(slave: Byte, tx: seq<Byte>)
    ensures forall ph :: ph in BeforeReads(slave, tx) ==> !ph.cmd.Read?
  {
    assert forall ph :: ph in Data(tx, 0) ==> !ph.cmd.Read?;
  }

  lemma ReadPositions(slave: Byte, tx: seq<Byte>, n: nat)
    requires n > 0
    ensures var ps := TxRxPhases(slave, tx, n);
            && |ps| == |tx| + 4 + n + 1 == |Frame(slave, tx, n)|
            && (forall k :: 0 <= k < n ==> ps[|tx| + 4 + k] == Fetch(k, n))
            && forall j :: 0 <= j < |ps| ==> (ps[j].cmd.Read? <==> |tx| + 4 <= j < |tx| + 4 + n)
  {
    var ps := TxRxPhases(slave, tx, n);
    assert ps == BeforeReads(slave, tx) + Fetches(0, n) + [STOP];
    assert |Frame(slave, tx, n)| == |tx| + 4 + n + 1;
    hide TxRxPhases, BeforeReads, Frame;
    NoReadBefore(slave, tx);
    MiddlePart(ps, BeforeReads(slave, tx), Fetches(0, n), STOP);
  }

  lemma MiddlePart(ps: seq<Phase>, head: seq<Phase>, fetches: seq<Phase>, last: Phase)
    requires ps == head + fetches + [last] && !last.cmd.Read?
    requires forall ph :: ph in head ==> !ph.cmd.Read?
    requires forall k :: 0 <= k < |fetches| ==> fetches[k].cmd.Read?
    ensures forall k :: 0 <= k < |fetches| ==> ps[|head| + k] == fetches[k]
    ensures forall j :: 0 <= j < |ps| ==> (ps[j].cmd.Read? <==> |head| <= j < |head| + |fetches|)
  {
    forall j | 0 <= j < |ps|
      ensures ps[j].cmd.Read? <==> |head| <= j < |head| + |fetches|
    {
      if j < |head| {
        assert ps[j] == head[j] && head[j] in head;
      } else if j < |head| + |fetches| {
        assert ps[j] == fetches[j - |head|];
      } else {
        assert ps[j] == last;
      }
    }
  }

  /** The bytes a successful transaction hands back: one per read command, each as reported for it. */
  lemma TxRxBytes(d: Device, h: History, slave: Byte, tx: seq<Byte>, n: nat)
    requires Quiet(h) && Transact(d, h, TxRxPlan(slave, tx, n), []).code == TX_OK
    ensures var out := Transact(d, h, TxRxPlan(slave, tx, n), []);
            var ops := Since(h, out.h);
            && |ops| == |Frame(slave, tx, n)| && |out.rx| == n
            && forall k :: 0 <= k < n ==> ops[|tx| + 4 + k] == Op(Cmd.Read(k == n - 1), Got(out.rx[k]))
  {
    hide Transact, Since, TxRxPlan, TxRxPhases, Received, Phases, Opening;
    PlanPhases(slave, tx, n);
    Transaction(d, h, TxRxPlan(slave, tx, n));
    var ops := Since(h, Transact(d, h, TxRxPlan(slave, tx, n), []).h);
    var ps := TxRxPhases(slave, tx, n);
    assert forall j :: 0 <= j < |ps| ==> Answered(ps[j], ops[j]);
    if n == 0 {
      PhaseCommands(slave, tx, 0);
      NoReads(slave, tx);
      ReceivedNone(ops);
    } else {
      ReadPositions(slave, tx, n);
      ReceivedMiddle(ops, |tx| + 4, |tx| + 4 + n);
    }
    forall k | 0 <= k < n
      ensures ops[|tx| + 4 + k] == Op(Cmd.Read(k == n - 1), Got(Received(ops)[k]))
    {
      assert Answered(ps[|tx| + 4 + k], ops[|tx| + 4 + k]);
      assert ps[|tx| + 4 + k] == Fetch(k, n);
      assert ops[|tx| + 4 + k].cmd == Cmd.Read(k == n - 1);
      assert ops[|tx| + 4 + k].report.Got?;
      assert Received(ops)[k] == ops[|tx| + 4 + k].report.value;
    }
  }

  lemma NoReads(slave: Byte, tx: seq<Byte>)
    ensures forall j :: 0 <= j < |TxRxPhases(slave, tx, 0)| ==> !TxRxPhases(slave, tx, 0)[j].cmd.Read?
  {
  }

  // ---------------------------------------------------------------- acknowledgements

  ghost predicate AllAcked(ops: seq<Op>) {
    forall j :: 0 <= j < |ops| && ops[j].cmd.Write? ==> ops[j].report == Acked
  }

  /** Data byte 253 is the only one whose NACK code is the OK code. */
  lemma CodeWrapsAt253(i: Byte)
    ensures NackCode(i) == TX_OK <==> i == 253
    ensures i < 253 ==> NackCode(i) == 3 + i
  {
  }

  /** Success with at most 253 data bytes means that every byte written was acknowledged. */
  lemma TxRxAcked(d: Device, h: History, slave: Byte, tx: seq<Byte>, n: nat)
    requires Quiet(h) && Transact(d, h, TxRxPlan(slave, tx, n), []).code == TX_OK
    requires |tx| <= 253
    ensures AllAcked(Since(h, Transact(d, h, TxRxPlan(slave, tx, n), []).h))
  {
    hide Transact, Since, TxRxPhases, TxRxPlan, Ran, AllAcked, Phases, Opening;
    PlanPhases(slave, tx, n);
    Transaction(d, h, TxRxPlan(slave, tx, n));
    CodesAreErrors(slave, tx, n);
    NoneForgiven(TxRxPhases(slave, tx, n), Since(h, Transact(d, h, TxRxPlan(slave, tx, n), []).h));
  }

  /** Up to 253 data bytes every NACK has an error code. */
  lemma CodesAreErrors(slave: Byte, tx: seq<Byte>, n: nat)
    requires |tx| <= 253
    ensures forall ph :: ph in TxRxPhases(slave, tx, n) && ph.cmd.Write? ==> ph.nackCode != TX_OK
  {
    hide NackCode;
    forall ph | ph in TxRxPhases(slave, tx, n) && ph.cmd.Write?
      ensures ph.nackCode != TX_OK
    {
      if ph in Data(tx, 0) {
        var i :| 0 <= i < |tx| && ph == Data(tx, 0)[i];
        CodeWrapsAt253(i);
      }
    }
  }

  lemma NoneForgiven(ps: seq<Phase>, ops: seq<Op>)
    requires Ran(ps, ops) && forall ph :: ph in ps && ph.cmd.Write? ==> ph.nackCode != TX_OK
    ensures AllAcked(ops)
  {
    forall j | 0 <= j < |ops| && ops[j].cmd.Write?
      ensures ops[j].report == Acked
    {
      assert Answered(ps[j], ops[j]) && ps[j] in ps;
    }
  }

  // ---------------------------------------------------------------- the TX status code

  /** `i2c_tx_buf` is `i2c_txrx_buf` with nothing to read: the same register accesses, the same code. */
  lemma TxIsTxRxWithoutRead(slave: Byte, tx: seq<Byte>)
    ensures TxPlan(slave, tx) == TxRxPlan(slave, tx, 0)
  {
  }

  function Accepted(slave: Byte, tx: seq<Byte>): (ops: seq<Op>)
    ensures |ops| == 2 + |tx|
    ensures ops[0] == Op(Cmd.Start, Plain) && ops[1] == Op(Cmd.Write(slave % 0x80 * 2), Acked)
    ensures forall j :: 0 <= j < |tx| ==> ops[2 + j] == Op(Cmd.Write(tx[j]), Acked)
  {
    [Op(Cmd.Start, Plain), Op(Cmd.Write(slave % 0x80 * 2), Acked)] +
    seq(|tx|, j requires 0 <= j < |tx| => Op(Cmd.Write(tx[j]), Acked))
  }

  /** The device saw the whole transaction and acknowledged every byte. */
  function Delivered(slave: Byte, tx: seq<Byte>): (ops: seq<Op>)
    ensures |ops| == 3 + |tx| && ops[2 + |tx|] == Op(Cmd.Stop, Plain)
    ensures forall j :: 0 <= j < 2 + |tx| ==> ops[j] == Accepted(slave, tx)[j]
  {
    Accepted(slave, tx) + [Op(Cmd.Stop, Plain)]
  }

  function AddressNacked(slave: Byte): seq<Op> {
    [Op(Cmd.Start, Plain), Op(Cmd.Write(slave % 0x80 * 2), Nacked), ABORTED]
  }

  /** The address and the bytes before `k` were acknowledged, byte `k` was not. */
  function NackedAt(slave: Byte, tx: seq<Byte>, k: nat): (ops: seq<Op>)
    requires k < |tx|
    ensures |ops| == 4 + k && ops[2 + k] == Op(Cmd.Write(tx[k]), Nacked) && ops[3 + k] == ABORTED
    ensures forall j :: 0 <= j < 2 + k ==> ops[j] == Accepted(slave, tx)[j]
  {
    assert forall j :: 0 <= j < 2 + k ==> Accepted(slave, tx[..k])[j] == Accepted(slave, tx)[j];
    Accepted(slave, tx[..k]) + [Op(Cmd.Write(tx[k]), Nacked), ABORTED]
  }

  /** A list of operations that the transmit code `r` describes, whichever way it is read. */
  ghost predicate Diagnosis(r: Byte, ops: seq<Op>, slave: Byte, tx: seq<Byte>) {
    && (r == 0 <==> ops == Delivered(slave, tx))
    && (r == 2 <==> ops == AddressNacked(slave))
    && (forall k :: 0 <= k < |tx| ==> (r == 3 + k <==> ops == NackedAt(slave, tx, k)))
    && r < 3 + |tx|
  }

  lemma TxPhaseAt(slave: Byte, tx: seq<Byte>)
    ensures var ps := TxRxPhases(slave, tx, 0);
            && |ps| == 3 + |tx| && ps[0] == START && ps[1] == Address(AddrWrite(slave))
            && (forall j :: 0 <= j < |tx| ==> ps[2 + j] == Datum(tx, j))
            && ps[2 + |tx|] == STOP
  {
  }

  /** Up to 253 data bytes, every phase carried out before position `m` was acknowledged. */
  lemma AnsweredIsAccepted(slave: Byte, tx: seq<Byte>, ops: seq<Op>, m: nat)
    requires |tx| <= 253 && m <= |ops| && m <= 2 + |tx|
    requires forall j :: 0 <= j < m ==> Answered(TxRxPhases(slave, tx, 0)[j], ops[j])
    ensures forall j :: 0 <= j < m ==> ops[j] == Accepted(slave, tx)[j]
  {
    hide TxRxPhases, Accepted;
    TxPhaseAt(slave, tx);
    forall j | 0 <= j < m
      ensures ops[j] == Accepted(slave, tx)[j]
    {
      assert Answered(TxRxPhases(slave, tx, 0)[j], ops[j]);
      if j >= 2 {
        assert TxRxPhases(slave, tx, 0)[2 + (j - 2)] == Datum(tx, j - 2);
        assert Accepted(slave, tx)[2 + (j - 2)] == Op(Cmd.Write(tx[j - 2]), Acked);
      }
    }
  }

  lemma CompletedDiagnosis(slave: Byte, tx: seq<Byte>, ops: seq<Op>)
    requires |tx| <= 253 && Ran(TxRxPhases(slave, tx, 0), ops)
    ensures Diagnosis(TX_OK, ops, slave, tx)
  {
    hide TxRxPhases, Accepted, Delivered, NackedAt;
    TxPhaseAt(slave, tx);
    AnsweredIsAccepted(slave, tx, ops, 2 + |tx|);
    assert Answered(STOP, ops[2 + |tx|]);
    assert ops == Delivered(slave, tx);
    assert ops[|ops| - 1] != ABORTED;
  }

  /** Operations answered before position `m`, one more command, and the ABORT, with the code it calls for. */
  ghost predicate BrokenAt(slave: Byte, tx: seq<Byte>, ops: seq<Op>, r: Byte, m: nat) {
    var ps := TxRxPhases(slave, tx, 0);
    && |ops| == m + 2 && m < |ps| && ops[m + 1] == ABORTED
    && (forall j :: 0 <= j < m ==> ops[j] == Accepted(slave, tx)[j])
    && ops[m].cmd == ps[m].cmd && r == Fault(ps[m], ops[m])
  }

  lemma BrokenDiagnosis(slave: Byte, tx: seq<Byte>, ops: seq<Op>, r: Byte)
    requires |tx| <= 253 && |ops| >= 2 && CutShort(TxRxPhases(slave, tx, 0), ops, r)
    ensures Diagnosis(r, ops, slave, tx)
  {
    hide TxRxPhases, Accepted, Delivered, NackedAt, BrokenAt, AddressNacked;
    var m := |ops| - 2;
    TxPhaseAt(slave, tx);
    AnsweredIsAccepted(slave, tx, ops, m);
    assert BrokenAt(slave, tx, ops, r, m) by { CutIsBroken(slave, tx, ops, r, m); }
    BrokenAddress(slave, tx, ops, r, m);
    forall k | 0 <= k < |tx|
      ensures r == ERR_DATA_NACK_BASE + k <==> ops == NackedAt(slave, tx, k)
    {
      BrokenDatum(slave, tx, ops, r, m, k);
    }
  }

  lemma CutIsBroken(slave: Byte, tx: seq<Byte>, ops: seq<Op>, r: Byte, m: nat)
    requires |ops| == m + 2 && m <= 2 + |tx| && CutShort(TxRxPhases(slave, tx, 0), ops, r)
    requires forall j :: 0 <= j < m ==> ops[j] == Accepted(slave, tx)[j]
    ensures BrokenAt(slave, tx, ops, r, m)
  {
    hide TxRxPhases, Accepted;
  }

  lemma BrokenAddress(slave: Byte, tx: seq<Byte>, ops: seq<Op>, r: Byte, m: nat)
    requires |tx| <= 253 && BrokenAt(slave, tx, ops, r, m)
    ensures r != TX_OK && ops != Delivered(slave, tx)
    ensures r == ERR_ADDR_NACK <==> ops == AddressNacked(slave)
    ensures r < ERR_DATA_NACK_BASE + |tx|
  {
    hide TxRxPhases, Accepted, Delivered;
    TxPhaseAt(slave, tx);
    if 2 <= m < 2 + |tx| { assert TxRxPhases(slave, tx, 0)[2 + (m - 2)] == Datum(tx, m - 2); }
  }

  lemma BrokenDatum(slave: Byte, tx: seq<Byte>, ops: seq<Op>, r: Byte, m: nat, k: nat)
    requires |tx| <= 253 && BrokenAt(slave, tx, ops, r, m) && k < |tx|
    ensures r == ERR_DATA_NACK_BASE + k <==> ops == NackedAt(slave, tx, k)
  {
    hide TxRxPhases, Accepted, NackedAt;
    TxPhaseAt(slave, tx);
    if 2 <= m < 2 + |tx| { assert TxRxPhases(slave, tx, 0)[2 + (m - 2)] == Datum(tx, m - 2); }
    assert TxRxPhases(slave, tx, 0)[2 + k] == Datum(tx, k);
  }

  /**
   For up to 253 data bytes the code `i2c_tx_buf` returns is an exact diagnosis: 0 iff every byte
   was acknowledged and the transaction closed; 2 iff the address was refused; 3 + k iff data byte k
   was the first one refused; and 1 in every other case.
   */
  lemma TxDiagnosis(d: Device, h: History, slave: Byte, tx: seq<Byte>)
    requires Quiet(h) && |tx| <= 253
    ensures var out := Transact(d, h, TxPlan(slave, tx), []);
            Diagnosis(out.code, Since(h, out.h), slave, tx)
  {
    hide Transact, Since;
    PlanPhases(slave, tx, 0);
    Transaction(d, h, TxPlan(slave, tx));
    var out := Transact(d, h, TxPlan(slave, tx), []);
    var ops := Since(h, out.h);
    if out.code == TX_OK {
      CompletedDiagnosis(slave, tx, ops);
    } else if ops != [] {
      BrokenDiagnosis(slave, tx, ops, out.code);
    }
  }
}
