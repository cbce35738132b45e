/** What the bus operations of one register access do to the sensor, and what it hands out. */
module Mpu6500Bus {
  import opened MachineWords
  import opened I2cRegisters
  import opened I2cProtocol
  import opened I2cTranscript
  import opened I2cTransactions
  import opened I2cGuarantees
  import opened I2cEngine
  import opened I2cEngineRuns
  import opened I2cEnginePhases
  import opened I2cEngineTransactions

  /** The register `i` places after `start`; the pointer is eight bits wide. */
  function Window(start: Byte, i: nat): Byte { LowByte(start + i) }

  lemma Peel(s: Slave, ops: seq<Op>)
    requires ops != []
    ensures ReplayAlong(s, ops) == ReplayAlong(SlaveOn(s, ops[0]), ops[1..])
    ensures ServedAlong(s, ops) == ServedBy(s, ops[0]) + ServedAlong(SlaveOn(s, ops[0]), ops[1..])
    ensures PossibleAlong(s, ops) <==> Possible(s, ops[0]) && PossibleAlong(SlaveOn(s, ops[0]), ops[1..])
  {
  }

  // ---------------------------------------------------------------- reading a window

  function ReadingsOf(start: Byte, rx: seq<Byte>): (rs: seq<Reading>)
    ensures |rs| == |rx| && forall i :: 0 <= i < |rx| ==> rs[i] == Reading(Window(start, i), rx[i])
  {
    seq(|rx|, i requires 0 <= i < |rx| => Reading(Window(start, i), rx[i]))
  }

  /** `rx` is what the registers from `start` on hold, as far as they hold still. */
  ghost predicate Agrees(regs: Registers, start: Byte, rx: seq<Byte>) {
    forall i :: 0 <= i < |rx| && !Live(Window(start, i)) ==> rx[i] == regs[Window(start, i)]
  }

  /** The reads of a burst, rd_last on the last one, and the STOP. */
  ghost predicate Burst(ops: seq<Op>, rx: seq<Byte>) {
    && |ops| == |rx| + 1
    && (forall k :: 0 <= k < |rx| ==> ops[k] == Op(Cmd.Read(k == |rx| - 1), Got(rx[k])))
    && ops[|rx|] == Op(Cmd.Stop, Plain)
  }

  lemma WindowShift(start: Byte, k: nat)
    ensures Window(LowByte(start + 1), k) == Window(start, k + 1)
  {
  }

  lemma ReadingsCons(start: Byte, rx: seq<Byte>)
    requires rx != []
    ensures ReadingsOf(start, rx) == [Reading(start, rx[0])] + ReadingsOf(LowByte(start + 1), rx[1..])
  {
    assert Window(start, 0) == start;
    forall k | 0 < k < |rx|
      ensures ReadingsOf(start, rx)[k] == ReadingsOf(LowByte(start + 1), rx[1..])[k - 1]
    {
      WindowShift(start, k - 1);
    }
  }

  lemma AgreesCons(regs: Registers, start: Byte, rx: seq<Byte>)
    requires rx != [] && (!Live(start) ==> rx[0] == regs[start])
    requires Agrees(regs, LowByte(start + 1), rx[1..])
    ensures Agrees(regs, start, rx)
  {
    forall k | 0 <= k < |rx| && !Live(Window(start, k))
      ensures rx[k] == regs[Window(start, k)]
    {
      if k == 0 {
        assert Window(start, 0) == start;
      } else {
        WindowShift(start, k - 1);
        assert rx[1..][k - 1] == regs[Window(LowByte(start + 1), k - 1)];
      }
    }
  }

  lemma {:induction false} BurstServes(s: Slave, ops: seq<Op>, rx: seq<Byte>)
    requires Burst(ops, rx) && PossibleAlong(s, ops)
    requires rx != [] ==> s.mode == Serving
    ensures ServedAlong(s, ops) == ReadingsOf(s.pointer, rx) && ReplayAlong(s, ops).regs == s.regs
    ensures Agrees(s.regs, s.pointer, rx)
    decreases |rx|
  {
    hide ServedAlong, PossibleAlong, ReplayAlong, Agrees, ReadingsOf;
    Peel(s, ops);
    var t := SlaveOn(s, ops[0]);
    if rx == [] {
      assert ops[1..] == [];
      NothingLeft(t, s.pointer);
    } else {
      BurstServes(t, ops[1..], rx[1..]);
      ReadingsCons(s.pointer, rx);
      AgreesCons(s.regs, s.pointer, rx);
    }
  }

  lemma NothingLeft(s: Slave, start: Byte)
    ensures ServedAlong(s, []) == [] == ReadingsOf(start, []) && ReplayAlong(s, []) == s
    ensures Agrees(s.regs, start, [])
  {
  }

  /** A complete write-pointer, restart, read-burst transaction. */
  ghost predicate ReadTransaction(ops: seq<Op>, start: Byte, rx: seq<Byte>) {
    && |ops| == 5 + |rx| + 1 && |rx| > 0
    && ops[0] == Op(Cmd.Start, Plain) && ops[1] == Op(Cmd.Write(0xD0), Acked)
    && ops[2] == Op(Cmd.Write(start), Acked)
    && ops[3] == Op(Cmd.Restart, Plain) && ops[4] == Op(Cmd.Write(0xD1), Acked)
    && Burst(ops[5..], rx)
  }

  /** The bytes of a read transaction come from the registers addressed, one after the other. */
  lemma ReadServes(s: Slave, ops: seq<Op>, start: Byte, rx: seq<Byte>)
    requires ReadTransaction(ops, start, rx) && PossibleAlong(s, ops)
    ensures ServedAlong(s, ops) == ReadingsOf(start, rx) && ReplayAlong(s, ops).regs == s.regs
    ensures Agrees(s.regs, start, rx)
  {
    var s1 := SlaveOn(s, ops[0]);
    var s2 := SlaveOn(s1, ops[1]);
    var s3 := SlaveOn(s2, ops[2]);
    var s4 := SlaveOn(s3, ops[3]);
    var s5 := SlaveOn(s4, ops[4]);
    assert s5 == Slave(Serving, start, s.regs);
    hide SlaveOn, Possible, ServedAlong, PossibleAlong, ReplayAlong, Agrees;
    Peel(s, ops);
    Peel(s1, ops[1..]);
    Peel(s2, ops[2..]);
    Peel(s3, ops[3..]);
    Peel(s4, ops[4..]);
    assert ops[1..][1..] == ops[2..] && ops[2..][1..] == ops[3..];
    assert ops[3..][1..] == ops[4..] && ops[4..][1..] == ops[5..];
    BurstServes(s5, ops[5..], rx);
  }

  // ---------------------------------------------------------------- transactions that were cut short

  /** The start of the frame was put on the bus, in whatever way it was answered, and then perhaps an abort. */
  ghost predicate CutAt(bus: seq<Op>, frame: seq<Cmd>) {
    && |bus| <= |frame| + 1
    && forall i :: 0 <= i < |bus| ==> (i < |frame| && bus[i].cmd == frame[i]) || (i == |bus| - 1 && bus[i] == ABORTED)
  }

  lemma ShadowCutAt(seen: seq<Op>, bus: seq<Op>, frame: seq<Cmd>)
    requires seen != [] && Abandoned(Commands(seen), frame) && Shadow(seen, bus)
    ensures CutAt(bus, frame)
  {
    var n := |seen|;
    assert forall i :: 0 <= i < n - 1 ==> seen[i].cmd == Commands(seen)[i] == frame[..n - 1][i] == frame[i];
    var k := n - 2;
    if bus != seen && bus != seen[..k] + [ABORTED] && bus != seen[..k + 1] {
      assert forall i :: 0 <= i < k ==> bus[i] == bus[..k][i] == seen[..k][i] == seen[i];
    }
  }

  lemma ReadFrameAt(start: Byte, n: nat, i: nat)
    requires i < |Frame(0x68, [start], n)|
    ensures var c := Frame(0x68, [start], n)[i];
            && (c.Start? <==> i == 0) && (i == 3 ==> !c.Write?) && (c.Restart? ==> i == 3)
            && (c.Write? ==> i == 1 || i == 2 || i == 4) && (i == 4 && c.Write? ==> n > 0) && (i == 3 && n > 0 ==> c.Restart?)
            && !c.Abort?
  {
  }

  /** A register read never changes a register, however far it gets. */
  lemma {:induction false} ReadKeeps(s: Slave, bus: seq<Op>, i: nat, start: Byte, n: nat)
    requires CutAt(bus, Frame(0x68, [start], n)) && i <= |bus|
    requires i == 1 || (i == 4 && n > 0) ==> s.mode != Storing && s.mode != AwaitPointer
    requires i == 2 ==> s.mode != Storing
    ensures ReplayAlong(s, bus[i..]).regs == s.regs
    decreases |bus| - i
  {
    hide ReplayAlong, ServedAlong, PossibleAlong, Frame;
    if i == |bus| {
      NothingLeft(s, 0);
      assert bus[i..] == [];
    } else {
      Peel(s, bus[i..]);
      assert bus[i..][1..] == bus[i + 1..];
      if i < |Frame(0x68, [start], n)| { ReadFrameAt(start, n, i); }
      ReadKeeps(SlaveOn(s, bus[i]), bus, i + 1, start, n);
    }
  }

  function WriteFrame(reg: Byte, value: Byte): seq<Cmd> {
    [Cmd.Start, Cmd.Write(0xD0), Cmd.Write(reg), Cmd.Write(value), Cmd.Stop]
  }

  lemma WriteFrameIs(reg: Byte, value: Byte)
    ensures Frame(0x68, [reg, value], 0) == WriteFrame(reg, value)
  {
    assert Writes([reg, value]) == [Cmd.Write(reg), Cmd.Write(value)];
  }

  /** A register write that is cut short has either stored the value or changed nothing. */
  lemma {:induction false} WriteStoresOrNot(s: Slave, bus: seq<Op>, i: nat, reg: Byte, value: Byte)
    requires CutAt(bus, WriteFrame(reg, value)) && i <= |bus|
    requires i == 1 ==> s.mode == AwaitAddress || s.mode == Deaf
    requires i == 2 ==> s.mode != Storing
    requires i == 3 && s.mode == Storing ==> s.pointer == reg
    ensures var regs := ReplayAlong(s, bus[i..]).regs; regs == s.regs || (i <= 3 && regs == Store(s.regs, reg, value))
    decreases |bus| - i
  {
    hide ReplayAlong, ServedAlong, PossibleAlong, Store;
    if i == |bus| {
      NothingLeft(s, 0);
      assert bus[i..] == [];
    } else {
      Peel(s, bus[i..]);
      assert bus[i..][1..] == bus[i + 1..];
      WriteStoresOrNot(SlaveOn(s, bus[i]), bus, i + 1, reg, value);
    }
  }

  /** A register write that completes, acknowledged throughout, has stored the value. */
  lemma WriteStores(s: Slave, reg: Byte, value: Byte)
    ensures var ops := Delivered(0x68, [reg, value]);
            ReplayAlong(s, ops).regs == Store(s.regs, reg, value) && ServedAlong(s, ops) == []
  {
    var ops := Delivered(0x68, [reg, value]);
    var s1 := SlaveOn(s, ops[0]);
    var s2 := SlaveOn(s1, ops[1]);
    var s3 := SlaveOn(s2, ops[2]);
    var s4 := SlaveOn(s3, ops[3]);
    var s5 := SlaveOn(s4, ops[4]);
    assert ops[2 + 1] == Op(Cmd.Write(value), Acked) && ops[2 + 0] == Op(Cmd.Write(reg), Acked);
    assert s5.regs == Store(s.regs, reg, value);
    hide SlaveOn, ServedAlong, PossibleAlong, ReplayAlong, Delivered, Store;
    Peel(s, ops);
    Peel(s1, ops[1..]);
    Peel(s2, ops[2..]);
    Peel(s3, ops[3..]);
    Peel(s4, ops[4..]);
    assert ops[1..][1..] == ops[2..] && ops[2..][1..] == ops[3..];
    assert ops[3..][1..] == ops[4..] && ops[4..][1..] == [];
    NothingLeft(s5, 0);
  }

  /** Addressing a register without reading or writing it changes and returns nothing. */
  lemma PointerOnly(s: Slave, reg: Byte)
    ensures var ops := Delivered(0x68, [reg]);
            ReplayAlong(s, ops).regs == s.regs && ServedAlong(s, ops) == []
  {
    var ops := Delivered(0x68, [reg]);
    var s1 := SlaveOn(s, ops[0]);
    var s2 := SlaveOn(s1, ops[1]);
    var s3 := SlaveOn(s2, ops[2]);
    var s4 := SlaveOn(s3, ops[3]);
    assert ops[2 + 0] == Op(Cmd.Write(reg), Acked);
    assert s4.regs == s.regs;
    hide SlaveOn, ServedAlong, PossibleAlong, ReplayAlong, Delivered;
    Peel(s, ops);
    Peel(s1, ops[1..]);
    Peel(s2, ops[2..]);
    Peel(s3, ops[3..]);
    assert ops[1..][1..] == ops[2..] && ops[2..][1..] == ops[3..] && ops[3..][1..] == [];
    NothingLeft(s4, 0);
  }

  // ---------------------------------------------------------------- a lost STOP changes nothing

  predicate AtRest(op: Op) { op == Op(Stop, Plain) || op == ABORTED }

  lemma {:induction false} AlongConcat(s: Slave, a: seq<Op>, b: seq<Op>)
    ensures ReplayAlong(s, a + b) == ReplayAlong(ReplayAlong(s, a), b)
    ensures ServedAlong(s, a + b) == ServedAlong(s, a) + ServedAlong(ReplayAlong(s, a), b)
    ensures PossibleAlong(s, a + b) <==> PossibleAlong(s, a) && PossibleAlong(ReplayAlong(s, a), b)
    decreases |a|
  {
    hide ReplayAlong, ServedAlong, PossibleAlong;
    if a == [] {
      assert a + b == b;
      NothingLeft(s, 0);
      NothingImpossible(s);
    } else {
      Peel(s, a);
      Peel(s, a + b);
      assert (a + b)[1..] == a[1..] + b;
      AlongConcat(SlaveOn(s, a[0]), a[1..], b);
    }
  }

  lemma NothingImpossible(s: Slave)
    ensures PossibleAlong(s, [])
  {
  }

  /** Ending a transaction changes no register and serves nothing, whether by STOP, abort or both. */
  lemma {:induction false} RestChangesNothing(s: Slave, ops: seq<Op>)
    requires forall i :: 0 <= i < |ops| ==> AtRest(ops[i])
    ensures ReplayAlong(s, ops).regs == s.regs && ServedAlong(s, ops) == [] && PossibleAlong(s, ops)
    decreases |ops|
  {
    hide ReplayAlong, ServedAlong, PossibleAlong;
    if ops == [] {
      NothingLeft(s, 0);
      NothingImpossible(s);
    } else {
      Peel(s, ops);
      RestChangesNothing(SlaveOn(s, ops[0]), ops[1..]);
    }
  }

  /** To the slave it is all one whether the closing STOP was carried out or aborted. */
  lemma LostStopAlike(s: Slave, seen: seq<Op>, bus: seq<Op>)
    requires StopLost(seen, bus) && PossibleAlong(s, bus)
    ensures ReplayAlong(s, bus).regs == ReplayAlong(s, seen).regs && ServedAlong(s, bus) == ServedAlong(s, seen)
    ensures PossibleAlong(s, seen)
  {
    hide ReplayAlong, ServedAlong, PossibleAlong;
    var body := seen[..|seen| - 1];
    var stop := [Op(Stop, Plain)];
    var end := if bus == seen + [ABORTED] then stop + [ABORTED] else [ABORTED];
    assert seen == body + stop && bus == body + end by { assert seen + [ABORTED] == body + (stop + [ABORTED]); }
    AlongConcat(s, body, stop);
    AlongConcat(s, body, end);
    RestChangesNothing(ReplayAlong(s, body), stop);
    RestChangesNothing(ReplayAlong(s, body), end);
  }

  lemma EndsAlike(s: Slave, e: Engine, g: Engine, seen: seq<Op>, bus: seq<Op>)
    requires CarriedOut(e, g, seen, bus) && PossibleAlong(s, bus)
    ensures ReplayAlong(s, bus).regs == ReplayAlong(s, seen).regs && ServedAlong(s, bus) == ServedAlong(s, seen)
    ensures PossibleAlong(s, seen)
  {
    hide StopLost, ReplayAlong, ServedAlong, PossibleAlong;
    if StopLost(seen, bus) { LostStopAlike(s, seen, bus); }
  }
}
