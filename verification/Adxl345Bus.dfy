/** The frames of the ADXL345 driver, and the accelerometer as the peer at the other end. */
module Adxl345Bus {
  import opened MachineWords
  import opened SpiDevice

  /** Bit 7 is read, bit 6 multiple-byte, the rest the register. */
  function Command(reg: Byte, isRead: bool, multi: bool): Byte {
    reg % 0x40 + (if isRead then 0x80 else 0) + if multi then 0x40 else 0
  }

  // ---------------------------------------------------------------- frames

  /** A byte to send and whether it is the last of its frame. */
  datatype Out = Out(tx: Byte, final: bool)

  /** One byte after the other, each answered by the peer as it then is. */
  function Exchanges(peer: Peer, log: seq<Launch>, outs: seq<Out>): seq<Launch>
    decreases |outs|
  {
    if outs == [] then log
    else
      var o := outs[0];
      Exchanges(peer, log + [Launch(o.tx, o.final, peer(log, o.tx, o.final))], outs[1..])
  }

  function WriteOuts(reg: Byte, value: Byte): seq<Out> {
    [Out(Command(reg, false, false), false), Out(value, true)]
  }

  /** The dummy bytes of a read, from byte `i` on; only the last one closes the frame. */
  function Dummies(i: nat, n: nat): (outs: seq<Out>)
    requires i <= n
    ensures |outs| == n - i && forall k :: 0 <= k < n - i ==> outs[k] == Out(0, i + k == n - 1)
  {
    seq(n - i, k => Out(0, i + k == n - 1))
  }

  /** The multiple-byte bit is set exactly when more than one byte is read. */
  function ReadOuts(start: Byte, n: nat): seq<Out> {
    [Out(Command(start, true, n > 1), false)] + Dummies(0, n)
  }

  predicate IsFrame(outs: seq<Out>) {
    outs != [] && forall k :: 0 <= k < |outs| ==> (outs[k].final <==> k == |outs| - 1)
  }

  lemma OutsAreFrames(reg: Byte, value: Byte, start: Byte, n: nat)
    ensures IsFrame(WriteOuts(reg, value))
    ensures n > 0 ==> IsFrame(ReadOuts(start, n)) && |ReadOuts(start, n)| == n + 1
  {
    if n > 0 {
      var outs := ReadOuts(start, n);
      forall k | 0 <= k < |outs|
        ensures outs[k].final <==> k == |outs| - 1
      {
        if k > 0 { assert outs[k] == Dummies(0, n)[k - 1]; }
      }
    }
  }

  /** Chip select, read off the exchanged bytes: a frame ends with each byte launched with XFER_END. */
  function Frames(log: seq<Launch>): seq<seq<Launch>>
    decreases |log|
  {
    if log == [] then []
    else
      var before, last := log[..|log| - 1], log[|log| - 1];
      if Closed(before) then Frames(before) + [[last]]
      else
        var fs := Frames(before);
        if fs == [] then [[last]] else fs[..|fs| - 1] + [fs[|fs| - 1] + [last]]
  }

  predicate Closed(log: seq<Launch>) { log == [] || log[|log| - 1].final }

  lemma {:induction false} ExchangesGrow(peer: Peer, log: seq<Launch>, outs: seq<Out>)
    ensures var after := Exchanges(peer, log, outs);
            && |after| == |log| + |outs| && after[..|log|] == log
            && forall k :: 0 <= k < |outs| ==>
                 after[|log| + k].tx == outs[k].tx && after[|log| + k].final == outs[k].final
    decreases |outs|
  {
    if outs != [] {
      var o := outs[0];
      var log1 := log + [Launch(o.tx, o.final, peer(log, o.tx, o.final))];
      ExchangesGrow(peer, log1, outs[1..]);
      var after := Exchanges(peer, log, outs);
      assert after[..|log|] == after[..|log1|][..|log|] == log;
      assert after[|log|] == after[..|log1|][|log|] == log1[|log|];
      forall k | 0 < k < |outs|
        ensures after[|log| + k].tx == outs[k].tx && after[|log| + k].final == outs[k].final
      {
        assert after[|log1| + (k - 1)].tx == outs[1..][k - 1].tx;
      }
    }
  }

  /** One more exchanged byte, on a closed line or within an open frame. */
  lemma FramesStep(log: seq<Launch>, x: Launch)
    ensures var log1 := log + [x];
            Frames(log1) ==
            if Closed(log) then Frames(log) + [[x]]
            else if Frames(log) == [] then [[x]]
            else Frames(log)[..|Frames(log)| - 1] + [Frames(log)[|Frames(log)| - 1] + [x]]
  {
    assert (log + [x])[..|log|] == log;
  }

  lemma {:induction false} InsideFrame(log: seq<Launch>, frame: seq<Launch>, k: nat)
    requires Closed(log) && 0 < k <= |frame|
    requires forall j :: 0 <= j < |frame| - 1 ==> !frame[j].final
    ensures Frames(log + frame[..k]) == Frames(log) + [frame[..k]]
    decreases k
  {
    hide Frames;
    if k == 1 {
      FramesStep(log, frame[0]);
      assert frame[..1] == [frame[0]];
    } else {
      InsideFrame(log, frame, k - 1);
      var before := log + frame[..k - 1];
      assert log + frame[..k] == before + [frame[k - 1]];
      assert frame[..k] == frame[..k - 1] + [frame[k - 1]];
      FramesStep(before, frame[k - 1]);
      var fs := Frames(before);
      assert fs[..|fs| - 1] == Frames(log) && fs[|fs| - 1] == frame[..k - 1];
    }
  }

  /** A call that sends one frame's bytes on a closed line adds exactly one frame, and closes it. */
  lemma OneFrame(peer: Peer, log: seq<Launch>, outs: seq<Out>)
    requires Closed(log) && IsFrame(outs)
    ensures var after := Exchanges(peer, log, outs);
            && Closed(after) && |after| == |log| + |outs|
            && Frames(after) == Frames(log) + [after[|log|..]]
  {
    hide Frames, Exchanges;
    ExchangesGrow(peer, log, outs);
    var after := Exchanges(peer, log, outs);
    var frame := after[|log|..];
    forall j | 0 <= j < |frame|
      ensures frame[j].final <==> j == |frame| - 1
    {
      assert after[|log| + j].final == outs[j].final;
    }
    InsideFrame(log, frame, |frame|);
    assert frame[..|frame|] == frame && log + frame == after;
  }

  function RunFrames(peer: Peer, log: seq<Launch>, frames: seq<seq<Out>>): seq<Launch>
    decreases |frames|
  {
    if frames == [] then log else RunFrames(peer, Exchanges(peer, log, frames[0]), frames[1..])
  }

  /** The bytes of a chip-select frame, and their XFER_END flags, are those of a call. */
  predicate Carries(frame: seq<Launch>, outs: seq<Out>) {
    |frame| == |outs| && forall k :: 0 <= k < |frame| ==> frame[k].tx == outs[k].tx && frame[k].final == outs[k].final
  }

  lemma OneFrameCarries(peer: Peer, log: seq<Launch>, outs: seq<Out>)
    requires Closed(log) && IsFrame(outs)
    ensures var after := Exchanges(peer, log, outs);
            && Closed(after) && |after| == |log| + |outs|
            && Frames(after) == Frames(log) + [after[|log|..]]
            && Carries(after[|log|..], outs)
  {
    hide Frames, Exchanges, Closed, IsFrame;
    OneFrame(peer, log, outs);
    ExchangesGrow(peer, log, outs);
  }

  /**
   Any run of calls: chip select frames exactly the calls, in order and byte for byte, with XFER_END on the last
   byte of each; and it is released in between.
   */
  lemma {:induction false} AnyRun(peer: Peer, log: seq<Launch>, frames: seq<seq<Out>>)
    requires Closed(log) && forall i :: 0 <= i < |frames| ==> IsFrame(frames[i])
    ensures var after := RunFrames(peer, log, frames);
            var n := |Frames(log)|;
            && Closed(after) && |Frames(after)| == n + |frames| && Frames(after)[..n] == Frames(log)
            && forall i :: n <= i < |Frames(after)| ==>
                 && Carries(Frames(after)[i], frames[i - n])
                 && forall k :: 0 <= k < |Frames(after)[i]| ==>
                      (Frames(after)[i][k].final <==> k == |Frames(after)[i]| - 1)
    decreases |frames|
  {
    hide Frames, Exchanges, Closed;
    if frames != [] {
      OneFrameCarries(peer, log, frames[0]);
      var log1 := Exchanges(peer, log, frames[0]);
      AnyRun(peer, log1, frames[1..]);
      var fs, n := Frames(RunFrames(peer, log, frames)), |Frames(log)|;
      assert fs[..n] == fs[..n + 1][..n] == Frames(log);
      assert fs[n] == fs[..n + 1][n] == log1[|log|..];
      assert IsFrame(frames[0]);
    }
  }

  // ---------------------------------------------------------------- the accelerometer

  type Registers = s: seq<Byte> | |s| == 0x40 witness seq(0x40, _ => 0)

  /** Inside a frame the first byte is the command; the others store into or read from registers. */
  datatype Mode = AwaitCommand | Storing(reg: Byte, multi: bool) | Serving(reg: Byte, multi: bool)

  datatype Adxl = Adxl(mode: Mode, regs: Registers)

  /** What the sensor measures at each exchange, and what is on the line when it does not drive it. */
  datatype Sensor = Sensor(live: (nat, Byte) -> Byte, idle: nat -> Byte)

  /** Samples, interrupt and FIFO status change by themselves. */
  predicate Live(r: Byte) { 0x32 <= r <= 0x37 || r == 0x2B || r == 0x30 || r == 0x39 }

  /** Neither they nor the identity, register 0, are changed by writes. */
  function Store(regs: Registers, r: Byte, b: Byte): Registers
    requires r < 0x40
  {
    if Live(r) || r == 0x00 then regs else regs[r := b]
  }

  function Follower(r: Byte, multi: bool): Byte { if multi then (r + 1) % 0x40 else r }

  function TakeByte(a: Adxl, tx: Byte): Adxl {
    match a.mode
    case AwaitCommand =>
      var reg, multi := tx % 0x40, (tx / 0x40) % 2 == 1;
      a.(mode := if tx >= 0x80 then Serving(reg, multi) else Storing(reg, multi))
    case Storing(r, multi) =>
      a.(regs := if r < 0x40 then Store(a.regs, r, tx) else a.regs, mode := Storing(Follower(r, multi), multi))
    case Serving(r, multi) => a.(mode := Serving(Follower(r, multi), multi))
  }

  /** The end of a frame is the end of the command. */
  function AdxlOn(a: Adxl, x: Launch): Adxl {
    if x.final then TakeByte(a, x.tx).(mode := AwaitCommand) else TakeByte(a, x.tx)
  }

  function Replay(origin: Adxl, log: seq<Launch>): Adxl {
    if log == [] then origin else AdxlOn(Replay(origin, log[..|log| - 1]), log[|log| - 1])
  }

  /** Bit 6 of DATA_FORMAT, register 0x31, selects 3-wire mode, in which this 4-wire hookup reads nothing the sensor sends. */
  predicate ThreeWire(regs: Registers) { (regs[0x31] / 0x40) % 2 == 1 }

  /** What exchange number `n` reads from register `r`. */
  function Value(sensor: Sensor, n: nat, regs: Registers, r: Byte): Byte
    requires r < 0x40
  {
    if ThreeWire(regs) then sensor.idle(n)
    else if Live(r) then sensor.live(n, r)
    else regs[r]
  }

  function Answer(sensor: Sensor, n: nat, a: Adxl): Byte {
    if a.mode.Serving? && a.mode.reg < 0x40 then Value(sensor, n, a.regs, a.mode.reg) else sensor.idle(n)
  }

  ghost predicate Models(peer: Peer, sensor: Sensor, origin: Adxl) {
    forall log, tx, final :: peer(log, tx, final) == Answer(sensor, |log|, Replay(origin, log))
  }

  lemma ReplayOne(origin: Adxl, log: seq<Launch>, x: Launch)
    ensures Replay(origin, log + [x]) == AdxlOn(Replay(origin, log), x)
  {
    assert (log + [x])[..|log|] == log;
  }

  lemma ClosedAwaits(origin: Adxl, log: seq<Launch>)
    requires origin.mode.AwaitCommand? && Closed(log)
    ensures Replay(origin, log).mode.AwaitCommand?
  {
  }

  lemma CommandDecodes(reg: Byte, isRead: bool, multi: bool)
    ensures var c := Command(reg, isRead, multi);
            c % 0x40 == reg % 0x40 && ((c / 0x40) % 2 == 1 <==> multi) && (c >= 0x80 <==> isRead)
  {
  }

  /** The bytes at positions `from` to `to` came from consecutive registers, `base` places before their position. */
  ghost predicate Window(log: seq<Launch>, sensor: Sensor, regs: Registers, from: nat, to: nat, base: int)
    requires from <= to <= |log|
  {
    forall j :: from <= j < to ==> log[j].rx == Value(sensor, j, regs, (base + j) % 0x40)
  }

  /** The dummy bytes of a read shift out one register after the other. */
  lemma {:induction false} Serves(peer: Peer, sensor: Sensor, origin: Adxl, log: seq<Launch>, base: int, i: nat, n: nat)
    requires Models(peer, sensor, origin) && i <= n
    requires var a := Replay(origin, log);
             if i < n then a.mode == Serving((base + |log|) % 0x40, n > 1) else a.mode.AwaitCommand?
    ensures var after := Exchanges(peer, log, Dummies(i, n));
            var regs := Replay(origin, log).regs;
            && |after| == |log| + n - i && after[..|log|] == log
            && Replay(origin, after) == Adxl(AwaitCommand, regs)
            && Window(after, sensor, regs, |log|, |after|, base)
    decreases n - i
  {
    hide Answer, Replay, Value;
    if i < n {
      var x := Launch(0, i == n - 1, peer(log, 0, i == n - 1));
      var log1 := log + [x];
      assert Dummies(i, n)[0] == Out(0, i == n - 1) && Dummies(i, n)[1..] == Dummies(i + 1, n);
      ReplayOne(origin, log, x);
      ServingAnswers(peer, sensor, origin, log, x);
      Serves(peer, sensor, origin, log1, base, i + 1, n);
      var after := Exchanges(peer, log, Dummies(i, n));
      assert after[..|log|] == after[..|log1|][..|log|] == log;
      assert after[|log|] == after[..|log1|][|log|] == x;
    }
  }

  lemma ServingAnswers(peer: Peer, sensor: Sensor, origin: Adxl, log: seq<Launch>, x: Launch)
    requires Models(peer, sensor, origin)
    requires var a := Replay(origin, log); a.mode.Serving? && a.mode.reg < 0x40
    requires x.rx == peer(log, x.tx, x.final)
    ensures var a := Replay(origin, log); x.rx == Value(sensor, |log|, a.regs, a.mode.reg)
  {
  }

  /** A burst read returns the register window, each register as it is when its byte is exchanged. */
  lemma ReadRefines(peer: Peer, sensor: Sensor, origin: Adxl, log: seq<Launch>, start: Byte, n: nat)
    requires Models(peer, sensor, origin) && origin.mode.AwaitCommand? && Closed(log) && n > 0
    ensures var after := Exchanges(peer, log, ReadOuts(start, n));
            var regs := Replay(origin, log).regs;
            && |after| == |log| + 1 + n && Replay(origin, after).regs == regs
            && Window(after, sensor, regs, |log| + 1, |after|, start - |log| - 1)
  {
    hide Value, Replay, Window, Command, Models;
    var outs, tx := ReadOuts(start, n), Command(start, true, n > 1);
    var x := Launch(tx, false, peer(log, tx, false));
    assert outs[0] == Out(tx, false) && outs[1..] == Dummies(0, n);
    ClosedAwaits(origin, log);
    ReplayOne(origin, log, x);
    CommandDecodes(start, true, n > 1);
    Serves(peer, sensor, origin, log + [x], start - |log| - 1, 0, n);
  }

  /** A register write stores the value, and nothing else. */
  lemma WriteRefines(peer: Peer, origin: Adxl, log: seq<Launch>, reg: Byte, value: Byte)
    requires origin.mode.AwaitCommand? && Closed(log)
    ensures var after := Exchanges(peer, log, WriteOuts(reg, value));
            Replay(origin, after).regs == Store(Replay(origin, log).regs, reg % 0x40, value)
  {
    hide Store, Replay, Command;
    var outs, tx := WriteOuts(reg, value), Command(reg, false, false);
    var x := Launch(tx, false, peer(log, tx, false));
    var y := Launch(value, true, peer(log + [x], value, true));
    ClosedAwaits(origin, log);
    CommandDecodes(reg, false, false);
    ReplayOne(origin, log, x);
    ReplayOne(origin, log + [x], y);
    assert outs[1..] == [Out(value, true)] && [Out(value, true)][1..] == [];
    assert Exchanges(peer, log + [x], [Out(value, true)]) == Exchanges(peer, log + [x] + [y], []);
  }
}
