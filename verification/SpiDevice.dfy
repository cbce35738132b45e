/**
 The SPI peripheral as the polling driver sees it.

 The register wrapper is rtl/peripherals/spi/regs/spi_regs.sv.  A START is latched if the stored ENABLE is
 up and no byte is in flight, and held until the shifter is ready, with BUSY still low (lines 316-346); an
 ENABLE written in the same word is not looked at.  The byte and its XFER_END are the ones in the registers
 when the launch leaves (lines 304, 316, 356-360, 422-431).  ENABLE cannot be written from then until a
 byte launched as the last one is through, XFER_END always can (lines 374-398).  RX_VALID goes up with every
 byte, DONE with the last, and both stay up until cleared; a clear wins over an arrival (lines 433-461).
 How long a launch is held and how long a byte takes is arbitrary, but finite: the driver's waits have no
 bound of their own.
 */
module SpiDevice {
  import opened MachineWords

  /** One byte exchanged: sent, XFER_END when it left, received. */
  datatype Launch = Launch(tx: Byte, final: bool, rx: Byte)

  /** The other end of the wire: its answer may depend on everything exchanged before. */
  type Peer = (seq<Launch>, Byte, bool) -> Byte

  datatype Delay = Delay(hold: nat, shift: nat)

  /** The peer, and for every launch how long it is held pending and how long it shifts. */
  datatype Env = Env(peer: Peer, delay: nat -> Delay)

  datatype Lane =
    | Quiet
    | Pending(hold: nat, shift: nat)
    | Shifting(tx: Byte, final: bool, left: nat)

  datatype Spi = Spi(
    enabled: bool, xferEnd: bool, txdata: Byte, rxdata: Byte,
    done: bool, rxValid: bool,
    lane: Lane,
    open: bool,             // a byte is in flight, or another one is to follow
    log: seq<Launch>,       // every byte exchanged so far
    lost: bool)             // a START was ever written that launched no byte

  function Complete(env: Env, s: Spi, tx: Byte, final: bool): Spi {
    var rx := env.peer(s.log, tx, final);
    s.(rxdata := rx, rxValid := true, done := s.done || final, open := !final,
       lane := Quiet, log := s.log + [Launch(tx, final, rx)])
  }

  predicate Arriving(lane: Lane) { lane.Shifting? && lane.left == 0 }

  /** On its way, and not waiting for ENABLE. */
  predicate Coming(s: Spi) { !s.lane.Quiet? && (s.lane.Pending? ==> s.enabled) }

  /** A launch that is held a little longer, or leaves with what is then in the registers, or shifts on. */
  function Closer(s: Spi): Spi {
    match s.lane
    case Quiet => s
    case Pending(hold, shift) =>
      if hold > 0 then s.(lane := Pending(hold - 1, shift))
      else s.(lane := Shifting(s.txdata, s.xferEnd, shift), open := true)
    case Shifting(tx, final, left) => s.(lane := if left > 0 then Shifting(tx, final, left - 1) else Quiet)
  }

  /** What happens between one register access and the next. */
  function Tick(env: Env, s: Spi): Spi {
    if !Coming(s) then s
    else if Arriving(s.lane) then Complete(env, s, s.lane.tx, s.lane.final)
    else Closer(s)
  }

  /** So many accesses later, with nothing written. */
  function Later(env: Env, s: Spi, n: nat): Spi
    decreases n
  {
    if n == 0 then s else Later(env, Tick(env, s), n - 1)
  }

  /** The accesses it takes until nothing is on its way. */
  function Work(s: Spi): nat { LaneWork(s.lane) }

  function LaneWork(lane: Lane): nat {
    match lane
    case Quiet => 0
    case Pending(hold, shift) => hold + shift + 2
    case Shifting(_, _, left) => left + 1
  }

  // The CTRL bits as software names them.
  const ENABLE: Word := 0x01
  const START: Word := 0x02
  const XFER_END: Word := 0x04
  const CLR_DONE: Word := 0x08
  const CLR_RX_VALID: Word := 0x10

  predicate Bit(w: Word, mask: Word)
    requires mask != 0
  {
    (w / mask) % 2 == 1
  }

  /** START and the clear bits are pulses and read as zero. */
  function CtrlWord(s: Spi): Word {
    (if s.enabled then 0x01 else 0) + if s.xferEnd then 0x04 else 0
  }

  /** Bit 0 is ENABLE, bit 1 START, bit 2 XFER_END, bit 3 clears DONE and bit 4 RX_VALID. */
  function WriteCtrl(env: Env, s: Spi, w: Word): Spi {
    var t := s.(enabled := if s.open then s.enabled else Bit(w, 0x01), xferEnd := Bit(w, 0x04),
                done := s.done && !Bit(w, 0x08), rxValid := s.rxValid && !Bit(w, 0x10));
    if !Bit(w, 0x02) then t
    else if s.enabled && s.lane.Quiet? then
      t.(lane := Pending(env.delay(|t.log|).hold, env.delay(|t.log|).shift))
    else t.(lost := true)
  }

  /** Bytes launched so far, whether or not they are through. */
  function Started(s: Spi): nat { |s.log| + if s.lane.Quiet? then 0 else 1 }

  /** Whatever is open, pending or in flight was started while the peripheral was enabled, and still is. */
  predicate Sane(s: Spi) { s.open || !s.lane.Quiet? ==> s.enabled }

  /** Enabled, nothing pending, nothing in flight. */
  predicate Calm(s: Spi) { s.lane.Quiet? && s.enabled }

  /** Everything that is on its way has arrived. */
  function Drain(env: Env, s: Spi): Spi
    decreases Work(s)
  {
    hide Tick, Work;
    TickArrives(env, s);
    if !Coming(s) then s else Drain(env, Tick(env, s))
  }

  /** What a single blocking exchange comes to. */
  function Exchange(env: Env, s: Spi, tx: Byte, final: bool): Spi {
    var rx := env.peer(s.log, tx, final);
    s.(enabled := true, xferEnd := final, txdata := tx, rxdata := rx, done := final, rxValid := true,
       open := !final, log := s.log + [Launch(tx, final, rx)])
  }

  /** What comes of a launch does not depend on how far it has got. */
  lemma Whenever(env: Env, s: Spi, lane: Lane, open: bool, tx: Byte, final: bool)
    ensures Complete(env, s.(lane := lane, open := open), tx, final) == Complete(env, s, tx, final)
  {
  }

  lemma OneTick(env: Env, s: Spi)
    ensures !Coming(s) ==> Drain(env, s) == s && Tick(env, s) == s
    ensures Drain(env, Tick(env, s)) == Drain(env, s)
    ensures Arriving(s.lane) ==> Drain(env, s) == Complete(env, s, s.lane.tx, s.lane.final)
    ensures Coming(s) && !Arriving(s.lane) ==> Tick(env, s) == Closer(s)
  {
    hide Complete, Closer;
    if Arriving(s.lane) { Arrived(env, s, s.lane.tx, s.lane.final); }
  }

  lemma {:induction false} DrainShifting(env: Env, s: Spi)
    requires s.lane.Shifting?
    ensures Drain(env, s) == Complete(env, s, s.lane.tx, s.lane.final)
    decreases Work(s)
  {
    hide Complete, Drain, Tick;
    OneTick(env, s);
    if s.lane.left > 0 {
      Whenever(env, s, Tick(env, s).lane, s.open, s.lane.tx, s.lane.final);
      DrainShifting(env, Tick(env, s));
    }
  }

  /**
   Left alone, a pending launch ends in the byte and the XFER_END then in the registers, however long it is
   held.
   */
  lemma {:induction false} DrainPending(env: Env, s: Spi)
    requires s.lane.Pending? && s.enabled
    ensures Drain(env, s) == Complete(env, s, s.txdata, s.xferEnd)
    decreases Work(s)
  {
    hide Complete, Drain, Tick;
    OneTick(env, s);
    Whenever(env, s, Tick(env, s).lane, Tick(env, s).open, s.txdata, s.xferEnd);
    if s.lane.hold > 0 { DrainPending(env, Tick(env, s)); } else { DrainShifting(env, Tick(env, s)); }
  }

  lemma Arrived(env: Env, s: Spi, tx: Byte, final: bool)
    ensures var t := Complete(env, s, tx, final);
            && t.lane.Quiet? && t.rxValid && |t.log| == |s.log| + 1
            && t.enabled == s.enabled && t.xferEnd == s.xferEnd && t.lost == s.lost && t.txdata == s.txdata
  {
  }

  lemma GetsCloser(s: Spi)
    requires Coming(s) && !Arriving(s.lane)
    ensures Coming(Closer(s)) && Work(Closer(s)) < Work(s)
  {
    match s.lane
    case Pending(hold, shift) =>
      if hold > 0 { assert Closer(s).lane == Pending(hold - 1, shift); }
    case Shifting(tx, final, left) =>
      assert Closer(s).lane == Shifting(tx, final, left - 1);
  }

  lemma TickKeeps(env: Env, s: Spi)
    ensures var t := Tick(env, s);
            && t.enabled == s.enabled && t.xferEnd == s.xferEnd && t.lost == s.lost && t.txdata == s.txdata
            && Started(t) == Started(s) && (s.lane.Quiet? ==> t == s) && (Sane(s) ==> Sane(t))
  {
    hide Complete, LaneWork;
    if Arriving(s.lane) {
      Arrived(env, s, s.lane.tx, s.lane.final);
    } else if Coming(s) {
      GetsCloser(s);
    }
  }

  /** A byte on its way gets closer, and RX_VALID goes up exactly when it arrives. */
  lemma TickArrives(env: Env, s: Spi)
    ensures var t := Tick(env, s);
            && (s.lane.Quiet? || !s.rxValid ==> t.lane.Quiet? || !t.rxValid)
            && (Coming(s) ==> Work(t) < Work(s))
            && (Coming(s) || s.rxValid ==> Coming(t) || t.rxValid)
  {
    hide Complete, LaneWork;
    NoWork(s.lane);
    if Arriving(s.lane) {
      Arrived(env, s, s.lane.tx, s.lane.final);
      NoWork(Tick(env, s).lane);
    } else if Coming(s) {
      GetsCloser(s);
    }
  }

  lemma NoWork(lane: Lane)
    ensures LaneWork(lane) == 0 <==> lane.Quiet?
  {
  }

  lemma DrainTick(env: Env, s: Spi)
    ensures Drain(env, Tick(env, s)) == Drain(env, s)
  {
  }

  /** The word a flag clear writes back carries the old ENABLE and XFER_END, and no START. */
  lemma ClearWord(s: Spi)
    ensures var w := CtrlWord(s) + CLR_DONE + CLR_RX_VALID;
            && (Bit(w, ENABLE) <==> s.enabled) && !Bit(w, START) && (Bit(w, XFER_END) <==> s.xferEnd)
            && Bit(w, CLR_DONE) && Bit(w, CLR_RX_VALID)
  {
  }

  lemma EnableBits()
    ensures var w := ENABLE + XFER_END;
            Bit(w, ENABLE) && Bit(w, XFER_END) && !Bit(w, START) && !Bit(w, CLR_DONE) && !Bit(w, CLR_RX_VALID)
  {
  }

  // ---------------------------------------------------------------- one write, from any state

  /** The state in which polling BUSY stops: not shifting, but perhaps still pending. */
  function NotBusy(env: Env, s: Spi): (t: Spi)
    ensures !t.lane.Shifting?
    decreases Work(s)
  {
    hide Work;
    TickArrives(env, s);
    TickKeeps(env, s);
    if Tick(env, s).lane.Shifting? then NotBusy(env, Tick(env, s)) else Tick(env, s)
  }

  function LaunchWord(final: bool): Word { ENABLE + (if final then XFER_END else 0) + START }

  /** What `spi_write_byte` comes to: poll BUSY, stage the byte, write START. */
  function Written(env: Env, s: Spi, data: Byte, final: bool): Spi {
    WriteCtrl(env, Tick(env, Tick(env, NotBusy(env, s)).(txdata := data)), LaunchWord(final))
  }

  /** What it is meant to come to: whatever was on its way has arrived, and this byte is pending. */
  function Launched(env: Env, s: Spi, data: Byte, final: bool): Spi {
    var t := Drain(env, s);
    t.(txdata := data, enabled := true, xferEnd := final,
       lane := Pending(env.delay(|t.log|).hold, env.delay(|t.log|).shift))
  }

  lemma LaunchBits(final: bool)
    ensures var w := LaunchWord(final);
            && Bit(w, ENABLE) && Bit(w, START) && (Bit(w, XFER_END) <==> final)
            && !Bit(w, CLR_DONE) && !Bit(w, CLR_RX_VALID)
  {
  }

  /** From a byte in flight, or none, polling BUSY stops when it has arrived. */
  lemma {:induction false} NotBusyDrains(env: Env, s: Spi)
    requires !s.lane.Pending?
    ensures NotBusy(env, s) == Drain(env, s) && Drain(env, s).lane.Quiet?
    ensures Sane(s) ==> Sane(Drain(env, s))
    ensures Drain(env, s).lost == s.lost && Drain(env, s).enabled == s.enabled
    decreases Work(s)
  {
    TickArrives(env, s);
    TickKeeps(env, s);
    if s.lane.Shifting? {
      DrainShifting(env, s);
      if s.lane.left > 0 { NotBusyDrains(env, Tick(env, s)); }
    }
  }

  lemma LaunchWhenCalm(env: Env, s: Spi, data: Byte, final: bool)
    requires Calm(s)
    ensures WriteCtrl(env, s.(txdata := data), LaunchWord(final)) == Launched(env, s, data, final)
  {
    LaunchBits(final);
  }

  /**
   A START is lost while a byte is pending or in flight, and on a port whose stored ENABLE is still low,
   though the same word raises it.
   */
  lemma LaunchLost(env: Env, s: Spi, final: bool)
    requires !Calm(s)
    ensures var t := WriteCtrl(env, s, LaunchWord(final));
            && t.lost && t.lane == s.lane && t.txdata == s.txdata && t.log == s.log && t.xferEnd == final
            && t.rxValid == s.rxValid && t.enabled == (s.enabled || !s.open)
  {
    LaunchBits(final);
  }

  /** The states from which nothing is held back by the time the byte is staged. */
  predicate ClearsInTime(lane: Lane) {
    lane.Pending? ==> lane.hold == 0 || (lane.hold == 1 && lane.shift == 0)
  }

  lemma WrittenClean(env: Env, s: Spi, data: Byte, final: bool)
    requires s.enabled && ClearsInTime(s.lane)
    ensures Written(env, s, data, final) == Launched(env, s, data, final)
  {
    hide WriteCtrl, Drain, NotBusy, Launched;
    if s.lane.Pending? {
      PendingClears(env, s, data, final);
    } else {
      NotBusyDrains(env, s);
      LaunchWhenCalm(env, Drain(env, s), data, final);
      DrainTwice(env, s, data, final);
    }
  }

  lemma DrainTwice(env: Env, s: Spi, data: Byte, final: bool)
    requires Drain(env, s).lane.Quiet?
    ensures Launched(env, Drain(env, s), data, final) == Launched(env, s, data, final)
  {
  }

  lemma PendingClears(env: Env, s: Spi, data: Byte, final: bool)
    requires s.enabled && s.lane.Pending? && ClearsInTime(s.lane)
    ensures Written(env, s, data, final) == Launched(env, s, data, final)
  {
    hide WriteCtrl, Drain, Launched, Complete, Tick;
    var t := Tick(env, s);
    OneTick(env, s);
    DrainPending(env, s);
    Arrived(env, s, s.txdata, s.xferEnd);
    if s.lane.hold == 0 {
      NotBusyDrains(env, t);
      OneTick(env, Drain(env, s));
      assert NotBusy(env, s) == NotBusy(env, t) == Drain(env, s);
      TickKeeps(env, Drain(env, s).(txdata := data));
    } else {
      HeldOnce(env, s, data);
    }
    LaunchWhenCalm(env, Drain(env, s), data, final);
    DrainTwice(env, s, data, final);
  }

  /** Held for one access and shifting for none: the byte arrives just before START is written again. */
  lemma HeldOnce(env: Env, s: Spi, data: Byte)
    requires s.enabled && s.lane.Pending? && s.lane.hold == 1 && s.lane.shift == 0
    ensures NotBusy(env, s) == Tick(env, s)
    ensures Tick(env, Tick(env, Tick(env, s)).(txdata := data)) == Drain(env, s).(txdata := data)
  {
    hide Drain;
    DrainPending(env, s);
    assert Tick(env, s) == s.(lane := Pending(0, 0));
    assert Tick(env, Tick(env, s)) == s.(lane := Shifting(s.txdata, s.xferEnd, 0), open := true);
  }

  /**
   `spi_write_byte` launches its byte exactly on an enabled port with no launch held back: BUSY is low while
   one is pending, so the wait falls through and the second START is lost.
   */
  lemma WriteByteSafe(env: Env, s: Spi, data: Byte, final: bool)
    requires Sane(s) && !s.lost
    ensures !Written(env, s, data, final).lost <==> s.enabled && ClearsInTime(s.lane)
    ensures s.enabled && ClearsInTime(s.lane) ==> Written(env, s, data, final) == Launched(env, s, data, final)
  {
    hide WriteCtrl, Drain, Closer, Complete, ClearsInTime;
    if s.enabled && ClearsInTime(s.lane) {
      WrittenClean(env, s, data, final);
      DrainKeeps(env, s);
    } else if !s.enabled {
      LaunchLost(env, s.(txdata := data), final);
    } else {
      StillThere(env, s, data);
      LaunchLost(env, Tick(env, Tick(env, Tick(env, s)).(txdata := data)), final);
    }
  }

  /** Held for longer, it is pending or shifting when START is written again. */
  lemma StillThere(env: Env, s: Spi, data: Byte)
    requires s.enabled && !ClearsInTime(s.lane)
    ensures NotBusy(env, s) == Tick(env, s) == s.(lane := Pending(s.lane.hold - 1, s.lane.shift))
    ensures var u := Tick(env, Tick(env, Tick(env, s)).(txdata := data));
            match s.lane.hold
            case 1 => u == s.(lane := Shifting(s.txdata, s.xferEnd, s.lane.shift - 1), open := true, txdata := data)
            case 2 => u == s.(lane := Shifting(data, s.xferEnd, s.lane.shift), open := true, txdata := data)
            case _ => u == s.(lane := Pending(s.lane.hold - 3, s.lane.shift), txdata := data)
  {
    hide Complete;
  }

  lemma {:induction false} DrainKeeps(env: Env, s: Spi)
    ensures Drain(env, s).lost == s.lost
    decreases Work(s)
  {
    hide Tick;
    OneTick(env, s);
    TickArrives(env, s);
    TickKeeps(env, s);
    if Coming(s) { DrainKeeps(env, Tick(env, s)); }
  }

  function Retimed(s: Spi, hold: nat, shift: nat): Spi {
    if s.lane.Pending? then s.(lane := Pending(hold, shift)) else s
  }

  /**
   For a caller, who cannot read the delays to come: the write is safe whatever they are exactly on an
   enabled port with no launch pending.
   */
  lemma SafeWhateverTheDelays(env: Env, s: Spi, data: Byte, final: bool)
    requires Sane(s) && !s.lost
    ensures (forall hold, shift :: !Written(env, Retimed(s, hold, shift), data, final).lost)
       <==> s.enabled && !s.lane.Pending?
  {
    hide Written;
    forall hold, shift
      ensures !Written(env, Retimed(s, hold, shift), data, final).lost
         <==> s.enabled && ClearsInTime(Retimed(s, hold, shift).lane)
    {
      WriteByteSafe(env, Retimed(s, hold, shift), data, final);
    }
    var long := Retimed(s, 2, 0);
    assert s.lane.Pending? || !s.enabled ==> Written(env, long, data, final).lost;
  }

  /**
   How a caller can tell: with RX_VALID cleared before the last START, or no START since, RX_VALID up shows
   that nothing is pending, and the next byte is launched.
   */
  lemma RxValidIsSafe(env: Env, s: Spi, n: nat, data: Byte, final: bool)
    requires Sane(s) && s.enabled && !s.lost && !s.rxValid
    ensures var t := Later(env, s, n);
            t.rxValid ==> t.lane.Quiet? && !Written(env, t, data, final).lost
  {
    hide Written, Tick;
    LaterKeeps(env, s, n);
    WriteByteSafe(env, Later(env, s, n), data, final);
  }

  lemma {:induction false} LaterKeeps(env: Env, s: Spi, n: nat)
    ensures var t := Later(env, s, n);
            && t.enabled == s.enabled && t.lost == s.lost && (Sane(s) ==> Sane(t))
            && (s.lane.Quiet? || !s.rxValid ==> t.lane.Quiet? || !t.rxValid)
            && (!Coming(s) ==> t == s)
    decreases n
  {
    hide Tick;
    OneTick(env, s);
    TickKeeps(env, s);
    TickArrives(env, s);
    if n > 0 { LaterKeeps(env, Tick(env, s), n - 1); }
  }

  /** With a second byte written over a launch still held, one of the two is never sent. */
  lemma OneByteLost(env: Env, s: Spi, data: Byte, final: bool)
    requires s.enabled && !ClearsInTime(s.lane)
    ensures Drain(env, Written(env, s, data, final)).log
         == s.log + [if s.lane.hold == 1 then Sent(env, s, s.txdata, s.xferEnd)
                     else if s.lane.hold == 2 then Sent(env, s, data, s.xferEnd)
                     else Sent(env, s, data, final)]
  {
    hide WriteCtrl, Drain, Closer;
    StillThere(env, s, data);
    var u := Tick(env, Tick(env, Tick(env, s)).(txdata := data));
    LaunchLost(env, u, final);
    var w := WriteCtrl(env, u, LaunchWord(final));
    if w.lane.Pending? { DrainPending(env, w); } else { DrainShifting(env, w); }
  }

  function Sent(env: Env, s: Spi, tx: Byte, final: bool): Launch {
    Launch(tx, final, env.peer(s.log, tx, final))
  }

  /** What is on its way is not touched by the clear bits. */
  lemma SameArrivals(env: Env, s: Spi, t: Spi)
    requires s.lane == t.lane && s.txdata == t.txdata && s.log == t.log
    requires s.lane.Pending? ==> s.enabled == t.enabled && s.xferEnd == t.xferEnd
    ensures Drain(env, s).log == Drain(env, t).log
  {
    if !Coming(s) {
    } else if s.lane.Pending? {
      DrainPending(env, s);
      DrainPending(env, t);
    } else {
      DrainShifting(env, s);
      DrainShifting(env, t);
    }
  }

  lemma NotPendingTick(env: Env, s: Spi)
    requires !s.lane.Pending?
    ensures !Tick(env, s).lane.Pending?
  {
  }

  /** `spi_init` writes ENABLE and XFER_END: a launch still held then is the last byte of its transaction. */
  lemma InitPending(env: Env, s: Spi)
    requires s.lane.Pending? && s.enabled
    ensures Drain(env, WriteCtrl(env, Tick(env, s), ENABLE + XFER_END)).log
         == s.log + [Sent(env, s, s.txdata, s.lane.hold > 0 || s.xferEnd)]
  {
    hide Drain;
    EnableBits();
    var t := WriteCtrl(env, Tick(env, s), ENABLE + XFER_END);
    if s.lane.hold > 0 { DrainPending(env, t); } else { DrainShifting(env, t); }
  }

  // ---------------------------------------------------------------- does a blocking exchange return

  /** The state at read `n` of RX_VALID in `spi_transfer_byte_blocking`, begun with nothing on its way. */
  function Awaiting(env: Env, s: Spi, tx: Byte, final: bool, n: nat): Spi {
    Later(env, NotBusy(env, Written(env, s.(done := false, rxValid := false), tx, final)), n)
  }

  /**
   A blocking exchange begun with nothing on its way returns exactly if the port was enabled before.  On a
   port never enabled its START is lost and it waits for ever.
   */
  lemma ReturnsIffEnabled(env: Env, s: Spi, tx: Byte, final: bool)
    requires s.lane.Quiet?
    ensures (exists n :: Awaiting(env, s, tx, final, n).rxValid) <==> s.enabled
  {
    hide WriteCtrl, Drain;
    var c := s.(done := false, rxValid := false);
    var w := Written(env, c, tx, final);
    if s.enabled {
      WrittenClean(env, c, tx, final);
      NotBusyComes(env, w);
      var n := ComesIn(env, NotBusy(env, w));
      assert Awaiting(env, s, tx, final, n).rxValid;
    } else {
      LaunchLost(env, c.(txdata := tx), final);
      forall n
        ensures !Awaiting(env, s, tx, final, n).rxValid
      {
        LaterKeeps(env, w, n);
      }
    }
  }

  lemma {:induction false} NotBusyComes(env: Env, s: Spi)
    requires Coming(s) || s.rxValid
    ensures Coming(NotBusy(env, s)) || NotBusy(env, s).rxValid
    decreases Work(s)
  {
    hide Tick, Work;
    OneTick(env, s);
    TickArrives(env, s);
    if Tick(env, s).lane.Shifting? { NotBusyComes(env, Tick(env, s)); }
  }

  lemma {:induction false} ComesIn(env: Env, s: Spi) returns (n: nat)
    requires Coming(s) || s.rxValid
    ensures Later(env, s, n).rxValid
    decreases Work(s)
  {
    hide Tick, Work;
    n := 0;
    if !s.rxValid {
      TickArrives(env, s);
      var m := ComesIn(env, Tick(env, s));
      n := m + 1;
    }
  }
}
