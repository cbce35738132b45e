/** The periodic waveforms behind the LED chaser and the motor sweep, in 32-bit unsigned arithmetic. */
module Waveforms {
  import opened MachineWords

  /** Unsigned 32-bit arithmetic is modulo 2^32. */
  function Wrap(x: nat): Word { x % 0x1_0000_0000 }

  function Distance(a: nat, b: nat): nat { if a > b then a - b else b - a }

  lemma NextRemainder(k: nat, n: nat)
    requires n > 0
    ensures (k + 1) % n == if k % n == n - 1 then 0 else k % n + 1
  {
    var q, r := k / n, k % n;
    assert k + 1 == if r == n - 1 then (q + 1) * n else q * n + (r + 1);
    if r == n - 1 { Remainder(q + 1, 0, n); } else { Remainder(q, r + 1, n); }
  }

  lemma Remainder(q: nat, r: nat, n: nat)
    requires r < n
    ensures (q * n + r) % n == r
  {
    var k := q * n + r;
    var p := k / n;
    assert (p - q) * n == p * n - q * n == r - k % n;
    NoMultiple(p - q, n);
  }

  lemma NoMultiple(d: int, n: int)
    requires -n < d * n < n
    ensures d == 0
  {
    if d >= 1 { AtLeastOnce(d, n); }
    if d <= -1 { AtLeastOnce(-d, n); }
  }

  lemma AtLeastOnce(d: int, n: int)
    requires d >= 1 && n >= 0
    ensures d * n >= n
  {
    Scaled(1, d, n);
  }

  lemma Scaled(a: int, b: int, n: nat)
    requires a <= b
    ensures a * n <= b * n
  {
    NonNegative(b - a, n);
    assert (b - a) * n == b * n - a * n;
  }

  lemma NonNegative(k: nat, n: nat)
    ensures k * n >= 0
  {
  }

  // ---------------------------------------------------------------- triangle

  /** The rising edge over `n` ticks; the product wraps when `z` is large. */
  function Ramp(z: Word, n: Word): Word
    requires z < n
  {
    Wrap(1000 * z) / n
  }

  /** Below 1000 for every phase and period, even where the intermediate product wraps. */
  function Triangle(phase: Word, period: Word): (y: Word)
    ensures y < 1000
  {
    if period < 2 then 0
    else
      var x, half := phase % period, period / 2;
      RampBelow1000(if x < half then x else period - 1 - x, if x < half then half else period - half);
      if x < half then Ramp(x, half) else Ramp(period - 1 - x, period - half)
  }

  lemma TriangleWithin(x: Word, period: Word)
    requires 2 <= period && x < period
    ensures Triangle(x, period)
            == if x < period / 2 then Ramp(x, period / 2) else Ramp(period - 1 - x, period - period / 2)
  {
    hide Ramp;
    assert x % period == x by { Remainder(0, x, period); }
  }

  lemma AtMostQuotient(x: nat, n: nat, b: nat)
    requires n > 0
    ensures x / n < b <==> x < b * n
  {
    var q := x / n;
    assert q * n <= x < q * n + n;
    if q < b { Scaled(q + 1, b, n); } else { Scaled(b, q, n); }
  }

  lemma RampBelow1000(z: Word, n: Word)
    requires z < n
    ensures Ramp(z, n) < 1000
  {
    AtMostQuotient(Wrap(1000 * z), n, 1000);
  }

  lemma RampRises(y: Word, z: Word, n: Word)
    requires y <= z < n && 1000 * z < 0x1_0000_0000
    ensures Ramp(y, n) <= Ramp(z, n)
  {
    hide Ramp;
    RampIs(y, n);
    RampIs(z, n);
    Quotients(1000 * y, 1000 * z, n);
  }

  lemma RampIs(z: Word, n: Word)
    requires z < n && 1000 * z < 0x1_0000_0000
    ensures Ramp(z, n) == 1000 * z / n
  {
  }

  lemma Quotients(a: nat, b: nat, n: nat)
    requires a <= b && n > 0
    ensures a / n <= b / n
  {
    AtMostQuotient(a, n, b / n + 1);
    AtMostQuotient(b, n, b / n + 1);
  }

  predicate Rises(period: Word) {
    forall x, y :: 0 <= x <= y < period / 2 ==> Triangle(x, period) <= Triangle(y, period)
  }

  predicate Falls(period: Word) {
    forall x, y :: period / 2 <= x <= y < period ==> Triangle(y, period) <= Triangle(x, period)
  }

  /** The longest period whose intermediate products all fit in 32 bits. */
  const LONGEST_TRIANGLE := 8_589_936

  /** The wave is a triangle exactly up to that period; one tick beyond it, it drops to 0 in mid-slope. */
  lemma TriangleShape(period: Word)
    ensures Rises(period) && Falls(period) <==> period <= LONGEST_TRIANGLE
  {
    if period <= LONGEST_TRIANGLE {
      TriangleRises(period);
      TriangleFalls(period);
    } else {
      TriangleBreaks(period);
    }
  }

  lemma TriangleRises(period: Word)
    requires period <= LONGEST_TRIANGLE
    ensures Rises(period)
  {
    hide Triangle, Ramp;
    forall x, y | 0 <= x <= y < period / 2 ensures Triangle(x, period) <= Triangle(y, period) {
      TriangleWithin(x, period);
      TriangleWithin(y, period);
      RampRises(x, y, period / 2);
    }
  }

  lemma TriangleFalls(period: Word)
    requires period <= LONGEST_TRIANGLE
    ensures Falls(period)
  {
    hide Triangle, Ramp;
    forall x, y | period / 2 <= x <= y < period ensures Triangle(y, period) <= Triangle(x, period) {
      if period >= 2 {
        TriangleWithin(x, period);
        TriangleWithin(y, period);
        RampRises(period - 1 - y, period - 1 - x, period - period / 2);
      }
    }
  }

  lemma TriangleBreaks(period: Word)
    requires period > LONGEST_TRIANGLE
    ensures !Falls(period)
  {
    hide Triangle, Ramp;
    var n := period - period / 2;
    var x := period - 1 - 4_294_968;
    TriangleWithin(x, period);
    TriangleWithin(x + 1, period);
    DropsToZero(n);
  }

  lemma DropsToZero(n: Word)
    requires 4_294_968 < n <= 0x8000_0000
    ensures Ramp(4_294_968, n) == 0 < Ramp(4_294_967, n)
  {
    assert Wrap(1000 * 4_294_968) == 704;
    AtMostQuotient(704, n, 1);
    AtMostQuotient(4_294_967_000, n, 1);
  }

  /** An even period reads the same backwards, whatever wraps. */
  lemma TrianglePalindrome(x: Word, period: Word)
    requires period % 2 == 0 && x < period
    ensures Triangle(x, period) == Triangle(period - 1 - x, period)
  {
    hide Triangle, Ramp;
    TriangleWithin(x, period);
    TriangleWithin(period - 1 - x, period);
  }

  // --------------------------------------------------------------- ping-pong

  /** The period of the index, in 32 bits: it wraps above 2^31 cells, and is zero at one count. */
  function Span(count: Word): Word
    requires count >= 2
  {
    Wrap(2 * (count - 1))
  }

  /** At the excluded count the C code divides by zero. */
  function PingPong(step: Word, count: Word): (i: Word)
    requires count != 0x8000_0001
    ensures count >= 1 ==> i < count
  {
    if count <= 1 then 0
    else
      var x := step % Span(count);
      if x < count then x else Span(count) - x
  }

  lemma ZeroSpan(count: Word)
    requires count >= 2
    ensures Span(count) == 0 <==> count == 0x8000_0001
    ensures count <= 0x8000_0000 ==> Span(count) == 2 * (count - 1)
    ensures count > 0x8000_0001 ==> Span(count) == 2 * (count - 0x8000_0001) < count
  {
  }

  /** A point that walks one cell at a time between the ends of a row of cells. */
  datatype Walker = Walker(at: nat, rising: bool)

  function Walk(steps: nat, count: nat): (w: Walker)
    requires count >= 2
    ensures w.at < count
  {
    if steps == 0 then Walker(0, true)
    else
      var w := Walk(steps - 1, count);
      if w.rising && w.at == count - 1 then Walker(w.at - 1, false)
      else if w.rising || w.at == 0 then Walker(w.at + 1, true)
      else Walker(w.at - 1, false)
  }

  predicate Walks(count: Word)
    requires count >= 2 && count != 0x8000_0001
  {
    forall step: Word :: PingPong(step, count) == Walk(step, count).at
  }

  predicate MovesByOne(count: Word)
    requires count >= 2 && count != 0x8000_0001
  {
    forall step: Word :: step < 0xFFFF_FFFF ==>
      Distance(PingPong(step, count), PingPong(step + 1, count)) == 1
  }

  /** The closed form is the walk exactly where its period does not wrap. */
  lemma PingPongWalks(count: Word)
    requires count >= 2 && count != 0x8000_0001
    ensures Walks(count) <==> count <= 0x8000_0000
  {
    hide PingPong, Span;
    ZeroSpan(count);
    if count <= 0x8000_0000 {
      forall step: Word ensures PingPong(step, count) == Walk(step, count).at { ShortWalk(step, count); }
    } else {
      var span := Span(count);
      SawTooth(span, count);
      Remainder(1, 0, span);
      Remainder(0, span, 2 * (count - 1));
      WalkInCycle(span, count);
      assert PingPong(span, count) == 0 < Walk(span, count).at;
    }
  }

  /**
   Up to 2^31 cells one step moves the index by one cell.  Above, the wrapped period makes it a saw-tooth, which
   still moves by one if it has only two teeth, and otherwise jumps.
   */
  lemma PingPongMoves(count: Word)
    requires count >= 2 && count != 0x8000_0001
    ensures MovesByOne(count) <==> count <= 0x8000_0000 || count == 0x8000_0002
  {
    hide PingPong, Span;
    ZeroSpan(count);
    if count <= 0x8000_0000 {
      forall step: Word | step < 0xFFFF_FFFF
        ensures Distance(PingPong(step, count), PingPong(step + 1, count)) == 1
      {
        ShortWalk(step, count);
        ShortWalk(step + 1, count);
      }
    } else if count == 0x8000_0002 {
      forall step: Word | step < 0xFFFF_FFFF
        ensures Distance(PingPong(step, count), PingPong(step + 1, count)) == 1
      {
        SawTooth(step, count);
        SawTooth(step + 1, count);
        NextRemainder(step, 2);
      }
    } else {
      SawToothJumps(Span(count) - 1, count);
    }
  }

  lemma ShortWalk(step: Word, count: Word)
    requires 2 <= count <= 0x8000_0000
    ensures PingPong(step, count) == Walk(step, count).at
  {
    ZeroSpan(count);
    WalkInCycle(step, count);
  }

  lemma SawTooth(step: Word, count: Word)
    requires count > 0x8000_0001
    ensures PingPong(step, count) == step % Span(count)
  {
    ZeroSpan(count);
  }

  lemma SawToothJumps(top: Word, count: Word)
    requires count > 0x8000_0002 && top == Span(count) - 1 && top < 0xFFFF_FFFF
    ensures PingPong(top, count) == top && PingPong(top + 1, count) == 0 && top >= 3
    ensures !MovesByOne(count)
  {
    hide PingPong, Span;
    ZeroSpan(count);
    SawTooth(top, count);
    SawTooth(top + 1, count);
    Remainder(0, top, top + 1);
    Remainder(1, 0, top + 1);
    assert Distance(PingPong(top, count), PingPong(top + 1, count)) != 1;
  }

  lemma {:induction false} WalkInCycle(steps: nat, count: nat)
    requires count >= 2
    ensures var span := 2 * (count - 1);
            var x, w := steps % span, Walk(steps, count);
            && w.at == (if x < count then x else span - x)
            && (0 < x ==> (w.rising <==> x < count))
  {
    if steps > 0 {
      WalkInCycle(steps - 1, count);
      NextRemainder(steps - 1, 2 * (count - 1));
    }
  }

  /** The last index before the step counter wraps is the neighbour of cell 0. */
  predicate EndsBesideZero(count: Word)
    requires count >= 2 && count != 0x8000_0001
  {
    var x := 0xFFFF_FFFF % Span(count);
    x == 1 || (x == Span(count) - 1 && count <= x)
  }

  /** Where the step counter wraps, the index moves by one cell only if its period happens to end beside cell 0. */
  lemma PingPongWraps(count: Word)
    requires count >= 2 && count != 0x8000_0001
    ensures Distance(PingPong(0xFFFF_FFFF, count), PingPong(0, count)) == 1 <==> EndsBesideZero(count)
  {
    ZeroSpan(count);
    Remainder(0, 0, Span(count));
  }

  // --------------------------------------------------------------------- LED

  const LED_CHANNELS: Word := 10
  const LED_PERIOD: Word := 25000

  function TailLevel(dist: Word): (level: Word)
    ensures level <= 1000
  {
    match dist
    case 0 => 1000
    case 1 => 550
    case 2 => 220
    case 3 => 80
    case 4 => 25
    case _ => 0
  }

  function Ambient(breathe: Word, channel: Word): (level: Word)
    requires channel < LED_CHANNELS && breathe < 1000
    ensures 30 <= level <= 81
  {
    ProductBelow(25 + channel * 3, breathe);
    30 + breathe * (25 + channel * 3) / 1000
  }

  lemma ProductBelow(a: nat, b: nat)
    requires a <= 52 && b < 1000
    ensures 0 <= b * a <= 51_948
  {
    Scaled(a, 52, b);
    Scaled(0, a, b);
  }

  /** Brightness of one channel in thousandths, from the distances to the two heads and the two triangles. */
  function Brightness(channel: Word, distA: Word, distB: Word, breathe: Word, twinkle: Word): (level: Word)
    requires channel < LED_CHANNELS && breathe < 1000 && twinkle < 1000
    ensures 30 <= level <= 1000
    ensures distA == 0 ==> level == 1000
  {
    var level := Ambient(breathe, channel) + TailLevel(distA) + TailLevel(distB) / 2 + twinkle / 20;
    if level > 1000 then 1000 else level
  }

  function LedDuty(step: Word, channel: Word): Word
    requires channel < LED_CHANNELS
  {
    var headA := PingPong(step, LED_CHANNELS);
    var headB := PingPong(step / 2 + (LED_CHANNELS - 1), LED_CHANNELS);
    var twinkle := Triangle(Wrap(Wrap(step * 3) + channel * 7), 48);
    Brightness(channel, Distance(channel, headA), Distance(channel, headB), Triangle(step, 64), twinkle)
    * (LED_PERIOD - 1) / 1000
  }

  /** No channel ever goes dark or out of the PWM period, and the running head is always fully lit. */
  lemma LedDutyRange(step: Word, channel: Word)
    requires channel < LED_CHANNELS
    ensures 749 <= LedDuty(step, channel) < LED_PERIOD
    ensures channel == PingPong(step, LED_CHANNELS) ==> LedDuty(step, channel) == LED_PERIOD - 1
  {
    hide Triangle, PingPong, Brightness;
  }

  /** The light of a comet so far from its head. */
  function Comet(dist: nat): nat { [1000, 550, 220, 80, 25, 0][if dist < 5 then dist else 5] }

  function Least(a: int, b: int): int { if a < b then a else b }

  /** To and fro over ten cells, one cell a step. */
  function ToAndFro(step: nat): nat {
    var x := step % 18;
    if x < 10 then x else 18 - x
  }

  /** Up and down in thousandths over an even period. */
  function UpAndDown(step: nat, half: nat): nat
    requires half > 0
  {
    var x := step % (2 * half);
    1000 * (if x < half then x else 2 * half - 1 - x) / half
  }

  /**
   The chaser: a comet at the first head, one of half its light at the second, which moves at half its speed from
   the other end, over an ambient light that breathes more deeply from channel to channel, and some twinkling;
   1000 thousandths is full light, a duty of 24999.
   */
  function Glow(step: Word, channel: Word): int {
    var ambient := 30 + UpAndDown(step, 32) * (25 + 3 * channel) / 1000;
    var sparkle := UpAndDown((3 * step + 7 * channel) % 0x1_0000_0000, 24) / 20;
    var comets := Comet(Distance(channel, ToAndFro(step))) + Comet(Distance(channel, ToAndFro(step / 2 + 9))) / 2;
    Least(1000, ambient + comets + sparkle) * 24999 / 1000
  }

  /** A comet fades from cell to cell; the second one contributes half as much; the rest stays in its ranges. */
  lemma BrightnessIs(channel: Word, distA: Word, distB: Word, breathe: Word, twinkle: Word)
    requires channel < 10 && breathe < 1000 && twinkle < 1000
    ensures var ambient, sparkle := 30 + breathe * (25 + 3 * channel) / 1000, twinkle / 20;
            && 30 <= ambient <= 81 && 0 <= sparkle <= 49
            && Brightness(channel, distA, distB, breathe, twinkle)
            == Least(1000, ambient + Comet(distA) + Comet(distB) / 2 + sparkle)
  {
    hide Ambient, TailLevel;
    AmbientIs(breathe, channel);
    TailIsComet(distA);
    TailIsComet(distB);
  }

  lemma AmbientIs(breathe: Word, channel: Word)
    requires channel < 10 && breathe < 1000
    ensures Ambient(breathe, channel) == 30 + breathe * (25 + 3 * channel) / 1000
  {
    assert 25 + channel * 3 == 25 + 3 * channel;
  }

  lemma TailIsComet(dist: Word)
    ensures TailLevel(dist) == Comet(dist)
  {
  }

  lemma CometFades(near: nat, far: nat)
    requires near <= far
    ensures Comet(far) <= Comet(near) && (near < far && near < 5 ==> Comet(far) < Comet(near))
  {
  }

  /** Moving nearer to either head, all else equal, never dims a channel. */
  lemma NearerIsBrighter(channel: Word, nearA: Word, nearB: Word, farA: Word, farB: Word, breathe: Word, twinkle: Word)
    requires channel < 10 && breathe < 1000 && twinkle < 1000 && nearA <= farA && nearB <= farB
    ensures Brightness(channel, farA, farB, breathe, twinkle) <= Brightness(channel, nearA, nearB, breathe, twinkle)
  {
    hide Comet, Brightness;
    BrightnessIs(channel, nearA, nearB, breathe, twinkle);
    BrightnessIs(channel, farA, farB, breathe, twinkle);
    CometFades(nearA, farA);
    CometFades(nearB, farB);
  }

  lemma UpAndDownIs(x: Word, half: Word)
    requires 0 < half <= 1000
    ensures Triangle(x, 2 * half) == UpAndDown(x, half)
  {
    hide Ramp;
    var y := x % (2 * half);
    RampIs(if y < half then y else 2 * half - 1 - y, half);
  }

  lemma ToAndFroIs(step: Word)
    ensures PingPong(step, 10) == ToAndFro(step)
  {
  }

  /** The duty the code computes is that light, for every channel of every step. */
  lemma LedDutyIs(step: Word, channel: Word)
    requires channel < 10
    ensures LedDuty(step, channel) == Glow(step, channel)
  {
    hide Triangle, PingPong, Brightness, ToAndFro, UpAndDown, Comet;
    UpAndDownIs(step, 32);
    UpAndDownIs(Wrap(Wrap(step * 3) + channel * 7), 24);
    ToAndFroIs(step);
    ToAndFroIs(step / 2 + 9);
    SameWrap(step, channel);
    var twinkle := Triangle(Wrap(Wrap(step * 3) + channel * 7), 48);
    BrightnessIs(channel, Distance(channel, PingPong(step, 10)), Distance(channel, PingPong(step / 2 + 9, 10)),
                 Triangle(step, 64), twinkle);
  }

  lemma SameWrap(step: Word, channel: Word)
    ensures Wrap(Wrap(step * 3) + channel * 7) == (3 * step + 7 * channel) % 0x1_0000_0000
  {
  }

  method LedFrame(step: Word) returns (duty: array<Word>)
    ensures fresh(duty) && duty.Length == 10
    ensures forall i :: 0 <= i < 10 ==> duty[i] == Glow(step, i) && 749 <= duty[i] <= 24999
    ensures step == 0 ==> duty[..] == [24999, 14849, 6974, 3824, 2349, 1674, 1999, 3549, 8024, 14024]
  {
    hide Triangle, PingPong, Ambient, TailLevel, Glow;
    duty := new Word[LED_CHANNELS];
    var headA := PingPong(step, LED_CHANNELS);
    var headB := PingPong(step / 2 + (LED_CHANNELS - 1), LED_CHANNELS);
    var breathe := Triangle(step, 64);
    for i := 0 to LED_CHANNELS
      invariant forall k :: 0 <= k < i ==> duty[k] == LedDuty(step, k)
    {
      var distA: Word := if i > headA then i - headA else headA - i;
      var distB: Word := if i > headB then i - headB else headB - i;
      var ambient: Word := Ambient(breathe, i);
      var sparkle: Word := Triangle(Wrap(Wrap(step * 3) + i * 7), 48) / 20;
      var level: Word := ambient + TailLevel(distA) + TailLevel(distB) / 2 + sparkle;
      if level > 1000 { level := 1000; }
      duty[i] := level * (LED_PERIOD - 1) / 1000;
    }
    LedFrameIs(step, duty[..]);
  }

  lemma LedFrameIs(step: Word, duty: seq<Word>)
    requires |duty| == 10 && forall i :: 0 <= i < 10 ==> duty[i] == LedDuty(step, i)
    ensures forall i :: 0 <= i < 10 ==> duty[i] == Glow(step, i) && 749 <= duty[i] <= 24999
    ensures step == 0 ==> duty == [24999, 14849, 6974, 3824, 2349, 1674, 1999, 3549, 8024, 14024]
  {
    hide LedDuty, Glow;
    forall i: Word | i < 10 ensures duty[i] == Glow(step, i) && 749 <= duty[i] <= 24999 {
      LedDutyIs(step, i);
      LedDutyRange(step, i);
    }
    FirstGlow();
    SecondGlow();
  }

  lemma FirstGlow()
    ensures Glow(0, 0) == 24999 && Glow(0, 1) == 14849 && Glow(0, 2) == 6974 && Glow(0, 3) == 3824
    ensures Glow(0, 4) == 2349
  {
    hide Glow;
    GlowAtStart(0, 0, 1000);
    GlowAtStart(1, 7, 594);
    GlowAtStart(2, 14, 279);
    GlowAtStart(3, 21, 153);
    GlowAtStart(4, 19, 94);
  }

  lemma SecondGlow()
    ensures Glow(0, 5) == 1674 && Glow(0, 6) == 1999 && Glow(0, 7) == 3549 && Glow(0, 8) == 8024
    ensures Glow(0, 9) == 14024
  {
    hide Glow;
    GlowAtStart(5, 12, 67);
    GlowAtStart(6, 5, 80);
    GlowAtStart(7, 1, 142);
    GlowAtStart(8, 8, 321);
    GlowAtStart(9, 15, 561);
  }

  /** At step 0 the heads are at the two ends; `z` is where on its slope the twinkling of the channel is. */
  lemma GlowAtStart(channel: Word, z: nat, level: nat)
    requires channel < 10 && z < 24 && (7 * channel % 48 == z || 7 * channel % 48 == 47 - z)
    requires level == Least(1000, 30 + Comet(channel) + Comet(9 - channel) / 2 + 1000 * z / 24 / 20)
    ensures Glow(0, channel) == level * 24999 / 1000
  {
    hide Comet, ToAndFro, UpAndDown;
    StartHeads();
    StartSparkle(channel, z);
    assert UpAndDown(0, 32) * (25 + 3 * channel) == 0;
  }

  lemma StartHeads()
    ensures ToAndFro(0) == 0 && ToAndFro(0 / 2 + 9) == 9 && UpAndDown(0, 32) == 0
  {
  }

  lemma StartSparkle(channel: Word, z: nat)
    requires channel < 10 && z < 24 && (7 * channel % 48 == z || 7 * channel % 48 == 47 - z)
    ensures UpAndDown((3 * 0 + 7 * channel) % 0x1_0000_0000, 24) == 1000 * z / 24
  {
    var x := (3 * 0 + 7 * channel) % 0x1_0000_0000;
    assert x == 7 * channel;
  }

  // ------------------------------------------------------------------- sweep

  const SWEEP_MIN: Word := 1000
  const SWEEP_MAX: Word := 8000
  const SWEEP_PERIOD: Word := 80

  function SweepDuty(tick: Word): Word {
    SWEEP_MIN + (SWEEP_MAX - SWEEP_MIN) * Triangle(tick, SWEEP_PERIOD) / 1000
  }

  /** The sweep climbs and descends in equal steps of 175, resting one tick at each end. */
  lemma SweepSteps(tick: Word)
    ensures var x := tick % SWEEP_PERIOD;
            SweepDuty(tick) == 1000 + 175 * (if x < 40 then x else 79 - x)
  {
    var x := tick % SWEEP_PERIOD;
    hide Ramp;
    RampOver40(if x < 40 then x else 79 - x);
  }

  lemma RampOver40(z: Word)
    requires z < 40
    ensures Ramp(z, 40) == 25 * z
  {
  }

  /** The top is 7825, not the configured 8000. */
  lemma SweepRange(tick: Word)
    ensures 1000 <= SweepDuty(tick) <= 7825
  {
    SweepSteps(tick);
  }

  /** One tick moves the duty by at most 175, except where the tick counter wraps: 2^32 is no multiple of 80. */
  lemma SweepSlew(tick: Word)
    ensures Distance(SweepDuty(tick), SweepDuty(Wrap(tick + 1))) <= 175 <==> tick != 0xFFFF_FFFF
  {
    hide SweepDuty;
    if tick != 0xFFFF_FFFF {
      SweepSteps(tick);
      SweepSteps(tick + 1);
      NextRemainder(tick, SWEEP_PERIOD);
    } else {
      SweepSteps(0);
      SweepSteps(0xFFFF_FFFF);
    }
  }
}
