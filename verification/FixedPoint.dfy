/** The bounded integer arithmetic between a raw sensor word and the byte shown on the display. */
module FixedPoint {
  import opened MachineWords

  newtype int32 = x: int | -0x8000_0000 <= x < 0x8000_0000

  function Abs(x: int): nat { if x < 0 then -x else x }

  // ---------------------------------------------------------------- rounding

  /** `q` is the nearest integer to `n / d`; a tie goes away from zero. */
  predicate Nearest(n: int, d: int, q: int) {
    2 * Abs(q * d - n) <= d && (2 * Abs(q * d - n) == d ==> Abs(q * d) > Abs(n))
  }

  function Rounded(n: int, d: int): int
    requires d > 0
  {
    if n >= 0 then (n + d / 2) / d else -((-n + d / 2) / d)
  }

  lemma Quotient(x: nat, d: int)
    requires d > 0
    ensures var q := x / d; q >= 0 && q * d <= x < q * d + d
  {
  }

  lemma SmallQuotient(x: int, d: int)
    ensures x >= 0 && d > 0 ==> 0 <= x / d <= x
  {
    if x >= 0 && d > 0 {
      Quotient(x, d);
      if x / d > 0 { Apart(x / d, 0, d); Grows(x / d, d); }
    }
  }

  lemma Grows(q: nat, d: int)
    requires d > 0
    ensures q * d >= q
  {
    NonNegative(q, d - 1);
    assert q * (d - 1) == q * d - q;
  }

  lemma RoundedIsNearest(n: int, d: int)
    requires d > 0
    ensures Nearest(n, d, Rounded(n, d))
  {
    Quotient(Abs(n) + d / 2, d);
    var q := (Abs(n) + d / 2) / d;
    assert (-q) * d == -(q * d);
  }

  /** There is only one such integer, so `div_round_nearest_s32` is pinned down completely. */
  lemma NearestIsRounded(n: int, d: int, q: int)
    requires d > 0
    ensures Nearest(n, d, q) <==> q == Rounded(n, d)
  {
    RoundedIsNearest(n, d);
    if Nearest(n, d, q) { OneNearest(n, d, q, Rounded(n, d)); }
  }

  lemma OneNearest(n: int, d: int, p: int, q: int)
    requires d > 0 && Nearest(n, d, p) && Nearest(n, d, q)
    ensures p == q
  {
    if p > 0 { Apart(p, 0, d); }
    if p < 0 { Apart(0, p, d); }
    CloserThan(n, d, p * d, q * d);
    CloserThan(n, d, q * d, p * d);
    if p > q { Apart(p, q, d); }
    if q > p { Apart(q, p, d); }
  }

  lemma CloserThan(n: int, d: int, a: int, b: int)
    requires d > 0 && (a == 0 || b == 0 || Abs(a) >= d || Abs(b) >= d)
    requires 2 * Abs(a - n) <= d && (2 * Abs(a - n) == d ==> Abs(a) > Abs(n))
    requires 2 * Abs(b - n) <= d && (2 * Abs(b - n) == d ==> Abs(b) > Abs(n))
    ensures a < b + d
  {
  }

  lemma Apart(p: int, q: int, d: int)
    requires p > q && d > 0
    ensures p * d >= q * d + d
  {
    NonNegative(p - q - 1, d);
    assert (p - q - 1) * d == p * d - q * d - d;
  }

  lemma NonNegative(k: nat, d: nat)
    ensures k * d >= 0
  {
  }

  lemma RoundedIsOdd(n: int, d: int)
    requires d > 0
    ensures Rounded(-n, d) == -Rounded(n, d)
  {
  }

  lemma RoundedIsMonotone(n: int, m: int, d: int)
    requires d > 0 && n <= m
    ensures Rounded(n, d) <= Rounded(m, d)
  {
    RoundedIsNearest(n, d);
    RoundedIsNearest(m, d);
    var p, q := Rounded(n, d), Rounded(m, d);
    if p > q { Apart(p, q, d); }
  }

  /** `div_round_nearest_s32`; the requirement is that none of its signed additions or negations overflows. */
  function DivRoundNearest(numer: int32, denom: int32): (q: int32)
    requires denom > 0 ==> Abs(numer as int) + denom as int / 2 < 0x8000_0000
    ensures q as int == if denom > 0 then Rounded(numer as int, denom as int) else 0
  {
    SmallQuotient(Abs(numer as int) + denom as int / 2, denom as int);
    if denom <= 0 then 0
    else if numer >= 0 then (numer + denom / 2) / denom
    else -((-numer + denom / 2) / denom)
  }

  // ----------------------------------------------------------- configuration

  newtype int16 = x: int | -0x8000 <= x < 0x8000

  function AdxlLsbPerG(dataFormat: Byte): int32 {
    if dataFormat / 8 % 2 == 1 then 256
    else
      match dataFormat % 4
      case 0 => 256
      case 1 => 128
      case 2 => 64
      case _ => 32
  }

  function MpuLsbPerG(accelConfig: Byte): int32 {
    match accelConfig / 8 % 4
    case 0 => 16384
    case 1 => 8192
    case 2 => 4096
    case _ => 2048
  }

  function FullScaleMg(range: int): int32
    requires 0 <= range < 4
  {
    match range
    case 0 => 2000
    case 1 => 4000
    case 2 => 8000
    case _ => 16000
  }

  function AdxlFullScaleMg(dataFormat: Byte): int32 { FullScaleMg(dataFormat % 4) }

  function MpuFullScaleMg(accelConfig: Byte): int32 { FullScaleMg(accelConfig / 8 % 4) }

  /** Full scale is 2 g, doubled by each step of the range field; the field is in bits 0 and 1, or 3 and 4. */
  lemma FullScales(dataFormat: Byte, accelConfig: Byte)
    ensures AdxlFullScaleMg(dataFormat) as int == 2000 * [1, 2, 4, 8][dataFormat % 4]
    ensures MpuFullScaleMg(accelConfig) as int == 2000 * [1, 2, 4, 8][accelConfig / 8 % 4]
  {
    assert MpuFullScaleMg(accelConfig) == FullScaleMg(accelConfig / 8 % 4);
    assert AdxlFullScaleMg(dataFormat) == FullScaleMg(dataFormat % 4);
    RangeScale(dataFormat % 4);
    RangeScale(accelConfig / 8 % 4);
  }

  lemma RangeScale(range: nat)
    requires range < 4
    ensures FullScaleMg(range) as int == 2000 * [1, 2, 4, 8][range]
  {
  }

  /** The ADXL345 has ten bits over its whole range, or in full resolution, bit 3, 256 steps per g at any range. */
  lemma AdxlResolution(dataFormat: Byte)
    ensures var lsb, fs := AdxlLsbPerG(dataFormat) as int, AdxlFullScaleMg(dataFormat) as int;
            if dataFormat / 8 % 2 == 1 then lsb == 256 else lsb * fs == 512 * 1000
  {
  }

  // ------------------------------------------------------------------ chains

  /** No raw word and no resolution overflows the scaling. */
  function RawToMilliG(raw: int16, lsbPerG: int32): (mg: int32)
    ensures lsbPerG <= 0 ==> mg == 0
    ensures lsbPerG > 0 ==> Nearest(raw as int * 1000, lsbPerG as int, mg as int)
    ensures lsbPerG >= 32 ==> Abs(mg as int) <= 1_024_000
  {
    Coarsest(raw as int, lsbPerG as int);
    DivRoundNearest(raw as int32 * 1000, lsbPerG)
  }

  lemma Coarsest(raw: int, d: int)
    requires Abs(raw) <= 32768
    ensures d > 0 ==> Nearest(raw * 1000, d, Rounded(raw * 1000, d))
    ensures d >= 32 ==> Abs(Rounded(raw * 1000, d)) <= 1_024_000
  {
    if d > 0 { RoundedIsNearest(raw * 1000, d); }
    if d >= 32 {
      RoundedIsMonotone(-32_768_000, raw * 1000, d);
      RoundedIsMonotone(raw * 1000, 32_768_000, d);
      CoarsestScale(d);
    }
  }

  lemma CoarsestScale(d: int)
    requires d >= 32
    ensures -1_024_000 <= Rounded(-32_768_000, d) && Rounded(32_768_000, d) <= 1_024_000
  {
    RoundedIsOdd(32_768_000, d);
    Quotient(32_768_000 + d / 2, d);
    var q := Rounded(32_768_000, d);
    if q > 1_024_000 { Apart(q, 1_024_000, d); }
  }

  /** A value inside full scale is scaled to the nearest of -127..127; one outside it saturates. */
  function NormalizeToS8(value: int32, fullScale: int32): (q: int32)
    requires fullScale > 0 ==> Abs(value as int) * 127 + fullScale as int / 2 < 0x8000_0000
    ensures -128 <= q <= 127
    ensures fullScale <= 0 ==> q == 0
    ensures fullScale > 0 && -fullScale <= value <= fullScale ==>
              -127 <= q && Nearest(value as int * 127, fullScale as int, q as int)
    ensures fullScale > 0 && value > fullScale ==> q == 127
    ensures fullScale > 0 && value < -fullScale ==> q <= -127
  {
    if fullScale <= 0 then 0
    else
      RoundedIsNearest(value as int * 127, fullScale as int);
      SpanOfScale(value as int, fullScale as int);
      var q := DivRoundNearest(value * 127, fullScale);
      if q > 127 then 127 else if q < -128 then -128 else q
  }

  lemma SpanOfScale(value: int, fullScale: int)
    requires fullScale > 0
    ensures var q := Rounded(value * 127, fullScale);
            && (value <= fullScale ==> q <= 127)
            && (value >= -fullScale ==> q >= -127)
            && (value >= fullScale ==> q >= 127)
            && (value <= -fullScale ==> q <= -127)
  {
    assert Rounded(127 * fullScale, fullScale) == 127 by {
      NearestIsRounded(127 * fullScale, fullScale, 127);
    }
    RoundedIsOdd(127 * fullScale, fullScale);
    if value <= fullScale { RoundedIsMonotone(value * 127, 127 * fullScale, fullScale); }
    if value >= fullScale { RoundedIsMonotone(127 * fullScale, value * 127, fullScale); }
    if value >= -fullScale { RoundedIsMonotone(-(127 * fullScale), value * 127, fullScale); }
    if value <= -fullScale { RoundedIsMonotone(value * 127, -(127 * fullScale), fullScale); }
  }

  /** The byte shown for one accelerometer axis of the MPU-6500. */
  function MpuDisplay(raw: int16, accelConfig: Byte): int32 {
    NormalizeToS8(RawToMilliG(raw, MpuLsbPerG(accelConfig)), MpuFullScaleMg(accelConfig))
  }

  function AdxlDisplay(raw: int16, dataFormat: Byte): int32 {
    NormalizeToS8(RawToMilliG(raw, AdxlLsbPerG(dataFormat)), AdxlFullScaleMg(dataFormat))
  }

  /** Two rounding steps at 2 g, 4 g, 8 g and 16 g: |mg| never exceeds full scale, so the clamps never act. */
  lemma MpuStaysInScale(raw: int16, accelConfig: Byte)
    ensures var fs := MpuFullScaleMg(accelConfig) as int;
            && MpuLsbPerG(accelConfig) as int * fs == 32768 * 1000
            && Abs(RawToMilliG(raw, MpuLsbPerG(accelConfig)) as int) <= fs
  {
    var d, fs := MpuLsbPerG(accelConfig) as int, MpuFullScaleMg(accelConfig) as int;
    assert Rounded(32_768_000, d) == fs && Rounded(-32_768_000, d) == -fs;
    RoundedIsMonotone(-32_768_000, raw as int * 1000, d);
    RoundedIsMonotone(raw as int * 1000, 32_768_000, d);
    NearestIsRounded(raw as int * 1000, d, RawToMilliG(raw, MpuLsbPerG(accelConfig)) as int);
  }

  /**
     The shown byte `q` is within 1/2 + 127/(2 fs) of the ideal 127 raw / 32768, fs being the full scale in mg.
     Both sides are multiplied by 2 * 32768 * fs.
   */
  lemma MpuDisplayError(raw: int16, accelConfig: Byte)
    ensures var q, fs := MpuDisplay(raw, accelConfig) as int, MpuFullScaleMg(accelConfig) as int;
            && -127 <= q <= 127
            && 2 * fs * Abs(q * 32768 - 127 * raw as int) <= 32768 * (fs + 127)
  {
    MpuStaysInScale(raw, accelConfig);
    var d, fs := MpuLsbPerG(accelConfig) as int, MpuFullScaleMg(accelConfig) as int;
    var mg := RawToMilliG(raw, MpuLsbPerG(accelConfig)) as int;
    TwoRoundings(raw as int, d, fs, mg, MpuDisplay(raw, accelConfig) as int);
  }

  lemma TwoRoundings(raw: int, d: int, fs: int, mg: int, q: int)
    requires (d, fs) in {(16384, 2000), (8192, 4000), (4096, 8000), (2048, 16000)}
    requires Nearest(raw * 1000, d, mg) && Nearest(mg * 127, fs, q)
    ensures 2 * fs * Abs(q * 32768 - 127 * raw) <= 32768 * (fs + 127)
  {
    var first, second := mg * d - raw * 1000, q * fs - mg * 127;
    var off := q * 32768 - 127 * raw;
    assert -d <= 2 * first <= d && -fs <= 2 * second <= fs;
    hide Nearest, Abs;
    if d == 16384 {
      assert 1000 * off == 16384 * second + 127 * first;
      assert -32768 * (2000 + 127) <= 4000 * off <= 32768 * (2000 + 127);
    } else if d == 8192 {
      assert 1000 * off == 8192 * second + 127 * first;
      assert -32768 * (4000 + 127) <= 8000 * off <= 32768 * (4000 + 127);
    } else if d == 4096 {
      assert 1000 * off == 4096 * second + 127 * first;
      assert -32768 * (8000 + 127) <= 16000 * off <= 32768 * (8000 + 127);
    } else {
      assert 1000 * off == 2048 * second + 127 * first;
      assert -32768 * (16000 + 127) <= 32000 * off <= 32768 * (16000 + 127);
    }
  }

  /** The two-step chain never reverses two readings, at any range of either chip. */
  lemma DisplayIsMonotone(raw: int16, next: int16, lsbPerG: int32, fullScale: int32)
    requires raw <= next && lsbPerG >= 32 && fullScale <= 32767
    ensures NormalizeToS8(RawToMilliG(raw, lsbPerG), fullScale)
            <= NormalizeToS8(RawToMilliG(next, lsbPerG), fullScale)
  {
    RoundedIsMonotone(raw as int * 1000, next as int * 1000, lsbPerG as int);
    var a, b := RawToMilliG(raw, lsbPerG), RawToMilliG(next, lsbPerG);
    NearestIsRounded(raw as int * 1000, lsbPerG as int, a as int);
    NearestIsRounded(next as int * 1000, lsbPerG as int, b as int);
    if fullScale > 0 {
      RoundedIsMonotone(a as int * 127, b as int * 127, fullScale as int);
    }
  }

  /**
     The ADXL345 chain stays within full scale exactly for the words the configured resolution and range can
     produce: 10 bits, or up to 13 in full resolution. Such a word is shown as the nearest of -127..127; any other
     saturates.
   */
  lemma AdxlStaysInScale(raw: int16, dataFormat: Byte)
    ensures var lsb, fs := AdxlLsbPerG(dataFormat) as int, AdxlFullScaleMg(dataFormat) as int;
            var mg, q := RawToMilliG(raw, AdxlLsbPerG(dataFormat)) as int, AdxlDisplay(raw, dataFormat) as int;
            && (Abs(mg) <= fs <==> Abs(raw as int) * 1000 <= fs * lsb)
            && (Abs(mg) <= fs ==> -127 <= q && Nearest(mg * 127, fs, q))
            && (mg > fs ==> q == 127)
            && (mg < -fs ==> q <= -127)
  {
    var lsb, fs := AdxlLsbPerG(dataFormat) as int, AdxlFullScaleMg(dataFormat) as int;
    WholeWords(raw as int, lsb, fs, RawToMilliG(raw, AdxlLsbPerG(dataFormat)) as int);
  }

  lemma WholeWords(raw: int, d: int, fs: int, mg: int)
    requires (d == 256 && fs in {2000, 4000, 8000, 16000}) || (d, fs) in {(128, 4000), (64, 8000), (32, 16000)}
    requires Nearest(raw * 1000, d, mg)
    ensures Abs(mg) <= fs <==> Abs(raw) * 1000 <= fs * d
  {
  }

  /**
     A word within full scale is shown within 1/2 + 127/(2 fs) of the ideal: 127 raw / 512 at ten bits, and
     127 raw 1000 / (256 fs) in full resolution.  Both sides are multiplied by twice the denominator.
  */
  lemma AdxlDisplayError(raw: int16, dataFormat: Byte)
    ensures var q, fs := AdxlDisplay(raw, dataFormat) as int, AdxlFullScaleMg(dataFormat) as int;
            if dataFormat / 8 % 2 == 1 then
              Abs(raw as int) * 1000 <= 256 * fs ==>
                2 * Abs(256 * fs * q - 127 * 1000 * raw as int) <= 256 * (fs + 127)
            else
              Abs(raw as int) <= 512 ==> 2 * fs * Abs(512 * q - 127 * raw as int) <= 512 * (fs + 127)
  {
    hide AdxlLsbPerG, AdxlFullScaleMg, AdxlDisplay, RawToMilliG, Nearest;
    AdxlStaysInScale(raw, dataFormat);
    AdxlPairs(dataFormat);
    RawIsNearest(raw, dataFormat);
    var d, fs := AdxlLsbPerG(dataFormat) as int, AdxlFullScaleMg(dataFormat) as int;
    var mg, q := RawToMilliG(raw, AdxlLsbPerG(dataFormat)) as int, AdxlDisplay(raw, dataFormat) as int;
    if Abs(mg) <= fs {
      if dataFormat / 8 % 2 == 1 {
        FullResolution(raw as int, fs, mg, q);
      } else {
        TenBits(raw as int, d, fs, mg, q);
      }
    } else {
      TooBig(raw as int, d, fs, dataFormat / 8 % 2 == 1);
    }
  }

  lemma TooBig(raw: int, d: int, fs: int, full: bool)
    requires if full then d == 256 else (d, fs) in {(256, 2000), (128, 4000), (64, 8000), (32, 16000)}
    requires Abs(raw) * 1000 > fs * d
    ensures if full then Abs(raw) * 1000 > 256 * fs else Abs(raw) > 512
  {
  }

  lemma RawIsNearest(raw: int16, dataFormat: Byte)
    ensures var lsb := AdxlLsbPerG(dataFormat);
            Nearest(raw as int * 1000, lsb as int, RawToMilliG(raw, lsb) as int)
  {
    hide Nearest;
  }

  lemma AdxlPairs(dataFormat: Byte)
    ensures var d, fs := AdxlLsbPerG(dataFormat) as int, AdxlFullScaleMg(dataFormat) as int;
            if dataFormat / 8 % 2 == 1 then d == 256 && fs in {2000, 4000, 8000, 16000}
            else (d, fs) in {(256, 2000), (128, 4000), (64, 8000), (32, 16000)}
  {
  }

  lemma FullResolution(raw: int, fs: int, mg: int, q: int)
    requires fs in {2000, 4000, 8000, 16000} && Nearest(raw * 1000, 256, mg) && Nearest(mg * 127, fs, q)
    ensures 2 * Abs(256 * fs * q - 127 * 1000 * raw) <= 256 * (fs + 127)
  {
    var first, second := mg * 256 - raw * 1000, q * fs - mg * 127;
    assert -256 <= 2 * first <= 256 && -fs <= 2 * second <= fs;
    hide Nearest, Abs;
    assert 256 * fs * q - 127 * 1000 * raw == 256 * second + 127 * first;
  }

  lemma TenBits(raw: int, d: int, fs: int, mg: int, q: int)
    requires (d, fs) in {(256, 2000), (128, 4000), (64, 8000), (32, 16000)}
    requires Nearest(raw * 1000, d, mg) && Nearest(mg * 127, fs, q)
    ensures 2 * fs * Abs(512 * q - 127 * raw) <= 512 * (fs + 127)
  {
    var first, second := mg * d - raw * 1000, q * fs - mg * 127;
    var off := 512 * q - 127 * raw;
    assert -d <= 2 * first <= d && -fs <= 2 * second <= fs;
    hide Nearest, Abs;
    if d == 256 {
      assert 1000 * off == 256 * second + 127 * first;
      assert -512 * (2000 + 127) <= 4000 * off <= 512 * (2000 + 127);
    } else if d == 128 {
      assert 1000 * off == 128 * second + 127 * first;
      assert -512 * (4000 + 127) <= 8000 * off <= 512 * (4000 + 127);
    } else if d == 64 {
      assert 1000 * off == 64 * second + 127 * first;
      assert -512 * (8000 + 127) <= 16000 * off <= 512 * (8000 + 127);
    } else {
      assert 1000 * off == 32 * second + 127 * first;
      assert -512 * (16000 + 127) <= 32000 * off <= 512 * (16000 + 127);
    }
  }

  /** A gyroscope word goes through the same scaling with 32767 as full scale; it never needs the clamp either. */
  lemma GyroDisplay(raw: int16)
    ensures var q := NormalizeToS8(raw as int32, 32767) as int;
            -127 <= q && Nearest(raw as int * 127, 32767, q)
  {
    SpanOfScale(raw as int, 32767);
    assert Rounded(-32768 * 127, 32767) == -127;
  }
}
