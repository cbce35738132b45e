/** The packing of values into the six hexadecimal digits of the seven-segment display. */
module Digits {
  import opened MachineWords

  function Nibble(b: Byte): (n: Byte)
    ensures n < 16 && (b < 16 ==> n == b)
  {
    b % 16
  }

  /** Six digits of four bits each, the leftmost in the highest bits; only an argument's low nibble is used. */
  function PackHex6(d5: Byte, d4: Byte, d3: Byte, d2: Byte, d1: Byte, d0: Byte): Word {
    Nibble(d5) * 0x10_0000 + Nibble(d4) * 0x1_0000 + Nibble(d3) * 0x1000
    + Nibble(d2) * 0x100 + Nibble(d1) * 0x10 + Nibble(d0)
  }

  /** What a viewer reads off the rightmost `count` digits of the display, in decimal. */
  function Decimal(w: Word, count: nat): nat {
    if count == 0 then 0 else w % 16 + 10 * Decimal(w / 16, count - 1)
  }

  /** The rightmost `count` digits are 0 to 9 and there is nothing to the left of them. */
  predicate IsDecimal(w: Word, count: nat) {
    if count == 0 then w == 0 else w % 16 <= 9 && IsDecimal(w / 16, count - 1)
  }

  /** `pack_decimal_6digits`: the display reads as the value's last six decimal digits. */
  method PackDecimal(value: Word) returns (w: Word)
    ensures IsDecimal(w, 6)
    ensures Decimal(w, 6) == value % 1_000_000
  {
    var v := value;
    var d0: Byte := v % 10;
    v := v / 10;
    var d1: Byte := v % 10;
    v := v / 10;
    var d2: Byte := v % 10;
    v := v / 10;
    var d3: Byte := v % 10;
    v := v / 10;
    var d4: Byte := v % 10;
    v := v / 10;
    var d5: Byte := v % 10;
    w := PackHex6(d5, d4, d3, d2, d1, d0);
    SixDigits(value);
    ReadBack(d5, d4, d3, d2, d1, d0);
  }

  lemma SixDigits(v: Word)
    ensures v % 1_000_000
            == v % 10 + 10 * (v / 10 % 10 + 10 * (v / 10 / 10 % 10 + 10 * (v / 10 / 10 / 10 % 10
               + 10 * (v / 10 / 10 / 10 / 10 % 10 + 10 * (v / 10 / 10 / 10 / 10 / 10 % 10)))))
  {
    var v1 := v / 10;
    var v2 := v1 / 10;
    var v3 := v2 / 10;
    var v4 := v3 / 10;
    var v5 := v4 / 10;
    var low := v % 10 + 10 * (v1 % 10 + 10 * (v2 % 10 + 10 * (v3 % 10 + 10 * (v4 % 10 + 10 * (v5 % 10)))));
    LowDigits(v, v1, v2, v3, v4, v5, v5 / 10, low);
  }

  lemma LowDigits(v: nat, v1: nat, v2: nat, v3: nat, v4: nat, v5: nat, v6: nat, low: nat)
    requires 0 <= v - 10 * v1 < 10 && 0 <= v1 - 10 * v2 < 10 && 0 <= v2 - 10 * v3 < 10
    requires 0 <= v3 - 10 * v4 < 10 && 0 <= v4 - 10 * v5 < 10 && 0 <= v5 - 10 * v6 < 10
    requires low == v - 1_000_000 * v6
    ensures v % 1_000_000 == low
  {
  }

  lemma ReadBack(d5: Byte, d4: Byte, d3: Byte, d2: Byte, d1: Byte, d0: Byte)
    requires d5 <= 9 && d4 <= 9 && d3 <= 9 && d2 <= 9 && d1 <= 9 && d0 <= 9
    ensures var w := PackHex6(d5, d4, d3, d2, d1, d0);
            && IsDecimal(w, 6)
            && Decimal(w, 6) == d0 + 10 * (d1 + 10 * (d2 + 10 * (d3 + 10 * (d4 + 10 * d5))))
  {
    hide PackHex6, Decimal, IsDecimal;
    Horner(d5, d4, d3, d2, d1, d0);
    Nothing();
    var h5: Word := d5;
    var h4: Word := 16 * h5 + d4;
    var h3: Word := 16 * h4 + d3;
    var h2: Word := 16 * h3 + d2;
    var h1: Word := 16 * h2 + d1;
    LastDigit(0, d5, 0);
    LastDigit(h5, d4, 1);
    LastDigit(h4, d3, 2);
    LastDigit(h3, d2, 3);
    LastDigit(h2, d1, 4);
    LastDigit(h1, d0, 5);
  }

  lemma Horner(d5: Byte, d4: Byte, d3: Byte, d2: Byte, d1: Byte, d0: Byte)
    requires d5 < 16 && d4 < 16 && d3 < 16 && d2 < 16 && d1 < 16 && d0 < 16
    ensures PackHex6(d5, d4, d3, d2, d1, d0) == 16 * (16 * (16 * (16 * (16 * d5 + d4) + d3) + d2) + d1) + d0
  {
    hide Nibble;
  }

  lemma Nothing()
    ensures IsDecimal(0, 0) && Decimal(0, 0) == 0
  {
  }

  lemma LastDigit(rest: Word, d: Byte, count: nat)
    requires d <= 9 && 16 * rest + d < 0x1_0000_0000
    ensures Decimal(16 * rest + d, count + 1) == d + 10 * Decimal(rest, count)
    ensures IsDecimal(16 * rest + d, count + 1) <==> IsDecimal(rest, count)
  {
    assert (16 * rest + d) / 16 == rest;
  }

  /** Nothing else reads that way, so the value shown determines the word. */
  lemma {:induction false} OneReading(a: Word, b: Word, count: nat)
    requires IsDecimal(a, count) && IsDecimal(b, count) && Decimal(a, count) == Decimal(b, count)
    ensures a == b
  {
    if count > 0 {
      OneReading(a / 16, b / 16, count - 1);
    }
  }

  /** Three bytes side by side, and two twelve-bit fields side by side: nothing overlaps and nothing is lost. */
  function PackBytes(b2: Byte, b1: Byte, b0: Byte): (w: Word)
    ensures w == b2 * 0x1_0000 + b1 * 0x100 + b0
  {
    HighLow(b2);
    HighLow(b1);
    HighLow(b0);
    Horner(b2 / 16, b2 % 16, b1 / 16, b1 % 16, b0 / 16, b0 % 16);
    PackHex6(b2 / 16, b2 % 16, b1 / 16, b1 % 16, b0 / 16, b0 % 16)
  }

  lemma HighLow(b: Byte)
    ensures b / 16 < 16 && b / 16 * 16 + b % 16 == b
  {
  }

  lemma HighMiddleLow(f: Half)
    requires f < 0x1000
    ensures f / 0x100 % 16 * 0x100 + f / 0x10 % 16 * 0x10 + f % 16 == f
  {
  }

  function PackFields(high: Half, low: Half): (w: Word)
    ensures w == high % 0x1000 * 0x1000 + low % 0x1000
  {
    var h, l := high % 0x1000, low % 0x1000;
    HighMiddleLow(h);
    HighMiddleLow(l);
    Horner(h / 0x100 % 16, h / 0x10 % 16, h % 16, l / 0x100 % 16, l / 0x10 % 16, l % 16);
    PackHex6(h / 0x100 % 16, h / 0x10 % 16, h % 16, l / 0x100 % 16, l / 0x10 % 16, l % 16)
  }
}
