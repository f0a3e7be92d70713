/** The binary64 form of a small integer, as `signed as f64` produces it. */
module Ieee {
  import opened Bytes

  const UNIT := 0x10_0000_0000_0000      // 2^52, the weight of the exponent field
  const SIGN := 0x8000_0000_0000_0000    // 2^63

  function Shift(n: nat, k: nat): nat {
    if k == 0 then n else 2 * Shift(n, k - 1)
  }

  /** How far `m` moves left for its top bit to reach bit 52. */
  function Normalise(m: nat): (k: nat)
    requires 0 < m < 2 * UNIT
    ensures UNIT <= Shift(m, k) < 2 * UNIT
    ensures m < UNIT ==> k >= 1
    decreases UNIT - m
  {
    if m >= UNIT then 0 else
      var k := Normalise(2 * m);
      ShiftTwice(m, k);
      k + 1
  }

  lemma ShiftTwice(m: nat, k: nat)
    ensures Shift(2 * m, k) == Shift(m, k + 1)
  {
  }

  lemma ShiftAdds(m: nat, a: nat, b: nat)
    ensures Shift(m, a + b) == Shift(Shift(m, b), a)
  {
  }

  lemma ShiftByte(m: nat)
    ensures Shift(m, 8) == 256 * m
  {
    assert Shift(m, 1) == 2 * m;
    assert Shift(m, 2) == 4 * m;
    ShiftAdds(m, 2, 2);
    assert Shift(4 * m, 2) == 16 * m;
    ShiftAdds(m, 2, 4);
    assert Shift(16 * m, 2) == 64 * m;
    ShiftAdds(m, 2, 6);
    assert Shift(64 * m, 2) == 256 * m;
  }

  lemma ShiftBytes(width: nat)
    ensures Shift(1, 8 * (width + 1)) == 256 * Shift(1, 8 * width)
  {
    ShiftAdds(1, 8, 8 * width);
    ShiftByte(Shift(1, 8 * width));
  }

  lemma SixtyFour()
    ensures Shift(1, 64) == 2 * SIGN
    ensures Shift(1, 53) == 2 * UNIT
  {
    assert Shift(1, 0) == 1;
    ShiftBytes(0); ShiftBytes(1); ShiftBytes(2); ShiftBytes(3);
    ShiftBytes(4); ShiftBytes(5); ShiftBytes(6); ShiftBytes(7);
    ShiftAdds(1, 5, 48);
    ShiftAdds(Shift(1, 48), 3, 2);
  }

  lemma NormaliseBounded(m: nat)
    requires 0 < m < 2 * UNIT
    ensures Normalise(m) <= 52
  {
    if Normalise(m) > 52 {
      var extra := Normalise(m) - 53;
      SixtyFour();
      ShiftMonotone(1, m, 53);
      ShiftAdds(m, extra, 53);
      ShiftAtLeast(Shift(m, 53), extra);
    }
  }

  lemma ShiftAtLeast(m: nat, k: nat)
    ensures Shift(m, k) >= m
  {
  }

  lemma ShiftMonotone(m: nat, n: nat, k: nat)
    requires m <= n
    ensures Shift(m, k) <= Shift(n, k)
  {
  }

  function BigEndian(n: nat, width: nat): (b: bytes)
    ensures |b| == width
  {
    if width == 0 then [] else BigEndian(n / 256, width - 1) + [n % 256]
  }

  function Bits(b: bytes): nat {
    if b == [] then 0 else Bits(b[..|b| - 1]) * 256 + b[|b| - 1]
  }

  lemma {:induction false} BitsOfBigEndian(n: nat, width: nat)
    requires n < Shift(1, 8 * width)
    ensures Bits(BigEndian(n, width)) == n
  {
    if width > 0 {
      ShiftBytes(width - 1);
      BitsOfBigEndian(n / 256, width - 1);
      var b := BigEndian(n, width);
      assert b[..width - 1] == BigEndian(n / 256, width - 1);
    }
  }

  function FromInt(n: int): F64
    requires -0x1000_0000 <= n < 0x1000_0000
  {
    if n == 0 then [0, 0, 0, 0, 0, 0, 0, 0]
    else
      var magnitude := if n < 0 then -n else n;
      var k := Normalise(magnitude);
      NormaliseBounded(magnitude);
      var sign := if n < 0 then 1 else 0;
      BigEndian(sign * SIGN + (1075 - k) * UNIT + (Shift(magnitude, k) - UNIT), 8)
  }

  /** The three fields of a 64-bit pattern read back. */
  lemma FieldsReadBack(sign: nat, exponent: nat, fraction: nat)
    requires sign <= 1 && exponent < 2048 && fraction < UNIT
    ensures var bits := sign * SIGN + exponent * UNIT + fraction;
            && bits < 2 * SIGN
            && bits / SIGN == sign
            && bits % SIGN / UNIT == exponent
            && bits % UNIT == fraction
  {
    var low := exponent * UNIT + fraction;
    assert low < SIGN;
    var bits := sign * SIGN + low;
    assert bits % SIGN == low;
    assert low / UNIT == exponent;
    assert bits == (sign * 2048 + exponent) * UNIT + fraction;
  }

  /** Sign, exponent and fraction of the eight bytes name the integer exactly; zero is the all-zero pattern. */
  lemma FromIntExact(n: int)
    requires -0x1000_0000 <= n < 0x1000_0000
    ensures var bits := Bits(FromInt(n));
            var magnitude := if n < 0 then -n else n;
            var exponent := bits % SIGN / UNIT;
            && (n == 0 <==> bits == 0)
            && bits / SIGN == (if n < 0 then 1 else 0)
            && (n != 0 ==> 1023 <= exponent <= 1075
                           && UNIT + bits % UNIT == Shift(magnitude, 1075 - exponent))
  {
    if n == 0 {
      assert FromInt(n) == BigEndian(0, 8);
      SixtyFour();
      BitsOfBigEndian(0, 8);
      return;
    }
    var magnitude := if n < 0 then -n else n;
    var k := Normalise(magnitude);
    NormaliseBounded(magnitude);
    var fraction := Shift(magnitude, k) - UNIT;
    var sign := if n < 0 then 1 else 0;
    FieldsReadBack(sign, 1075 - k, fraction);
    SixtyFour();
    BitsOfBigEndian(sign * SIGN + (1075 - k) * UNIT + fraction, 8);
  }
}
