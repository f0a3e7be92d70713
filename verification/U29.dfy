/** The variable-length unsigned 29-bit integer of AMF 3 (section 1.3.1), rtmp/src/amf/amf3.rs. */
module U29 {
  import opened Bytes

  const LIMIT := 0x2000_0000
  const U32 := 0x1_0000_0000

  datatype Parse<+T> = Got(value: T, rest: bytes) | Short

  /** One turn per byte of the read loop: `i` bytes are behind, `result` holds their bits. */
  function ReadFrom(b: bytes, i: nat, result: nat): (p: Parse<nat>)
    requires i <= 3
    ensures p.Got? ==> |p.rest| < |b|
    decreases 3 - i
  {
    if b == [] then Short
    else if i == 3 then Got(result * 256 + b[0], b[1..])
    else if b[0] < 128 then Got(result * 128 + Low7(b[0]), b[1..])
    else ReadFrom(b[1..], i + 1, result * 128 + Low7(b[0]))
  }

  /** `byte & 0x7f` */
  function Low7(b: byte): (n: nat)
    ensures n == if b < 128 then b else b - 128
  {
    (b as int) % 128
  }

  function Read(b: bytes): (p: Parse<nat>)
    ensures p.Got? ==> |p.rest| < |b|
  {
    ReadFrom(b, 0, 0)
  }

  /** `write_u29` of a `u32`. `x as u8 | 0x80` is `x % 128 + 128`. */
  function Write(value: nat): (b: bytes)
    requires value < U32
    ensures 1 <= |b| <= 4
  {
    if value < 0x80 then [value]
    else if value < 0x4000 then [value / 0x80 % 128 + 128, value % 128]
    else if value < 0x20_0000 then [value / 0x4000 % 128 + 128, value / 0x80 % 128 + 128, value % 128]
    else [value / 0x40_0000 % 128 + 128, value / 0x8000 % 128 + 128, value / 0x100 % 128 + 128, value % 256]
  }

  /** `v` has a wire form of `width` bytes, shortest or padded with leading zero bits. */
  predicate Fits(v: nat, width: nat) {
    || (width == 1 && v < 0x80)
    || (width == 2 && v < 0x4000)
    || (width == 3 && v < 0x20_0000)
    || (width == 4 && v < LIMIT)
  }

  function Form(v: nat, width: nat): (b: bytes)
    ensures Fits(v, width) ==> |b| == width
  {
    if !Fits(v, width) then []
    else if width == 1 then [v]
    else if width == 2 then [128 + v / 128, v % 128]
    else if width == 3 then
      var v1 := v / 128;
      [128 + v1 / 128, 128 + v1 % 128, v % 128]
    else
      var v1 := v / 256;
      var v2 := v1 / 128;
      [128 + v2 / 128, 128 + v2 % 128, 128 + v1 % 128, v % 256]
  }

  function Shortest(v: nat): (width: nat)
    requires v < LIMIT
    ensures Fits(v, width)
  {
    if v < 0x80 then 1 else if v < 0x4000 then 2 else if v < 0x20_0000 then 3 else 4
  }

  lemma ReadForm(v: nat, width: nat, rest: bytes)
    requires Fits(v, width)
    ensures Read(Form(v, width) + rest) == Got(v, rest)
  {
    var f := Form(v, width);
    var b := f + rest;
    assert b[width..] == rest;
    if width == 1 {
      assert Read(b) == Got(v, rest);
    } else if width == 2 {
      ReadTwo(b);
    } else if width == 3 {
      ReadThree(b);
    } else {
      ReadFour(b);
    }
  }

  lemma ReadTwo(b: bytes)
    requires |b| >= 2 && b[0] >= 128
    ensures b[1] < 128 ==> Read(b) == Got(((b[0] as int) - 128) * 128 + b[1], b[2..])
    ensures b[1] >= 128 ==> Read(b) == ReadFrom(b[2..], 2, ((b[0] as int) - 128) * 128 + b[1] - 128)
  {
    assert b[1..][0] == b[1] && b[1..][1..] == b[2..];
    assert Read(b) == ReadFrom(b[1..], 1, (b[0] as int) - 128);
  }

  lemma ReadThree(b: bytes)
    requires |b| >= 3 && b[0] >= 128 && b[1] >= 128
    ensures var high := ((b[0] as int) - 128) * 128 + b[1] - 128;
            && (b[2] < 128 ==> Read(b) == Got(high * 128 + b[2], b[3..]))
            && (b[2] >= 128 ==> Read(b) == ReadFrom(b[3..], 3, high * 128 + b[2] - 128))
  {
    ReadTwo(b);
    assert b[2..][0] == b[2] && b[2..][1..] == b[3..];
  }

  lemma ReadFour(b: bytes)
    requires |b| >= 4 && b[0] >= 128 && b[1] >= 128 && b[2] >= 128
    ensures Read(b) == Got(
      ((((b[0] as int) - 128) * 128 + b[1] - 128) * 128 + b[2] - 128) * 256 + b[3], b[4..])
  {
    ReadThree(b);
    assert b[3..][0] == b[3] && b[3..][1..] == b[4..];
  }

  /** Whatever is read is below 2^29 and came from one of its wire forms. */
  lemma ReadIsForm(b: bytes) returns (width: nat)
    requires Read(b).Got?
    ensures Fits(Read(b).value, width)
    ensures b == Form(Read(b).value, width) + Read(b).rest
  {
    if b[0] < 128 {
      width := 1;
      return;
    }
    assert |b| >= 2;
    ReadTwo(b);
    if b[1] < 128 {
      width := 2;
      FormOfDigits2((b[0] as int) - 128, b[1]);
      return;
    }
    assert |b| >= 3 by { assert b[2..] != []; }
    ReadThree(b);
    if b[2] < 128 {
      width := 3;
      FormOfDigits3((b[0] as int) - 128, (b[1] as int) - 128, b[2]);
      return;
    }
    assert |b| >= 4 by { assert b[3..] != []; }
    ReadFour(b);
    width := 4;
    FormOfDigits4((b[0] as int) - 128, (b[1] as int) - 128, (b[2] as int) - 128, b[3]);
  }

  lemma FormOfDigits2(a: nat, b: nat)
    requires a < 128 && b < 128
    ensures Fits(a * 128 + b, 2) && Form(a * 128 + b, 2) == [128 + a, b]
  {
  }

  lemma FormOfDigits3(a: nat, b: nat, c: nat)
    requires a < 128 && b < 128 && c < 128
    ensures var v := (a * 128 + b) * 128 + c;
            Fits(v, 3) && Form(v, 3) == [128 + a, 128 + b, c]
  {
  }

  lemma FormOfDigits4(a: nat, b: nat, c: nat, d: nat)
    requires a < 128 && b < 128 && c < 128 && d < 256
    ensures var v := ((a * 128 + b) * 128 + c) * 256 + d;
            Fits(v, 4) && Form(v, 4) == [128 + a, 128 + b, 128 + c, d]
  {
    var v := ((a * 128 + b) * 128 + c) * 256 + d;
    assert v / 256 == (a * 128 + b) * 128 + c;
    assert v / 256 / 128 == a * 128 + b;
  }

  lemma WriteIsShortForm(value: nat)
    requires value < 0x20_0000
    ensures Write(value) == Form(value, Shortest(value))
  {
    if value >= 0x4000 {
      assert value / 0x4000 == value / 128 / 128;
    }
  }

  /** The four-byte branch writes the low 29 bits, whatever lies above them. */
  lemma WriteIsFourByteForm(value: nat)
    requires 0x20_0000 <= value < U32
    ensures Write(value) == Form(value % 0x2000_0000, 4)
  {
    var v1 := value / 256;
    var v2 := v1 / 128;
    var v3 := v2 / 128;
    var q, a, b, c, d := v3 / 128, v3 % 128, v2 % 128, v1 % 128, value % 256;
    Quotient15(value, v2, c * 256 + d);
    Quotient22(value, v3, (b * 128 + c) * 256 + d);
    Remainder29(value, q, ((a * 128 + b) * 128 + c) * 256 + d);
    FormOfDigits4(a, b, c, d);
  }

  lemma Quotient15(n: nat, q: nat, r: nat)
    requires n == q * 0x8000 + r && r < 0x8000
    ensures n / 0x8000 == q
  {
  }

  lemma Quotient22(n: nat, q: nat, r: nat)
    requires n == q * 0x40_0000 + r && r < 0x40_0000
    ensures n / 0x40_0000 == q
  {
  }

  lemma Remainder29(n: nat, q: nat, r: nat)
    requires n == q * 0x2000_0000 + r && r < 0x2000_0000
    ensures n % 0x2000_0000 == r
  {
  }

  /** Reading back a written `u32` gives its low 29 bits, so the pair is an inverse exactly below 2^29. */
  lemma ReadWrite(value: nat, rest: bytes)
    requires value < U32
    ensures Read(Write(value) + rest) == Got(value % 0x2000_0000, rest)
    ensures Read(Write(value) + rest) == Got(value, rest) <==> value < LIMIT
    ensures value < LIMIT ==> Write(value) == Form(value, Shortest(value))
  {
    var low := value % 0x2000_0000;
    assert low == value <==> value < LIMIT;
    if value < 0x20_0000 {
      WriteIsShortForm(value);
      ReadForm(value, Shortest(value), rest);
    } else {
      WriteIsFourByteForm(value);
      ReadForm(low, 4, rest);
    }
  }

  /** No input that reads as `v` is shorter than what `write_u29` produces for it. */
  lemma WriteIsShortest(b: bytes)
    requires Read(b).Got?
    ensures Read(b).value < LIMIT
    ensures 1 <= |Write(Read(b).value)| <= |b| - |Read(b).rest| <= 4
  {
    var width := ReadIsForm(b);
  }
}
