/** Bytes as the codecs see them, and the big-endian integers of the `bytes` crate. */
module Bytes {
  type byte = x: int | 0 <= x < 256
  type bytes = seq<byte>

  /** An `f64` is carried as its eight big-endian bytes and never computed with. */
  type F64 = b: bytes | |b| == 8 witness [0, 0, 0, 0, 0, 0, 0, 0]

  /** `put_u16` of a length cast with `as u16`: only the low sixteen bits are written. */
  function PutU16(n: nat): (b: bytes)
    ensures |b| == 2
  {
    [n / 0x100 % 0x100, n % 0x100]
  }

  function GetU16(b: bytes): (n: nat)
    requires |b| >= 2
    ensures n < 0x1_0000
  {
    (b[0] as int) * 0x100 + b[1]
  }

  /** `put_u32` of a length cast with `as u32`. */
  function PutU32(n: nat): (b: bytes)
    ensures |b| == 4
  {
    [n / 0x100_0000 % 0x100, n / 0x1_0000 % 0x100, n / 0x100 % 0x100, n % 0x100]
  }

  function GetU32(b: bytes): (n: nat)
    requires |b| >= 4
    ensures n < 0x1_0000_0000
  {
    (b[0] as int) * 0x100_0000 + (b[1] as int) * 0x1_0000 + (b[2] as int) * 0x100 + b[3]
  }

  lemma U16RoundTrip(n: nat)
    ensures GetU16(PutU16(n)) == n % 0x1_0000
  {
  }

  lemma U32RoundTrip(n: nat)
    ensures GetU32(PutU32(n)) == n % 0x1_0000_0000
  {
    var n1 := n / 0x100;
    var n2 := n1 / 0x100;
    var n3 := n2 / 0x100;
    var q, a, b, c, d := n3 / 0x100, n3 % 0x100, n2 % 0x100, n1 % 0x100, n % 0x100;
    Quotient16(n, n2, c * 0x100 + d);
    Quotient24(n, n3, (b * 0x100 + c) * 0x100 + d);
    Remainder32(n, q, ((a * 0x100 + b) * 0x100 + c) * 0x100 + d);
  }

  lemma Quotient16(n: nat, q: nat, r: nat)
    requires n == q * 0x1_0000 + r && r < 0x1_0000
    ensures n / 0x1_0000 == q
  {
  }

  lemma Quotient24(n: nat, q: nat, r: nat)
    requires n == q * 0x100_0000 + r && r < 0x100_0000
    ensures n / 0x100_0000 == q
  {
  }

  lemma Remainder32(n: nat, q: nat, r: nat)
    requires n == q * 0x1_0000_0000 + r && r < 0x1_0000_0000
    ensures n % 0x1_0000_0000 == r
  {
  }

  /** The order of Rust's `String`, hence of `BTreeMap<String, _>`: bytewise, shorter first. */
  predicate Less(a: bytes, b: bytes) {
    b != [] && (a == [] || a[0] < b[0] || (a[0] == b[0] && Less(a[1..], b[1..])))
  }

  /** The order, place by place: after a common beginning the first text ends or has the smaller byte. */
  ghost predicate FirstDifference(a: bytes, b: bytes, k: nat) {
    k < |b| && k <= |a| && a[..k] == b[..k] && (k == |a| || a[k] < b[k])
  }

  lemma CommonStart(a: bytes, b: bytes, k: nat)
    requires FirstDifference(a, b, k)
    ensures k > 0 ==> a != [] && a[0] == b[0]
  {
    if k > 0 {
      assert a[..k][0] == a[0] && b[..k][0] == b[0];
    }
  }

  lemma {:induction false} LessIff(a: bytes, b: bytes)
    ensures Less(a, b) <==> exists k: nat :: FirstDifference(a, b, k)
  {
    if a != [] && b != [] && a[0] == b[0] {
      LessIff(a[1..], b[1..]);
      if k: nat :| FirstDifference(a[1..], b[1..], k) {
        assert a[..k + 1] == [a[0]] + a[1..][..k] && b[..k + 1] == [b[0]] + b[1..][..k];
        assert FirstDifference(a, b, k + 1);
      }
      if k: nat :| FirstDifference(a, b, k) {
        assert a[1..][..k - 1] == a[..k][1..] == b[..k][1..] == b[1..][..k - 1];
        assert FirstDifference(a[1..], b[1..], k - 1);
      }
    } else if Less(a, b) {
      assert FirstDifference(a, b, 0);
    } else if k: nat :| FirstDifference(a, b, k) {
      CommonStart(a, b, k);
    }
  }

  /** Big-endian: reading turns the order of the bytes into the order of the numbers. With the round trips
      this leaves no choice: there is one such reading of two, and of four, bytes. */
  lemma U16KeepsOrder(a: bytes, b: bytes)
    requires |a| == |b| == 2
    ensures GetU16(a) < GetU16(b) <==> Less(a, b)
  {
    assert Less(a[1..], b[1..]) <==> a[1] < b[1];
  }

  lemma U32KeepsOrder(a: bytes, b: bytes)
    requires |a| == |b| == 4
    ensures GetU32(a) < GetU32(b) <==> Less(a, b)
  {
    assert Less(a[3..], b[3..]) <==> a[3] < b[3];
    assert a[2..][1..] == a[3..] && b[2..][1..] == b[3..];
    assert Less(a[2..], b[2..]) <==> a[2] < b[2] || (a[2] == b[2] && a[3] < b[3]);
    assert a[1..][1..] == a[2..] && b[1..][1..] == b[2..];
  }

  lemma {:induction false} LessTotal(a: bytes, b: bytes)
    ensures !(Less(a, b) && Less(b, a))
    ensures a == b <==> !Less(a, b) && !Less(b, a)
  {
    if a != [] && b != [] && a[0] == b[0] {
      LessTotal(a[1..], b[1..]);
      assert a == [a[0]] + a[1..] && b == [b[0]] + b[1..];
    }
  }

  lemma {:induction false} LessTransitive(a: bytes, b: bytes, c: bytes)
    requires Less(a, b) && Less(b, c)
    ensures Less(a, c)
  {
    if a != [] && a[0] == b[0] == c[0] {
      LessTransitive(a[1..], b[1..], c[1..]);
    }
  }
}
