/**
 UTF-8 by the arithmetic of RFC 3629, section 3: what each scalar value is written as. The decoder's byte
 ranges are proved to be exactly these forms.
 */
module Utf8Forms {
  import opened Bytes
  import opened Utf8

  /** Code points up to 0x10FFFF without the surrogates. */
  predicate IsScalar(n: nat) {
    n <= 0x10FFFF && !(0xD800 <= n <= 0xDFFF)
  }

  function EncodeScalar(n: nat): bytes
    requires IsScalar(n)
  {
    if n < 0x80 then [n]
    else if n < 0x800 then [0xC0 + n / 64, 0x80 + n % 64]
    else if n < 0x1_0000 then [0xE0 + n / 4096, 0x80 + n / 64 % 64, 0x80 + n % 64]
    else [0xF0 + n / 262144, 0x80 + n / 4096 % 64, 0x80 + n / 64 % 64, 0x80 + n % 64]
  }

  function EncodeText(ns: seq<nat>): bytes
    requires forall n :: n in ns ==> IsScalar(n)
  {
    if ns == [] then [] else EncodeScalar(ns[0]) + EncodeText(ns[1..])
  }

  /** `s` begins with the form of `n`. */
  predicate Begins(s: bytes, n: nat) {
    IsScalar(n) && EncodeScalar(n) <= s
  }

  /** Some form goes on from `p`. */
  ghost predicate StartsForm(p: bytes) {
    exists n: nat :: GoesOn(p, n)
  }

  predicate GoesOn(p: bytes, n: nat) {
    IsScalar(n) && p <= EncodeScalar(n)
  }

  // ----- a form is one chunk -----

  lemma TwoBytes(n: nat)
    requires 0x80 <= n < 0x800
    ensures 2 <= n / 64 < 32 && n % 64 < 64 && n == n / 64 * 64 + n % 64
  {
  }

  lemma ThreeBytes(n: nat)
    requires 0x800 <= n < 0x1_0000
    ensures n / 4096 < 16 && n / 64 % 64 < 64 && n % 64 < 64
    ensures n == n / 4096 * 4096 + n / 64 % 64 * 64 + n % 64
    ensures n / 4096 == 0 ==> n / 64 % 64 >= 32
    ensures n / 4096 == 13 && n < 0xD800 ==> n / 64 % 64 < 32
    ensures n / 4096 == 13 && n > 0xDFFF ==> false
  {
    var h := n / 64;
    assert h / 64 == n / 4096;
    assert h == h / 64 * 64 + h % 64;
  }

  lemma FourBytes(n: nat)
    requires 0x1_0000 <= n <= 0x10FFFF
    ensures n / 262144 < 5 && n / 4096 % 64 < 64 && n / 64 % 64 < 64 && n % 64 < 64
    ensures n == n / 262144 * 262144 + n / 4096 % 64 * 4096 + n / 64 % 64 * 64 + n % 64
    ensures n / 262144 == 0 ==> n / 4096 % 64 >= 16
    ensures n / 262144 == 4 ==> n / 4096 % 64 < 16
  {
    var h1 := n / 64;
    var h2 := h1 / 64;
    assert h2 == n / 4096 && h2 / 64 == n / 262144;
    assert h1 == h2 * 64 + h1 % 64;
    assert h2 == h2 / 64 * 64 + h2 % 64;
  }

  lemma FormIsChunk(n: nat)
    requires IsScalar(n)
    ensures EncodeScalar(n) != [] && FirstChunk(EncodeScalar(n)) == Chunk(true, |EncodeScalar(n)|)
  {
    if n < 0x80 {
    } else if n < 0x800 {
      TwoBytes(n);
    } else if n < 0x1_0000 {
      ThreeBytes(n);
    } else {
      FourBytes(n);
    }
  }

  // ----- a scalar chunk is a form -----

  function Two(a: int, b: int): int {
    (a - 0xC0) * 64 + (b - 0x80)
  }

  function Three(a: int, b: int, c: int): int {
    (a - 0xE0) * 4096 + (b - 0x80) * 64 + (c - 0x80)
  }

  function Four(a: int, b: int, c: int, d: int): int {
    (a - 0xF0) * 262144 + (b - 0x80) * 4096 + (c - 0x80) * 64 + (d - 0x80)
  }

  lemma Digit(n: nat, q: nat, r: nat)
    requires n == q * 64 + r && r < 64
    ensures n / 64 == q && n % 64 == r
  {
  }

  lemma Quotients(n: nat)
    ensures n / 4096 == n / 64 / 64 && n / 262144 == n / 64 / 64 / 64
  {
  }

  lemma TwoByteForm(a: byte, b: byte)
    requires 0xC2 <= a <= 0xDF && 0x80 <= b <= 0xBF
    ensures var n := Two(a, b);
            n >= 0 && IsScalar(n) && EncodeScalar(n) == [a, b]
  {
  }

  lemma ThreeByteForm(a: byte, b: byte, c: byte)
    requires 0xE0 <= a <= 0xEF && 0x80 <= b <= 0xBF && 0x80 <= c <= 0xBF
    requires (a == 0xE0 ==> 0xA0 <= b) && (a == 0xED ==> b <= 0x9F)
    ensures var n := Three(a, b, c);
            n >= 0 && IsScalar(n) && EncodeScalar(n) == [a, b, c]
  {
    var n, q2: nat := Three(a, b, c), a - 0xE0;
    var q1: nat := q2 * 64 + (b - 0x80);
    Digit(n, q1, c - 0x80);
    Digit(q1, q2, b - 0x80);
    Quotients(n);
  }

  lemma FourByteForm(a: byte, b: byte, c: byte, d: byte)
    requires 0xF0 <= a <= 0xF4 && 0x80 <= b <= 0xBF && 0x80 <= c <= 0xBF && 0x80 <= d <= 0xBF
    requires (a == 0xF0 ==> 0x90 <= b) && (a == 0xF4 ==> b <= 0x8F)
    ensures var n := Four(a, b, c, d);
            n >= 0 && IsScalar(n) && EncodeScalar(n) == [a, b, c, d]
  {
    var n, q3: nat := Four(a, b, c, d), a - 0xF0;
    var q2: nat := q3 * 64 + (b - 0x80);
    var q1: nat := q2 * 64 + (c - 0x80);
    Digit(n, q1, d - 0x80);
    Digit(q1, q2, c - 0x80);
    Digit(q2, q3, b - 0x80);
    Quotients(n);
  }

  lemma ChunkIsForm(s: bytes) returns (n: nat)
    requires s != [] && FirstChunk(s).scalar
    ensures Begins(s, n) && |EncodeScalar(n)| == FirstChunk(s).width
  {
    var a := s[0];
    if a < 0x80 {
      n := a;
      assert EncodeScalar(n) == s[..1];
    } else if a <= 0xDF {
      TwoByteForm(a, s[1]);
      n := Two(a, s[1]);
      assert EncodeScalar(n) == s[..2];
    } else if a <= 0xEF {
      ThreeByteForm(a, s[1], s[2]);
      n := Three(a, s[1], s[2]);
      assert EncodeScalar(n) == s[..3];
    } else {
      FourByteForm(a, s[1], s[2], s[3]);
      n := Four(a, s[1], s[2], s[3]);
      assert EncodeScalar(n) == s[..4];
    }
  }

  /** Bytes that begin with a well-formed chunk. */
  lemma BeginsWithChunk(s: bytes, f: bytes)
    requires f != [] && f <= s && FirstChunk(f) == Chunk(true, |f|)
    ensures FirstChunk(s) == Chunk(true, |f|)
  {
  }

  /** The first chunk is a scalar if and only if the bytes begin with the form of one; it is that form. */
  lemma ScalarIff(s: bytes)
    requires s != []
    ensures FirstChunk(s).scalar <==> exists n: nat :: Begins(s, n)
    ensures forall n: nat :: Begins(s, n) ==> FirstChunk(s) == Chunk(true, |EncodeScalar(n)|)
  {
    hide FirstChunk, EncodeScalar, IsScalar;
    if FirstChunk(s).scalar {
      var n := ChunkIsForm(s);
    }
    forall n: nat | Begins(s, n) ensures FirstChunk(s) == Chunk(true, |EncodeScalar(n)|) {
      FormIsChunk(n);
      BeginsWithChunk(s, EncodeScalar(n));
    }
  }

  // ----- ill-formed chunks are maximal -----

  /** Completing the first two or three bytes. */
  lemma SecondGoesOn(s: bytes)
    requires |s| >= 2
    requires (0xE0 <= s[0] <= 0xEF && Second3(s)) || (0xF0 <= s[0] <= 0xF4 && Second4(s))
    ensures StartsForm(s[..2])
    ensures 0xF0 <= s[0] && Continuation(s, 2) ==> StartsForm(s[..3])
  {
    var a, b := s[0], s[1];
    if a <= 0xEF {
      ThreeByteForm(a, b, 0x80);
      assert GoesOn(s[..2], Three(a, b, 0x80));
    } else {
      FourByteForm(a, b, 0x80, 0x80);
      assert GoesOn(s[..2], Four(a, b, 0x80, 0x80));
      if Continuation(s, 2) {
        FourByteForm(a, b, s[2], 0x80);
        assert GoesOn(s[..3], Four(a, b, s[2], 0x80));
      }
    }
  }

  /** A chunk is as wide as what it shares with any form. */
  lemma SharedIsChunk(s: bytes, f: bytes, k: nat)
    requires f != [] && FirstChunk(f) == Chunk(true, |f|) && 1 <= k <= |s| && s[..k] <= f
    ensures FirstChunk(s).scalar || FirstChunk(s).width >= k
  {
    var p := s[..k];
    assert forall i :: 0 <= i < k ==> p[i] == s[i] == f[i];
  }

  /** An ill-formed chunk is the longest piece that some form goes on from, or one byte if there is none. */
  lemma IllFormedIsMaximal(s: bytes)
    requires s != [] && !FirstChunk(s).scalar
    ensures var k := FirstChunk(s).width;
            && (k == 1 || StartsForm(s[..k]))
            && forall j :: k < j <= |s| ==> !StartsForm(s[..j])
  {
    hide EncodeScalar, IsScalar, StartsForm;
    var k := FirstChunk(s).width;
    if k > 1 {
      SecondGoesOn(s);
    }
    forall j | k < j <= |s| ensures !StartsForm(s[..j]) {
      if StartsForm(s[..j]) {
        var n := FormOf(s[..j]);
        FormIsChunk(n);
        SharedIsChunk(s, EncodeScalar(n), j);
      }
    }
  }

  lemma FormOf(p: bytes) returns (n: nat)
    requires StartsForm(p)
    ensures GoesOn(p, n)
  {
    n :| GoesOn(p, n);
  }

  // ----- valid text -----

  ghost predicate IsText(s: bytes, ns: seq<nat>) {
    (forall n :: n in ns ==> IsScalar(n)) && EncodeText(ns) == s
  }

  lemma {:induction false} TextIsValid(s: bytes, ns: seq<nat>)
    requires IsText(s, ns)
    ensures Valid(s)
    decreases ns
  {
    hide EncodeScalar, IsScalar, FirstChunk;
    if ns != [] {
      assert ns[0] in ns && forall n :: n in ns[1..] ==> n in ns;
      var f, rest := EncodeScalar(ns[0]), EncodeText(ns[1..]);
      FormIsChunk(ns[0]);
      BeginsWithChunk(s, f);
      assert s[|f|..] == rest;
      TextIsValid(rest, ns[1..]);
    }
  }

  lemma {:induction false} ValidIsText(s: bytes) returns (ns: seq<nat>)
    requires Valid(s)
    ensures IsText(s, ns)
    decreases |s|
  {
    hide EncodeScalar, IsScalar, FirstChunk;
    if s == [] {
      ns := [];
    } else {
      var n := ChunkIsForm(s);
      var more := ValidIsText(s[FirstChunk(s).width..]);
      ns := [n] + more;
      assert ns[1..] == more && ns[0] == n;
      assert s == EncodeScalar(n) + s[|EncodeScalar(n)|..];
    }
  }

  /** Text is valid if and only if it is the forms of some scalar values, one after the other. */
  lemma ValidIff(s: bytes)
    ensures Valid(s) <==> exists ns: seq<nat> :: IsText(s, ns)
  {
    hide IsText, Valid;
    if Valid(s) {
      var ns := ValidIsText(s);
    }
    forall ns: seq<nat> | IsText(s, ns) ensures Valid(s) {
      TextIsValid(s, ns);
    }
  }

  // ----- replacement decoding -----

  /** The longest piece that some form goes on from, or one byte. */
  ghost predicate Maximal(s: bytes, k: nat) {
    1 <= k <= |s| && (k == 1 || StartsForm(s[..k])) && forall j :: k < j <= |s| ==> !StartsForm(s[..j])
  }

  /** Replacement decoding copies each form. */
  lemma LossyCopies(s: bytes, n: nat)
    requires Begins(s, n)
    ensures Lossy(s) == EncodeScalar(n) + Lossy(s[|EncodeScalar(n)|..])
  {
    hide EncodeScalar, FirstChunk, IsScalar;
    FormIsChunk(n);
    BeginsWithChunk(s, EncodeScalar(n));
    assert s[..|EncodeScalar(n)|] == EncodeScalar(n);
  }

  /** Where no form begins it puts U+FFFD for the longest piece that some form goes on from, or one byte. */
  lemma LossyReplaces(s: bytes, k: nat)
    requires Maximal(s, k) && forall n: nat :: !Begins(s, n)
    ensures Lossy(s) == EncodeScalar(0xFFFD) + Lossy(s[k..])
  {
    hide FirstChunk, StartsForm, Begins;
    ScalarIff(s);
    IllFormedIsMaximal(s);
    assert k == FirstChunk(s).width;
    assert EncodeScalar(0xFFFD) == REPLACEMENT;
  }

  lemma SomePieceIsMaximal(s: bytes) returns (k: nat)
    requires s != [] && forall n: nat :: !Begins(s, n)
    ensures Maximal(s, k)
  {
    hide FirstChunk, StartsForm, Begins;
    ScalarIff(s);
    IllFormedIsMaximal(s);
    k := FirstChunk(s).width;
  }
}
