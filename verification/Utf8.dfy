/** UTF-8 well-formedness (RFC 3629) and the replacement decoding of `String::from_utf8_lossy`. */
module Utf8 {
  import opened Bytes

  predicate Continuation(s: bytes, i: nat) {
    i < |s| && 0x80 <= s[i] <= 0xBF
  }

  /** Is the second byte one that the first byte of a three-byte form allows? */
  predicate Second3(s: bytes)
    requires s != []
  {
    && Continuation(s, 1)
    && (s[0] == 0xE0 ==> 0xA0 <= s[1])
    && (s[0] == 0xED ==> s[1] <= 0x9F)
  }

  predicate Second4(s: bytes)
    requires s != []
  {
    && Continuation(s, 1)
    && (s[0] == 0xF0 ==> 0x90 <= s[1])
    && (s[0] == 0xF4 ==> s[1] <= 0x8F)
  }

  /** The first chunk of `s`: one well-formed scalar, or a maximal ill-formed prefix. */
  datatype Chunk = Chunk(scalar: bool, width: nat)

  function FirstChunk(s: bytes): (c: Chunk)
    requires s != []
    ensures 1 <= c.width <= |s| && c.width <= 4
    ensures !c.scalar ==> c.width <= 3
  {
    if s[0] < 0x80 then Chunk(true, 1)
    else if 0xC2 <= s[0] <= 0xDF then
      Chunk(Continuation(s, 1), if Continuation(s, 1) then 2 else 1)
    else if 0xE0 <= s[0] <= 0xEF then
      if !Second3(s) then Chunk(false, 1)
      else if !Continuation(s, 2) then Chunk(false, 2)
      else Chunk(true, 3)
    else if 0xF0 <= s[0] <= 0xF4 then
      if !Second4(s) then Chunk(false, 1)
      else if !Continuation(s, 2) then Chunk(false, 2)
      else if !Continuation(s, 3) then Chunk(false, 3)
      else Chunk(true, 4)
    else Chunk(false, 1)
  }

  predicate Valid(s: bytes)
    decreases |s|
  {
    s == [] || (FirstChunk(s).scalar && Valid(s[FirstChunk(s).width..]))
  }

  const REPLACEMENT: bytes := [0xEF, 0xBF, 0xBD]

  function Lossy(s: bytes): bytes
    decreases |s|
  {
    if s == [] then []
    else
      var c := FirstChunk(s);
      (if c.scalar then s[..c.width] else REPLACEMENT) + Lossy(s[c.width..])
  }

  lemma ChunkLocal(s: bytes, t: bytes)
    requires s != [] && FirstChunk(s) == Chunk(true, |s|)
    ensures FirstChunk(s + t) == Chunk(true, |s|)
  {
  }

  lemma {:induction false} LossyIsValid(s: bytes)
    ensures Valid(Lossy(s))
    ensures Lossy(s) == [] <==> s == []
    ensures |Lossy(s)| <= 3 * |s|
    decreases |s|
  {
    if s != [] {
      var c := FirstChunk(s);
      var head := if c.scalar then s[..c.width] else REPLACEMENT;
      var tail := Lossy(s[c.width..]);
      LossyIsValid(s[c.width..]);
      assert FirstChunk(head) == Chunk(true, |head|);
      ChunkLocal(head, tail);
      assert (head + tail)[|head|..] == tail;
    }
  }

  /** Lossy decoding is the identity exactly on valid text. */
  lemma {:induction false} LossyIdentityIff(s: bytes)
    ensures Lossy(s) == s <==> Valid(s)
  {
    LossyIsValid(s);
    if Valid(s) {
      LossyOfValid(s);
    }
  }

  lemma {:induction false} LossyOfValid(s: bytes)
    requires Valid(s)
    ensures Lossy(s) == s
    decreases |s|
  {
    if s != [] {
      var n := FirstChunk(s).width;
      LossyOfValid(s[n..]);
      assert s == s[..n] + s[n..];
    }
  }
}
