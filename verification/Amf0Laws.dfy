/** What holds of everything the AMF 0 decoder returns: rtmp/src/amf/amf0.rs on arbitrary bytes. */
module Amf0Laws {
  import opened Bytes
  import opened AmfValue
  import opened Amf0Spec
  import opened Amf0RoundTrip
  import Utf8

  /** `rest` is what is left at the end of `b`. */
  predicate Tail(rest: bytes, b: bytes) {
    |rest| <= |b| && rest == b[|b| - |rest|..]
  }

  /** Well formed, without byte arrays, and with every member named. */
  predicate Sound(v: Value) {
    Representable(v) && HasWireForm(v) && KeysNamed(v)
  }

  predicate SoundMembers(m: Members) {
    && RepresentableMembers(m) && MembersNamed(m)
    && forall i :: 0 <= i < |m| ==> HasWireForm(m[i].value)
  }

  predicate SoundTable(objects: seq<Value>) {
    forall v :: v in objects ==> Sound(v)
  }

  lemma TailOfTail(a: bytes, b: bytes, c: bytes)
    requires Tail(a, b) && Tail(b, c)
    ensures Tail(a, c)
  {
    assert c[|c| - |b|..][|b| - |a|..] == c[|c| - |a|..];
  }

  lemma DropIsTail(b: bytes, n: nat)
    requires n <= |b|
    ensures Tail(b[n..], b)
  {
  }

  lemma ShortStringKeeps(b: bytes)
    requires DecodeShortString(b).Piece?
    ensures var p := DecodeShortString(b);
            Tail(p.rest, b) && Utf8.Valid(p.text) && (GetU16(b) > 0 ==> p.text != [])
  {
    hide Utf8.Lossy, Utf8.Valid, GetU16;
    var n := GetU16(b);
    Utf8.LossyIsValid(b[2..][..n]);
    assert b[2..][n..] == b[2 + n..];
  }

  lemma LongStringKeeps(b: bytes)
    requires DecodeLongString(b).Piece?
    ensures var p := DecodeLongString(b);
            Tail(p.rest, b) && Utf8.Valid(p.text)
  {
    hide Utf8.Lossy, Utf8.Valid, GetU32;
    var n := GetU32(b);
    Utf8.LossyIsValid(b[4..][..n]);
    assert b[4..][n..] == b[4 + n..];
  }

  lemma InsertKeepsSound(m: Members, k: bytes, v: Value)
    requires SoundMembers(m) && Utf8.Valid(k) && k != [] && Sound(v)
    ensures SoundMembers(Insert(m, k, v))
  {
    hide Utf8.Valid, Representable, HasWireForm, KeysNamed, Insert;
    InsertRepresentable(m, k, v);
    InsertKeepsSorted(m, k, v);
    var r := Insert(m, k, v);
    forall i | 0 <= i < |r| ensures r[i].key != [] && KeysNamed(r[i].value) && HasWireForm(r[i].value) {
      assert r[i] in r;
    }
  }

  /** The outcome of a step: the rest is the input's tail, the table only grows, and it stays sound. */
  ghost predicate Kept(rest: bytes, b: bytes, objects: seq<Value>, objects': seq<Value>) {
    Tail(rest, b) && objects <= objects' && (SoundTable(objects) ==> SoundTable(objects'))
  }

  lemma {:induction false} BodyKeeps(b: bytes, objects: seq<Value>, acc: Members)
    requires DecodeBody(b, objects, acc).Ok?
    ensures var out := DecodeBody(b, objects, acc);
            && Kept(out.rest, b, objects, out.objects)
            && (SoundTable(objects) && SoundMembers(acc) ==> SoundMembers(out.value))
    decreases |b|, 0
  {
    hide DecodeShortString, DecodeValue, Sound, SoundMembers, Insert, GetU16, SoundTable, Utf8.Valid;
    if GetU16(b) != 0 {
      ShortStringKeeps(b);
      var key := DecodeShortString(b);
      ValueKeeps(key.rest, objects);
      var v := DecodeValue(key.rest, objects);
      TailOfTail(v.rest, key.rest, b);
      if SoundTable(objects) && SoundMembers(acc) {
        InsertKeepsSound(acc, key.text, v.value);
      }
      var out := DecodeBody(v.rest, v.objects, Insert(acc, key.text, v.value));
      BodyKeeps(v.rest, v.objects, Insert(acc, key.text, v.value));
      TailOfTail(out.rest, v.rest, b);
    }
  }

  lemma {:induction false} ItemsKeep(n: nat, b: bytes, objects: seq<Value>, acc: seq<Value>)
    requires DecodeItems(n, b, objects, acc).Ok?
    ensures var out := DecodeItems(n, b, objects, acc);
            && Kept(out.rest, b, objects, out.objects)
            && (SoundTable(objects) && SoundTable(acc) ==> SoundTable(out.value))
    decreases |b|, 2
  {
    hide DecodeValue, Sound;
    if n > 0 {
      ValueKeeps(b, objects);
      var v := DecodeValue(b, objects);
      ItemsKeep(n - 1, v.rest, v.objects, acc + [v.value]);
      TailOfTail(DecodeItems(n - 1, v.rest, v.objects, acc + [v.value]).rest, v.rest, b);
    }
  }

  lemma {:induction false} ValueKeeps(b: bytes, objects: seq<Value>)
    requires DecodeValue(b, objects).Ok?
    ensures var out := DecodeValue(b, objects);
            Kept(out.rest, b, objects, out.objects) && (SoundTable(objects) ==> Sound(out.value))
    decreases |b|, 1
  {
    hide DecodeAfter, Sound, GetU16;
    if b[0] != REFERENCE_MARKER {
      AfterKeeps(b[0], b[1..], objects);
      var out := DecodeAfter(b[0], b[1..], objects);
      DropIsTail(b, 1);
      TailOfTail(out.rest, b[1..], b);
    }
  }

  lemma {:induction false} AfterKeeps(marker: byte, b: bytes, objects: seq<Value>)
    requires DecodeAfter(marker, b, objects).Ok?
    ensures var out := DecodeAfter(marker, b, objects);
            Kept(out.rest, b, objects, out.objects) && (SoundTable(objects) ==> Sound(out.value))
    decreases |b|, 3
  {
    hide DecodeBody, DecodeItems, DecodeShortString, DecodeLongString, SoundTable, GetU32, Utf8.Valid;
    hide SoundMembers, Sound;
    match marker
    case 0x03 =>
      BodyOf(b, b, objects);
      ObjectIsSound([], DecodeBody(b, objects, []).value);
    case 0x08 =>
      BodyOf(b[4..], b, objects);
      ObjectIsSound([], DecodeBody(b[4..], objects, []).value);
    case 0x0a =>
      ItemsKeep(GetU32(b), b[4..], objects, []);
      var out := DecodeItems(GetU32(b), b[4..], objects, []);
      TailOfTail(out.rest, b[4..], b);
      NothingUnsound();
      ArrayIsSound(out.value);
    case 0x10 =>
      ShortStringKeeps(b);
      var c := DecodeShortString(b);
      BodyOf(c.rest, b, objects);
      ObjectIsSound(c.text, DecodeBody(c.rest, objects, []).value);
    case _ => LeafKeeps(marker, b, objects);
  }

  lemma NothingUnsound()
    ensures SoundTable([]) && SoundMembers([])
  {
  }

  lemma {:induction false} BodyOf(b: bytes, whole: bytes, objects: seq<Value>)
    requires DecodeBody(b, objects, []).Ok? && Tail(b, whole)
    ensures var out := DecodeBody(b, objects, []);
            Kept(out.rest, whole, objects, out.objects) && (SoundTable(objects) ==> SoundMembers(out.value))
    decreases |b|, 1
  {
    hide DecodeBody, SoundTable, SoundMembers;
    BodyKeeps(b, objects, []);
    NothingUnsound();
    TailOfTail(DecodeBody(b, objects, []).rest, b, whole);
  }

  lemma ObjectIsSound(c: bytes, m: Members)
    ensures SoundMembers(m) ==> Sound(Object(m)) && (Utf8.Valid(c) ==> Sound(TypedObject(c, m)))
  {
  }

  lemma ArrayIsSound(items: seq<Value>)
    ensures SoundTable(items) ==> Sound(StrictArray(items))
  {
    assert forall i :: 0 <= i < |items| ==> items[i] in items;
  }

  lemma LeafKeeps(marker: byte, b: bytes, objects: seq<Value>)
    requires marker != 0x03 && marker != 0x08 && marker != 0x0a && marker != 0x10
    requires DecodeAfter(marker, b, objects).Ok?
    ensures var out := DecodeAfter(marker, b, objects);
            Kept(out.rest, b, objects, out.objects) && Sound(out.value)
  {
    hide DecodeShortString, DecodeLongString, Utf8.Valid, SoundTable;
    if marker == 0x02 {
      ShortStringKeeps(b);
    } else if marker == 0x0c || marker == 0x0f {
      LongStringKeeps(b);
    }
  }

  /** Whatever the bytes, a decoded value is well formed with all members named, a non-empty piece of the
      input has been used up, the rest is the input's own tail, and the table has only grown. */
  lemma DecodeKeeps(b: bytes, objects: seq<Value>)
    requires DecodeValue(b, objects).Ok?
    ensures var out := DecodeValue(b, objects);
            && |out.rest| < |b| && out.rest == b[|b| - |out.rest|..]
            && objects <= out.objects
            && (SoundTable(objects) ==> SoundTable(out.objects) && Sound(out.value))
  {
    hide DecodeValue, Sound, SoundTable;
    ValueKeeps(b, objects);
  }

  /** Every item costs at least a byte: an announced count above the number of bytes left cannot succeed,
      so no array needs more room than there are bytes. */
  lemma {:induction false} ItemsCostBytes(n: nat, b: bytes, objects: seq<Value>, acc: seq<Value>)
    requires DecodeItems(n, b, objects, acc).Ok?
    ensures var out := DecodeItems(n, b, objects, acc);
            n <= |b| - |out.rest| && |out.value| == |acc| + n
    decreases n
  {
    hide DecodeValue;
    if n > 0 {
      var v := DecodeValue(b, objects);
      ItemsCostBytes(n - 1, v.rest, v.objects, acc + [v.value]);
    }
  }

  /** So what AMF 0 has decoded it can send back, as long as its lengths fit their prefixes again. */
  lemma DecodedSurvives(b: bytes, objects: seq<Value>, objects': seq<Value>, rest: bytes)
    requires DecodeValue(b, objects).Ok? && SoundTable(objects) && InRange(DecodeValue(b, objects).value)
    ensures var v := DecodeValue(b, objects).value;
            && HasWireForm(v)
            && DecodeValue(Encode(v) + rest, objects') == Ok(v, rest, objects' + Completed(Amf0, v))
  {
    hide DecodeValue, Encode, SoundTable, Representable, InRange;
    DecodeKeeps(b, objects);
    SurvivesIff(DecodeValue(b, objects).value, objects', rest);
  }

  // ----- ECMA arrays, which only other senders write -----

  lemma EcmaIsObject(count: nat, r: bytes, objects: seq<Value>)
    requires count <= 0xffff_ffff
    ensures DecodeValue([0x08] + (PutU32(count) + r), objects) == DecodeValue([0x03] + r, objects)
  {
    hide DecodeBody, PutU32, GetU32;
    assert ([0x08] + (PutU32(count) + r))[1..] == PutU32(count) + r && (PutU32(count) + r)[4..] == r;
    assert ([0x03] + r)[1..] == r;
    U32Head(count, r);
  }

  lemma U32Head(n: nat, r: bytes)
    requires n <= 0xffff_ffff
    ensures GetU32(PutU32(n) + r) == n
  {
    U32RoundTrip(n);
  }

  /** Whatever count it announces, an ECMA array of named members is read as the object of these members. */
  lemma EcmaReads(count: nat, m: Members, objects: seq<Value>, rest: bytes)
    requires count <= 0xffff_ffff && HasWireForm(Object(m)) && InRange(Object(m)) && KeysNamed(Object(m))
    ensures DecodeValue([0x08] + (PutU32(count) + (EncodeMembers(m) + ([0x00, 0x00, 0x09] + rest))), objects)
         == Ok(Object(m), rest, objects + Completed(Amf0, Object(m)))
  {
    hide DecodeValue, PutU32, EncodeMembers, InRange, Representable, KeysNamed, Completed;
    EcmaIsObject(count, EncodeMembers(m) + ([0x00, 0x00, 0x09] + rest), objects);
    SurvivesIff(Object(m), objects, rest);
    assert Encode(Object(m)) + rest == [0x03] + (EncodeMembers(m) + ([0x00, 0x00, 0x09] + rest)) by {
      assert PutU16(0) + [OBJECT_END_MARKER] == [0x00, 0x00, 0x09];
    }
  }
}
