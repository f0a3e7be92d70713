/** Exactly which values survive the AMF 0 codec, and an encoder that uses references. */
module Amf0RoundTrip {
  import opened Bytes
  import opened AmfValue
  import opened Amf0Spec
  import opened Wrappers
  import Utf8

  /** Every length fits the prefix that the encoder gives it. */
  predicate InRange(v: Value) {
    match v
    case ByteArray(_) => false
    case String(s) => Utf8.Valid(s) && |s| < 0x1_0000_0000
    case XmlDoc(s) => Utf8.Valid(s) && |s| < 0x1_0000_0000
    case StrictArray(items) =>
      |items| < 0x1_0000_0000 && forall i :: 0 <= i < |items| ==> InRange(items[i])
    case Object(m) => InRangeMembers(m)
    case TypedObject(c, m) => InRangeKey(c) && InRangeMembers(m)
    case _ => true
  }

  predicate InRangeKey(k: bytes) {
    Utf8.Valid(k) && |k| <= 0xffff
  }

  predicate InRangeMembers(m: Members) {
    && Sorted(m)
    && forall i :: 0 <= i < |m| ==> InRangeKey(m[i].key) && InRange(m[i].value)
  }

  /** No object anywhere in the value has a member with the empty name. */
  predicate KeysNamed(v: Value) {
    match v
    case StrictArray(items) => forall i :: 0 <= i < |items| ==> KeysNamed(items[i])
    case Object(m) => MembersNamed(m)
    case TypedObject(_, m) => MembersNamed(m)
    case _ => true
  }

  predicate MembersNamed(m: Members) {
    forall i :: 0 <= i < |m| ==> m[i].key != [] && KeysNamed(m[i].value)
  }

  lemma {:induction false} InRangeHasWireForm(v: Value)
    requires InRange(v)
    ensures HasWireForm(v)
  {
    match v
    case StrictArray(items) =>
      forall i | 0 <= i < |items| ensures HasWireForm(items[i]) { InRangeHasWireForm(items[i]); }
    case Object(m) => InRangeMembersHaveWireForm(m);
    case TypedObject(_, m) => InRangeMembersHaveWireForm(m);
    case _ =>
  }

  lemma {:induction false} InRangeMembersHaveWireForm(m: Members)
    requires forall i :: 0 <= i < |m| ==> InRange(m[i].value)
    ensures forall i :: 0 <= i < |m| ==> HasWireForm(m[i].value)
  {
    forall i | 0 <= i < |m| ensures HasWireForm(m[i].value) {
      assert m[i].value < m[i];
      InRangeHasWireForm(m[i].value);
    }
  }

  // ----- pieces -----

  lemma ShortStringReads(s: bytes, rest: bytes)
    requires InRangeKey(s)
    ensures DecodeShortString(EncodeShortString(s) + rest) == Piece(s, rest)
    ensures |EncodeShortString(s)| >= 2
    ensures GetU16(EncodeShortString(s) + rest) == |s|
  {
    hide PutU16, GetU16, Utf8.Lossy, Utf8.Valid;
    var b := EncodeShortString(s) + rest;
    U16Prefix(|s|, s + rest);
    assert b == PutU16(|s|) + (s + rest);
    assert (s + rest)[..|s|] == s && (s + rest)[|s|..] == rest;
    Utf8.LossyOfValid(s);
  }

  lemma U16Prefix(n: nat, body: bytes)
    requires n <= 0xffff
    ensures GetU16(PutU16(n) + body) == n
    ensures (PutU16(n) + body)[2..] == body
  {
    U16RoundTrip(n);
    assert GetU16(PutU16(n) + body) == GetU16(PutU16(n));
  }

  lemma LongStringReads(s: bytes, rest: bytes)
    requires Utf8.Valid(s) && |s| < 0x1_0000_0000
    ensures DecodeLongString(EncodeLongString(s) + rest) == Piece(s, rest)
  {
    hide PutU32, GetU32, Utf8.Lossy, Utf8.Valid;
    var b := EncodeLongString(s) + rest;
    U32Prefix(|s|, s + rest);
    assert b == PutU32(|s|) + (s + rest);
    assert (s + rest)[..|s|] == s && (s + rest)[|s|..] == rest;
    Utf8.LossyOfValid(s);
  }

  lemma U32Prefix(n: nat, body: bytes)
    requires n < 0x1_0000_0000
    ensures GetU32(PutU32(n) + body) == n
    ensures (PutU32(n) + body)[4..] == body
  {
    U32RoundTrip(n);
    assert GetU32(PutU32(n) + body) == GetU32(PutU32(n));
  }

  /** A key or class name survives exactly when its length fits sixteen bits. */
  lemma ShortStringSurvivesIff(s: bytes, rest: bytes)
    requires Utf8.Valid(s)
    ensures DecodeShortString(EncodeShortString(s) + rest) == Piece(s, rest) <==> |s| <= 0xffff
  {
    hide DecodeShortString, EncodeShortString, Utf8.Valid;
    if |s| <= 0xffff {
      ShortStringReads(s, rest);
    } else {
      OverlongReads(s, rest);
    }
  }

  lemma OverlongReads(s: bytes, rest: bytes)
    requires |s| > 0xffff
    ensures var p := DecodeShortString(EncodeShortString(s) + rest);
            p.Piece? ==> |p.rest| > |rest|
  {
    hide Utf8.Lossy;
    var b := EncodeShortString(s) + rest;
    U16RoundTrip(|s|);
    assert GetU16(b) == GetU16(PutU16(|s|));
    assert |b| == 2 + |s| + |rest|;
  }

  // ----- the exact outcome -----

  lemma Dispatch(marker: byte, r: bytes, objects: seq<Value>)
    requires marker != REFERENCE_MARKER
    ensures DecodeValue([marker] + r, objects) ==
      match DecodeAfter(marker, r, objects)
      case Err(e) => Err(e)
      case Ok(v, r1, objects1) => Ok(v, r1, Register(v, objects1))
  {
    hide DecodeAfter;
    assert ([marker] + r)[1..] == r;
  }

  /** No value starts with the byte that ends an object. */
  lemma FirstByte(v: Value)
    requires HasWireForm(v)
    ensures Encode(v) != [] && Encode(v)[0] != OBJECT_END_MARKER
  {
  }

  function Outcome<T>(good: bool, v: T, rest: bytes, objects: seq<Value>): Out<T> {
    if good then Ok(v, rest, objects) else Err(BadObjectEnd)
  }

  lemma {:induction false} ItemsOutcome(items: seq<Value>, objects: seq<Value>, acc: seq<Value>, rest: bytes)
    requires forall i :: 0 <= i < |items| ==> InRange(items[i]) && HasWireForm(items[i])
    ensures DecodeItems(|items|, EncodeItems(items) + rest, objects, acc)
         == Outcome(forall i :: 0 <= i < |items| ==> KeysNamed(items[i]),
                    acc + items, rest, objects + CompletedItems(Amf0, items))
    decreases items, 0
  {
    hide Encode, DecodeValue, InRange, HasWireForm, KeysNamed, Completed;
    if items == [] {
      assert EncodeItems(items) + rest == rest && acc + items == acc;
      assert objects + CompletedItems(Amf0, items) == objects;
    } else {
      var after := EncodeItems(items[1..]) + rest;
      assert EncodeItems(items) + rest == Encode(items[0]) + after;
      ExactOutcome(items[0], objects, after);
      if KeysNamed(items[0]) {
        var objects1 := objects + Completed(Amf0, items[0]);
        ItemsOutcome(items[1..], objects1, acc + [items[0]], rest);
        assert acc + [items[0]] + items[1..] == acc + items;
        assert objects1 + CompletedItems(Amf0, items[1..]) == objects + CompletedItems(Amf0, items);
        assert (forall i :: 0 <= i < |items| ==> KeysNamed(items[i]))
            == (forall i :: 0 <= i < |items[1..]| ==> KeysNamed(items[1..][i]));
      }
    }
  }

  lemma {:induction false} BodyOutcome(m: Members, objects: seq<Value>, acc: Members, rest: bytes)
    requires Sorted(acc + m)
    requires forall i :: 0 <= i < |m| ==>
      InRangeKey(m[i].key) && InRange(m[i].value) && HasWireForm(m[i].value)
    ensures DecodeBody(EncodeBody(m) + rest, objects, acc)
         == Outcome(MembersNamed(m), acc + m, rest, objects + CompletedMembers(Amf0, m))
    decreases m, 0
  {
    hide Encode, DecodeValue, InRange, HasWireForm, KeysNamed, Completed, EncodeShortString, DecodeShortString,
         InRangeKey;
    var b := EncodeBody(m) + rest;
    if m == [] {
      assert PutU16(0) == [0, 0];
      assert EncodeBody(m) == [0, 0, OBJECT_END_MARKER];
      assert b[3..] == rest && acc + m == acc;
      assert objects + CompletedMembers(Amf0, m) == objects;
    } else {
      assert m[0].value < m[0];
      var key, value := m[0].key, m[0].value;
      var after := EncodeBody(m[1..]) + rest;
      BodySplit(m, rest);
      ShortStringReads(key, Encode(value) + after);
      if key == [] {
        FirstByte(value);
        EmptyKey(Encode(value) + after);
      } else {
        ExactOutcome(value, objects, after);
        if KeysNamed(value) {
          forall i | 0 <= i < |acc| ensures Less(acc[i].key, key) {
            assert (acc + m)[i] == acc[i] && (acc + m)[|acc|] == m[0];
          }
          InsertLast(acc, key, value);
          assert m[0] == Entry(key, value);
          assert acc + [m[0]] + m[1..] == acc + m;
          var objects1 := objects + Completed(Amf0, value);
          BodyOutcome(m[1..], objects1, acc + [m[0]], rest);
          assert objects1 + CompletedMembers(Amf0, m[1..]) == objects + CompletedMembers(Amf0, m);
          assert MembersNamed(m) == MembersNamed(m[1..]);
        }
      }
    }
  }

  lemma BodySplit(m: Members, rest: bytes)
    requires m != [] && forall i :: 0 <= i < |m| ==> HasWireForm(m[i].value)
    ensures EncodeBody(m) + rest
         == EncodeShortString(m[0].key) + (Encode(m[0].value) + (EncodeBody(m[1..]) + rest))
  {
    hide Encode, EncodeShortString, HasWireForm, PutU16;
    var k, v := EncodeShortString(m[0].key), Encode(m[0].value);
    var ms, end := EncodeMembers(m[1..]), PutU16(0) + [OBJECT_END_MARKER];
    Regroup(k, v, ms, end, rest);
  }

  lemma Regroup(k: bytes, v: bytes, ms: bytes, end: bytes, rest: bytes)
    ensures k + (v + ms) + end + rest == k + (v + (ms + end + rest))
  {
  }

  lemma EmptyKey(rest: bytes)
    ensures EncodeShortString([]) + rest == [0, 0] + rest
  {
  }

  /** The decoder returns the value, or stops at its first unnamed member: nothing else can happen. */
  lemma {:induction false} ExactOutcome(v: Value, objects: seq<Value>, rest: bytes)
    requires InRange(v) && HasWireForm(v)
    ensures DecodeValue(Encode(v) + rest, objects)
         == Outcome(KeysNamed(v), v, rest, objects + Completed(Amf0, v))
    decreases v, 1
  {
    hide DecodeValue, Encode, Completed;
    match v
    case StrictArray(items) =>
      ArrayOutcome(items, objects, rest);
      LastRegistered(v, objects);
    case Object(m) =>
      ObjectOutcome(m, objects, rest);
      LastRegistered(v, objects);
    case TypedObject(c, m) =>
      TypedOutcome(c, m, objects, rest);
      LastRegistered(v, objects);
    case _ => LeafOutcome(v, objects, rest);
  }

  lemma {:induction false} ArrayOutcome(items: seq<Value>, objects: seq<Value>, rest: bytes)
    requires |items| < 0x1_0000_0000
    requires forall i :: 0 <= i < |items| ==> InRange(items[i]) && HasWireForm(items[i])
    ensures DecodeValue(Encode(StrictArray(items)) + rest, objects)
         == Outcome(forall i :: 0 <= i < |items| ==> KeysNamed(items[i]), StrictArray(items), rest,
                    objects + CompletedItems(Amf0, items) + [StrictArray(items)])
    decreases items, 1
  {
    hide DecodeValue, DecodeItems, EncodeItems, GetU32, PutU32, InRange, KeysNamed, CompletedItems;
    var body := EncodeItems(items) + rest;
    var r := PutU32(|items|) + body;
    assert Encode(StrictArray(items)) + rest == [STRICT_ARRAY_MARKER] + r;
    Dispatch(STRICT_ARRAY_MARKER, r, objects);
    U32Prefix(|items|, body);
    ItemsOutcome(items, objects, [], rest);
    assert [] + items == items;
  }

  lemma {:induction false} ObjectOutcome(m: Members, objects: seq<Value>, rest: bytes)
    requires InRangeMembers(m) && forall i :: 0 <= i < |m| ==> HasWireForm(m[i].value)
    ensures DecodeValue(Encode(Object(m)) + rest, objects)
         == Outcome(MembersNamed(m), Object(m), rest, objects + CompletedMembers(Amf0, m) + [Object(m)])
    decreases m, 1
  {
    hide DecodeValue, DecodeBody, EncodeBody, InRange, MembersNamed;
    var r := EncodeBody(m) + rest;
    assert Encode(Object(m)) + rest == [OBJECT_MARKER] + r;
    Dispatch(OBJECT_MARKER, r, objects);
    BodyOutcome(m, objects, [], rest);
    assert [] + m == m;
  }

  lemma {:induction false} TypedOutcome(c: bytes, m: Members, objects: seq<Value>, rest: bytes)
    requires InRangeKey(c) && InRangeMembers(m) && forall i :: 0 <= i < |m| ==> HasWireForm(m[i].value)
    ensures DecodeValue(Encode(TypedObject(c, m)) + rest, objects)
         == Outcome(MembersNamed(m), TypedObject(c, m), rest,
                    objects + CompletedMembers(Amf0, m) + [TypedObject(c, m)])
    decreases m, 1
  {
    hide DecodeValue, DecodeBody, EncodeBody, DecodeShortString, EncodeShortString, InRange, InRangeKey, MembersNamed,
         CompletedMembers;
    var r := EncodeBody(m) + rest;
    assert Encode(TypedObject(c, m)) + rest == [TYPED_OBJECT_MARKER] + (EncodeShortString(c) + r);
    Dispatch(TYPED_OBJECT_MARKER, EncodeShortString(c) + r, objects);
    ShortStringReads(c, r);
    BodyOutcome(m, objects, [], rest);
    assert [] + m == m;
  }

  /** Registration comes after everything inside. */
  lemma LastRegistered(v: Value, objects: seq<Value>)
    requires Registers(Amf0, v)
    ensures objects + CompletedInside(Amf0, v) + [v] == objects + Completed(Amf0, v)
  {
  }

  lemma LeafOutcome(v: Value, objects: seq<Value>, rest: bytes)
    requires InRange(v) && HasWireForm(v) && !v.StrictArray? && !v.Object? && !v.TypedObject?
    ensures DecodeValue(Encode(v) + rest, objects) == Ok(v, rest, objects)
    ensures KeysNamed(v) && objects + Completed(Amf0, v) == objects
  {
    hide DecodeValue, DecodeShortString, DecodeLongString, EncodeShortString, EncodeLongString, Utf8.Valid;
    var b := Encode(v);
    var r := b[1..] + rest;
    assert b + rest == [b[0]] + r;
    Dispatch(b[0], r, objects);
    match v
    case Number(n) => assert r == n + rest;
    case Boolean(x) => assert r == [if x then 1 else 0] + rest;
    case String(s) =>
      if |s| > 0xffff {
        assert r == EncodeLongString(s) + rest;
        LongStringReads(s, rest);
      } else {
        assert r == EncodeShortString(s) + rest;
        ShortStringReads(s, rest);
      }
    case XmlDoc(s) =>
      assert r == EncodeLongString(s) + rest;
      LongStringReads(s, rest);
    case Date(millis) => assert r == millis + (PutU16(0) + rest);
    case Null => assert r == rest;
    case Undefined => assert r == rest;
    case _ =>
  }

  /** Round trip in context, and exactly when: a value comes back iff all its members are named. */
  lemma SurvivesIff(v: Value, objects: seq<Value>, rest: bytes)
    requires InRange(v)
    ensures HasWireForm(v)
    ensures var out := DecodeValue(Encode(v) + rest, objects);
            && (out.Ok? <==> KeysNamed(v))
            && (out.Ok? ==> out.value == v && out.rest == rest && out.objects == objects + Completed(Amf0, v))
  {
    InRangeHasWireForm(v);
    ExactOutcome(v, objects, rest);
  }

  lemma {:induction false} DecodeAllOutcome(vs: seq<Value>, objects: seq<Value>, acc: seq<Value>)
    requires forall i :: 0 <= i < |vs| ==> InRange(vs[i]) && HasWireForm(vs[i])
    ensures DecodeAllFrom(EncodeItems(vs), objects, acc)
         == if forall i :: 0 <= i < |vs| ==> KeysNamed(vs[i]) then Values(acc + vs) else Failed(BadObjectEnd)
  {
    hide Encode, DecodeValue, InRange, HasWireForm, KeysNamed;
    if vs == [] {
      assert acc + vs == acc;
    } else {
      ExactOutcome(vs[0], objects, EncodeItems(vs[1..]));
      FirstByte(vs[0]);
      if KeysNamed(vs[0]) {
        DecodeAllOutcome(vs[1..], objects + Completed(Amf0, vs[0]), acc + [vs[0]]);
        assert acc + [vs[0]] + vs[1..] == acc + vs;
        assert (forall i :: 0 <= i < |vs| ==> KeysNamed(vs[i]))
            == (forall i :: 0 <= i < |vs[1..]| ==> KeysNamed(vs[1..][i]));
      }
    }
  }

  // ----- references -----

  /** Bytes and decoder table after sending `v`, using a reference for whatever the table holds. */
  datatype Emitted = Emitted(data: bytes, objects: seq<Value>)

  /** A reference has a sixteen-bit index. */
  const LIMIT := 0x1_0000

  function Emit(v: Value, objects: seq<Value>): Emitted
    requires HasWireForm(v)
    decreases v, 1
  {
    if Referenced(Amf0, LIMIT, v, objects) then
      Emitted([REFERENCE_MARKER] + PutU16(Find(objects, v, LIMIT).value), objects)
    else
      match v
      case StrictArray(items) =>
        var e := EmitItems(items, objects);
        Emitted([STRICT_ARRAY_MARKER] + (PutU32(|items|) + e.data), e.objects + [v])
      case Object(m) =>
        var e := EmitMembers(m, objects);
        Emitted([OBJECT_MARKER] + (e.data + [0, 0, OBJECT_END_MARKER]), e.objects + [v])
      case TypedObject(c, m) =>
        var e := EmitMembers(m, objects);
        Emitted([TYPED_OBJECT_MARKER] + (EncodeShortString(c) + (e.data + [0, 0, OBJECT_END_MARKER])), e.objects + [v])
      case _ => Emitted(Encode(v), objects)
  }

  function EmitItems(items: seq<Value>, objects: seq<Value>): Emitted
    requires forall i :: 0 <= i < |items| ==> HasWireForm(items[i])
    decreases items
  {
    if items == [] then Emitted([], objects)
    else
      var e := Emit(items[0], objects);
      var more := EmitItems(items[1..], e.objects);
      Emitted(e.data + more.data, more.objects)
  }

  function EmitMembers(m: Members, objects: seq<Value>): Emitted
    requires forall i :: 0 <= i < |m| ==> HasWireForm(m[i].value)
    decreases m
  {
    if m == [] then Emitted([], objects)
    else
      assert m[0].value < m[0];
      var e := Emit(m[0].value, objects);
      var more := EmitMembers(m[1..], e.objects);
      Emitted(EncodeShortString(m[0].key) + (e.data + more.data), more.objects)
  }

  lemma ReferenceReads(v: Value, i: nat, objects: seq<Value>, rest: bytes)
    requires i < |objects| && i < 0x1_0000 && objects[i] == v
    ensures DecodeValue([REFERENCE_MARKER] + PutU16(i) + rest, objects) == Ok(v, rest, objects)
  {
    var b := [REFERENCE_MARKER] + PutU16(i) + rest;
    U16RoundTrip(i);
    assert b[1..] == PutU16(i) + rest && GetU16(b[1..]) == GetU16(PutU16(i));
    assert b[3..] == rest;
  }

  /** Values sent with references are decoded to the same values; the sender's table is the decoder's. */
  lemma {:induction false} ReuseRoundTrip(v: Value, objects: seq<Value>, rest: bytes)
    requires InRange(v) && HasWireForm(v) && KeysNamed(v)
    ensures DecodeValue(Emit(v, objects).data + rest, objects) == Ok(v, rest, Emit(v, objects).objects)
    decreases v, 1
  {
    hide DecodeValue, DecodeBody, DecodeItems, DecodeShortString, EncodeShortString, EmitItems, EmitMembers,
         GetU32, PutU32, PutU16, Utf8.Valid, Encode;
    if Referenced(Amf0, LIMIT, v, objects) {
      ReferenceReads(v, Find(objects, v, LIMIT).value, objects, rest);
      return;
    }
    match v
    case StrictArray(items) => ReuseArray(items, objects, rest);
    case Object(m) => ReuseObject(m, objects, rest);
    case TypedObject(c, m) => ReuseTyped(c, m, objects, rest);
    case _ => LeafOutcome(v, objects, rest);
  }

  predicate Fresh(v: Value, objects: seq<Value>) {
    !Referenced(Amf0, LIMIT, v, objects)
  }

  lemma {:induction false} ReuseArray(items: seq<Value>, objects: seq<Value>, rest: bytes)
    requires HasWireForm(StrictArray(items)) && |items| < 0x1_0000_0000 && Fresh(StrictArray(items), objects)
    requires forall i :: 0 <= i < |items| ==> InRange(items[i]) && KeysNamed(items[i])
    ensures var e := Emit(StrictArray(items), objects);
            DecodeValue(e.data + rest, objects) == Ok(StrictArray(items), rest, e.objects)
    decreases items, 1
  {
    hide DecodeValue, DecodeBody, DecodeItems, DecodeShortString, EncodeShortString, EmitItems, EmitMembers,
         GetU32, PutU32, PutU16, Utf8.Valid, InRange, KeysNamed;
    var e := EmitItems(items, objects);
    var r := PutU32(|items|) + (e.data + rest);
    assert Emit(StrictArray(items), objects).data + rest == [STRICT_ARRAY_MARKER] + r;
    Dispatch(STRICT_ARRAY_MARKER, r, objects);
    U32Prefix(|items|, e.data + rest);
    ReuseItems(items, objects, [], rest);
    assert [] + items == items;
  }

  lemma {:induction false} ReuseObject(m: Members, objects: seq<Value>, rest: bytes)
    requires HasWireForm(Object(m)) && InRangeMembers(m) && MembersNamed(m) && Fresh(Object(m), objects)
    ensures var e := Emit(Object(m), objects);
            DecodeValue(e.data + rest, objects) == Ok(Object(m), rest, e.objects)
    decreases m, 1
  {
    hide DecodeValue, DecodeBody, DecodeItems, DecodeShortString, EncodeShortString, EmitItems, EmitMembers,
         GetU32, PutU32, PutU16, Utf8.Valid, InRange, KeysNamed;
    var r := EmitMembers(m, objects).data + ([0, 0, OBJECT_END_MARKER] + rest);
    assert Emit(Object(m), objects).data + rest == [OBJECT_MARKER] + r;
    Dispatch(OBJECT_MARKER, r, objects);
    ReuseMembers(m, objects, [], rest);
    assert [] + m == m;
  }

  lemma {:induction false} ReuseTyped(c: bytes, m: Members, objects: seq<Value>, rest: bytes)
    requires HasWireForm(TypedObject(c, m)) && InRangeKey(c) && InRangeMembers(m) && MembersNamed(m)
    requires Fresh(TypedObject(c, m), objects)
    ensures var e := Emit(TypedObject(c, m), objects);
            DecodeValue(e.data + rest, objects) == Ok(TypedObject(c, m), rest, e.objects)
    decreases m, 1
  {
    hide DecodeValue, DecodeBody, DecodeItems, DecodeShortString, EncodeShortString, EmitItems, EmitMembers,
         GetU32, PutU32, PutU16, Utf8.Valid, InRange, KeysNamed;
    var r := EmitMembers(m, objects).data + ([0, 0, OBJECT_END_MARKER] + rest);
    assert Emit(TypedObject(c, m), objects).data + rest == [TYPED_OBJECT_MARKER] + (EncodeShortString(c) + r);
    Dispatch(TYPED_OBJECT_MARKER, EncodeShortString(c) + r, objects);
    ShortStringReads(c, r);
    ReuseMembers(m, objects, [], rest);
    assert [] + m == m;
  }

  lemma {:induction false} ReuseItems(items: seq<Value>, objects: seq<Value>, acc: seq<Value>, rest: bytes)
    requires forall i :: 0 <= i < |items| ==> InRange(items[i]) && HasWireForm(items[i]) && KeysNamed(items[i])
    ensures DecodeItems(|items|, EmitItems(items, objects).data + rest, objects, acc)
         == Ok(acc + items, rest, EmitItems(items, objects).objects)
    decreases items, 0
  {
    hide Emit, DecodeValue, InRange, HasWireForm, KeysNamed;
    if items == [] {
      assert EmitItems(items, objects).data + rest == rest && acc + items == acc;
    } else {
      var e := Emit(items[0], objects);
      var after := EmitItems(items[1..], e.objects).data + rest;
      assert EmitItems(items, objects).data + rest == e.data + after;
      ReuseRoundTrip(items[0], objects, after);
      ReuseItems(items[1..], e.objects, acc + [items[0]], rest);
      assert acc + [items[0]] + items[1..] == acc + items;
    }
  }

  lemma {:induction false} ReuseMembers(m: Members, objects: seq<Value>, acc: Members, rest: bytes)
    requires Sorted(acc + m)
    requires forall i :: 0 <= i < |m| ==>
      && m[i].key != [] && InRangeKey(m[i].key)
      && InRange(m[i].value) && HasWireForm(m[i].value) && KeysNamed(m[i].value)
    ensures DecodeBody(EmitMembers(m, objects).data + ([0, 0, OBJECT_END_MARKER] + rest), objects, acc)
         == Ok(acc + m, rest, EmitMembers(m, objects).objects)
    decreases m, 0
  {
    hide Emit, DecodeValue, InRange, HasWireForm, KeysNamed, EncodeShortString, DecodeShortString, InRangeKey;
    var end := [0, 0, OBJECT_END_MARKER] + rest;
    if m == [] {
      assert EmitMembers(m, objects).data + end == end && acc + m == acc;
      assert end[3..] == rest;
    } else {
      assert m[0].value < m[0];
      var key, value := m[0].key, m[0].value;
      var e := Emit(value, objects);
      var after := EmitMembers(m[1..], e.objects).data + end;
      assert EmitMembers(m, objects).data + end == EncodeShortString(key) + (e.data + after);
      ShortStringReads(key, e.data + after);
      ReuseRoundTrip(value, objects, after);
      forall i | 0 <= i < |acc| ensures Less(acc[i].key, key) {
        assert (acc + m)[i] == acc[i] && (acc + m)[|acc|] == m[0];
      }
      InsertLast(acc, key, value);
      assert m[0] == Entry(key, value);
      assert acc + [m[0]] + m[1..] == acc + m;
      ReuseMembers(m[1..], e.objects, acc + [m[0]], rest);
    }
  }

  /** The table grows by the values not sent as references, in the order in which they finish. */
  lemma {:induction false} EmitGrows(v: Value, objects: seq<Value>)
    requires HasWireForm(v)
    ensures Emit(v, objects).objects == objects + Grown(Amf0, LIMIT, v, objects)
    decreases v, 1
  {
    hide Referenced, Encode;
    match v
    case StrictArray(items) => EmitItemsGrow(items, objects);
    case Object(m) => EmitMembersGrow(m, objects);
    case TypedObject(_, m) => EmitMembersGrow(m, objects);
    case _ => OnlyRegisteredAreReferenced(v, objects);
  }

  lemma OnlyRegisteredAreReferenced(v: Value, objects: seq<Value>)
    requires !Registers(Amf0, v)
    ensures !Referenced(Amf0, LIMIT, v, objects)
  {
  }

  lemma {:induction false} EmitItemsGrow(items: seq<Value>, objects: seq<Value>)
    requires forall i :: 0 <= i < |items| ==> HasWireForm(items[i])
    ensures EmitItems(items, objects).objects == objects + GrownItems(Amf0, LIMIT, items, objects)
    decreases items
  {
    hide Emit, Grown;
    if items != [] {
      EmitGrows(items[0], objects);
      EmitItemsGrow(items[1..], Emit(items[0], objects).objects);
    }
  }

  lemma {:induction false} EmitMembersGrow(m: Members, objects: seq<Value>)
    requires forall i :: 0 <= i < |m| ==> HasWireForm(m[i].value)
    ensures EmitMembers(m, objects).objects == objects + GrownMembers(Amf0, LIMIT, m, objects)
    decreases m
  {
    hide Emit, Grown;
    if m != [] {
      assert m[0].value < m[0];
      EmitGrows(m[0].value, objects);
      EmitMembersGrow(m[1..], Emit(m[0].value, objects).objects);
    }
  }
}
