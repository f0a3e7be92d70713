/** What holds of everything the AMF 3 decoder returns, and exactly which values survive the encoder. */
module Amf3Laws {
  import opened Bytes
  import opened AmfValue
  import opened Amf3Spec
  import opened Amf3Wire
  import opened Amf3Parse
  import opened Amf3RoundTrip
  import U29
  import Utf8

  predicate Extends(t: Tables, t': Tables) {
    t.strings <= t'.strings && t.objects <= t'.objects && t.traits <= t'.traits
  }

  predicate SoundTrait(d: Trait) {
    Utf8.Valid(d.className) && forall s :: s in d.sealed ==> Utf8.Valid(s)
  }

  predicate SoundTables(t: Tables) {
    && (forall s :: s in t.strings ==> Utf8.Valid(s))
    && (forall v :: v in t.objects ==> Representable(v))
    && (forall d :: d in t.traits ==> SoundTrait(d))
  }

  lemma StringKeeps(s: WString, t: Tables)
    requires StringMeaning(s, t).Reads?
    ensures var m := StringMeaning(s, t);
            Extends(t, m.tables) && (SoundTables(t) ==> SoundTables(m.tables) && Utf8.Valid(m.value))
  {
    if s.Inline? {
      Utf8.LossyIsValid(s.raw);
    }
  }

  lemma {:induction false} NamesKeep(names: seq<WString>, t: Tables, acc: seq<bytes>)
    requires NamesMeaning(names, t, acc).Reads?
    ensures var m := NamesMeaning(names, t, acc);
            && Extends(t, m.tables)
            && (SoundTables(t) && (forall s :: s in acc ==> Utf8.Valid(s)) ==>
                  SoundTables(m.tables) && forall s :: s in m.value ==> Utf8.Valid(s))
  {
    hide StringMeaning, Utf8.Valid, SoundTables;
    if names != [] {
      StringKeeps(names[0], t);
      var m := StringMeaning(names[0], t);
      NamesKeep(names[1..], m.tables, acc + [m.value]);
    }
  }

  lemma TraitKeeps(d: WTrait, t: Tables)
    requires TraitMeaning(d, t).Reads?
    ensures var m := TraitMeaning(d, t);
            && Extends(t, m.tables)
            && (SoundTables(t) ==> SoundTables(m.tables) && SoundTrait(m.value))
  {
    hide StringMeaning, NamesMeaning, Utf8.Valid, U29.Fits;
    if d.Defined? {
      StringKeeps(d.className, t);
      NamesKeep(d.names, StringMeaning(d.className, t).tables, []);
    }
  }

  lemma FinishedKeeps(v: Value, t: Tables)
    ensures Extends(t, AddObject(v, t))
    ensures SoundTables(t) && Representable(v) ==> SoundTables(AddObject(v, t))
  {
  }

  /** Reading a tree only appends to the tables and, from sound tables, yields a well-formed value. */
  lemma {:induction false} MeaningKeeps(w: Wire, t: Tables)
    requires Meaning(w, t).Reads?
    ensures var m := Meaning(w, t);
            Extends(t, m.tables) && (SoundTables(t) ==> SoundTables(m.tables) && Representable(m.value))
    decreases w
  {
    hide U29.Fits, StringMeaning, TraitMeaning, ItemsMeaning, SealedMeaning, TailMeaning, SoundTables, Utf8.Valid;
    match w
    case Text(s) =>
      StringKeeps(s, t);
    case Body(_, raw, _) =>
      Utf8.LossyIsValid(raw);
      FinishedKeeps(Meaning(w, t).value, t);
    case DateOf(_, _, _) =>
      FinishedKeeps(Meaning(w, t).value, t);
    case Dense(_, key, items) =>
      StringKeeps(key, t);
      var t1 := StringMeaning(key, t).tables;
      ItemsKeep(items, t1, []);
      FinishedKeeps(Meaning(w, t).value, ItemsMeaning(items, t1, []).tables);
    case Instance(traits, sealed, tail) =>
      TraitKeeps(traits, t);
      var d := TraitMeaning(traits, t);
      SealedKeeps(d.value.sealed, sealed, d.tables, []);
      var fixed := SealedMeaning(d.value.sealed, sealed, d.tables, []);
      TailKeeps(d.value.dynamic, tail, fixed.tables, fixed.value);
      FinishedKeeps(Meaning(w, t).value, TailMeaning(d.value.dynamic, tail, fixed.tables, fixed.value).tables);
    case Again(_, index, _) =>
      AgainKeeps(index, t);
    case _ =>
  }

  lemma AgainKeeps(index: nat, t: Tables)
    requires index < |t.objects|
    ensures SoundTables(t) ==> Representable(t.objects[index])
  {
  }

  lemma {:induction false} ItemsKeep(items: seq<Wire>, t: Tables, acc: seq<Value>)
    requires ItemsMeaning(items, t, acc).Reads?
    ensures var m := ItemsMeaning(items, t, acc);
            && Extends(t, m.tables)
            && (SoundTables(t) && Representable(StrictArray(acc)) ==>
                  SoundTables(m.tables) && Representable(StrictArray(m.value)))
    decreases items
  {
    hide Meaning, SoundTables;
    if items != [] {
      MeaningKeeps(items[0], t);
      var m := Meaning(items[0], t);
      ItemsKeep(items[1..], m.tables, acc + [m.value]);
    }
  }

  lemma {:induction false} SealedKeeps(names: seq<bytes>, items: seq<Wire>, t: Tables, acc: Members)
    requires SealedMeaning(names, items, t, acc).Reads?
    ensures var m := SealedMeaning(names, items, t, acc);
            && Extends(t, m.tables)
            && (SoundTables(t) && RepresentableMembers(acc) && (forall s :: s in names ==> Utf8.Valid(s)) ==>
                  SoundTables(m.tables) && RepresentableMembers(m.value))
    decreases items
  {
    hide Meaning, SoundTables, RepresentableMembers, Utf8.Valid;
    if items != [] {
      MeaningKeeps(items[0], t);
      var m := Meaning(items[0], t);
      if RepresentableMembers(acc) && Utf8.Valid(names[0]) && Representable(m.value) {
        InsertRepresentable(acc, names[0], m.value);
      }
      SealedKeeps(names[1..], items[1..], m.tables, Insert(acc, names[0], m.value));
    }
  }

  lemma {:induction false} TailKeeps(dynamic: bool, tail: WTail, t: Tables, acc: Members)
    requires TailMeaning(dynamic, tail, t, acc).Reads?
    ensures var m := TailMeaning(dynamic, tail, t, acc);
            && Extends(t, m.tables)
            && (SoundTables(t) && RepresentableMembers(acc) ==>
                  SoundTables(m.tables) && RepresentableMembers(m.value))
    decreases tail
  {
    hide MembersMeaning, StringMeaning, SoundTables, RepresentableMembers, Utf8.Valid;
    if tail.Present? {
      MembersKeep(tail.members, t, acc);
      StringKeeps(tail.end, MembersMeaning(tail.members, t, acc).tables);
    }
  }

  lemma {:induction false} MembersKeep(members: seq<WMember>, t: Tables, acc: Members)
    requires MembersMeaning(members, t, acc).Reads?
    ensures var m := MembersMeaning(members, t, acc);
            && Extends(t, m.tables)
            && (SoundTables(t) && RepresentableMembers(acc) ==>
                  SoundTables(m.tables) && RepresentableMembers(m.value))
    decreases members
  {
    hide Meaning, StringMeaning, SoundTables, RepresentableMembers, Utf8.Valid;
    if members != [] {
      StringKeeps(members[0].key, t);
      var k := StringMeaning(members[0].key, t);
      assert members[0].value < members[0];
      MeaningKeeps(members[0].value, k.tables);
      var v := Meaning(members[0].value, k.tables);
      if RepresentableMembers(acc) && Utf8.Valid(k.value) && Representable(v.value) {
        InsertRepresentable(acc, k.value, v.value);
      }
      MembersKeep(members[1..], v.tables, Insert(acc, k.value, v.value));
    }
  }

  /** Whatever the bytes, a decoded value is well formed, a non-empty piece of the input has been
      used up, the rest is the input's own tail, and the tables have only grown. */
  lemma DecodeKeeps(b: bytes, t: Tables)
    requires DecodeValue(b, t).Ok?
    ensures var out := DecodeValue(b, t);
            && |out.rest| < |b| && out.rest == b[|b| - |out.rest|..]
            && Extends(t, out.tables)
            && (SoundTables(t) ==> SoundTables(out.tables) && Representable(out.value))
  {
    hide DecodeValue, Meaning, Write, SoundTables;
    var w := ValueParse(b, t);
    MeaningKeeps(w, t);
  }

  /** Every item costs at least a byte: an announced count above the number of bytes left cannot succeed,
      so no array needs more room than there are bytes. */
  lemma {:induction false} ItemsCostBytes(n: nat, b: bytes, t: Tables, acc: seq<Value>)
    requires DecodeItems(n, b, t, acc).Ok?
    ensures var out := DecodeItems(n, b, t, acc);
            n <= |b| - |out.rest| && |out.value| == |acc| + n
    decreases n
  {
    hide DecodeValue;
    if n > 0 {
      var v := DecodeValue(b, t);
      ItemsCostBytes(n - 1, v.rest, v.tables, acc + [v.value]);
    }
  }

  /** The same for the member names of a trait. */
  lemma {:induction false} NamesCostBytes(n: nat, b: bytes, t: Tables, acc: seq<bytes>)
    requires DecodeNames(n, b, t, acc).Ok?
    ensures var out := DecodeNames(n, b, t, acc);
            n <= |b| - |out.rest| && |out.value| == |acc| + n
    decreases n
  {
    hide DecodeString;
    if n > 0 {
      var name := DecodeString(b, t);
      NamesCostBytes(n - 1, name.rest, name.tables, acc + [name.value]);
    }
  }

  // ----- exactly which values survive -----

  lemma LenHeaderReads(n: nat, body: bytes)
    ensures U29.Read(U29.Write(LenHeader(n)) + body) == U29.Got(2 * (n % 0x1000_0000) + 1, body)
  {
    hide U29.Read, U29.Write, LenHeader;
    LowBits(n);
    U29.ReadWrite(LenHeader(n), body);
  }

  /** Shifting a length up by one bit and keeping 29 bits keeps 28 bits of the length. */
  lemma LowBits(n: nat)
    ensures LenHeader(n) % 0x2000_0000 == 2 * (n % 0x1000_0000) + 1
  {
    var m, top := n % 0x8000_0000, n / 0x8000_0000;
    var low, q := m % 0x1000_0000, m / 0x1000_0000;
    Remainder28(n, 8 * top + q, low);
    U29.Remainder29(2 * m + 1, q, 2 * low + 1);
  }

  lemma Remainder28(x: nat, q: nat, r: nat)
    requires x == q * 0x1000_0000 + r && r < 0x1000_0000
    ensures x % 0x1000_0000 == r
  {
  }

  /** A string survives exactly when its length leaves room for the flag bit. */
  lemma StringSurvivesIff(s: bytes, t: Tables, rest: bytes)
    requires Utf8.Valid(s)
    ensures DecodeString(EncodeString(s) + rest, t) == Ok(s, rest, AddString(s, t)) <==> |s| < MAX_LEN
  {
    hide U29.Read, U29.Write, LenHeader, Utf8.Lossy, Utf8.Valid, DecodeString, EncodeString;
    var n := EncodeStringReads(s, rest);
    StringSurvivesWith(s, n, t, rest);
  }

  lemma EncodeStringReads(s: bytes, rest: bytes) returns (n: nat)
    ensures U29.Read(EncodeString(s) + rest) == U29.Got(2 * n + 1, s + rest)
    ensures n <= |s| && (n == |s| <==> |s| < MAX_LEN)
  {
    hide U29.Read, U29.Write, LenHeader;
    n := |s| % 0x1000_0000;
    assert EncodeString(s) + rest == U29.Write(LenHeader(|s|)) + (s + rest);
    LenHeaderReads(|s|, s + rest);
  }

  lemma StringSurvivesWith(s: bytes, n: nat, t: Tables, rest: bytes)
    requires Utf8.Valid(s) && n <= |s|
    requires U29.Read(EncodeString(s) + rest) == U29.Got(2 * n + 1, s + rest)
    ensures DecodeString(EncodeString(s) + rest, t) == Ok(s, rest, AddString(s, t)) <==> n == |s|
  {
    hide U29.Read, Utf8.Lossy, Utf8.Valid, DecodeString, EncodeString;
    var body := s + rest;
    LiteralString(EncodeString(s) + rest, n, body, t);
    if n == |s| {
      assert body[..n] == s && body[n..] == rest;
      Utf8.LossyOfValid(s);
    } else {
      assert |body[n..]| > |rest|;
    }
  }

  lemma LiteralString(b: bytes, n: nat, body: bytes, t: Tables)
    requires U29.Read(b) == U29.Got(2 * n + 1, body) && n <= |body|
    ensures DecodeString(b, t) == Ok(Utf8.Lossy(body[..n]), body[n..], AddString(Utf8.Lossy(body[..n]), t))
  {
    hide U29.Read, Utf8.Lossy;
    HeaderBits(n);
  }

  /** The decoder reads as many items as its header counts, on top of those it has. */
  lemma {:induction false} ItemsCounted(n: nat, b: bytes, t: Tables, acc: seq<Value>)
    requires DecodeItems(n, b, t, acc).Ok?
    ensures |DecodeItems(n, b, t, acc).value| == |acc| + n
  {
    hide DecodeValue;
    if n > 0 {
      var out := DecodeValue(b, t);
      ItemsCounted(n - 1, out.rest, out.tables, acc + [out.value]);
    }
  }

  /** An array of sendable items survives exactly when its count leaves room for the flag bit; a larger
      count loses its high bits, and whatever is decoded has fewer items. */
  lemma ArraySurvivesIff(items: seq<Value>, t: Tables, rest: bytes)
    requires forall i :: 0 <= i < |items| ==> Sendable(items[i])
    ensures var out := DecodeValue(Encode(StrictArray(items)) + rest, t);
            (out.Ok? && out.value == StrictArray(items)) <==> |items| < MAX_LEN
  {
    hide Encode, DecodeValue, DecodeItems, Sendable;
    if |items| < MAX_LEN {
      assert Sendable(StrictArray(items)) by { SendableArray(items); }
      RoundTrip(StrictArray(items), t, rest);
    } else {
      TooManyItems(items, t, rest);
    }
  }

  lemma SendableArray(items: seq<Value>)
    requires |items| < MAX_LEN && forall i :: 0 <= i < |items| ==> Sendable(items[i])
    ensures Sendable(StrictArray(items))
  {
  }

  lemma TooManyItems(items: seq<Value>, t: Tables, rest: bytes)
    requires |items| >= MAX_LEN
    ensures var out := DecodeValue(Encode(StrictArray(items)) + rest, t);
            out.Ok? ==> out.value != StrictArray(items)
  {
    hide U29.Read, U29.Write, LenHeader, DecodeItems, DecodeString, EncodeString, EncodeItems, DecodeValue;
    var n := |items| % 0x1000_0000;
    var after := EncodeString([]) + EncodeItems(items) + rest;
    var b := U29.Write(LenHeader(|items|)) + after;
    assert Encode(StrictArray(items)) + rest == [ARRAY_MARKER] + b;
    DispatchArray(b, t);
    LenHeaderReads(|items|, after);
    HeaderBits(n);
    var key := DecodeString(after, t);
    if key.Ok? {
      var all := DecodeItems(n, key.rest, key.tables, []);
      if all.Ok? {
        ItemsCounted(n, key.rest, key.tables, []);
      }
    }
  }

  /** An object whose member values are sendable survives exactly when no key is empty; otherwise the
      encoder's first entry is the terminator and the object decodes to an empty one. */
  lemma ObjectSurvivesIff(m: Members, t: Tables, rest: bytes)
    requires Sorted(m)
    requires forall i :: 0 <= i < |m| ==> SendableKey(m[i].key) && Sendable(m[i].value)
    ensures var out := DecodeValue(Encode(Object(m)) + rest, t);
            (out.Ok? && out.value == Object(m) && out.rest == rest) <==> (forall i :: 0 <= i < |m| ==> m[i].key != [])
  {
    hide Encode, DecodeValue, Sendable;
    if i :| 0 <= i < |m| && m[i].key == [] {
      EmptyKeyIsFirst(m, i);
      EncodeOfObject(m);
      EmptyKeyTruncates([], m, t, rest);
    } else {
      assert Sendable(Object(m)) by { SendableObject(m); }
      RoundTrip(Object(m), t, rest);
    }
  }

  lemma EncodeOfObject(m: Members)
    ensures Encode(Object(m)) == [OBJECT_MARKER] + EncodeBody([], m)
  {
  }

  lemma SendableObject(m: Members)
    requires SendableMembers(m)
    ensures Sendable(Object(m))
  {
  }

  lemma EmptyKeyIsFirst(m: Members, i: nat)
    requires Sorted(m) && i < |m| && m[i].key == []
    ensures i == 0
  {
    assert !Less(m[0].key, m[i].key);
  }

  /** A typed object needs its class name as well: without one it comes back as a plain object. */
  lemma TypedObjectSurvivesIff(c: bytes, m: Members, t: Tables, rest: bytes)
    requires SendableKey(c) && SendableMembers(m)
    ensures var out := DecodeValue(Encode(TypedObject(c, m)) + rest, t);
            && out.Ok? && out.rest == rest
            && (out.value == TypedObject(c, m) <==> c != [])
            && (c == [] ==> out.value == Object(m))
  {
    hide DecodeValue, Sendable;
    if c == [] {
      assert Encode(TypedObject(c, m)) == Encode(Object(m));
      assert Sendable(Object(m)) by { SendableObject(m); }
      RoundTrip(Object(m), t, rest);
    } else {
      assert Sendable(TypedObject(c, m)) by { SendableTyped(c, m); }
      RoundTrip(TypedObject(c, m), t, rest);
    }
  }

  lemma SendableTyped(c: bytes, m: Members)
    requires c != [] && SendableKey(c) && SendableMembers(m)
    ensures Sendable(TypedObject(c, m))
  {
  }

  lemma EmptyKeyTruncates(c: bytes, m: Members, t: Tables, rest: bytes)
    requires SendableKey(c) && m != [] && m[0].key == []
    ensures var out := DecodeValue([OBJECT_MARKER] + EncodeBody(c, m) + rest, t);
            out.Ok? && out.value == Amf3Spec.Instance(Trait(c, [], true), [])
  {
    hide DecodeValue, Encode, EncodeString, EncodeBody, EncodeMembers, Meaning, Write, InstanceTree, U29.Write;
    var w := InstanceTree(false, c, [], t);
    var after := Encode(m[0].value) + EncodeMembers(m[1..]) + EncodeString([]) + rest;
    EmptyTreeMeans(c, t);
    EmptyTreeBytes(c, t);
    EmptyKeyBytes(c, m);
    assert [OBJECT_MARKER] + EncodeBody(c, m) + rest == Write(w) + after;
    ReadsBack(w, t, after);
  }

  lemma EmptyKeyBytes(c: bytes, m: Members)
    requires m != [] && m[0].key == []
    ensures EncodeBody(c, m) == U29.Write(0xb) + EncodeString(c) + EncodeString([])
                                + (Encode(m[0].value) + EncodeMembers(m[1..]) + EncodeString([]))
  {
    hide Encode, EncodeString, U29.Write;
  }

  lemma EmptyTreeMeans(c: bytes, t: Tables)
    requires SendableKey(c)
    ensures var r := Meaning(InstanceTree(false, c, [], t), t);
            r.Reads? && r.value == Amf3Spec.Instance(Trait(c, [], true), [])
  {
    InstanceMeans(false, c, [], t);
  }

  lemma EmptyTreeBytes(c: bytes, t: Tables)
    requires SendableKey(c)
    ensures Write(InstanceTree(false, c, [], t))
         == [OBJECT_MARKER] + (U29.Write(0xb) + EncodeString(c) + EncodeString([]))
  {
    hide U29.Write, EncodeString, Write, InstanceTree;
    BodyIsTree(c, [], t);
    assert EncodeMembers([]) == [];
  }

  /** A sealed trait may name a member with the empty string, so the decoder can return a value that
      the encoder cannot send back: these five bytes decode, and re-encoded they lose the member. */
  lemma DecodedEmptyKeyIsLost()
    ensures var v := Object([Entry([], Null)]);
            && DecodeAll([0x0a, 0x13, 0x01, 0x01, 0x01]) == Values([v])
            && var out := DecodeValue(Encode(v) + [], EMPTY);
            && out.Ok? && out.value == Object([])
  {
    var b: bytes := [0x0a, 0x13, 0x01, 0x01, 0x01];
    var empty := Inlined([]);
    var w := Wire.Instance(Defined(false, 1, empty, [empty]), [Plain(NULL_MARKER)], Absent);
    var v := Object([Entry([], Null)]);
    assert U29.Form(0x13, 1) == [0x13] && U29.Form(1, 1) == [1];
    EmptyStringMeans(EMPTY);
    assert NamesMeaning([empty], EMPTY, []) == Reads([[]], EMPTY) by {
      assert [empty][1..] == [];
      assert StringMeaning(empty, EMPTY) == Reads([], EMPTY);
      var acc: seq<bytes> := [];
      assert acc + [[]] == [[]];
    }
    var d := Trait([], [[]], false);
    assert TraitMeaning(w.traits, EMPTY) == Reads(d, AddTrait(d, EMPTY));
    SealedNull(AddTrait(d, EMPTY));
    assert Meaning(w, EMPTY).Reads? && Meaning(w, EMPTY).value == v;
    assert Write(w) == b by {
      assert WriteNames([empty]) == WriteString(empty) by { assert [empty][1..] == []; }
      assert WriteItems([Plain(NULL_MARKER)]) == [NULL_MARKER] by { assert [Plain(NULL_MARKER)][1..] == []; }
    }
    assert b + [] == b;
    ReadsBack(w, EMPTY, []);
    var t1 := Meaning(w, EMPTY).tables;
    assert DecodeAllFrom([], t1, [] + [v]) == Values([v]);
    var m := [Entry([], Null)];
    EmptyKeyTruncates([], m, EMPTY, []);
    EncodeOfObject(m);
    assert Encode(v) + [] == Encode(v);
    assert [OBJECT_MARKER] + EncodeBody([], m) + [] == Encode(v);
  }

  lemma SealedNull(t: Tables)
    ensures SealedMeaning([[]], [Plain(NULL_MARKER)], t, []) == Reads([Entry([], Null)], t)
  {
    var items := [Plain(NULL_MARKER)];
    var names: seq<bytes> := [[]];
    assert items[1..] == [] && names[1..] == [];
    assert Insert([], [], Null) == [Entry([], Null)];
  }
}
