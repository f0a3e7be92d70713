/**
 The AMF 0 wire format as a grammar: a tree records every choice a sender has (short or long text, object
 or ECMA array with any count, any non-zero byte for true, any time zone, references). `Write` lays a tree
 out as bytes; `Meaning` reads it against the reference table without looking at any byte.
 */
module Amf0Wire {
  import opened Bytes
  import opened AmfValue
  import opened Amf0Spec
  import Utf8

  datatype Wire =
    | Double(n: F64)
    | Truth(b: byte)
    | Text(raw: bytes)
    | LongText(raw: bytes)
    | Xml(raw: bytes)
    | Nothing
    | NotDefined
    | DateOf(millis: F64, zone: nat)
    | Instance(members: seq<WMember>)
    | Ecma(count: nat, members: seq<WMember>)
    | Typed(className: bytes, members: seq<WMember>)
    | Dense(items: seq<Wire>)
    | Again(index: nat)

  datatype WMember = WMember(key: bytes, value: Wire)

  // ----- layout -----

  function WriteShort(raw: bytes): bytes {
    PutU16(|raw|) + raw
  }

  function WriteLong(raw: bytes): bytes {
    PutU32(|raw|) + raw
  }

  function Write(w: Wire): bytes
    decreases w, 1
  {
    match w
    case Double(n) => [0x00] + n
    case Truth(b) => [0x01] + [b]
    case Text(raw) => [0x02] + WriteShort(raw)
    case LongText(raw) => [0x0c] + WriteLong(raw)
    case Xml(raw) => [0x0f] + WriteLong(raw)
    case Nothing => [0x05]
    case NotDefined => [0x06]
    case DateOf(millis, zone) => [0x0b] + (millis + PutU16(zone))
    case Instance(members) => [0x03] + WriteBody(members)
    case Ecma(count, members) => [0x08] + (PutU32(count) + WriteBody(members))
    case Typed(className, members) => [0x10] + (WriteShort(className) + WriteBody(members))
    case Dense(items) => [0x0a] + (PutU32(|items|) + WriteItems(items))
    case Again(index) => [0x07] + PutU16(index)
  }

  function WriteItems(items: seq<Wire>): bytes
    decreases items
  {
    if items == [] then [] else Write(items[0]) + WriteItems(items[1..])
  }

  /** Members, an empty key, and the end marker. */
  function WriteBody(members: seq<WMember>): bytes
    decreases members
  {
    if members == [] then [0x00, 0x00, 0x09]
    else
      assert members[0].value < members[0];
      WriteShort(members[0].key) + (Write(members[0].value) + WriteBody(members[1..]))
  }

  // ----- meaning -----

  datatype Reading<+T> = Reads(value: T, objects: seq<Value>) | Nonsense

  /** An object or array enters the table once its last part has been read. */
  function Finished(v: Value, objects: seq<Value>): Reading<Value> {
    Reads(v, objects + [v])
  }

  function Meaning(w: Wire, objects: seq<Value>): Reading<Value>
    decreases w, 1
  {
    match w
    case Double(n) => Reads(Number(n), objects)
    case Truth(b) => Reads(Boolean(b != 0), objects)
    case Text(raw) => if |raw| <= 0xffff then Reads(String(Utf8.Lossy(raw)), objects) else Nonsense
    case LongText(raw) => if |raw| <= 0xffff_ffff then Reads(String(Utf8.Lossy(raw)), objects) else Nonsense
    case Xml(raw) => if |raw| <= 0xffff_ffff then Reads(XmlDoc(Utf8.Lossy(raw)), objects) else Nonsense
    case Nothing => Reads(Null, objects)
    case NotDefined => Reads(Undefined, objects)
    case DateOf(millis, zone) => if zone <= 0xffff then Reads(Date(millis), objects) else Nonsense
    case Instance(members) =>
      (match BodyMeaning(members, objects, [])
       case Nonsense => Nonsense
       case Reads(m, objects1) => Finished(Object(m), objects1))
    case Ecma(count, members) =>
      (match BodyMeaning(members, objects, [])
       case Nonsense => Nonsense
       case Reads(m, objects1) => if count <= 0xffff_ffff then Finished(Object(m), objects1) else Nonsense)
    case Typed(className, members) =>
      (match BodyMeaning(members, objects, [])
       case Nonsense => Nonsense
       case Reads(m, objects1) =>
         if |className| <= 0xffff then Finished(TypedObject(Utf8.Lossy(className), m), objects1) else Nonsense)
    case Dense(items) =>
      (match ItemsMeaning(items, objects, [])
       case Nonsense => Nonsense
       case Reads(values, objects1) =>
         if |items| <= 0xffff_ffff then Finished(StrictArray(values), objects1) else Nonsense)
    case Again(index) => if index <= 0xffff && index < |objects| then Reads(objects[index], objects) else Nonsense
  }

  function ItemsMeaning(items: seq<Wire>, objects: seq<Value>, acc: seq<Value>): Reading<seq<Value>>
    decreases items
  {
    if items == [] then Reads(acc, objects)
    else
      match Meaning(items[0], objects)
      case Nonsense => Nonsense
      case Reads(v, objects1) => ItemsMeaning(items[1..], objects1, acc + [v])
  }

  function BodyMeaning(members: seq<WMember>, objects: seq<Value>, acc: Members): Reading<Members>
    decreases members
  {
    if members == [] then Reads(acc, objects)
    else
      assert members[0].value < members[0];
      if !(1 <= |members[0].key| <= 0xffff) then Nonsense
      else
        match Meaning(members[0].value, objects)
        case Nonsense => Nonsense
        case Reads(v, objects1) =>
          BodyMeaning(members[1..], objects1, Insert(acc, Utf8.Lossy(members[0].key), v))
  }

  // ----- every written tree is decoded to its meaning -----

  lemma Dispatch(marker: byte, r: bytes, objects: seq<Value>)
    requires marker != REFERENCE_MARKER
    ensures var out := DecodeAfter(marker, r, objects);
            DecodeValue([marker] + r, objects)
            == if out.Ok? then Ok(out.value, out.rest, Register(out.value, out.objects)) else out
  {
    hide DecodeAfter;
    assert ([marker] + r)[1..] == r;
  }

  lemma U16Front(n: nat, r: bytes)
    requires n <= 0xffff
    ensures GetU16(PutU16(n) + r) == n && (PutU16(n) + r)[2..] == r
  {
    U16RoundTrip(n);
  }

  lemma U32Front(n: nat, r: bytes)
    requires n <= 0xffff_ffff
    ensures GetU32(PutU32(n) + r) == n && (PutU32(n) + r)[4..] == r
  {
    U32RoundTrip(n);
  }

  lemma Grouped(head: bytes, raw: bytes, rest: bytes, r: bytes)
    requires r == raw + rest
    ensures head + raw + rest == head + r
    ensures r[..|raw|] == raw && r[|raw|..] == rest
  {
  }

  lemma ShortReadsBack(raw: bytes, rest: bytes)
    requires |raw| <= 0xffff
    ensures DecodeShortString(WriteShort(raw) + rest) == Piece(Utf8.Lossy(raw), rest)
    ensures GetU16(WriteShort(raw) + rest) == |raw|
  {
    hide Utf8.Lossy, GetU16, PutU16;
    var r := raw + rest;
    U16Front(|raw|, r);
    Grouped(PutU16(|raw|), raw, rest, r);
    ShortPiece(PutU16(|raw|) + r, raw, rest);
  }

  lemma ShortPiece(b: bytes, raw: bytes, rest: bytes)
    requires |b| >= 2 && GetU16(b) == |raw| && b[2..] == raw + rest
    ensures DecodeShortString(b) == Piece(Utf8.Lossy(raw), rest)
  {
    hide Utf8.Lossy, GetU16;
    Grouped([], raw, rest, b[2..]);
  }

  lemma LongReadsBack(raw: bytes, rest: bytes)
    requires |raw| <= 0xffff_ffff
    ensures DecodeLongString(WriteLong(raw) + rest) == Piece(Utf8.Lossy(raw), rest)
  {
    hide Utf8.Lossy, GetU32, PutU32;
    var r := raw + rest;
    U32Front(|raw|, r);
    Grouped(PutU32(|raw|), raw, rest, r);
    LongPiece(PutU32(|raw|) + r, raw, rest);
  }

  lemma LongPiece(b: bytes, raw: bytes, rest: bytes)
    requires |b| >= 4 && GetU32(b) == |raw| && b[4..] == raw + rest
    ensures DecodeLongString(b) == Piece(Utf8.Lossy(raw), rest)
  {
    hide Utf8.Lossy, GetU32;
    Grouped([], raw, rest, b[4..]);
  }

  /** Soundness of the decoder on the grammar, in any table and before any bytes. */
  lemma {:induction false} ReadsBack(w: Wire, objects: seq<Value>, rest: bytes)
    requires Meaning(w, objects).Reads?
    ensures var m := Meaning(w, objects);
            DecodeValue(Write(w) + rest, objects) == Ok(m.value, rest, m.objects)
    decreases w, 1
  {
    hide DecodeValue, Write, Meaning;
    match w
    case Instance(_) => ObjectReadsBack(w, objects, rest);
    case Ecma(_, _) => ObjectReadsBack(w, objects, rest);
    case Typed(_, _) => ObjectReadsBack(w, objects, rest);
    case Dense(_) => DenseReadsBack(w, objects, rest);
    case Again(_) => AgainReadsBack(w, objects, rest);
    case _ => LeafReadsBack(w, objects, rest);
  }

  lemma LeafReadsBack(w: Wire, objects: seq<Value>, rest: bytes)
    requires Meaning(w, objects).Reads?
    requires !w.Instance? && !w.Ecma? && !w.Typed? && !w.Dense? && !w.Again?
    ensures var m := Meaning(w, objects);
            DecodeValue(Write(w) + rest, objects) == Ok(m.value, rest, m.objects)
  {
    hide DecodeValue, DecodeShortString, DecodeLongString, WriteShort, WriteLong, Utf8.Lossy, PutU16;
    var r := Write(w)[1..] + rest;
    Dispatch(Write(w)[0], r, objects);
    assert Write(w) + rest == [Write(w)[0]] + r;
    match w
    case Text(raw) => ShortReadsBack(raw, rest);
    case LongText(raw) => LongReadsBack(raw, rest);
    case Xml(raw) => LongReadsBack(raw, rest);
    case DateOf(millis, zone) => assert r[..8] == millis && r[10..] == rest;
    case _ =>
  }

  lemma AgainReadsBack(w: Wire, objects: seq<Value>, rest: bytes)
    requires w.Again? && Meaning(w, objects).Reads?
    ensures var m := Meaning(w, objects);
            DecodeValue(Write(w) + rest, objects) == Ok(m.value, rest, m.objects)
  {
    var b := Write(w) + rest;
    U16Front(w.index, rest);
    assert b[1..] == PutU16(w.index) + rest;
    assert b[3..] == b[1..][2..];
  }

  lemma {:induction false} ObjectReadsBack(w: Wire, objects: seq<Value>, rest: bytes)
    requires (w.Instance? || w.Ecma? || w.Typed?) && Meaning(w, objects).Reads?
    ensures var m := Meaning(w, objects);
            DecodeValue(Write(w) + rest, objects) == Ok(m.value, rest, m.objects)
    decreases w, 0
  {
    hide DecodeValue, DecodeBody, DecodeShortString, WriteBody, WriteShort, BodyMeaning, Utf8.Lossy, PutU32, GetU32;
    var body := WriteBody(w.members) + rest;
    BodyReadsBack(w.members, objects, [], rest);
    match w
    case Instance(members) =>
      Dispatch(0x03, body, objects);
      assert Write(w) + rest == [0x03] + body;
    case Ecma(count, members) =>
      Dispatch(0x08, PutU32(count) + body, objects);
      U32Front(count, body);
      assert Write(w) + rest == [0x08] + (PutU32(count) + body);
    case Typed(className, members) =>
      Dispatch(0x10, WriteShort(className) + body, objects);
      ShortReadsBack(className, body);
      assert Write(w) + rest == [0x10] + (WriteShort(className) + body);
  }

  lemma {:induction false} DenseReadsBack(w: Wire, objects: seq<Value>, rest: bytes)
    requires w.Dense? && Meaning(w, objects).Reads?
    ensures var m := Meaning(w, objects);
            DecodeValue(Write(w) + rest, objects) == Ok(m.value, rest, m.objects)
    decreases w, 0
  {
    hide DecodeValue, DecodeItems, WriteItems, ItemsMeaning, PutU32, GetU32;
    var items := WriteItems(w.items) + rest;
    ItemsReadBack(w.items, objects, [], rest);
    Dispatch(0x0a, PutU32(|w.items|) + items, objects);
    U32Front(|w.items|, items);
    assert Write(w) + rest == [0x0a] + (PutU32(|w.items|) + items);
  }

  lemma {:induction false} ItemsReadBack(items: seq<Wire>, objects: seq<Value>, acc: seq<Value>, rest: bytes)
    requires ItemsMeaning(items, objects, acc).Reads?
    ensures var m := ItemsMeaning(items, objects, acc);
            DecodeItems(|items|, WriteItems(items) + rest, objects, acc) == Ok(m.value, rest, m.objects)
    decreases items
  {
    hide DecodeValue, Write, Meaning;
    if items == [] {
      assert WriteItems(items) + rest == rest;
    } else {
      var after := WriteItems(items[1..]) + rest;
      assert WriteItems(items) + rest == Write(items[0]) + after;
      ReadsBack(items[0], objects, after);
      var m := Meaning(items[0], objects);
      ItemsReadBack(items[1..], m.objects, acc + [m.value], rest);
    }
  }

  lemma {:induction false} BodyReadsBack(members: seq<WMember>, objects: seq<Value>, acc: Members, rest: bytes)
    requires BodyMeaning(members, objects, acc).Reads?
    ensures var m := BodyMeaning(members, objects, acc);
            DecodeBody(WriteBody(members) + rest, objects, acc) == Ok(m.value, rest, m.objects)
    decreases members
  {
    hide DecodeValue, Write, Meaning, DecodeShortString, WriteShort, Insert, Utf8.Lossy;
    if members == [] {
      assert WriteBody(members) + rest == [0x00, 0x00, 0x09] + rest;
    } else {
      var after := WriteBody(members[1..]) + rest;
      var value := Write(members[0].value) + after;
      assert WriteBody(members) + rest == WriteShort(members[0].key) + value;
      ShortReadsBack(members[0].key, value);
      assert |WriteShort(members[0].key) + value| >= 2 by { ShortHasLength(members[0].key); }
      assert members[0].value < members[0];
      ReadsBack(members[0].value, objects, after);
      var m := Meaning(members[0].value, objects);
      BodyReadsBack(members[1..], m.objects, Insert(acc, Utf8.Lossy(members[0].key), m.value), rest);
    }
  }

  lemma ShortHasLength(raw: bytes)
    ensures |WriteShort(raw)| >= 2
  {
  }
}
