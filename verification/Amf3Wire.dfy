/**
 The AMF 3 wire format as a grammar: a tree records every choice an encoder has (inline text or
 back-reference, traits inline or by reference, sealed or dynamic members, padded integers).
 `Write` lays a tree out as bytes; `Meaning` reads it against the reference tables without looking
 at any byte. The decoder accepts exactly the written trees and returns exactly their meaning.
 */
module Amf3Wire {
  import opened Bytes
  import opened AmfValue
  import opened Amf3Spec
  import Ieee
  import U29
  import Utf8

  datatype WString = Inline(raw: bytes, width: nat) | Indexed(index: nat, width: nat)

  datatype WTrait =
    | Known(index: nat, width: nat)
    | Defined(dynamic: bool, width: nat, className: WString, names: seq<WString>)

  datatype WMember = WMember(key: WString, value: Wire)

  /** The dynamic members with their terminating empty key, if the trait is dynamic. */
  datatype WTail = Absent | Present(members: seq<WMember>, end: WString)

  datatype Wire =
    | Plain(marker: byte)
    | Integer(bits: nat, width: nat)
    | Double(n: F64)
    | Text(s: WString)
    | Body(marker: byte, raw: bytes, width: nat)
    | DateOf(unused: nat, width: nat, millis: F64)
    | Dense(width: nat, key: WString, items: seq<Wire>)
    | Instance(traits: WTrait, sealed: seq<Wire>, tail: WTail)
    | Again(marker: byte, index: nat, width: nat)

  // ----- layout -----

  function WriteString(s: WString): bytes {
    match s
    case Inline(raw, width) => U29.Form(2 * |raw| + 1, width) + raw
    case Indexed(index, width) => U29.Form(2 * index, width)
  }

  function WriteNames(names: seq<WString>): bytes {
    if names == [] then [] else WriteString(names[0]) + WriteNames(names[1..])
  }

  function TraitHeader(d: WTrait): nat {
    match d
    case Known(index, _) => 4 * index + 1
    case Defined(dynamic, _, _, names) => 16 * |names| + (if dynamic then 8 else 0) + 3
  }

  function WriteTrait(d: WTrait): bytes {
    match d
    case Known(_, width) => U29.Form(TraitHeader(d), width)
    case Defined(_, width, className, names) =>
      U29.Form(TraitHeader(d), width) + (WriteString(className) + WriteNames(names))
  }

  function Write(w: Wire): bytes {
    match w
    case Plain(marker) => [marker]
    case Integer(raw, width) => [INTEGER_MARKER] + U29.Form(raw, width)
    case Double(n) => [DOUBLE_MARKER] + n
    case Text(s) => [STRING_MARKER] + WriteString(s)
    case Body(marker, raw, width) => [marker] + (U29.Form(2 * |raw| + 1, width) + raw)
    case DateOf(unused, width, millis) => [DATE_MARKER] + (U29.Form(2 * unused + 1, width) + millis)
    case Dense(width, key, items) =>
      [ARRAY_MARKER] + (U29.Form(2 * |items| + 1, width) + (WriteString(key) + WriteItems(items)))
    case Instance(traits, sealed, tail) =>
      [OBJECT_MARKER] + (WriteTrait(traits) + (WriteItems(sealed) + WriteTail(tail)))
    case Again(marker, index, width) => [marker] + U29.Form(2 * index, width)
  }

  function WriteItems(items: seq<Wire>): bytes {
    if items == [] then [] else Write(items[0]) + WriteItems(items[1..])
  }

  function WriteTail(tail: WTail): bytes {
    match tail
    case Absent => []
    case Present(members, end) => WriteMembers(members) + WriteString(end)
  }

  function WriteMembers(members: seq<WMember>): bytes {
    if members == [] then []
    else
      assert members[0].value < members[0];
      WriteString(members[0].key) + (Write(members[0].value) + WriteMembers(members[1..]))
  }

  // ----- meaning -----

  datatype Reading<+T> = Reads(value: T, tables: Tables) | Nonsense

  /** A text written out enters the string table unless it is empty. */
  function Heard(text: bytes, t: Tables): Reading<bytes> {
    Reads(text, Tables(if |text| >= 1 then t.strings + [text] else t.strings, t.objects, t.traits))
  }

  function StringMeaning(s: WString, t: Tables): Reading<bytes> {
    match s
    case Inline(raw, width) =>
      if U29.Fits(2 * |raw| + 1, width) then Heard(Utf8.Lossy(raw), t) else Nonsense
    case Indexed(index, width) =>
      if U29.Fits(2 * index, width) && index < |t.strings| then Reads(t.strings[index], t) else Nonsense
  }

  function NamesMeaning(names: seq<WString>, t: Tables, acc: seq<bytes>): Reading<seq<bytes>> {
    if names == [] then Reads(acc, t)
    else
      match StringMeaning(names[0], t)
      case Nonsense => Nonsense
      case Reads(s, t1) => NamesMeaning(names[1..], t1, acc + [s])
  }

  /** A trait written out enters the trait table once its names have been read. */
  function Introduced(d: Trait, t: Tables): Reading<Trait> {
    Reads(d, Tables(t.strings, t.objects, t.traits + [d]))
  }

  function TraitMeaning(d: WTrait, t: Tables): Reading<Trait> {
    match d
    case Known(index, width) =>
      if U29.Fits(TraitHeader(d), width) && index < |t.traits| then Reads(t.traits[index], t) else Nonsense
    case Defined(dynamic, width, className, names) =>
      if !U29.Fits(TraitHeader(d), width) then Nonsense
      else
        match StringMeaning(className, t)
        case Nonsense => Nonsense
        case Reads(c, t1) =>
          match NamesMeaning(names, t1, [])
          case Nonsense => Nonsense
          case Reads(sealed, t2) => Introduced(Trait(c, sealed, dynamic), t2)
  }

  predicate SharesObjectTable(marker: byte) {
    0x07 <= marker <= 0x0c
  }

  /** A complex value enters the object table once its last part has been read. */
  function Finished(v: Value, t: Tables): Reading<Value> {
    Reads(v, Tables(t.strings, t.objects + [v], t.traits))
  }

  function Meaning(w: Wire, t: Tables): Reading<Value>
    decreases w
  {
    match w
    case Plain(marker) =>
      if marker == UNDEFINED_MARKER then Reads(Undefined, t)
      else if marker == NULL_MARKER then Reads(Null, t)
      else if marker == FALSE_MARKER then Reads(Boolean(false), t)
      else if marker == TRUE_MARKER then Reads(Boolean(true), t)
      else Nonsense
    case Integer(raw, width) =>
      if U29.Fits(raw, width) then Reads(Number(Ieee.FromInt(Signed(raw))), t) else Nonsense
    case Double(n) => Reads(Number(n), t)
    case Text(s) =>
      (match StringMeaning(s, t)
       case Nonsense => Nonsense
       case Reads(text, t1) => Reads(String(text), t1))
    case Body(marker, raw, width) =>
      if !U29.Fits(2 * |raw| + 1, width) then Nonsense
      else if marker == BYTE_ARRAY_MARKER then Finished(ByteArray(raw), t)
      else if marker == XML_DOC_MARKER || marker == XML_MARKER then Finished(XmlDoc(Utf8.Lossy(raw)), t)
      else Nonsense
    case DateOf(unused, width, millis) =>
      if U29.Fits(2 * unused + 1, width) then Finished(Date(millis), t) else Nonsense
    case Dense(width, key, items) =>
      if !U29.Fits(2 * |items| + 1, width) then Nonsense
      else
        (match StringMeaning(key, t)
         case Nonsense => Nonsense
         case Reads(k, t1) =>
           if k != [] then Nonsense
           else
             match ItemsMeaning(items, t1, [])
             case Nonsense => Nonsense
             case Reads(values, t2) => Finished(StrictArray(values), t2))
    case Instance(traits, sealed, tail) =>
      (match TraitMeaning(traits, t)
       case Nonsense => Nonsense
       case Reads(d, t1) =>
         match SealedMeaning(d.sealed, sealed, t1, [])
         case Nonsense => Nonsense
         case Reads(fixed, t2) =>
           match TailMeaning(d.dynamic, tail, t2, fixed)
           case Nonsense => Nonsense
           case Reads(members, t3) => Finished(Amf3Spec.Instance(d, members), t3))
    case Again(marker, index, width) =>
      if SharesObjectTable(marker) && U29.Fits(2 * index, width) && index < |t.objects|
      then Reads(t.objects[index], t) else Nonsense
  }

  function ItemsMeaning(items: seq<Wire>, t: Tables, acc: seq<Value>): Reading<seq<Value>>
    decreases items
  {
    if items == [] then Reads(acc, t)
    else
      match Meaning(items[0], t)
      case Nonsense => Nonsense
      case Reads(v, t1) => ItemsMeaning(items[1..], t1, acc + [v])
  }

  function SealedMeaning(names: seq<bytes>, items: seq<Wire>, t: Tables, acc: Members): Reading<Members>
    decreases items
  {
    if |names| != |items| then Nonsense
    else if items == [] then Reads(acc, t)
    else
      match Meaning(items[0], t)
      case Nonsense => Nonsense
      case Reads(v, t1) => SealedMeaning(names[1..], items[1..], t1, Insert(acc, names[0], v))
  }

  function TailMeaning(dynamic: bool, tail: WTail, t: Tables, acc: Members): Reading<Members>
    decreases tail
  {
    match tail
    case Absent => if dynamic then Nonsense else Reads(acc, t)
    case Present(members, end) =>
      if !dynamic then Nonsense
      else
        match MembersMeaning(members, t, acc)
        case Nonsense => Nonsense
        case Reads(all, t1) =>
          match StringMeaning(end, t1)
          case Nonsense => Nonsense
          case Reads(k, t2) => if k == [] then Reads(all, t2) else Nonsense
  }

  function MembersMeaning(members: seq<WMember>, t: Tables, acc: Members): Reading<Members>
    decreases members
  {
    if members == [] then Reads(acc, t)
    else
      match StringMeaning(members[0].key, t)
      case Nonsense => Nonsense
      case Reads(k, t1) =>
        if k == [] then Nonsense
        else
          assert members[0].value < members[0];
          match Meaning(members[0].value, t1)
          case Nonsense => Nonsense
          case Reads(v, t2) => MembersMeaning(members[1..], t2, Insert(acc, k, v))
  }

  // ----- every written tree is decoded to its meaning -----

  /** A literal header `2n + 1` and a reference header `2i`, as the decoder takes them apart. */
  lemma HeaderBits(n: nat)
    ensures (2 * n + 1) % 2 == 1 && (2 * n + 1) / 2 == n
    ensures (2 * n) % 2 == 0 && (2 * n) / 2 == n
  {
  }

  lemma LiteralReadsBack(n: nat, width: nat, body: bytes)
    requires U29.Fits(2 * n + 1, width)
    ensures U29.Read(U29.Form(2 * n + 1, width) + body) == U29.Got(2 * n + 1, body)
    ensures (2 * n + 1) % 2 == 1 && (2 * n + 1) / 2 == n
  {
    U29.ReadForm(2 * n + 1, width, body);
  }

  lemma ReferenceReadsBack(index: nat, width: nat, rest: bytes)
    requires U29.Fits(2 * index, width)
    ensures U29.Read(U29.Form(2 * index, width) + rest) == U29.Got(2 * index, rest)
    ensures (2 * index) % 2 == 0 && (2 * index) / 2 == index
  {
    U29.ReadForm(2 * index, width, rest);
  }

  lemma StringReadsBack(s: WString, t: Tables, rest: bytes)
    requires StringMeaning(s, t).Reads?
    ensures var m := StringMeaning(s, t);
            DecodeString(WriteString(s) + rest, t) == Ok(m.value, rest, m.tables)
  {
    hide U29.Read, U29.Form;
    match s
    case Inline(raw, width) =>
      LiteralReadsBack(|raw|, width, raw + rest);
      assert WriteString(s) + rest == U29.Form(2 * |raw| + 1, width) + (raw + rest);
      assert (raw + rest)[..|raw|] == raw && (raw + rest)[|raw|..] == rest;
    case Indexed(index, width) =>
      ReferenceReadsBack(index, width, rest);
  }

  lemma {:induction false} NamesReadBack(names: seq<WString>, t: Tables, acc: seq<bytes>, rest: bytes)
    requires NamesMeaning(names, t, acc).Reads?
    ensures var m := NamesMeaning(names, t, acc);
            DecodeNames(|names|, WriteNames(names) + rest, t, acc) == Ok(m.value, rest, m.tables)
  {
    hide U29.Read, U29.Form;
    if names == [] {
      assert WriteNames(names) + rest == rest;
    } else {
      var tail := WriteNames(names[1..]) + rest;
      assert WriteNames(names) + rest == WriteString(names[0]) + tail;
      StringReadsBack(names[0], t, tail);
      var m := StringMeaning(names[0], t);
      NamesReadBack(names[1..], m.tables, acc + [m.value], rest);
    }
  }

  lemma TraitReadsBack(d: WTrait, t: Tables, rest: bytes)
    requires TraitMeaning(d, t).Reads?
    ensures var m := TraitMeaning(d, t);
            var p := U29.Read(WriteTrait(d) + rest);
            p.Got? && p.value == TraitHeader(d) && DecodeTrait(p.value, p.rest, t) == Ok(m.value, rest, m.tables)
  {
    hide U29.Read, U29.Form;
    match d
    case Known(index, width) =>
      U29.ReadForm(TraitHeader(d), width, rest);
      KnownHeaderBits(index);
    case Defined(_, _, _, _) =>
      DefinitionReadsBack(d, t, rest);
  }

  lemma DefinitionReadsBack(d: WTrait, t: Tables, rest: bytes)
    requires d.Defined? && TraitMeaning(d, t).Reads?
    ensures var m := TraitMeaning(d, t);
            var p := U29.Read(WriteTrait(d) + rest);
            p.Got? && p.value == TraitHeader(d) && DecodeTrait(p.value, p.rest, t) == Ok(m.value, rest, m.tables)
  {
    hide U29.Read, U29.Form, DecodeString, DecodeNames, StringMeaning, NamesMeaning, WriteString, WriteNames;
    var Defined(dynamic, width, className, names) := d;
    var afterClass := WriteNames(names) + rest;
    var afterHeader := WriteString(className) + afterClass;
    assert WriteTrait(d) + rest == U29.Form(TraitHeader(d), width) + afterHeader;
    U29.ReadForm(TraitHeader(d), width, afterHeader);
    StringReadsBack(className, t, afterClass);
    NamesReadBack(names, StringMeaning(className, t).tables, [], rest);
    FreshHeaderBits(|names|, dynamic);
  }

  lemma KnownHeaderBits(index: nat)
    ensures var h := 4 * index + 1;
            h % 2 == 1 && h / 2 % 2 == 0 && h / 4 == index
  {
    var h := 4 * index + 1;
    assert h / 2 == 2 * index;
  }

  lemma FreshHeaderBits(count: nat, dynamic: bool)
    ensures var h := 16 * count + (if dynamic then 8 else 0) + 3;
            h % 2 == 1 && h / 2 % 2 == 1 && h / 4 % 2 == 0 && (h / 8 % 2 == 1 <==> dynamic) && h / 16 == count
  {
    var flag := if dynamic then 1 else 0;
    var h := 16 * count + 8 * flag + 3;
    Divided(h, 8 * count + 4 * flag + 1, 4 * count + 2 * flag, 2 * count + flag, count);
  }

  /** Successive halves of `h`, and their low bits. */
  lemma Divided(h: nat, h2: nat, h4: nat, h8: nat, h16: nat)
    requires h == 2 * h2 + 1 && h2 == 2 * h4 + 1 && h4 == 2 * h8 && 0 <= h8 - 2 * h16 <= 1
    ensures h / 2 == h2 && h / 4 == h4 && h / 8 == h8 && h / 16 == h16
    ensures h % 2 == 1 && h2 % 2 == 1 && h4 % 2 == 0 && h8 % 2 == h8 - 2 * h16
  {
    assert h == 4 * h4 + 3;
    assert h == 8 * h8 + 3;
    assert h == 16 * h16 + (8 * (h8 - 2 * h16) + 3);
  }

  lemma Dispatch(marker: byte, r: bytes, t: Tables)
    ensures DecodeValue([marker] + r, t) == DecodeAfter(marker, r, t)
  {
    assert ([marker] + r)[1..] == r;
  }

  lemma DispatchArray(r: bytes, t: Tables)
    ensures DecodeValue([ARRAY_MARKER] + r, t) == DecodeArray(r, t)
  {
    hide DecodeArray, DecodeValue;
    Dispatch(ARRAY_MARKER, r, t);
  }

  lemma DispatchObject(r: bytes, t: Tables)
    ensures DecodeValue([OBJECT_MARKER] + r, t) == DecodeObject(r, t)
  {
    hide DecodeObject, DecodeValue;
    Dispatch(OBJECT_MARKER, r, t);
  }

  lemma LeafReadsBack(w: Wire, t: Tables, rest: bytes)
    requires Meaning(w, t).Reads? && !w.Dense? && !w.Instance?
    ensures var m := Meaning(w, t);
            DecodeValue(Write(w) + rest, t) == Ok(m.value, rest, m.tables)
  {
    hide U29.Read, U29.Form, U29.Fits, DecodeValue, Meaning, Write;
    match w
    case Plain(_) => SimpleReadsBack(w, t, rest);
    case Integer(_, _) => SimpleReadsBack(w, t, rest);
    case Double(_) => SimpleReadsBack(w, t, rest);
    case Text(_) => SimpleReadsBack(w, t, rest);
    case Body(_, _, _) => BodyReadsBack(w, t, rest);
    case DateOf(_, _, _) => DateReadsBack(w, t, rest);
    case Again(_, _, _) => AgainReadsBack(w, t, rest);
  }

  lemma SimpleReadsBack(w: Wire, t: Tables, rest: bytes)
    requires Meaning(w, t).Reads? && (w.Plain? || w.Integer? || w.Double? || w.Text?)
    ensures var m := Meaning(w, t);
            DecodeValue(Write(w) + rest, t) == Ok(m.value, rest, m.tables)
  {
    hide U29.Read, U29.Form, U29.Fits, DecodeValue;
    match w
    case Plain(marker) =>
      Dispatch(marker, rest, t);
    case Integer(raw, width) =>
      var r := U29.Form(raw, width) + rest;
      assert Write(w) + rest == [INTEGER_MARKER] + r;
      Dispatch(INTEGER_MARKER, r, t);
      U29.ReadForm(raw, width, rest);
    case Double(n) =>
      assert Write(w) + rest == [DOUBLE_MARKER] + (n + rest);
      Dispatch(DOUBLE_MARKER, n + rest, t);
    case Text(s) =>
      assert Write(w) + rest == [STRING_MARKER] + (WriteString(s) + rest);
      Dispatch(STRING_MARKER, WriteString(s) + rest, t);
      StringReadsBack(s, t, rest);
  }

  lemma BodyReadsBack(w: Wire, t: Tables, rest: bytes)
    requires w.Body? && Meaning(w, t).Reads?
    ensures var m := Meaning(w, t);
            DecodeValue(Write(w) + rest, t) == Ok(m.value, rest, m.tables)
  {
    hide U29.Read, U29.Form, U29.Fits, DecodeValue;
    var Body(marker, raw, width) := w;
    var r := U29.Form(2 * |raw| + 1, width) + (raw + rest);
    assert Write(w) + rest == [marker] + r;
    Dispatch(marker, r, t);
    LiteralReadsBack(|raw|, width, raw + rest);
    BodyFromParts(marker != BYTE_ARRAY_MARKER, r, t, raw, rest);
  }

  lemma DateReadsBack(w: Wire, t: Tables, rest: bytes)
    requires w.DateOf? && Meaning(w, t).Reads?
    ensures var m := Meaning(w, t);
            DecodeValue(Write(w) + rest, t) == Ok(m.value, rest, m.tables)
  {
    hide U29.Read, U29.Form, U29.Fits, DecodeValue;
    var DateOf(unused, width, millis) := w;
    var r := U29.Form(2 * unused + 1, width) + (millis + rest);
    assert Write(w) + rest == [DATE_MARKER] + r;
    Dispatch(DATE_MARKER, r, t);
    LiteralReadsBack(unused, width, millis + rest);
  }

  lemma AgainReadsBack(w: Wire, t: Tables, rest: bytes)
    requires w.Again? && Meaning(w, t).Reads?
    ensures var m := Meaning(w, t);
            DecodeValue(Write(w) + rest, t) == Ok(m.value, rest, m.tables)
  {
    hide U29.Read, U29.Form, U29.Fits, DecodeValue;
    var Again(marker, index, width) := w;
    var r := U29.Form(2 * index, width) + rest;
    assert Write(w) + rest == [marker] + r;
    Dispatch(marker, r, t);
    ReferenceReadsBack(index, width, rest);
    SharedTable(marker, index, r, rest, t);
  }

  lemma BodyFromParts(text: bool, b: bytes, t: Tables, raw: bytes, rest: bytes)
    requires U29.Read(b) == U29.Got(2 * |raw| + 1, raw + rest)
    ensures var v := if text then XmlDoc(Utf8.Lossy(raw)) else ByteArray(raw);
            Amf3Spec.DecodeBody(text, b, t) == Ok(v, rest, AddObject(v, t))
  {
    hide U29.Read, Utf8.Lossy;
    HeaderBits(|raw|);
    assert (raw + rest)[..|raw|] == raw && (raw + rest)[|raw|..] == rest;
  }

  /** Each of the six markers that share the object table resolves a reference header the same way. */
  lemma SharedTable(marker: byte, index: nat, b: bytes, rest: bytes, t: Tables)
    requires SharesObjectTable(marker) && U29.Read(b) == U29.Got(2 * index, rest)
    ensures DecodeAfter(marker, b, t) == Resolve(index, rest, t)
  {
    hide U29.Read;
    HeaderBits(index);
  }

  /** Soundness of the decoder on the grammar, in any context and before any bytes. */
  lemma {:induction false} ReadsBack(w: Wire, t: Tables, rest: bytes)
    requires Meaning(w, t).Reads?
    ensures var m := Meaning(w, t);
            DecodeValue(Write(w) + rest, t) == Ok(m.value, rest, m.tables)
    decreases w
  {
    match w
    case Dense(_, _, _) => DenseReadsBack(w, t, rest);
    case Instance(_, _, _) => InstanceReadsBack(w, t, rest);
    case _ => LeafReadsBack(w, t, rest);
  }

  lemma {:induction false} DenseReadsBack(w: Wire, t: Tables, rest: bytes)
    requires w.Dense? && Meaning(w, t).Reads?
    ensures var m := Meaning(w, t);
            DecodeValue(Write(w) + rest, t) == Ok(m.value, rest, m.tables)
    decreases w, 0
  {
    hide U29.Read, U29.Form, U29.Fits, DecodeValue, DecodeArray, DecodeString, DecodeItems, WriteString;
    var Dense(width, key, items) := w;
    var afterKey := WriteItems(items) + rest;
    var afterHeader := WriteString(key) + afterKey;
    var b := U29.Form(2 * |items| + 1, width) + afterHeader;
    assert Write(w) + rest == [ARRAY_MARKER] + b;
    DispatchArray(b, t);
    LiteralReadsBack(|items|, width, afterHeader);
    StringReadsBack(key, t, afterKey);
    ItemsReadBack(items, StringMeaning(key, t).tables, [], rest);
    ArrayFromParts(b, t, |items|, afterHeader);
  }

  lemma ArrayFromParts(b: bytes, t: Tables, n: nat, r: bytes)
    requires U29.Read(b) == U29.Got(2 * n + 1, r)
    ensures var key := DecodeString(r, t);
            key.Ok? && key.value == [] ==>
              var items := DecodeItems(n, key.rest, key.tables, []);
              items.Ok? ==>
                var v := StrictArray(items.value);
                DecodeArray(b, t) == Ok(v, items.rest, AddObject(v, items.tables))
  {
    hide U29.Read, DecodeString, DecodeItems;
    HeaderBits(n);
  }

  lemma {:induction false} InstanceReadsBack(w: Wire, t: Tables, rest: bytes)
    requires w.Instance? && Meaning(w, t).Reads?
    ensures var m := Meaning(w, t);
            DecodeValue(Write(w) + rest, t) == Ok(m.value, rest, m.tables)
    decreases w, 0
  {
    hide U29.Read, U29.Form, U29.Fits, DecodeValue, DecodeObject, DecodeTrait, DecodeSealed, DecodeDynamic;
    var Instance(traits, sealed, tail) := w;
    var afterSealed := WriteTail(tail) + rest;
    var afterTrait := WriteItems(sealed) + afterSealed;
    var b := WriteTrait(traits) + afterTrait;
    assert Write(w) + rest == [OBJECT_MARKER] + b;
    DispatchObject(b, t);
    TraitReadsBack(traits, t, afterTrait);
    var d := TraitMeaning(traits, t);
    SealedReadsBack(d.value.sealed, sealed, d.tables, [], afterSealed);
    var fixed := SealedMeaning(d.value.sealed, sealed, d.tables, []);
    TailReadsBack(d.value.dynamic, tail, fixed.tables, fixed.value, rest);
    OddTraitHeader(traits);
    ObjectFromParts(b, t, U29.Read(b).rest, d.value, afterTrait, d.tables,
                    fixed.value, afterSealed, fixed.tables);
  }

  lemma OddTraitHeader(d: WTrait)
    ensures TraitHeader(d) % 2 == 1
  {
    match d
    case Known(index, _) => KnownHeaderBits(index);
    case Defined(dynamic, _, _, names) => FreshHeaderBits(|names|, dynamic);
  }

  lemma ObjectFromParts(b: bytes, t: Tables, r: bytes, d: Trait, r1: bytes, t1: Tables,
                        fixed: Members, r2: bytes, t2: Tables)
    requires U29.Read(b).Got? && U29.Read(b).rest == r && U29.Read(b).value % 2 == 1
    requires DecodeTrait(U29.Read(b).value, r, t) == Ok(d, r1, t1)
    requires DecodeSealed(d.sealed, r1, t1, []) == Ok(fixed, r2, t2)
    ensures d.dynamic && DecodeDynamic(r2, t2, fixed).Ok? ==>
              var m := DecodeDynamic(r2, t2, fixed);
              var v := Amf3Spec.Instance(d, m.value);
              DecodeObject(b, t) == Ok(v, m.rest, AddObject(v, m.tables))
    ensures !d.dynamic ==>
              var v := Amf3Spec.Instance(d, fixed);
              DecodeObject(b, t) == Ok(v, r2, AddObject(v, t2))
  {
    hide U29.Read, DecodeTrait, DecodeSealed, DecodeDynamic;
  }

  lemma {:induction false} ItemsReadBack(items: seq<Wire>, t: Tables, acc: seq<Value>, rest: bytes)
    requires ItemsMeaning(items, t, acc).Reads?
    ensures var m := ItemsMeaning(items, t, acc);
            DecodeItems(|items|, WriteItems(items) + rest, t, acc) == Ok(m.value, rest, m.tables)
    decreases items
  {
    hide U29.Read, U29.Form;
    if items == [] {
      assert WriteItems(items) + rest == rest;
    } else {
      var after := WriteItems(items[1..]) + rest;
      assert WriteItems(items) + rest == Write(items[0]) + after;
      ReadsBack(items[0], t, after);
      var m := Meaning(items[0], t);
      ItemsReadBack(items[1..], m.tables, acc + [m.value], rest);
    }
  }

  lemma {:induction false} SealedReadsBack(
      names: seq<bytes>, items: seq<Wire>, t: Tables, acc: Members, rest: bytes)
    requires SealedMeaning(names, items, t, acc).Reads?
    ensures var m := SealedMeaning(names, items, t, acc);
            DecodeSealed(names, WriteItems(items) + rest, t, acc) == Ok(m.value, rest, m.tables)
    decreases items
  {
    hide U29.Read, U29.Form;
    if items == [] {
      assert WriteItems(items) + rest == rest;
    } else {
      var after := WriteItems(items[1..]) + rest;
      assert WriteItems(items) + rest == Write(items[0]) + after;
      ReadsBack(items[0], t, after);
      var m := Meaning(items[0], t);
      SealedReadsBack(names[1..], items[1..], m.tables, Insert(acc, names[0], m.value), rest);
    }
  }

  lemma {:induction false} TailReadsBack(dynamic: bool, tail: WTail, t: Tables, acc: Members, rest: bytes)
    requires TailMeaning(dynamic, tail, t, acc).Reads?
    ensures var m := TailMeaning(dynamic, tail, t, acc);
            && (dynamic ==> DecodeDynamic(WriteTail(tail) + rest, t, acc) == Ok(m.value, rest, m.tables))
            && (!dynamic ==> WriteTail(tail) + rest == rest && m == Reads(acc, t))
    decreases tail
  {
    hide U29.Read, U29.Form;
    match tail
    case Absent =>
      assert WriteTail(tail) + rest == rest;
    case Present(members, end) =>
      MembersReadBack(members, end, t, acc, rest);
      assert WriteTail(tail) + rest == WriteMembers(members) + (WriteString(end) + rest);
  }

  lemma {:induction false} MembersReadBack(
      members: seq<WMember>, end: WString, t: Tables, acc: Members, rest: bytes)
    requires var m := MembersMeaning(members, t, acc);
             m.Reads? && StringMeaning(end, m.tables).Reads? && StringMeaning(end, m.tables).value == []
    ensures var m := MembersMeaning(members, t, acc);
            DecodeDynamic(WriteMembers(members) + (WriteString(end) + rest), t, acc)
            == Ok(m.value, rest, StringMeaning(end, m.tables).tables)
    decreases members
  {
    hide U29.Read, U29.Form;
    var last := WriteString(end) + rest;
    if members == [] {
      assert WriteMembers(members) + last == last;
      StringReadsBack(end, t, rest);
    } else {
      var after := WriteMembers(members[1..]) + last;
      var value := Write(members[0].value) + after;
      assert WriteMembers(members) + last == WriteString(members[0].key) + value;
      StringReadsBack(members[0].key, t, value);
      assert members[0].value < members[0];
      var k := StringMeaning(members[0].key, t);
      ReadsBack(members[0].value, k.tables, after);
      var v := Meaning(members[0].value, k.tables);
      MembersReadBack(members[1..], end, v.tables, Insert(acc, k.value, v.value), rest);
    }
  }
}
