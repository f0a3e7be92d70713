/** The converse of the grammar's soundness: whatever the AMF 0 decoder accepts is a written tree. */
module Amf0Parse {
  import opened Bytes
  import opened AmfValue
  import opened Amf0Spec
  import opened Amf0Wire
  import Utf8

  /** `w` is a layout of the value decoded from `b`. */
  ghost predicate Explains(w: Wire, b: bytes, objects: seq<Value>, out: Out<Value>) {
    out.Ok? && Meaning(w, objects) == Reads(out.value, out.objects) && b == Write(w) + out.rest
  }

  lemma U16Parse(b: bytes)
    requires |b| >= 2
    ensures b == PutU16(GetU16(b)) + b[2..] && GetU16(b) <= 0xffff
  {
    var n := GetU16(b);
    assert n / 0x100 == b[0] && n % 0x100 == b[1];
    assert b == b[..2] + b[2..];
  }

  lemma U32Parse(b: bytes)
    requires |b| >= 4
    ensures b == PutU32(GetU32(b)) + b[4..] && GetU32(b) <= 0xffff_ffff
  {
    var n := GetU32(b);
    assert n / 0x100_0000 == b[0] && n / 0x1_0000 == b[0] as int * 0x100 + b[1];
    assert n / 0x100 == b[0] as int * 0x1_0000 + b[1] as int * 0x100 + b[2];
    assert b == b[..4] + b[4..];
  }

  lemma ShortParse(b: bytes) returns (raw: bytes)
    requires DecodeShortString(b).Piece?
    ensures var p := DecodeShortString(b);
            && |raw| == GetU16(b) <= 0xffff
            && p.text == Utf8.Lossy(raw) && b == WriteShort(raw) + p.rest
  {
    hide Utf8.Lossy, GetU16, PutU16;
    var n := GetU16(b);
    U16Parse(b);
    raw := b[2..][..n];
    assert b[2..] == raw + b[2..][n..];
    assert b == PutU16(n) + raw + b[2..][n..];
  }

  lemma LongParse(b: bytes) returns (raw: bytes)
    requires DecodeLongString(b).Piece?
    ensures var p := DecodeLongString(b);
            |raw| <= 0xffff_ffff && p.text == Utf8.Lossy(raw) && b == WriteLong(raw) + p.rest
  {
    hide Utf8.Lossy, GetU32, PutU32;
    var n := GetU32(b);
    U32Parse(b);
    raw := b[4..][..n];
    assert b[4..] == raw + b[4..][n..];
    assert b == PutU32(n) + raw + b[4..][n..];
  }

  lemma {:induction false} ValueParse(b: bytes, objects: seq<Value>) returns (w: Wire)
    requires DecodeValue(b, objects).Ok?
    ensures Explains(w, b, objects, DecodeValue(b, objects))
    decreases |b|, 1
  {
    hide DecodeAfter, Explains;
    assert b == [b[0]] + b[1..];
    if b[0] == REFERENCE_MARKER {
      w := AgainParse(b, objects);
    } else {
      w := AfterParse(b[0], b[1..], objects);
      Dispatch(b[0], b[1..], objects);
    }
  }

  lemma AgainParse(b: bytes, objects: seq<Value>) returns (w: Wire)
    requires DecodeValue(b, objects).Ok? && b[0] == REFERENCE_MARKER
    ensures Explains(w, b, objects, DecodeValue(b, objects))
  {
    w := Again(GetU16(b[1..]));
    U16Parse(b[1..]);
    assert b == [b[0]] + b[1..] && b[3..] == b[1..][2..];
  }

  /** The outcome behind a marker, with the value registered. */
  function Completing(marker: byte, r: bytes, objects: seq<Value>): Out<Value> {
    var out := DecodeAfter(marker, r, objects);
    if out.Ok? then Ok(out.value, out.rest, Register(out.value, out.objects)) else out
  }

  lemma {:induction false} AfterParse(marker: byte, r: bytes, objects: seq<Value>) returns (w: Wire)
    requires marker != REFERENCE_MARKER && DecodeAfter(marker, r, objects).Ok?
    ensures Explains(w, [marker] + r, objects, Completing(marker, r, objects))
    decreases |r|, 2
  {
    hide DecodeAfter, Completing, Explains;
    if marker == 0x03 || marker == 0x08 || marker == 0x10 {
      w := ObjectParse(marker, r, objects);
    } else if marker == 0x0a {
      w := DenseParse(r, objects);
    } else {
      w := LeafParse(marker, r, objects);
    }
  }

  lemma LeafParse(marker: byte, r: bytes, objects: seq<Value>) returns (w: Wire)
    requires marker != REFERENCE_MARKER && DecodeAfter(marker, r, objects).Ok?
    requires marker != 0x03 && marker != 0x08 && marker != 0x10 && marker != 0x0a
    ensures Explains(w, [marker] + r, objects, Completing(marker, r, objects))
  {
    hide DecodeShortString, DecodeLongString, WriteShort, WriteLong, Utf8.Lossy, PutU16, GetU16;
    match marker
    case 0x00 =>
      w := Double(r[..8]);
      assert r == r[..8] + r[8..];
    case 0x01 =>
      w := Truth(r[0]);
      assert r == [r[0]] + r[1..];
    case 0x02 =>
      var raw := ShortParse(r);
      w := Text(raw);
    case 0x05 => w := Nothing;
    case 0x06 => w := NotDefined;
    case 0x0b => w := DateParse(r, objects);
    case 0x0c =>
      var raw := LongParse(r);
      w := LongText(raw);
    case 0x0f =>
      var raw := LongParse(r);
      w := Xml(raw);
    case _ => assert false;
  }

  lemma DateParse(r: bytes, objects: seq<Value>) returns (w: Wire)
    requires DecodeAfter(0x0b, r, objects).Ok?
    ensures Explains(w, [0x0b] + r, objects, Completing(0x0b, r, objects))
  {
    hide PutU16, GetU16;
    var millis: F64 := r[..8];
    U16Parse(r[8..]);
    w := DateOf(millis, GetU16(r[8..]));
    assert r == millis + r[8..] && r[8..][2..] == r[10..];
  }

  lemma {:induction false} ObjectParse(marker: byte, r: bytes, objects: seq<Value>) returns (w: Wire)
    requires (marker == 0x03 || marker == 0x08 || marker == 0x10) && DecodeAfter(marker, r, objects).Ok?
    ensures Explains(w, [marker] + r, objects, Completing(marker, r, objects))
    decreases |r|, 1
  {
    hide DecodeBody, Completing, Explains, DecodeShortString, GetU32;
    if marker == 0x03 {
      var members := BodyParse(r, objects, []);
      w := Instance(members);
      InstanceExplains(r, objects, members);
    } else if marker == 0x08 {
      var members := BodyParse(r[4..], objects, []);
      w := Ecma(GetU32(r), members);
      EcmaExplains(r, objects, members);
    } else {
      var className := ShortParse(r);
      var members := BodyParse(DecodeShortString(r).rest, objects, []);
      w := Typed(className, members);
      TypedExplains(r, objects, className, members);
    }
  }

  /** `members` is a layout of the body at the front of `b`. */
  ghost predicate BodyExplains(members: seq<WMember>, b: bytes, objects: seq<Value>) {
    var out := DecodeBody(b, objects, []);
    out.Ok? && BodyMeaning(members, objects, []) == Reads(out.value, out.objects) && b == WriteBody(members) + out.rest
  }

  lemma InstanceExplains(r: bytes, objects: seq<Value>, members: seq<WMember>)
    requires BodyExplains(members, r, objects)
    ensures Explains(Instance(members), [0x03] + r, objects, Completing(0x03, r, objects))
  {
    hide DecodeBody, BodyMeaning, WriteBody;
  }

  lemma EcmaExplains(r: bytes, objects: seq<Value>, members: seq<WMember>)
    requires |r| >= 4 && BodyExplains(members, r[4..], objects)
    ensures Explains(Ecma(GetU32(r), members), [0x08] + r, objects, Completing(0x08, r, objects))
  {
    hide DecodeBody, BodyMeaning, WriteBody, PutU32, GetU32;
    U32Parse(r);
    var rest := DecodeBody(r[4..], objects, []).rest;
    assert [0x08] + r == Write(Ecma(GetU32(r), members)) + rest;
  }

  lemma TypedExplains(r: bytes, objects: seq<Value>, className: bytes, members: seq<WMember>)
    requires DecodeShortString(r).Piece? && |className| <= 0xffff
    requires DecodeShortString(r).text == Utf8.Lossy(className)
    requires r == WriteShort(className) + DecodeShortString(r).rest
    requires BodyExplains(members, DecodeShortString(r).rest, objects)
    ensures Explains(Typed(className, members), [0x10] + r, objects, Completing(0x10, r, objects))
  {
    hide DecodeBody, BodyMeaning, WriteBody, DecodeShortString, WriteShort, Utf8.Lossy, Write, Meaning, Completing;
    var out := DecodeBody(DecodeShortString(r).rest, objects, []);
    TypedBytes(className, members, out.rest);
    TypedCompletes(r, objects);
    TypedMeans(className, members, objects);
  }

  lemma TypedCompletes(r: bytes, objects: seq<Value>)
    requires DecodeShortString(r).Piece? && DecodeBody(DecodeShortString(r).rest, objects, []).Ok?
    ensures var out := DecodeBody(DecodeShortString(r).rest, objects, []);
            var v := TypedObject(DecodeShortString(r).text, out.value);
            Completing(0x10, r, objects) == Ok(v, out.rest, out.objects + [v])
  {
    hide DecodeBody, DecodeShortString;
  }

  lemma TypedMeans(className: bytes, members: seq<WMember>, objects: seq<Value>)
    requires |className| <= 0xffff && BodyMeaning(members, objects, []).Reads?
    ensures var m := BodyMeaning(members, objects, []);
            var v := TypedObject(Utf8.Lossy(className), m.value);
            Meaning(Typed(className, members), objects) == Reads(v, m.objects + [v])
  {
    hide BodyMeaning, Utf8.Lossy;
  }

  lemma TypedBytes(className: bytes, members: seq<WMember>, rest: bytes)
    ensures [0x10] + (WriteShort(className) + (WriteBody(members) + rest))
         == Write(Typed(className, members)) + rest
  {
    hide WriteBody, WriteShort;
  }

  lemma {:induction false} DenseParse(r: bytes, objects: seq<Value>) returns (w: Wire)
    requires DecodeAfter(0x0a, r, objects).Ok?
    ensures Explains(w, [0x0a] + r, objects, Completing(0x0a, r, objects))
    decreases |r|, 1
  {
    hide DecodeItems, ItemsMeaning, WriteItems, PutU32, GetU32;
    U32Parse(r);
    var items := ItemsParse(GetU32(r), r[4..], objects, []);
    w := Dense(items);
  }

  lemma {:induction false} ItemsParse(n: nat, b: bytes, objects: seq<Value>, acc: seq<Value>)
    returns (items: seq<Wire>)
    requires DecodeItems(n, b, objects, acc).Ok?
    ensures var out := DecodeItems(n, b, objects, acc);
            && |items| == n
            && ItemsMeaning(items, objects, acc) == Reads(out.value, out.objects)
            && b == WriteItems(items) + out.rest
    decreases |b|, 2
  {
    hide DecodeValue, Meaning, Write;
    if n == 0 {
      items := [];
    } else {
      var first := ValueParse(b, objects);
      var out := DecodeValue(b, objects);
      var more := ItemsParse(n - 1, out.rest, out.objects, acc + [out.value]);
      items := [first] + more;
      assert items[1..] == more;
    }
  }

  lemma BodyEnds(b: bytes)
    requires |b| >= 3 && GetU16(b) == 0 && b[2] == OBJECT_END_MARKER
    ensures b == [0x00, 0x00, 0x09] + b[3..]
  {
    assert b == b[..3] + b[3..];
  }

  lemma {:induction false} BodyParse(b: bytes, objects: seq<Value>, acc: Members) returns (members: seq<WMember>)
    requires DecodeBody(b, objects, acc).Ok?
    ensures var out := DecodeBody(b, objects, acc);
            && BodyMeaning(members, objects, acc) == Reads(out.value, out.objects)
            && b == WriteBody(members) + out.rest
    decreases |b|, 0
  {
    hide DecodeValue, Meaning, Write, Insert, DecodeShortString, WriteShort, Utf8.Lossy, GetU16;
    if GetU16(b) == 0 {
      BodyEnds(b);
      members := [];
    } else {
      var key := ShortParse(b);
      var k := DecodeShortString(b);
      var value := ValueParse(k.rest, objects);
      var v := DecodeValue(k.rest, objects);
      var more := BodyParse(v.rest, v.objects, Insert(acc, k.text, v.value));
      members := [WMember(key, value)] + more;
      assert members[1..] == more;
    }
  }

  /** The decoder accepts a byte string exactly when it starts with a written tree that has a meaning, and
      then it returns that meaning and leaves exactly the bytes behind the tree. */
  lemma DecoderIsGrammar(b: bytes, objects: seq<Value>, out: Out<Value>)
    requires out.Ok?
    ensures DecodeValue(b, objects) == out <==> exists w :: Explains(w, b, objects, out)
  {
    hide DecodeValue, Meaning, Write;
    if DecodeValue(b, objects) == out {
      var w := ValueParse(b, objects);
    }
    forall w | Explains(w, b, objects, out) ensures DecodeValue(b, objects) == out {
      ReadsBack(w, objects, out.rest);
    }
  }
}
