/** The converse of the grammar's soundness: whatever the AMF 3 decoder accepts is a written tree. */
module Amf3Parse {
  import opened Bytes
  import opened AmfValue
  import opened Amf3Spec
  import opened Amf3Wire
  import Ieee
  import U29
  import Utf8

  lemma Halves(h: nat)
    ensures h % 2 == 0 ==> h == 2 * (h / 2)
    ensures h % 2 == 1 ==> h == 2 * (h / 2) + 1
  {
  }

  lemma StringParse(b: bytes, t: Tables) returns (s: WString)
    requires DecodeString(b, t).Ok?
    ensures var out := DecodeString(b, t);
            StringMeaning(s, t) == Reads(out.value, out.tables) && b == WriteString(s) + out.rest
  {
    hide U29.Read, U29.Form, U29.Fits, Utf8.Lossy;
    var width := U29.ReadIsForm(b);
    var h, r := U29.Read(b).value, U29.Read(b).rest;
    Halves(h);
    if h % 2 == 0 {
      s := Indexed(h / 2, width);
    } else {
      var raw := r[..h / 2];
      s := Inline(raw, width);
      assert r == raw + r[h / 2..];
      assert h == 2 * |raw| + 1;
    }
  }

  lemma {:induction false} NamesParse(n: nat, b: bytes, t: Tables, acc: seq<bytes>) returns (names: seq<WString>)
    requires DecodeNames(n, b, t, acc).Ok?
    ensures var out := DecodeNames(n, b, t, acc);
            && |names| == n
            && NamesMeaning(names, t, acc) == Reads(out.value, out.tables)
            && b == WriteNames(names) + out.rest
  {
    hide DecodeString, StringMeaning, WriteString;
    if n == 0 {
      names := [];
    } else {
      var first := StringParse(b, t);
      var out := DecodeString(b, t);
      var more := NamesParse(n - 1, out.rest, out.tables, acc + [out.value]);
      names := [first] + more;
      assert names[1..] == more;
    }
  }

  /** The two trait layouts of an odd object header that the decoder does not refuse. */
  lemma HeaderOfTrait(h: nat)
    requires h % 2 == 1
    ensures h / 2 % 2 == 0 ==> h == 4 * (h / 4) + 1
    ensures h / 2 % 2 == 1 && h / 4 % 2 == 0 ==> h == 16 * (h / 16) + (if h / 8 % 2 == 1 then 8 else 0) + 3
  {
    var h2, h4 := h / 2, h / 4;
    assert h4 == h2 / 2;
    var h8 := h / 8;
    assert h8 == h4 / 2;
    assert h / 16 == h8 / 2;
  }

  lemma TraitParse(h: nat, width: nat, b: bytes, t: Tables) returns (d: WTrait)
    requires h % 2 == 1 && U29.Fits(h, width) && DecodeTrait(h, b, t).Ok?
    ensures var out := DecodeTrait(h, b, t);
            TraitMeaning(d, t) == Reads(out.value, out.tables) && U29.Form(h, width) + b == WriteTrait(d) + out.rest
  {
    hide U29.Form, U29.Fits, DecodeString, DecodeNames, StringMeaning, NamesMeaning;
    HeaderOfTrait(h);
    if h / 2 % 2 == 0 {
      d := Known(h / 4, width);
    } else {
      var className := StringParse(b, t);
      var first := DecodeString(b, t);
      var names := NamesParse(h / 16, first.rest, first.tables, []);
      d := Defined(h / 8 % 2 == 1, width, className, names);
      assert U29.Form(h, width) + b
          == WriteTrait(d) + DecodeNames(h / 16, first.rest, first.tables, []).rest;
    }
  }

  /** `w` is a layout of the value decoded from `b`. */
  ghost predicate Explains(w: Wire, b: bytes, t: Tables, out: Out<Value>) {
    out.Ok? && Meaning(w, t) == Reads(out.value, out.tables) && b == Write(w) + out.rest
  }

  lemma {:induction false} ValueParse(b: bytes, t: Tables) returns (w: Wire)
    requires DecodeValue(b, t).Ok?
    ensures Explains(w, b, t, DecodeValue(b, t))
    decreases |b|, 1
  {
    hide U29.Read, DecodeAfter, Explains;
    var marker, r := b[0], b[1..];
    assert b == [marker] + r;
    if SharesObjectTable(marker) {
      w := ComplexParse(marker, r, t);
    } else {
      w := SimpleParse(marker, r, t);
    }
  }

  lemma SimpleParse(marker: byte, r: bytes, t: Tables) returns (w: Wire)
    requires !SharesObjectTable(marker) && DecodeAfter(marker, r, t).Ok?
    ensures Explains(w, [marker] + r, t, DecodeAfter(marker, r, t))
  {
    hide U29.Read, U29.Form, U29.Fits, Ieee.FromInt, Signed, StringMeaning, WriteString, DecodeString;
    if marker == INTEGER_MARKER {
      var width := U29.ReadIsForm(r);
      w := Integer(U29.Read(r).value, width);
    } else if marker == DOUBLE_MARKER {
      w := Double(r[..8]);
      assert r == r[..8] + r[8..];
    } else if marker == STRING_MARKER {
      var s := StringParse(r, t);
      w := Text(s);
    } else {
      w := Plain(marker);
    }
  }

  /** A reference header under `marker`. */
  lemma AgainParse(marker: byte, r: bytes, t: Tables) returns (w: Wire)
    requires SharesObjectTable(marker) && DecodeAfter(marker, r, t).Ok?
    requires U29.Read(r).Got? && U29.Read(r).value % 2 == 0
    ensures Explains(w, [marker] + r, t, DecodeAfter(marker, r, t))
  {
    hide U29.Read, U29.Form, U29.Fits;
    var width := U29.ReadIsForm(r);
    var h := U29.Read(r).value;
    Halves(h);
    SharedTable(marker, h / 2, r, U29.Read(r).rest, t);
    w := Again(marker, h / 2, width);
  }

  lemma ComplexHasHeader(marker: byte, r: bytes, t: Tables)
    requires SharesObjectTable(marker) && DecodeAfter(marker, r, t).Ok?
    ensures U29.Read(r).Got?
  {
    hide U29.Read;
  }

  lemma {:induction false} ComplexParse(marker: byte, r: bytes, t: Tables) returns (w: Wire)
    requires SharesObjectTable(marker) && DecodeAfter(marker, r, t).Ok?
    ensures Explains(w, [marker] + r, t, DecodeAfter(marker, r, t))
    decreases |r|, 2
  {
    hide U29.Read, DecodeArray, DecodeObject, DecodeDate, DecodeBody, Explains;
    ComplexHasHeader(marker, r, t);
    if U29.Read(r).value % 2 == 0 {
      w := AgainParse(marker, r, t);
    } else if marker == ARRAY_MARKER {
      w := DenseParse(r, t);
    } else if marker == OBJECT_MARKER {
      w := InstanceParse(r, t);
    } else {
      w := FlatParse(marker, r, t);
    }
  }

  lemma FlatParse(marker: byte, r: bytes, t: Tables) returns (w: Wire)
    requires SharesObjectTable(marker) && marker != ARRAY_MARKER && marker != OBJECT_MARKER
    requires DecodeAfter(marker, r, t).Ok? && U29.Read(r).value % 2 == 1
    ensures Explains(w, [marker] + r, t, DecodeAfter(marker, r, t))
  {
    hide U29.Read, DecodeDate, DecodeBody, Explains;
    if marker == DATE_MARKER {
      w := DateParse(r, t);
    } else {
      w := BodyParse(marker, r, t);
    }
  }

  lemma DateParse(r: bytes, t: Tables) returns (w: Wire)
    requires DecodeDate(r, t).Ok? && U29.Read(r).value % 2 == 1
    ensures Explains(w, [DATE_MARKER] + r, t, DecodeDate(r, t))
  {
    hide U29.Read, U29.Form, U29.Fits;
    var width := U29.ReadIsForm(r);
    var h, body := U29.Read(r).value, U29.Read(r).rest;
    Halves(h);
    var millis: F64 := body[..8];
    w := DateOf(h / 2, width, millis);
    assert body == millis + body[8..];
    assert [DATE_MARKER] + r == Write(w) + body[8..];
  }

  lemma BodyParse(marker: byte, r: bytes, t: Tables) returns (w: Wire)
    requires marker == BYTE_ARRAY_MARKER || marker == XML_DOC_MARKER || marker == XML_MARKER
    requires DecodeBody(marker != BYTE_ARRAY_MARKER, r, t).Ok? && U29.Read(r).value % 2 == 1
    ensures Explains(w, [marker] + r, t, DecodeBody(marker != BYTE_ARRAY_MARKER, r, t))
  {
    hide U29.Read, U29.Form, U29.Fits, Utf8.Lossy;
    var width := U29.ReadIsForm(r);
    var h, body := U29.Read(r).value, U29.Read(r).rest;
    Halves(h);
    var raw := body[..h / 2];
    w := Body(marker, raw, width);
    assert body == raw + body[h / 2..];
    assert h == 2 * |raw| + 1;
  }

  lemma {:induction false} DenseParse(r: bytes, t: Tables) returns (w: Wire)
    requires DecodeArray(r, t).Ok? && U29.Read(r).value % 2 == 1
    ensures Explains(w, [ARRAY_MARKER] + r, t, DecodeArray(r, t))
    decreases |r|, 1
  {
    hide U29.Read, U29.Form, U29.Fits, DecodeString, DecodeItems, StringMeaning, ItemsMeaning, WriteString;
    var width := U29.ReadIsForm(r);
    var h, body := U29.Read(r).value, U29.Read(r).rest;
    Halves(h);
    var key := StringParse(body, t);
    var k := DecodeString(body, t);
    var items := ItemsParse(h / 2, k.rest, k.tables, []);
    var all := DecodeItems(h / 2, k.rest, k.tables, []);
    w := Dense(width, key, items);
    assert [ARRAY_MARKER] + r == Write(w) + all.rest;
  }

  lemma {:induction false} InstanceParse(r: bytes, t: Tables) returns (w: Wire)
    requires DecodeObject(r, t).Ok? && U29.Read(r).value % 2 == 1
    ensures Explains(w, [OBJECT_MARKER] + r, t, DecodeObject(r, t))
    decreases |r|, 1
  {
    hide U29.Read, U29.Form, U29.Fits, DecodeTrait, DecodeSealed, DecodeDynamic, TraitMeaning, SealedMeaning,
         TailMeaning, WriteTrait, WriteTail;
    var width := U29.ReadIsForm(r);
    var h, body := U29.Read(r).value, U29.Read(r).rest;
    var traits := TraitParse(h, width, body, t);
    var d := DecodeTrait(h, body, t);
    var sealed := SealedParse(d.value.sealed, d.rest, d.tables, []);
    var fixed := DecodeSealed(d.value.sealed, d.rest, d.tables, []);
    var tail, rest := TailParse(d.value.dynamic, fixed.rest, fixed.tables, fixed.value);
    w := Wire.Instance(traits, sealed, tail);
    assert [OBJECT_MARKER] + r == Write(w) + rest;
  }

  lemma {:induction false} ItemsParse(n: nat, b: bytes, t: Tables, acc: seq<Value>) returns (items: seq<Wire>)
    requires DecodeItems(n, b, t, acc).Ok?
    ensures var out := DecodeItems(n, b, t, acc);
            && |items| == n
            && ItemsMeaning(items, t, acc) == Reads(out.value, out.tables)
            && b == WriteItems(items) + out.rest
    decreases |b|, 2
  {
    hide DecodeValue, Meaning, Write;
    if n == 0 {
      items := [];
    } else {
      var first := ValueParse(b, t);
      var out := DecodeValue(b, t);
      var more := ItemsParse(n - 1, out.rest, out.tables, acc + [out.value]);
      items := [first] + more;
      assert items[1..] == more;
    }
  }

  lemma {:induction false} SealedParse(names: seq<bytes>, b: bytes, t: Tables, acc: Members)
    returns (items: seq<Wire>)
    requires DecodeSealed(names, b, t, acc).Ok?
    ensures var out := DecodeSealed(names, b, t, acc);
            && SealedMeaning(names, items, t, acc) == Reads(out.value, out.tables)
            && b == WriteItems(items) + out.rest
    decreases |b|, 2
  {
    hide DecodeValue, Meaning, Write, Insert;
    if names == [] {
      items := [];
    } else {
      var first := ValueParse(b, t);
      var out := DecodeValue(b, t);
      var more := SealedParse(names[1..], out.rest, out.tables, Insert(acc, names[0], out.value));
      items := [first] + more;
      assert items[1..] == more;
    }
  }

  lemma {:induction false} TailParse(dynamic: bool, b: bytes, t: Tables, acc: Members)
    returns (tail: WTail, rest: bytes)
    requires dynamic ==> DecodeDynamic(b, t, acc).Ok?
    ensures var out := if dynamic then DecodeDynamic(b, t, acc) else Ok(acc, b, t);
            TailMeaning(dynamic, tail, t, acc) == Reads(out.value, out.tables) && rest == out.rest
    ensures b == WriteTail(tail) + rest
    decreases |b|, 3
  {
    if dynamic {
      var members, end := DynamicParse(b, t, acc);
      tail, rest := Present(members, end), DecodeDynamic(b, t, acc).rest;
    } else {
      tail, rest := Absent, b;
    }
  }

  lemma {:induction false} DynamicParse(b: bytes, t: Tables, acc: Members)
    returns (members: seq<WMember>, end: WString)
    requires DecodeDynamic(b, t, acc).Ok?
    ensures var out := DecodeDynamic(b, t, acc);
            var m := MembersMeaning(members, t, acc);
            && m.Reads? && m.value == out.value
            && StringMeaning(end, m.tables) == Reads([], out.tables)
            && b == WriteMembers(members) + WriteString(end) + out.rest
    decreases |b|, 1
  {
    hide DecodeString, DecodeValue, StringMeaning, Meaning, Write, WriteString, Insert;
    var key := StringParse(b, t);
    var k := DecodeString(b, t);
    if k.value == [] {
      members, end := [], key;
    } else {
      var value := ValueParse(k.rest, k.tables);
      var v := DecodeValue(k.rest, k.tables);
      var more, last := DynamicParse(v.rest, v.tables, Insert(acc, k.value, v.value));
      members, end := [WMember(key, value)] + more, last;
      assert members[1..] == more;
    }
  }

  /** The decoder accepts a byte string exactly when it starts with a written tree that has a meaning,
      and then it returns that meaning and leaves exactly the bytes behind the tree. */
  lemma DecoderIsGrammar(b: bytes, t: Tables, out: Out<Value>)
    requires out.Ok?
    ensures DecodeValue(b, t) == out <==> exists w :: Explains(w, b, t, out)
  {
    hide DecodeValue, Meaning, Write;
    if DecodeValue(b, t) == out {
      var w := ValueParse(b, t);
    }
    forall w | Explains(w, b, t, out) ensures DecodeValue(b, t) == out {
      ReadsBack(w, t, out.rest);
    }
  }
}
