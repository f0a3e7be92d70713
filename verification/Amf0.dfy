/** rtmp/src/amf/amf0.rs in its own form, tied method by method to Amf0Spec. */
module Amf0 {
  import opened Bytes
  import opened AmfValue
  import opened Buffers
  import Spec = Amf0Spec
  import Utf8

  class DecodeCtx {
    var objects: seq<Value>

    constructor ()
      ensures objects == []
    {
      objects := [];
    }

    /** Only objects, typed objects and strict arrays take a place in the table. */
    method Register(v: Value)
      modifies this
      ensures objects == Spec.Register(v, old(objects))
    {
      if v.Object? || v.TypedObject? || v.StrictArray? {
        objects := objects + [v];
      }
    }
  }

  ghost predicate Agrees<T(!new)>(out: Spec.Out<T>, r: Result<T>, data: bytes, objects: seq<Value>) {
    match out
    case Ok(v, rest, objects') => r == Success(v) && data == rest && objects == objects'
    case Err(e) => r == Failure(e)
  }

  method DecodeShortString(buf: Buffer) returns (r: Result<bytes>)
    modifies buf
    ensures match Spec.DecodeShortString(old(buf.data))
            case Piece(s, rest) => r == Success(s) && buf.data == rest
            case Missing => r == Failure(Truncated)
  {
    hide Utf8.Lossy;
    if |buf.data| < 2 { return Failure(Truncated); }
    var prefix := buf.Take(2);
    var n := GetU16(prefix);
    assert n == GetU16(old(buf.data));
    if |buf.data| < n { return Failure(Truncated); }
    var raw := buf.Take(n);
    r := Success(Utf8.Lossy(raw));
  }

  method DecodeLongString(buf: Buffer) returns (r: Result<bytes>)
    modifies buf
    ensures match Spec.DecodeLongString(old(buf.data))
            case Piece(s, rest) => r == Success(s) && buf.data == rest
            case Missing => r == Failure(Truncated)
  {
    hide Utf8.Lossy;
    if |buf.data| < 4 { return Failure(Truncated); }
    var prefix := buf.Take(4);
    var n := GetU32(prefix);
    assert n == GetU32(old(buf.data));
    if |buf.data| < n { return Failure(Truncated); }
    var raw := buf.Take(n);
    r := Success(Utf8.Lossy(raw));
  }

  method DecodeBody(buf: Buffer, ctx: DecodeCtx) returns (r: Result<Members>)
    modifies buf, ctx
    ensures Agrees(Spec.DecodeBody(old(buf.data), old(ctx.objects), []), r, buf.data, ctx.objects)
    decreases |buf.data|, 0
  {
    hide Spec.DecodeShortString, Spec.DecodeValue;
    var map': Members := [];
    while true
      invariant |buf.data| <= |old(buf.data)|
      invariant Spec.DecodeBody(old(buf.data), old(ctx.objects), [])
             == Spec.DecodeBody(buf.data, ctx.objects, map')
      decreases |buf.data|
    {
      if |buf.data| < 2 { return Failure(Truncated); }
      if GetU16(buf.data) == 0 {
        var _ := buf.Take(2);
        if buf.data == [] { return Failure(Truncated); }
        var endMarker := buf.GetU8();
        if endMarker != Spec.OBJECT_END_MARKER { return Failure(BadObjectEnd); }
        return Success(map');
      }
      var key := DecodeShortString(buf);
      if key.Failure? { return Failure(key.error); }
      var value := DecodeValue(buf, ctx);
      if value.Failure? { return Failure(value.error); }
      map' := Insert(map', key.value, value.value);
    }
  }

  method DecodeItems(count: nat, buf: Buffer, ctx: DecodeCtx) returns (r: Result<seq<Value>>)
    modifies buf, ctx
    ensures Agrees(Spec.DecodeItems(count, old(buf.data), old(ctx.objects), []), r, buf.data, ctx.objects)
    decreases |buf.data|, 2
  {
    hide Spec.DecodeValue;
    var items := [];
    var i := 0;
    while i < count
      invariant i <= count && |buf.data| <= |old(buf.data)|
      invariant Spec.DecodeItems(count, old(buf.data), old(ctx.objects), [])
             == Spec.DecodeItems(count - i, buf.data, ctx.objects, items)
    {
      var item := DecodeValue(buf, ctx);
      if item.Failure? { return Failure(item.error); }
      items := items + [item.value];
      i := i + 1;
    }
    r := Success(items);
  }

  method DecodeValue(buf: Buffer, ctx: DecodeCtx) returns (r: Result<Value>)
    modifies buf, ctx
    ensures Agrees(Spec.DecodeValue(old(buf.data), old(ctx.objects)), r, buf.data, ctx.objects)
    decreases |buf.data|, 1
  {
    hide Spec.DecodeAfter;
    if buf.data == [] { return Failure(Truncated); }
    var marker := buf.GetU8();
    assert old(buf.data)[1..] == buf.data;
    if marker == Spec.REFERENCE_MARKER {
      if |buf.data| < 2 { return Failure(Truncated); }
      var index := GetU16(buf.data);
      var _ := buf.Take(2);
      if index >= |ctx.objects| { return Failure(BadReference); }
      return Success(ctx.objects[index]);
    }
    r := DecodeAfter(marker, buf, ctx);
    if r.Success? {
      ctx.Register(r.value);
    }
  }

  /** The arms of `match marker`. */
  method DecodeAfter(marker: byte, buf: Buffer, ctx: DecodeCtx) returns (r: Result<Value>)
    modifies buf, ctx
    ensures Agrees(Spec.DecodeAfter(marker, old(buf.data), old(ctx.objects)), r, buf.data, ctx.objects)
    decreases |buf.data|, 3
  {
    hide Spec.DecodeBody, Spec.DecodeItems, Spec.DecodeShortString, Spec.DecodeLongString, GetU32;
    match marker
    case 0x00 =>
      if |buf.data| < 8 { return Failure(Truncated); }
      var n := buf.Take(8);
      r := Success(Number(n));
    case 0x01 =>
      if buf.data == [] { return Failure(Truncated); }
      var b := buf.GetU8();
      assert old(buf.data)[1..] == buf.data;
      r := Success(Boolean(b != 0));
    case 0x02 =>
      var s := DecodeShortString(buf);
      r := if s.Failure? then Failure(s.error) else Success(String(s.value));
    case 0x03 =>
      var m := DecodeBody(buf, ctx);
      r := if m.Failure? then Failure(m.error) else Success(Object(m.value));
    case 0x05 => r := Success(Null);
    case 0x06 => r := Success(Undefined);
    case 0x08 =>
      if |buf.data| < 4 { return Failure(Truncated); }
      var countHint := buf.Take(4);
      var m := DecodeBody(buf, ctx);
      r := if m.Failure? then Failure(m.error) else Success(Object(m.value));
    case 0x0a =>
      if |buf.data| < 4 { return Failure(Truncated); }
      var count := GetU32(buf.data);
      var _ := buf.Take(4);
      var items := DecodeItems(count, buf, ctx);
      r := if items.Failure? then Failure(items.error) else Success(StrictArray(items.value));
    case 0x0b =>
      if |buf.data| < 10 { return Failure(Truncated); }
      var millis := buf.Take(8);
      var timezone := buf.Take(2);
      assert old(buf.data)[8..][2..] == old(buf.data)[10..];
      r := Success(Date(millis));
    case 0x0c =>
      var s := DecodeLongString(buf);
      r := if s.Failure? then Failure(s.error) else Success(String(s.value));
    case 0x0f =>
      var s := DecodeLongString(buf);
      r := if s.Failure? then Failure(s.error) else Success(XmlDoc(s.value));
    case 0x10 =>
      var c := DecodeShortString(buf);
      if c.Failure? { return Failure(c.error); }
      var m := DecodeBody(buf, ctx);
      r := if m.Failure? then Failure(m.error) else Success(TypedObject(c.value, m.value));
    case _ => r := Failure(Unsupported);
  }

  method Decode(buf: Buffer) returns (r: Result<Value>)
    modifies buf
    ensures match Spec.DecodeValue(old(buf.data), [])
            case Ok(v, rest, _) => r == Success(v) && buf.data == rest
            case Err(e) => r == Failure(e)
  {
    var ctx := new DecodeCtx();
    r := DecodeValue(buf, ctx);
  }

  method DecodeAll(body: bytes) returns (r: Result<seq<Value>>)
    ensures match Spec.DecodeAll(body)
            case Values(vs) => r == Success(vs)
            case Failed(e) => r == Failure(e)
  {
    hide Spec.DecodeValue;
    var buf := new Buffer(body);
    var ctx := new DecodeCtx();
    var values := [];
    while buf.data != []
      invariant fresh(buf) && fresh(ctx)
      invariant Spec.DecodeAll(body) == Spec.DecodeAllFrom(buf.data, ctx.objects, values)
      decreases |buf.data|
    {
      var v := DecodeValue(buf, ctx);
      if v.Failure? { return Failure(v.error); }
      values := values + [v.value];
    }
    r := Success(values);
  }

  // ----- encoding -----

  method EncodeShortString(s: bytes, out: Output)
    modifies out
    ensures out.data == old(out.data) + Spec.EncodeShortString(s)
  {
    out.Put(PutU16(|s|));
    out.Put(s);
  }

  method EncodeLongString(s: bytes, out: Output)
    modifies out
    ensures out.data == old(out.data) + Spec.EncodeLongString(s)
  {
    hide PutU32;
    out.Put(PutU32(|s|));
    out.Put(s);
  }

  method EncodeText(s: bytes, out: Output)
    modifies out
    ensures out.data == old(out.data) + Spec.Encode(String(s))
  {
    hide Spec.EncodeShortString, Spec.EncodeLongString;
    if |s| > 0xffff {
      out.Put([Spec.LONG_STRING_MARKER]);
      EncodeLongString(s, out);
    } else {
      out.Put([Spec.STRING_MARKER]);
      EncodeShortString(s, out);
    }
  }

  method EncodeDate(millis: F64, out: Output)
    modifies out
    ensures out.data == old(out.data) + Spec.Encode(Date(millis))
  {
    hide PutU16;
    out.Put([Spec.DATE_MARKER]);
    out.Put(millis);
    out.Put(PutU16(0));
  }

  method EncodeArray(items: seq<Value>, out: Output)
    requires forall i :: 0 <= i < |items| ==> Spec.HasWireForm(items[i])
    modifies out
    ensures out.data == old(out.data) + Spec.Encode(StrictArray(items))
    decreases items, 1
  {
    hide Spec.EncodeItems, Spec.HasWireForm, PutU32;
    out.Put([Spec.STRICT_ARRAY_MARKER]);
    out.Put(PutU32(|items|));
    EncodeItems(items, out);
  }

  method EncodeTyped(c: bytes, m: Members, out: Output)
    requires forall i :: 0 <= i < |m| ==> Spec.HasWireForm(m[i].value)
    modifies out
    ensures out.data == old(out.data) + Spec.Encode(TypedObject(c, m))
    decreases m, 1
  {
    hide Spec.EncodeShortString, Spec.EncodeBody, Spec.HasWireForm;
    out.Put([Spec.TYPED_OBJECT_MARKER]);
    EncodeShortString(c, out);
    EncodeBody(m, out);
  }

  method Encode(v: Value, out: Output)
    requires Spec.HasWireForm(v)
    modifies out
    ensures out.data == old(out.data) + Spec.Encode(v)
    decreases v, 0
  {
    hide Spec.EncodeShortString, Spec.EncodeLongString, Spec.EncodeBody, Spec.EncodeItems, PutU32;
    match v
    case Number(n) =>
      out.Put([Spec.NUMBER_MARKER]);
      out.Put(n);
    case Boolean(b) =>
      out.Put([Spec.BOOLEAN_MARKER]);
      out.Put([if b then 1 else 0]);
    case String(s) => EncodeText(s, out);
    case Object(m) =>
      out.Put([Spec.OBJECT_MARKER]);
      EncodeBody(m, out);
    case TypedObject(c, m) => EncodeTyped(c, m, out);
    case Null => out.Put([Spec.NULL_MARKER]);
    case Undefined => out.Put([Spec.UNDEFINED_MARKER]);
    case StrictArray(items) => EncodeArray(items, out);
    case Date(millis) => EncodeDate(millis, out);
    case XmlDoc(xml) =>
      out.Put([Spec.XML_DOCUMENT_MARKER]);
      EncodeLongString(xml, out);
  }

  method EncodeItems(items: seq<Value>, out: Output)
    requires forall i :: 0 <= i < |items| ==> Spec.HasWireForm(items[i])
    modifies out
    ensures out.data == old(out.data) + Spec.EncodeItems(items)
    decreases items, 0
  {
    hide Spec.Encode, Spec.HasWireForm;
    var i := 0;
    while i < |items|
      invariant i <= |items|
      invariant out.data + Spec.EncodeItems(items[i..]) == old(out.data) + Spec.EncodeItems(items)
    {
      ghost var before := out.data;
      Encode(items[i], out);
      assert items[i..][1..] == items[i + 1..];
      assert before + Spec.EncodeItems(items[i..]) == out.data + Spec.EncodeItems(items[i + 1..]);
      i := i + 1;
    }
  }

  method EncodeBody(m: Members, out: Output)
    requires forall i :: 0 <= i < |m| ==> Spec.HasWireForm(m[i].value)
    modifies out
    ensures out.data == old(out.data) + Spec.EncodeBody(m)
    decreases m, 0
  {
    hide Spec.Encode, Spec.HasWireForm, Spec.EncodeShortString;
    var i := 0;
    while i < |m|
      invariant i <= |m|
      invariant out.data + Spec.EncodeMembers(m[i..]) == old(out.data) + Spec.EncodeMembers(m)
    {
      ghost var before := out.data;
      EncodeShortString(m[i].key, out);
      assert m[i].value < m[i];
      Encode(m[i].value, out);
      assert m[i..][1..] == m[i + 1..];
      assert before + Spec.EncodeMembers(m[i..]) == out.data + Spec.EncodeMembers(m[i + 1..]);
      i := i + 1;
    }
    assert Spec.EncodeMembers(m[i..]) == [] && out.data == old(out.data) + Spec.EncodeMembers(m);
    out.Put(PutU16(0));
    out.Put([Spec.OBJECT_END_MARKER]);
  }
}
