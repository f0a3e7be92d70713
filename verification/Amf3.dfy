/** rtmp/src/amf/amf3.rs in its own form: a cursor moved in place, tables that grow, an output that
    is appended to. Each method is tied to the function of Amf3Spec that says what it computes. */
module Amf3 {
  import opened Bytes
  import opened AmfValue
  import opened Buffers
  import Ieee
  import Spec = Amf3Spec
  import U29
  import Utf8

  class DecodeCtx {
    var strings: seq<bytes>
    var objects: seq<Value>
    var traits: seq<Spec.Trait>

    constructor ()
      ensures Tables() == Spec.EMPTY
    {
      strings, objects, traits := [], [], [];
    }

    function Tables(): Spec.Tables
      reads this
    {
      Spec.Tables(strings, objects, traits)
    }
  }

  /** The method's outcome is the specified one. After a failure nothing reads the buffer again. */
  ghost predicate Agrees<T(!new)>(out: Spec.Out<T>, r: Result<T>, data: bytes, t: Spec.Tables) {
    match out
    case Ok(v, rest, t') => r == Success(v) && data == rest && t == t'
    case Err(e) => r == Failure(e)
  }

  // ----- decoding -----

  method ReadU29(buf: Buffer) returns (r: Result<nat>)
    modifies buf
    ensures match U29.Read(old(buf.data))
            case Got(v, rest) => r == Success(v) && buf.data == rest
            case Short => r == Failure(Truncated)
  {
    var result: nat := 0;
    var i := 0;
    while i < 4
      invariant i <= 3
      invariant U29.Read(old(buf.data)) == U29.ReadFrom(buf.data, i, result)
    {
      if buf.data == [] { return Failure(Truncated); }
      var b := buf.GetU8();
      if i == 3 {
        result := result * 256 + b;
        break;
      }
      result := result * 128 + U29.Low7(b);
      if b < 128 { return Success(result); }
      i := i + 1;
    }
    r := Success(result);
  }

  method DecodeString(buf: Buffer, ctx: DecodeCtx) returns (r: Result<bytes>)
    modifies buf, ctx
    ensures Agrees(Spec.DecodeString(old(buf.data), old(ctx.Tables())), r, buf.data, ctx.Tables())
  {
    hide U29.Read, Utf8.Lossy;
    var header := ReadU29(buf);
    if header.Failure? { return Failure(header.error); }
    var n := header.value / 2;
    if header.value % 2 == 0 {
      if n >= |ctx.strings| { return Failure(BadReference); }
      return Success(ctx.strings[n]);
    }
    if |buf.data| < n { return Failure(Truncated); }
    var raw := buf.Take(n);
    var s := Utf8.Lossy(raw);
    if s != [] {
      ctx.strings := ctx.strings + [s];
    }
    r := Success(s);
  }

  method Resolve(index: nat, ctx: DecodeCtx) returns (r: Result<Value>)
    ensures r == if index < |ctx.objects| then Success(ctx.objects[index]) else Failure(BadReference)
  {
    r := if index < |ctx.objects| then Success(ctx.objects[index]) else Failure(BadReference);
  }

  method DecodeDate(buf: Buffer, ctx: DecodeCtx) returns (r: Result<Value>)
    modifies buf, ctx
    ensures Agrees(Spec.DecodeDate(old(buf.data), old(ctx.Tables())), r, buf.data, ctx.Tables())
  {
    hide U29.Read;
    var header := ReadU29(buf);
    if header.Failure? { return Failure(header.error); }
    if header.value % 2 == 0 {
      r := Resolve(header.value / 2, ctx);
      return;
    }
    if |buf.data| < 8 { return Failure(Truncated); }
    var millis := buf.Take(8);
    ctx.objects := ctx.objects + [Date(millis)];
    r := Success(Date(millis));
  }

  method DecodeXmlLike(buf: Buffer, ctx: DecodeCtx) returns (r: Result<Value>)
    modifies buf, ctx
    ensures Agrees(Spec.DecodeBody(true, old(buf.data), old(ctx.Tables())), r, buf.data, ctx.Tables())
  {
    hide U29.Read, Utf8.Lossy;
    var header := ReadU29(buf);
    if header.Failure? { return Failure(header.error); }
    if header.value % 2 == 0 {
      r := Resolve(header.value / 2, ctx);
      return;
    }
    if |buf.data| < header.value / 2 { return Failure(Truncated); }
    var raw := buf.Take(header.value / 2);
    var v := XmlDoc(Utf8.Lossy(raw));
    ctx.objects := ctx.objects + [v];
    r := Success(v);
  }

  method DecodeByteArray(buf: Buffer, ctx: DecodeCtx) returns (r: Result<Value>)
    modifies buf, ctx
    ensures Agrees(Spec.DecodeBody(false, old(buf.data), old(ctx.Tables())), r, buf.data, ctx.Tables())
  {
    hide U29.Read;
    var header := ReadU29(buf);
    if header.Failure? { return Failure(header.error); }
    if header.value % 2 == 0 {
      r := Resolve(header.value / 2, ctx);
      return;
    }
    if |buf.data| < header.value / 2 { return Failure(Truncated); }
    var raw := buf.Take(header.value / 2);
    ctx.objects := ctx.objects + [ByteArray(raw)];
    r := Success(ByteArray(raw));
  }

  method DecodeArray(buf: Buffer, ctx: DecodeCtx) returns (r: Result<Value>)
    modifies buf, ctx
    ensures Agrees(Spec.DecodeArray(old(buf.data), old(ctx.Tables())), r, buf.data, ctx.Tables())
    decreases |buf.data|, 0
  {
    hide U29.Read, Spec.DecodeString, Spec.DecodeValue;
    var header := ReadU29(buf);
    if header.Failure? { return Failure(header.error); }
    if header.value % 2 == 0 {
      r := Resolve(header.value / 2, ctx);
      return;
    }
    var count := header.value / 2;
    var firstKey := DecodeString(buf, ctx);
    if firstKey.Failure? { return Failure(firstKey.error); }
    if firstKey.value != [] { return Failure(AssociativeArray); }
    var items := [];
    ghost var b0, t0 := buf.data, ctx.Tables();
    var i := 0;
    while i < count
      invariant i <= count && |buf.data| < |old(buf.data)|
      invariant Spec.DecodeItems(count, b0, t0, [])
             == Spec.DecodeItems(count - i, buf.data, ctx.Tables(), items)
    {
      var item := DecodeValue(buf, ctx);
      if item.Failure? { return Failure(item.error); }
      items := items + [item.value];
      i := i + 1;
    }
    var v := StrictArray(items);
    ctx.objects := ctx.objects + [v];
    r := Success(v);
  }

  method DecodeTrait(header: nat, buf: Buffer, ctx: DecodeCtx) returns (r: Result<Spec.Trait>)
    modifies buf, ctx
    ensures Agrees(Spec.DecodeTrait(header, old(buf.data), old(ctx.Tables())), r, buf.data, ctx.Tables())
  {
    hide Spec.DecodeString;
    if header / 2 % 2 == 0 {
      if header / 4 >= |ctx.traits| { return Failure(BadReference); }
      return Success(ctx.traits[header / 4]);
    }
    if header / 4 % 2 == 1 { return Failure(Externalizable); }
    var className := DecodeString(buf, ctx);
    if className.Failure? { return Failure(className.error); }
    var count := header / 16;
    var sealed := [];
    ghost var b0, t0 := buf.data, ctx.Tables();
    var i := 0;
    while i < count
      invariant i <= count
      invariant Spec.DecodeNames(count, b0, t0, [])
             == Spec.DecodeNames(count - i, buf.data, ctx.Tables(), sealed)
    {
      var name := DecodeString(buf, ctx);
      if name.Failure? { return Failure(name.error); }
      sealed := sealed + [name.value];
      i := i + 1;
    }
    var d := Spec.Trait(className.value, sealed, header / 8 % 2 == 1);
    ctx.traits := ctx.traits + [d];
    r := Success(d);
  }

  method DecodeObject(buf: Buffer, ctx: DecodeCtx) returns (r: Result<Value>)
    modifies buf, ctx
    ensures Agrees(Spec.DecodeObject(old(buf.data), old(ctx.Tables())), r, buf.data, ctx.Tables())
    decreases |buf.data|, 0
  {
    hide U29.Read, Spec.DecodeString, Spec.DecodeTrait, Spec.DecodeSealed, Spec.DecodeDynamic;
    var header := ReadU29(buf);
    if header.Failure? { return Failure(header.error); }
    if header.value % 2 == 0 {
      r := Resolve(header.value / 2, ctx);
      return;
    }
    var traitDef := DecodeTrait(header.value, buf, ctx);
    if traitDef.Failure? { return Failure(traitDef.error); }
    var d := traitDef.value;
    var sealed := DecodeSealed(d.sealed, buf, ctx);
    if sealed.Failure? { return Failure(sealed.error); }
    var members := sealed.value;
    if d.dynamic {
      var all := DecodeDynamic(members, buf, ctx);
      if all.Failure? { return Failure(all.error); }
      members := all.value;
    }
    var v := if d.className == [] then Object(members) else TypedObject(d.className, members);
    ctx.objects := ctx.objects + [v];
    r := Success(v);
  }

  /** The loop over the sealed member names. */
  method DecodeSealed(names: seq<bytes>, buf: Buffer, ctx: DecodeCtx) returns (r: Result<Members>)
    modifies buf, ctx
    ensures Agrees(Spec.DecodeSealed(names, old(buf.data), old(ctx.Tables()), []), r, buf.data, ctx.Tables())
    decreases |buf.data|, 2
  {
    hide Spec.DecodeValue;
    var members: Members := [];
    var i := 0;
    while i < |names|
      invariant i <= |names| && |buf.data| <= |old(buf.data)|
      invariant Spec.DecodeSealed(names, old(buf.data), old(ctx.Tables()), [])
             == Spec.DecodeSealed(names[i..], buf.data, ctx.Tables(), members)
    {
      var value := DecodeValue(buf, ctx);
      if value.Failure? { return Failure(value.error); }
      members := Insert(members, names[i], value.value);
      assert names[i..][1..] == names[i + 1..];
      i := i + 1;
    }
    r := Success(members);
  }

  /** The loop over the dynamic members, ended by an empty key. */
  method DecodeDynamic(start: Members, buf: Buffer, ctx: DecodeCtx) returns (r: Result<Members>)
    modifies buf, ctx
    ensures Agrees(Spec.DecodeDynamic(old(buf.data), old(ctx.Tables()), start), r, buf.data, ctx.Tables())
    decreases |buf.data|, 2
  {
    hide Spec.DecodeString, Spec.DecodeValue;
    var members := start;
    while true
      invariant |buf.data| <= |old(buf.data)|
      invariant Spec.DecodeDynamic(old(buf.data), old(ctx.Tables()), start)
             == Spec.DecodeDynamic(buf.data, ctx.Tables(), members)
      decreases |buf.data|
    {
      var key := DecodeString(buf, ctx);
      if key.Failure? { return Failure(key.error); }
      if key.value == [] { return Success(members); }
      var value := DecodeValue(buf, ctx);
      if value.Failure? { return Failure(value.error); }
      members := Insert(members, key.value, value.value);
    }
  }

  method DecodeValue(buf: Buffer, ctx: DecodeCtx) returns (r: Result<Value>)
    modifies buf, ctx
    ensures Agrees(Spec.DecodeValue(old(buf.data), old(ctx.Tables())), r, buf.data, ctx.Tables())
    decreases |buf.data|, 1
  {
    hide U29.Read, Spec.DecodeString, Spec.DecodeArray, Spec.DecodeObject, Spec.DecodeDate, Spec.DecodeBody,
         Ieee.FromInt;
    if buf.data == [] { return Failure(Truncated); }
    var marker := buf.GetU8();
    assert old(buf.data)[1..] == buf.data;
    match marker
    case 0x00 => r := Success(Undefined);
    case 0x01 => r := Success(Null);
    case 0x02 => r := Success(Boolean(false));
    case 0x03 => r := Success(Boolean(true));
    case 0x04 =>
      var raw := ReadU29(buf);
      if raw.Failure? { return Failure(raw.error); }
      U29.WriteIsShortest(old(buf.data)[1..]);
      r := Success(Number(Ieee.FromInt(Spec.Signed(raw.value))));
    case 0x05 =>
      if |buf.data| < 8 { return Failure(Truncated); }
      var n := buf.Take(8);
      r := Success(Number(n));
    case 0x06 =>
      var s := DecodeString(buf, ctx);
      if s.Failure? { return Failure(s.error); }
      r := Success(String(s.value));
    case 0x07 => r := DecodeXmlLike(buf, ctx);
    case 0x08 => r := DecodeDate(buf, ctx);
    case 0x09 => r := DecodeArray(buf, ctx);
    case 0x0a => r := DecodeObject(buf, ctx);
    case 0x0b => r := DecodeXmlLike(buf, ctx);
    case 0x0c => r := DecodeByteArray(buf, ctx);
    case _ => r := Failure(Unsupported);
  }

  /** Decodes one value with tables of its own. */
  method Decode(buf: Buffer) returns (r: Result<Value>)
    modifies buf
    ensures match Spec.DecodeValue(old(buf.data), Spec.EMPTY)
            case Ok(v, rest, _) => r == Success(v) && buf.data == rest
            case Err(e) => r == Failure(e)
  {
    var ctx := new DecodeCtx();
    r := DecodeValue(buf, ctx);
  }

  /** Decodes a whole message body; the tables are shared by all its values. */
  method DecodeAll(body: bytes) returns (r: Result<seq<Value>>)
    ensures match Spec.DecodeAll(body)
            case Values(vs) => r == Success(vs)
            case Failed(e) => r == Failure(e)
  {
    hide Spec.DecodeValue;
    var buf := new Buffer(body);
    var ctx := new DecodeCtx();
    var values := [];
    while buf.data != []
      invariant fresh(buf) && fresh(ctx)
      invariant Spec.DecodeAll(body) == Spec.DecodeAllFrom(buf.data, ctx.Tables(), values)
      decreases |buf.data|
    {
      var v := DecodeValue(buf, ctx);
      if v.Failure? { return Failure(v.error); }
      values := values + [v.value];
    }
    r := Success(values);
  }

  // ----- encoding -----

  method WriteU29(out: Output, value: nat)
    requires value < U29.U32
    modifies out
    ensures out.data == old(out.data) + U29.Write(value)
  {
    if value < 0x80 {
      out.Put([value]);
    } else if value < 0x4000 {
      out.Put([value / 0x80 % 128 + 128]);
      out.Put([value % 128]);
    } else if value < 0x20_0000 {
      out.Put([value / 0x4000 % 128 + 128]);
      out.Put([value / 0x80 % 128 + 128]);
      out.Put([value % 128]);
    } else {
      out.Put([value / 0x40_0000 % 128 + 128]);
      out.Put([value / 0x8000 % 128 + 128]);
      out.Put([value / 0x100 % 128 + 128]);
      out.Put([value % 256]);
    }
  }

  method EncodeString(s: bytes, out: Output)
    modifies out
    ensures out.data == old(out.data) + Spec.EncodeString(s)
  {
    hide U29.Write;
    WriteU29(out, Spec.LenHeader(|s|));
    out.Put(s);
  }

  method EncodeTagged(marker: byte, s: bytes, out: Output)
    modifies out
    ensures out.data == old(out.data) + ([marker] + Spec.EncodeString(s))
  {
    hide Spec.EncodeString;
    out.Put([marker]);
    EncodeString(s, out);
  }

  method Encode(v: Value, out: Output)
    modifies out
    ensures out.data == old(out.data) + Spec.Encode(v)
    decreases v, 0
  {
    hide U29.Write, Spec.EncodeString, Spec.EncodeItems, Spec.EncodeBody, Spec.LenHeader;
    match v
    case Undefined => out.Put([Spec.UNDEFINED_MARKER]);
    case Null => out.Put([Spec.NULL_MARKER]);
    case Boolean(b) => out.Put([if b then Spec.TRUE_MARKER else Spec.FALSE_MARKER]);
    case Number(n) =>
      out.Put([Spec.DOUBLE_MARKER]);
      out.Put(n);
    case String(s) => EncodeTagged(Spec.STRING_MARKER, s, out);
    case XmlDoc(xml) => EncodeTagged(Spec.XML_DOC_MARKER, xml, out);
    case Date(millis) => EncodeDate(millis, out);
    case StrictArray(items) => EncodeArray(items, out);
    case Object(m) =>
      out.Put([Spec.OBJECT_MARKER]);
      EncodeBody([], m, out);
    case TypedObject(c, m) =>
      out.Put([Spec.OBJECT_MARKER]);
      EncodeBody(c, m, out);
    case ByteArray(raw) => EncodeTagged(Spec.BYTE_ARRAY_MARKER, raw, out);
  }

  method EncodeDate(millis: F64, out: Output)
    modifies out
    ensures out.data == old(out.data) + Spec.Encode(Date(millis))
  {
    hide U29.Write;
    out.Put([Spec.DATE_MARKER]);
    WriteU29(out, 1);
    out.Put(millis);
  }

  method EncodeArray(items: seq<Value>, out: Output)
    modifies out
    ensures out.data == old(out.data) + Spec.Encode(StrictArray(items))
    decreases items, 1
  {
    hide U29.Write, Spec.EncodeString, Spec.EncodeItems, Spec.LenHeader;
    out.Put([Spec.ARRAY_MARKER]);
    WriteU29(out, Spec.LenHeader(|items|));
    EncodeString([], out);
    assert out.data == old(out.data)
      + ([Spec.ARRAY_MARKER] + U29.Write(Spec.LenHeader(|items|)) + Spec.EncodeString([]));
    EncodeItems(items, out);
  }

  /** `for item in items` */
  method EncodeItems(items: seq<Value>, out: Output)
    modifies out
    ensures out.data == old(out.data) + Spec.EncodeItems(items)
    decreases items, 0
  {
    hide Spec.Encode;
    var i := 0;
    while i < |items|
      invariant i <= |items|
      invariant out.data + Spec.EncodeItems(items[i..]) == old(out.data) + Spec.EncodeItems(items)
    {
      Encode(items[i], out);
      assert items[i..][1..] == items[i + 1..];
      i := i + 1;
    }
  }

  method EncodeBody(className: bytes, m: Members, out: Output)
    modifies out
    ensures out.data == old(out.data) + Spec.EncodeBody(className, m)
    decreases m
  {
    hide U29.Write, Spec.Encode, Spec.EncodeString;
    WriteU29(out, 0xb);
    EncodeString(className, out);
    ghost var head := out.data;
    var i := 0;
    while i < |m|
      invariant i <= |m|
      invariant out.data + Spec.EncodeMembers(m[i..]) == head + Spec.EncodeMembers(m)
    {
      ghost var before := out.data;
      EncodeString(m[i].key, out);
      assert m[i].value < m[i];
      Encode(m[i].value, out);
      assert m[i..][1..] == m[i + 1..];
      assert before + Spec.EncodeMembers(m[i..]) == out.data + Spec.EncodeMembers(m[i + 1..]);
      i := i + 1;
    }
    assert Spec.EncodeMembers(m[i..]) == [] && out.data == head + Spec.EncodeMembers(m);
    EncodeString([], out);
  }
}
