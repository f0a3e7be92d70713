/** What the AMF 3 decoder and encoder of rtmp/src/amf/amf3.rs compute, as functions on byte strings. */
module Amf3Spec {
  import opened Bytes
  import opened AmfValue
  import Ieee
  import U29
  import Utf8

  const UNDEFINED_MARKER: byte := 0x00
  const NULL_MARKER: byte := 0x01
  const FALSE_MARKER: byte := 0x02
  const TRUE_MARKER: byte := 0x03
  const INTEGER_MARKER: byte := 0x04
  const DOUBLE_MARKER: byte := 0x05
  const STRING_MARKER: byte := 0x06
  const XML_DOC_MARKER: byte := 0x07
  const DATE_MARKER: byte := 0x08
  const ARRAY_MARKER: byte := 0x09
  const OBJECT_MARKER: byte := 0x0a
  const XML_MARKER: byte := 0x0b
  const BYTE_ARRAY_MARKER: byte := 0x0c

  datatype Trait = Trait(className: bytes, sealed: seq<bytes>, dynamic: bool)

  /** The three reference tables of one message body. */
  datatype Tables = Tables(strings: seq<bytes>, objects: seq<Value>, traits: seq<Trait>)

  const EMPTY := Tables([], [], [])

  datatype Out<+T> = Ok(value: T, rest: bytes, tables: Tables) | Err(error: DecodeError)

  function AddString(s: bytes, t: Tables): Tables {
    if s == [] then t else t.(strings := t.strings + [s])
  }

  function AddObject(v: Value, t: Tables): Tables {
    t.(objects := t.objects + [v])
  }

  function AddTrait(d: Trait, t: Tables): Tables {
    t.(traits := t.traits + [d])
  }

  // ----- decoding -----

  function DecodeString(b: bytes, t: Tables): (r: Out<bytes>)
    ensures r.Ok? ==> |r.rest| < |b|
  {
    match U29.Read(b)
    case Short => Err(Truncated)
    case Got(h, r) =>
      if h % 2 == 0 then
        if h / 2 < |t.strings| then Ok(t.strings[h / 2], r, t) else Err(BadReference)
      else if |r| < h / 2 then Err(Truncated)
      else var s := Utf8.Lossy(r[..h / 2]); Ok(s, r[h / 2..], AddString(s, t))
  }

  /** A back-reference, under any of the markers that share the object table. */
  function Resolve(index: nat, r: bytes, t: Tables): Out<Value> {
    if index < |t.objects| then Ok(t.objects[index], r, t) else Err(BadReference)
  }

  function DecodeDate(b: bytes, t: Tables): (r: Out<Value>)
    ensures r.Ok? ==> |r.rest| < |b|
  {
    match U29.Read(b)
    case Short => Err(Truncated)
    case Got(h, r) =>
      if h % 2 == 0 then Resolve(h / 2, r, t)
      else if |r| < 8 then Err(Truncated)
      else Ok(Date(r[..8]), r[8..], AddObject(Date(r[..8]), t))
  }

  /** The shared shape of XML text and byte arrays; `text` tells them apart. */
  function DecodeBody(text: bool, b: bytes, t: Tables): (r: Out<Value>)
    ensures r.Ok? ==> |r.rest| < |b|
  {
    match U29.Read(b)
    case Short => Err(Truncated)
    case Got(h, r) =>
      if h % 2 == 0 then Resolve(h / 2, r, t)
      else if |r| < h / 2 then Err(Truncated)
      else
        var raw := r[..h / 2];
        var v := if text then XmlDoc(Utf8.Lossy(raw)) else ByteArray(raw);
        Ok(v, r[h / 2..], AddObject(v, t))
  }

  function DecodeArray(b: bytes, t: Tables): (r: Out<Value>)
    ensures r.Ok? ==> |r.rest| < |b|
    decreases |b|, 0
  {
    match U29.Read(b)
    case Short => Err(Truncated)
    case Got(h, r) =>
      if h % 2 == 0 then Resolve(h / 2, r, t)
      else
        match DecodeString(r, t)
        case Err(e) => Err(e)
        case Ok(key, r1, t1) =>
          if key != [] then Err(AssociativeArray)
          else
            match DecodeItems(h / 2, r1, t1, [])
            case Err(e) => Err(e)
            case Ok(items, r2, t2) => Ok(StrictArray(items), r2, AddObject(StrictArray(items), t2))
  }

  function DecodeItems(n: nat, b: bytes, t: Tables, acc: seq<Value>): (r: Out<seq<Value>>)
    ensures r.Ok? ==> |r.rest| <= |b|
    decreases |b|, 2
  {
    if n == 0 then Ok(acc, b, t)
    else
      match DecodeValue(b, t)
      case Err(e) => Err(e)
      case Ok(v, r, t1) => DecodeItems(n - 1, r, t1, acc + [v])
  }

  function DecodeNames(n: nat, b: bytes, t: Tables, acc: seq<bytes>): (r: Out<seq<bytes>>)
    ensures r.Ok? ==> |r.rest| <= |b|
  {
    if n == 0 then Ok(acc, b, t)
    else
      match DecodeString(b, t)
      case Err(e) => Err(e)
      case Ok(name, r, t1) => DecodeNames(n - 1, r, t1, acc + [name])
  }

  /** The trait part of an object header `h` whose low bit is 1. */
  function DecodeTrait(h: nat, b: bytes, t: Tables): (r: Out<Trait>)
    ensures r.Ok? ==> |r.rest| <= |b|
  {
    if h / 2 % 2 == 0 then
      if h / 4 < |t.traits| then Ok(t.traits[h / 4], b, t) else Err(BadReference)
    else if h / 4 % 2 == 1 then Err(Externalizable)
    else
      match DecodeString(b, t)
      case Err(e) => Err(e)
      case Ok(className, r, t1) =>
        match DecodeNames(h / 16, r, t1, [])
        case Err(e) => Err(e)
        case Ok(names, r2, t2) =>
          var d := Trait(className, names, h / 8 % 2 == 1);
          Ok(d, r2, AddTrait(d, t2))
  }

  function DecodeSealed(names: seq<bytes>, b: bytes, t: Tables, acc: Members): (r: Out<Members>)
    ensures r.Ok? ==> |r.rest| <= |b|
    decreases |b|, 2
  {
    if names == [] then Ok(acc, b, t)
    else
      match DecodeValue(b, t)
      case Err(e) => Err(e)
      case Ok(v, r, t1) => DecodeSealed(names[1..], r, t1, Insert(acc, names[0], v))
  }

  function DecodeDynamic(b: bytes, t: Tables, acc: Members): (r: Out<Members>)
    ensures r.Ok? ==> |r.rest| <= |b|
    decreases |b|, 0
  {
    match DecodeString(b, t)
    case Err(e) => Err(e)
    case Ok(key, r, t1) =>
      if key == [] then Ok(acc, r, t1)
      else
        match DecodeValue(r, t1)
        case Err(e) => Err(e)
        case Ok(v, r2, t2) => DecodeDynamic(r2, t2, Insert(acc, key, v))
  }

  function Instance(d: Trait, members: Members): Value {
    if d.className == [] then Object(members) else TypedObject(d.className, members)
  }

  function DecodeObject(b: bytes, t: Tables): (r: Out<Value>)
    ensures r.Ok? ==> |r.rest| < |b|
    decreases |b|, 0
  {
    match U29.Read(b)
    case Short => Err(Truncated)
    case Got(h, r) =>
      if h % 2 == 0 then Resolve(h / 2, r, t)
      else
        match DecodeTrait(h, r, t)
        case Err(e) => Err(e)
        case Ok(d, r1, t1) =>
          match DecodeSealed(d.sealed, r1, t1, [])
          case Err(e) => Err(e)
          case Ok(sealed, r2, t2) =>
            match (if d.dynamic then DecodeDynamic(r2, t2, sealed) else Ok(sealed, r2, t2))
            case Err(e) => Err(e)
            case Ok(members, r3, t3) => Ok(Instance(d, members), r3, AddObject(Instance(d, members), t3))
  }

  function DecodeValue(b: bytes, t: Tables): (r: Out<Value>)
    ensures r.Ok? ==> |r.rest| < |b|
    decreases |b|, 1
  {
    if b == [] then Err(Truncated) else DecodeAfter(b[0], b[1..], t)
  }

  function DecodeAfter(marker: byte, b: bytes, t: Tables): (r: Out<Value>)
    ensures r.Ok? ==> |r.rest| <= |b|
    decreases |b|, 3
  {
    match marker
    case 0x00 => Ok(Undefined, b, t)
    case 0x01 => Ok(Null, b, t)
    case 0x02 => Ok(Boolean(false), b, t)
    case 0x03 => Ok(Boolean(true), b, t)
    case 0x04 => DecodeInteger(b, t)
    case 0x05 => if |b| < 8 then Err(Truncated) else Ok(Number(b[..8]), b[8..], t)
    case 0x06 =>
      (match DecodeString(b, t)
       case Err(e) => Err(e)
       case Ok(s, r1, t1) => Ok(String(s), r1, t1))
    case 0x07 => DecodeBody(true, b, t)
    case 0x08 => DecodeDate(b, t)
    case 0x09 => DecodeArray(b, t)
    case 0x0a => DecodeObject(b, t)
    case 0x0b => DecodeBody(true, b, t)
    case 0x0c => DecodeBody(false, b, t)
    case _ => Err(Unsupported)
  }

  /** Bit 28 of the raw U29 is the sign. */
  function Signed(raw: nat): (n: int)
    requires raw < U29.LIMIT
    ensures -0x1000_0000 <= n < 0x1000_0000 && (n - raw) % U29.LIMIT == 0
  {
    if raw / 0x1000_0000 % 2 == 1 then raw - 0x2000_0000 else raw
  }

  function DecodeInteger(b: bytes, t: Tables): (r: Out<Value>)
    ensures r.Ok? ==> |r.rest| < |b|
  {
    match U29.Read(b)
    case Short => Err(Truncated)
    case Got(raw, r) => Ok(Number(Ieee.FromInt(Signed(raw))), r, t)
  }

  datatype AllResult = Values(values: seq<Value>) | Failed(error: DecodeError)

  function DecodeAllFrom(b: bytes, t: Tables, acc: seq<Value>): AllResult
    decreases |b|
  {
    if b == [] then Values(acc)
    else
      match DecodeValue(b, t)
      case Err(e) => Failed(e)
      case Ok(v, r, t1) => DecodeAllFrom(r, t1, acc + [v])
  }

  function DecodeAll(b: bytes): AllResult {
    DecodeAllFrom(b, EMPTY, [])
  }

  // ----- encoding -----

  /** `((len as u32) << 1) | 1` */
  function LenHeader(n: nat): (h: nat)
    ensures h < U29.U32
  {
    n % 0x8000_0000 * 2 + 1
  }

  function EncodeString(s: bytes): bytes {
    U29.Write(LenHeader(|s|)) + s
  }

  function Encode(v: Value): bytes {
    match v
    case Undefined => [UNDEFINED_MARKER]
    case Null => [NULL_MARKER]
    case Boolean(b) => [if b then TRUE_MARKER else FALSE_MARKER]
    case Number(n) => [DOUBLE_MARKER] + n
    case String(s) => [STRING_MARKER] + EncodeString(s)
    case XmlDoc(xml) => [XML_DOC_MARKER] + EncodeString(xml)
    case Date(millis) => [DATE_MARKER] + U29.Write(1) + millis
    case StrictArray(items) =>
      [ARRAY_MARKER] + U29.Write(LenHeader(|items|)) + EncodeString([]) + EncodeItems(items)
    case Object(m) => [OBJECT_MARKER] + EncodeBody([], m)
    case TypedObject(c, m) => [OBJECT_MARKER] + EncodeBody(c, m)
    case ByteArray(raw) => [BYTE_ARRAY_MARKER] + EncodeString(raw)
  }

  function EncodeItems(items: seq<Value>): bytes {
    if items == [] then [] else Encode(items[0]) + EncodeItems(items[1..])
  }

  function EncodeBody(className: bytes, m: Members): bytes
    decreases m, 1
  {
    U29.Write(0xb) + EncodeString(className) + EncodeMembers(m) + EncodeString([])
  }

  function EncodeMembers(m: Members): bytes
    decreases m, 0
  {
    if m == [] then [] else EncodeString(m[0].key) + Encode(m[0].value) + EncodeMembers(m[1..])
  }
}
