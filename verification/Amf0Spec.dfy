/** What the AMF 0 decoder and encoder of rtmp/src/amf/amf0.rs compute, as functions on byte strings. */
module Amf0Spec {
  import opened Bytes
  import opened AmfValue
  import Utf8

  const NUMBER_MARKER: byte := 0x00
  const BOOLEAN_MARKER: byte := 0x01
  const STRING_MARKER: byte := 0x02
  const OBJECT_MARKER: byte := 0x03
  const NULL_MARKER: byte := 0x05
  const UNDEFINED_MARKER: byte := 0x06
  const REFERENCE_MARKER: byte := 0x07
  const OBJECT_END_MARKER: byte := 0x09
  const STRICT_ARRAY_MARKER: byte := 0x0a
  const DATE_MARKER: byte := 0x0b
  const LONG_STRING_MARKER: byte := 0x0c
  const XML_DOCUMENT_MARKER: byte := 0x0f
  const TYPED_OBJECT_MARKER: byte := 0x10

  datatype Out<+T> = Ok(value: T, rest: bytes, objects: seq<Value>) | Err(error: DecodeError)

  datatype Piece = Piece(text: bytes, rest: bytes) | Missing

  // ----- decoding -----

  function DecodeShortString(b: bytes): (p: Piece)
    ensures p.Piece? ==> |p.rest| < |b|
  {
    if |b| < 2 then Missing
    else
      var n := GetU16(b);
      if |b| - 2 < n then Missing else Piece(Utf8.Lossy(b[2..][..n]), b[2..][n..])
  }

  function DecodeLongString(b: bytes): (p: Piece)
    ensures p.Piece? ==> |p.rest| < |b|
  {
    if |b| < 4 then Missing
    else
      var n := GetU32(b);
      if |b| - 4 < n then Missing else Piece(Utf8.Lossy(b[4..][..n]), b[4..][n..])
  }

  function Register(v: Value, objects: seq<Value>): seq<Value> {
    if Registers(Amf0, v) then objects + [v] else objects
  }

  /** Members up to the empty key; the byte after it must be the object end marker. */
  function DecodeBody(b: bytes, objects: seq<Value>, acc: Members): (r: Out<Members>)
    ensures r.Ok? ==> |r.rest| < |b|
    decreases |b|, 0
  {
    if |b| < 2 then Err(Truncated)
    else if GetU16(b) == 0 then
      if |b| < 3 then Err(Truncated)
      else if b[2] != OBJECT_END_MARKER then Err(BadObjectEnd)
      else Ok(acc, b[3..], objects)
    else
      match DecodeShortString(b)
      case Missing => Err(Truncated)
      case Piece(key, r) =>
        match DecodeValue(r, objects)
        case Err(e) => Err(e)
        case Ok(v, r2, objects2) => DecodeBody(r2, objects2, Insert(acc, key, v))
  }

  function DecodeItems(n: nat, b: bytes, objects: seq<Value>, acc: seq<Value>): (r: Out<seq<Value>>)
    ensures r.Ok? ==> |r.rest| <= |b|
    decreases |b|, 2
  {
    if n == 0 then Ok(acc, b, objects)
    else
      match DecodeValue(b, objects)
      case Err(e) => Err(e)
      case Ok(v, r, objects1) => DecodeItems(n - 1, r, objects1, acc + [v])
  }

  function DecodeValue(b: bytes, objects: seq<Value>): (r: Out<Value>)
    ensures r.Ok? ==> |r.rest| < |b|
    decreases |b|, 1
  {
    if b == [] then Err(Truncated)
    else if b[0] == REFERENCE_MARKER then
      if |b| < 3 then Err(Truncated)
      else
        var index := GetU16(b[1..]);
        if index < |objects| then Ok(objects[index], b[3..], objects) else Err(BadReference)
    else
      match DecodeAfter(b[0], b[1..], objects)
      case Err(e) => Err(e)
      case Ok(v, r, objects1) => Ok(v, r, Register(v, objects1))
  }

  function DecodeAfter(marker: byte, b: bytes, objects: seq<Value>): (r: Out<Value>)
    ensures r.Ok? ==> |r.rest| <= |b|
    decreases |b|, 3
  {
    match marker
    case 0x00 => if |b| < 8 then Err(Truncated) else Ok(Number(b[..8]), b[8..], objects)
    case 0x01 => if b == [] then Err(Truncated) else Ok(Boolean(b[0] != 0), b[1..], objects)
    case 0x02 =>
      (match DecodeShortString(b)
       case Missing => Err(Truncated)
       case Piece(s, r) => Ok(String(s), r, objects))
    case 0x03 =>
      (match DecodeBody(b, objects, [])
       case Err(e) => Err(e)
       case Ok(m, r, objects1) => Ok(Object(m), r, objects1))
    case 0x05 => Ok(Null, b, objects)
    case 0x06 => Ok(Undefined, b, objects)
    case 0x08 =>
      if |b| < 4 then Err(Truncated)
      else
        (match DecodeBody(b[4..], objects, [])
         case Err(e) => Err(e)
         case Ok(m, r, objects1) => Ok(Object(m), r, objects1))
    case 0x0a =>
      if |b| < 4 then Err(Truncated)
      else
        (match DecodeItems(GetU32(b), b[4..], objects, [])
         case Err(e) => Err(e)
         case Ok(items, r, objects1) => Ok(StrictArray(items), r, objects1))
    case 0x0b => if |b| < 10 then Err(Truncated) else Ok(Date(b[..8]), b[10..], objects)
    case 0x0c =>
      (match DecodeLongString(b)
       case Missing => Err(Truncated)
       case Piece(s, r) => Ok(String(s), r, objects))
    case 0x0f =>
      (match DecodeLongString(b)
       case Missing => Err(Truncated)
       case Piece(s, r) => Ok(XmlDoc(s), r, objects))
    case 0x10 =>
      (match DecodeShortString(b)
       case Missing => Err(Truncated)
       case Piece(c, r) =>
         match DecodeBody(r, objects, [])
         case Err(e) => Err(e)
         case Ok(m, r2, objects2) => Ok(TypedObject(c, m), r2, objects2))
    case _ => Err(Unsupported)
  }

  datatype AllResult = Values(values: seq<Value>) | Failed(error: DecodeError)

  function DecodeAllFrom(b: bytes, objects: seq<Value>, acc: seq<Value>): AllResult
    decreases |b|
  {
    if b == [] then Values(acc)
    else
      match DecodeValue(b, objects)
      case Err(e) => Failed(e)
      case Ok(v, r, objects1) => DecodeAllFrom(r, objects1, acc + [v])
  }

  function DecodeAll(b: bytes): AllResult {
    DecodeAllFrom(b, [], [])
  }

  // ----- encoding -----

  /** AMF 0 has no byte array; `encode` panics on one. */
  predicate HasWireForm(v: Value) {
    match v
    case ByteArray(_) => false
    case StrictArray(items) => forall i :: 0 <= i < |items| ==> HasWireForm(items[i])
    case Object(m) => forall i :: 0 <= i < |m| ==> HasWireForm(m[i].value)
    case TypedObject(_, m) => forall i :: 0 <= i < |m| ==> HasWireForm(m[i].value)
    case _ => true
  }

  function EncodeShortString(s: bytes): bytes {
    PutU16(|s|) + s
  }

  function EncodeLongString(s: bytes): bytes {
    PutU32(|s|) + s
  }

  function Encode(v: Value): bytes
    requires HasWireForm(v)
  {
    match v
    case Number(n) => [NUMBER_MARKER] + n
    case Boolean(b) => [BOOLEAN_MARKER, if b then 1 else 0]
    case String(s) =>
      if |s| > 0xffff then [LONG_STRING_MARKER] + EncodeLongString(s)
      else [STRING_MARKER] + EncodeShortString(s)
    case Object(m) => [OBJECT_MARKER] + EncodeBody(m)
    case TypedObject(c, m) => [TYPED_OBJECT_MARKER] + (EncodeShortString(c) + EncodeBody(m))
    case Null => [NULL_MARKER]
    case Undefined => [UNDEFINED_MARKER]
    case StrictArray(items) => [STRICT_ARRAY_MARKER] + (PutU32(|items|) + EncodeItems(items))
    case Date(millis) => [DATE_MARKER] + (millis + PutU16(0))
    case XmlDoc(xml) => [XML_DOCUMENT_MARKER] + EncodeLongString(xml)
  }

  function EncodeItems(items: seq<Value>): bytes
    requires forall i :: 0 <= i < |items| ==> HasWireForm(items[i])
  {
    if items == [] then [] else Encode(items[0]) + EncodeItems(items[1..])
  }

  function EncodeBody(m: Members): bytes
    requires forall i :: 0 <= i < |m| ==> HasWireForm(m[i].value)
    decreases m, 1
  {
    EncodeMembers(m) + (PutU16(0) + [OBJECT_END_MARKER])
  }

  function EncodeMembers(m: Members): bytes
    requires forall i :: 0 <= i < |m| ==> HasWireForm(m[i].value)
    decreases m, 0
  {
    if m == [] then []
    else
      assert m[0].value < m[0];
      EncodeShortString(m[0].key) + (Encode(m[0].value) + EncodeMembers(m[1..]))
  }
}
