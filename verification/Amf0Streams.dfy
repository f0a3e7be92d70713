/**
 AMF 0 messages that arrive in pieces, rtmp/src/amf/amf0.rs: as with AMF 3, an outcome other than "cut
 short" is final, and everything that is cut short is reported so.
 */
module Amf0Streams {
  import opened Bytes
  import opened AmfValue
  import opened Amf0Spec
  import Utf8

  /** The same outcome in front of more bytes. */
  function Before<T>(out: Out<T>, more: bytes): Out<T> {
    match out
    case Ok(v, rest, objects) => Ok(v, rest + more, objects)
    case Err(e) => Err(e)
  }

  lemma Split(b: bytes, more: bytes, n: nat)
    requires n <= |b|
    ensures (b + more)[..n] == b[..n] && (b + more)[n..] == b[n..] + more
  {
  }

  lemma ShortStays(b: bytes, more: bytes)
    requires DecodeShortString(b).Piece?
    ensures var p := DecodeShortString(b); DecodeShortString(b + more) == Piece(p.text, p.rest + more)
  {
    hide Utf8.Lossy;
    Split(b, more, 2);
    Split(b[2..], more, GetU16(b));
    assert GetU16(b + more) == GetU16(b);
  }

  lemma LongStays(b: bytes, more: bytes)
    requires DecodeLongString(b).Piece?
    ensures var p := DecodeLongString(b); DecodeLongString(b + more) == Piece(p.text, p.rest + more)
  {
    hide Utf8.Lossy;
    Split(b, more, 4);
    Split(b[4..], more, GetU32(b));
    assert GetU32(b + more) == GetU32(b);
  }

  /** An outcome other than "cut short" is final, with the bytes behind it left alone. */
  lemma {:induction false} ValueStays(b: bytes, objects: seq<Value>, more: bytes)
    requires DecodeValue(b, objects) != Err(Truncated)
    ensures DecodeValue(b + more, objects) == Before(DecodeValue(b, objects), more)
    decreases |b|, 1
  {
    hide DecodeAfter;
    Split(b, more, 1);
    if b[0] == REFERENCE_MARKER {
      Split(b, more, 3);
      assert GetU16((b + more)[1..]) == GetU16(b[1..]);
    } else {
      AfterStays(b[0], b[1..], objects, more);
    }
  }

  lemma {:induction false} AfterStays(marker: byte, b: bytes, objects: seq<Value>, more: bytes)
    requires DecodeAfter(marker, b, objects) != Err(Truncated)
    ensures DecodeAfter(marker, b + more, objects) == Before(DecodeAfter(marker, b, objects), more)
    decreases |b|, 3
  {
    hide DecodeShortString, DecodeLongString, DecodeBody, DecodeItems, GetU32;
    match marker
    case 0x00 => Split(b, more, 8);
    case 0x01 => Split(b, more, 1);
    case 0x02 => ShortStays(b, more);
    case 0x03 => BodyStays(b, objects, [], more);
    case 0x08 =>
      Split(b, more, 4);
      BodyStays(b[4..], objects, [], more);
    case 0x0a => ArrayStays(b, objects, more);
    case 0x0b =>
      Split(b, more, 8);
      Split(b, more, 10);
    case 0x0c => LongStays(b, more);
    case 0x0f => LongStays(b, more);
    case 0x10 =>
      ShortStays(b, more);
      BodyStays(DecodeShortString(b).rest, objects, [], more);
    case _ =>
  }

  lemma {:induction false} ArrayStays(b: bytes, objects: seq<Value>, more: bytes)
    requires |b| >= 4 && DecodeItems(GetU32(b), b[4..], objects, []) != Err(Truncated)
    ensures GetU32(b + more) == GetU32(b)
    ensures DecodeItems(GetU32(b), (b + more)[4..], objects, [])
         == Before(DecodeItems(GetU32(b), b[4..], objects, []), more)
    decreases |b|, 0
  {
    hide DecodeItems;
    Split(b, more, 4);
    ItemsStay(GetU32(b), b[4..], objects, [], more);
  }

  lemma {:induction false} ItemsStay(n: nat, b: bytes, objects: seq<Value>, acc: seq<Value>, more: bytes)
    requires DecodeItems(n, b, objects, acc) != Err(Truncated)
    ensures DecodeItems(n, b + more, objects, acc) == Before(DecodeItems(n, b, objects, acc), more)
    decreases |b|, 2
  {
    hide DecodeValue;
    if n > 0 {
      ValueStays(b, objects, more);
      var v := DecodeValue(b, objects);
      if v.Ok? {
        ItemsStay(n - 1, v.rest, v.objects, acc + [v.value], more);
      }
    }
  }

  lemma {:induction false} BodyStays(b: bytes, objects: seq<Value>, acc: Members, more: bytes)
    requires DecodeBody(b, objects, acc) != Err(Truncated)
    ensures DecodeBody(b + more, objects, acc) == Before(DecodeBody(b, objects, acc), more)
    decreases |b|, 0
  {
    hide DecodeShortString, DecodeValue, Insert;
    assert GetU16(b + more) == GetU16(b);
    if GetU16(b) == 0 {
      Split(b, more, 3);
    } else {
      ShortStays(b, more);
      var key := DecodeShortString(b);
      ValueStays(key.rest, objects, more);
      var v := DecodeValue(key.rest, objects);
      if v.Ok? {
        BodyStays(v.rest, v.objects, Insert(acc, key.text, v.value), more);
      }
    }
  }

  /** What has been read depends on no byte behind it, and everything shorter is reported as cut short. */
  lemma EveryBeginningIsTruncated(b: bytes, objects: seq<Value>, n: nat)
    requires DecodeValue(b, objects).Ok? && n < |b| - |DecodeValue(b, objects).rest|
    ensures DecodeValue(b[..n], objects) == Err(Truncated)
  {
    hide DecodeValue;
    assert b[..n] + b[n..] == b;
    if DecodeValue(b[..n], objects) != Err(Truncated) {
      ValueStays(b[..n], objects, b[n..]);
    }
  }

  /** A whole message body: once some value of it fails for another reason, no bytes behind can help. */
  lemma {:induction false} BodyFailsForGood(b: bytes, objects: seq<Value>, acc: seq<Value>, more: bytes)
    requires DecodeAllFrom(b, objects, acc).Failed? && DecodeAllFrom(b, objects, acc) != Failed(Truncated)
    ensures DecodeAllFrom(b + more, objects, acc) == DecodeAllFrom(b, objects, acc)
    decreases |b|
  {
    hide DecodeValue;
    ValueStays(b, objects, more);
    var v := DecodeValue(b, objects);
    if v.Ok? {
      BodyFailsForGood(v.rest, v.objects, acc + [v.value], more);
    }
  }
}
