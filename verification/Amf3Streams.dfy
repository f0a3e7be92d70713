/**
 AMF 3 messages that arrive in pieces, rtmp/src/amf/amf3.rs: what the decoder makes of the beginning of a
 message does not change when more of it comes, unless it has said that the message is cut short; and it
 says so of everything that is cut short.
 */
module Amf3Streams {
  import opened Bytes
  import opened AmfValue
  import opened Amf3Spec
  import U29
  import Utf8

  /** The same outcome in front of more bytes. */
  function Before<T>(out: Out<T>, more: bytes): Out<T> {
    match out
    case Ok(v, rest, t) => Ok(v, rest + more, t)
    case Err(e) => Err(e)
  }

  lemma Split(b: bytes, more: bytes, n: nat)
    requires n <= |b|
    ensures (b + more)[..n] == b[..n] && (b + more)[n..] == b[n..] + more
  {
  }

  lemma {:induction false} NumberStays(b: bytes, i: nat, result: nat, more: bytes)
    requires i <= 3 && U29.ReadFrom(b, i, result).Got?
    ensures var p := U29.ReadFrom(b, i, result); U29.ReadFrom(b + more, i, result) == U29.Got(p.value, p.rest + more)
    decreases 3 - i
  {
    Split(b, more, 1);
    if i < 3 && b[0] >= 128 {
      NumberStays(b[1..], i + 1, result * 128 + U29.Low7(b[0]), more);
    }
  }

  lemma HeaderStays(b: bytes, more: bytes)
    requires U29.Read(b).Got?
    ensures U29.Read(b + more) == U29.Got(U29.Read(b).value, U29.Read(b).rest + more)
  {
    NumberStays(b, 0, 0, more);
  }

  lemma StringStays(b: bytes, t: Tables, more: bytes)
    requires DecodeString(b, t) != Err(Truncated)
    ensures DecodeString(b + more, t) == Before(DecodeString(b, t), more)
  {
    hide U29.Read, Utf8.Lossy;
    HeaderStays(b, more);
    var Got(h, r) := U29.Read(b);
    if h % 2 == 1 {
      Split(r, more, h / 2);
    }
  }

  lemma DateStays(b: bytes, t: Tables, more: bytes)
    requires DecodeDate(b, t) != Err(Truncated)
    ensures DecodeDate(b + more, t) == Before(DecodeDate(b, t), more)
  {
    hide U29.Read;
    HeaderStays(b, more);
    var Got(h, r) := U29.Read(b);
    if h % 2 == 1 {
      Split(r, more, 8);
    }
  }

  lemma BodyStays(text: bool, b: bytes, t: Tables, more: bytes)
    requires DecodeBody(text, b, t) != Err(Truncated)
    ensures DecodeBody(text, b + more, t) == Before(DecodeBody(text, b, t), more)
  {
    hide U29.Read, Utf8.Lossy;
    HeaderStays(b, more);
    var Got(h, r) := U29.Read(b);
    if h % 2 == 1 {
      Split(r, more, h / 2);
    }
  }

  /** An outcome other than "cut short" is final, with the bytes behind it left alone. */
  lemma {:induction false} ValueStays(b: bytes, t: Tables, more: bytes)
    requires DecodeValue(b, t) != Err(Truncated)
    ensures DecodeValue(b + more, t) == Before(DecodeValue(b, t), more)
    decreases |b|, 1
  {
    hide DecodeAfter;
    Split(b, more, 1);
    AfterStays(b[0], b[1..], t, more);
  }

  lemma {:induction false} AfterStays(marker: byte, b: bytes, t: Tables, more: bytes)
    requires DecodeAfter(marker, b, t) != Err(Truncated)
    ensures DecodeAfter(marker, b + more, t) == Before(DecodeAfter(marker, b, t), more)
    decreases |b|, 3
  {
    hide DecodeString, DecodeBody, DecodeDate, DecodeArray, DecodeObject, U29.Read;
    match marker
    case 0x04 => HeaderStays(b, more);
    case 0x05 => Split(b, more, 8);
    case 0x06 => StringStays(b, t, more);
    case 0x07 => BodyStays(true, b, t, more);
    case 0x08 => DateStays(b, t, more);
    case 0x09 => ArrayStays(b, t, more);
    case 0x0a => ObjectStays(b, t, more);
    case 0x0b => BodyStays(true, b, t, more);
    case 0x0c => BodyStays(false, b, t, more);
    case _ =>
  }

  lemma {:induction false} ArrayStays(b: bytes, t: Tables, more: bytes)
    requires DecodeArray(b, t) != Err(Truncated)
    ensures DecodeArray(b + more, t) == Before(DecodeArray(b, t), more)
    decreases |b|, 0
  {
    hide U29.Read, DecodeString, DecodeItems;
    HeaderStays(b, more);
    var Got(h, r) := U29.Read(b);
    if h % 2 == 1 {
      StringStays(r, t, more);
      var key := DecodeString(r, t);
      if key.Ok? && key.value == [] {
        ItemsStay(h / 2, key.rest, key.tables, [], more);
      }
    }
  }

  lemma {:induction false} ItemsStay(n: nat, b: bytes, t: Tables, acc: seq<Value>, more: bytes)
    requires DecodeItems(n, b, t, acc) != Err(Truncated)
    ensures DecodeItems(n, b + more, t, acc) == Before(DecodeItems(n, b, t, acc), more)
    decreases |b|, 2
  {
    hide DecodeValue;
    if n > 0 {
      ValueStays(b, t, more);
      var v := DecodeValue(b, t);
      if v.Ok? {
        ItemsStay(n - 1, v.rest, v.tables, acc + [v.value], more);
      }
    }
  }

  lemma {:induction false} NamesStay(n: nat, b: bytes, t: Tables, acc: seq<bytes>, more: bytes)
    requires DecodeNames(n, b, t, acc) != Err(Truncated)
    ensures DecodeNames(n, b + more, t, acc) == Before(DecodeNames(n, b, t, acc), more)
  {
    hide DecodeString;
    if n > 0 {
      StringStays(b, t, more);
      var s := DecodeString(b, t);
      if s.Ok? {
        NamesStay(n - 1, s.rest, s.tables, acc + [s.value], more);
      }
    }
  }

  lemma TraitStays(h: nat, b: bytes, t: Tables, more: bytes)
    requires DecodeTrait(h, b, t) != Err(Truncated)
    ensures DecodeTrait(h, b + more, t) == Before(DecodeTrait(h, b, t), more)
  {
    hide DecodeString, DecodeNames;
    if h / 2 % 2 == 1 && h / 4 % 2 == 0 {
      StringStays(b, t, more);
      var c := DecodeString(b, t);
      if c.Ok? {
        NamesStay(h / 16, c.rest, c.tables, [], more);
      }
    }
  }

  lemma {:induction false} SealedStay(names: seq<bytes>, b: bytes, t: Tables, acc: Members, more: bytes)
    requires DecodeSealed(names, b, t, acc) != Err(Truncated)
    ensures DecodeSealed(names, b + more, t, acc) == Before(DecodeSealed(names, b, t, acc), more)
    decreases |b|, 2
  {
    hide DecodeValue, Insert;
    if names != [] {
      ValueStays(b, t, more);
      var v := DecodeValue(b, t);
      if v.Ok? {
        SealedStay(names[1..], v.rest, v.tables, Insert(acc, names[0], v.value), more);
      }
    }
  }

  lemma {:induction false} DynamicStay(b: bytes, t: Tables, acc: Members, more: bytes)
    requires DecodeDynamic(b, t, acc) != Err(Truncated)
    ensures DecodeDynamic(b + more, t, acc) == Before(DecodeDynamic(b, t, acc), more)
    decreases |b|, 0
  {
    hide DecodeString, DecodeValue, Insert;
    StringStays(b, t, more);
    var key := DecodeString(b, t);
    if key.Ok? && key.value != [] {
      ValueStays(key.rest, key.tables, more);
      var v := DecodeValue(key.rest, key.tables);
      if v.Ok? {
        DynamicStay(v.rest, v.tables, Insert(acc, key.value, v.value), more);
      }
    }
  }

  lemma {:induction false} ObjectStays(b: bytes, t: Tables, more: bytes)
    requires DecodeObject(b, t) != Err(Truncated)
    ensures DecodeObject(b + more, t) == Before(DecodeObject(b, t), more)
    decreases |b|, 0
  {
    hide U29.Read, DecodeTrait, DecodeSealed, DecodeDynamic;
    HeaderStays(b, more);
    var Got(h, r) := U29.Read(b);
    if h % 2 == 1 {
      TraitStays(h, r, t, more);
      var d := DecodeTrait(h, r, t);
      if d.Ok? {
        SealedStay(d.value.sealed, d.rest, d.tables, [], more);
        var fixed := DecodeSealed(d.value.sealed, d.rest, d.tables, []);
        if fixed.Ok? && d.value.dynamic {
          DynamicStay(fixed.rest, fixed.tables, fixed.value, more);
        }
      }
    }
  }

  /** What has been read depends on no byte behind it, and everything shorter is reported as cut short. */
  lemma EveryBeginningIsTruncated(b: bytes, t: Tables, n: nat)
    requires DecodeValue(b, t).Ok? && n < |b| - |DecodeValue(b, t).rest|
    ensures DecodeValue(b[..n], t) == Err(Truncated)
  {
    hide DecodeValue;
    assert b[..n] + b[n..] == b;
    if DecodeValue(b[..n], t) != Err(Truncated) {
      ValueStays(b[..n], t, b[n..]);
    }
  }

  /** A whole message body: once some value of it fails for another reason, no bytes behind can help. */
  lemma {:induction false} BodyFailsForGood(b: bytes, t: Tables, acc: seq<Value>, more: bytes)
    requires DecodeAllFrom(b, t, acc).Failed? && DecodeAllFrom(b, t, acc) != Failed(Truncated)
    ensures DecodeAllFrom(b + more, t, acc) == DecodeAllFrom(b, t, acc)
    decreases |b|
  {
    hide DecodeValue;
    ValueStays(b, t, more);
    var v := DecodeValue(b, t);
    if v.Ok? {
      BodyFailsForGood(v.rest, v.tables, acc + [v.value], more);
    }
  }
}
