/** The AMF 3 encoder and reference-reusing encoders, checked against the decoder through the grammar. */
module Amf3RoundTrip {
  import opened Bytes
  import opened AmfValue
  import opened Amf3Spec
  import opened Amf3Wire
  import opened Wrappers
  import U29
  import Utf8

  const MAX_LEN := 0x1000_0000     // 2^28: a length shares its U29 with one flag bit

  /** What a caller can check before sending: every length fits its header, no member key is empty
      (the empty key ends an object) and no typed object has an empty class name. */
  predicate Sendable(v: Value) {
    match v
    case String(s) => Utf8.Valid(s) && |s| < MAX_LEN
    case XmlDoc(s) => Utf8.Valid(s) && |s| < MAX_LEN
    case ByteArray(raw) => |raw| < MAX_LEN
    case StrictArray(items) =>
      |items| < MAX_LEN && forall i :: 0 <= i < |items| ==> Sendable(items[i])
    case Object(m) => SendableMembers(m)
    case TypedObject(c, m) => c != [] && SendableKey(c) && SendableMembers(m)
    case _ => true
  }

  predicate SendableKey(k: bytes) {
    Utf8.Valid(k) && |k| < MAX_LEN
  }

  predicate SendableMembers(m: Members) {
    && Sorted(m)
    && forall i :: 0 <= i < |m| ==> m[i].key != [] && SendableKey(m[i].key) && Sendable(m[i].value)
  }

  // ----- the trees an encoder writes -----

  function Width(h: nat): nat {
    if h < U29.LIMIT then U29.Shortest(h) else 0
  }

  /** How far back an encoder looks for a complex value: an index shares its U29 with one flag bit. */
  function Limit(reuse: bool): nat {
    if reuse then MAX_LEN else 0
  }

  function Inlined(s: bytes): WString {
    Inline(s, Width(2 * |s| + 1))
  }

  function StringTree(reuse: bool, s: bytes, t: Tables): WString {
    if reuse && s != [] && Find(t.strings, s, MAX_LEN).Some? then
      var i := Find(t.strings, s, MAX_LEN).value; Indexed(i, Width(2 * i))
    else Inlined(s)
  }

  function TraitTree(reuse: bool, c: bytes, t: Tables): WTrait {
    var d := Trait(c, [], true);
    if reuse && Find(t.traits, d, MAX_LEN / 2).Some? then
      var i := Find(t.traits, d, MAX_LEN / 2).value; Known(i, Width(4 * i + 1))
    else Defined(true, 1, StringTree(reuse, c, t), [])
  }

  function MarkerOf(v: Value): byte {
    match v
    case StrictArray(_) => ARRAY_MARKER
    case Date(_) => DATE_MARKER
    case XmlDoc(_) => XML_DOC_MARKER
    case ByteArray(_) => BYTE_ARRAY_MARKER
    case _ => OBJECT_MARKER
  }

  /** The tree for `v`. With `reuse`, every string, trait and complex value already in the tables
      becomes an index; without it nothing does, which is the encoder of amf3.rs. */
  function Tree(reuse: bool, v: Value, t: Tables): Wire
    decreases v
  {
    if reuse && Registers(Amf3, v) && Find(t.objects, v, MAX_LEN).Some? then
      var i := Find(t.objects, v, MAX_LEN).value; Again(MarkerOf(v), i, Width(2 * i))
    else
      match v
      case Undefined => Plain(UNDEFINED_MARKER)
      case Null => Plain(NULL_MARKER)
      case Boolean(b) => Plain(if b then TRUE_MARKER else FALSE_MARKER)
      case Number(n) => Double(n)
      case String(s) => Text(StringTree(reuse, s, t))
      case XmlDoc(xml) => Body(XML_DOC_MARKER, xml, Width(2 * |xml| + 1))
      case Date(millis) => DateOf(0, 1, millis)
      case ByteArray(raw) => Body(BYTE_ARRAY_MARKER, raw, Width(2 * |raw| + 1))
      case StrictArray(items) => Dense(Width(2 * |items| + 1), Inlined([]), ItemTrees(reuse, items, t))
      case Object(m) => InstanceTree(reuse, [], m, t)
      case TypedObject(c, m) => InstanceTree(reuse, c, m, t)
  }

  function InstanceTree(reuse: bool, c: bytes, m: Members, t: Tables): Wire
    decreases m, 1
  {
    var d := TraitTree(reuse, c, t);
    Wire.Instance(d, [], Present(MemberTrees(reuse, m, AfterTrait(d, t)), Inlined([])))
  }

  function AfterTrait(d: WTrait, t: Tables): Tables {
    match TraitMeaning(d, t) case Reads(_, t1) => t1 case Nonsense => t
  }

  function AfterString(s: WString, t: Tables): Tables {
    match StringMeaning(s, t) case Reads(_, t1) => t1 case Nonsense => t
  }

  function After(w: Wire, t: Tables): Tables {
    match Meaning(w, t) case Reads(_, t1) => t1 case Nonsense => t
  }

  function ItemTrees(reuse: bool, items: seq<Value>, t: Tables): (r: seq<Wire>)
    ensures |r| == |items|
    decreases items
  {
    if items == [] then []
    else var w := Tree(reuse, items[0], t); [w] + ItemTrees(reuse, items[1..], After(w, t))
  }

  function MemberTrees(reuse: bool, m: Members, t: Tables): seq<WMember>
    decreases m, 0
  {
    if m == [] then []
    else
      assert m[0].value < m[0];
      var k := StringTree(reuse, m[0].key, t);
      var w := Tree(reuse, m[0].value, AfterString(k, t));
      [WMember(k, w)] + MemberTrees(reuse, m[1..], After(w, AfterString(k, t)))
  }

  // ----- each tree means its value -----

  lemma StringTreeMeans(reuse: bool, s: bytes, t: Tables)
    requires SendableKey(s)
    ensures var m := StringMeaning(StringTree(reuse, s, t), t);
            && m.Reads? && m.value == s
            && m.tables.objects == t.objects
            && (s == [] ==> m.tables == t)
  {
    Utf8.LossyOfValid(s);
  }

  lemma TraitTreeMeans(reuse: bool, c: bytes, t: Tables)
    requires SendableKey(c)
    ensures var m := TraitMeaning(TraitTree(reuse, c, t), t);
            m.Reads? && m.value == Trait(c, [], true) && m.tables.objects == t.objects
  {
    hide StringMeaning, StringTree;
    StringTreeMeans(reuse, c, t);
  }

  /** A sendable value is read back from its tree whatever the tables hold, and its
      complex parts that were not there are added to the object table in the order in which they finish. */
  lemma {:induction false} TreeMeans(reuse: bool, v: Value, t: Tables)
    requires Sendable(v)
    ensures var m := Meaning(Tree(reuse, v, t), t);
            && m.Reads? && m.value == v
            && m.tables.objects == t.objects + Grown(Amf3, Limit(reuse), v, t.objects)
    decreases v, 0
  {
    hide Meaning, InstanceTree, ItemTrees, StringTree;
    if reuse && Registers(Amf3, v) && Find(t.objects, v, MAX_LEN).Some? {
      AgainMeans(v, t);
      return;
    }
    match v
    case StrictArray(items) => ArrayMeans(reuse, items, t);
    case Object(m) => InstanceMeans(reuse, [], m, t);
    case TypedObject(c, m) => InstanceMeans(reuse, c, m, t);
    case _ => LeafMeans(reuse, v, t);
  }

  lemma AgainMeans(v: Value, t: Tables)
    requires Registers(Amf3, v) && Find(t.objects, v, MAX_LEN).Some?
    ensures Meaning(Tree(true, v, t), t) == Reads(v, t)
  {
    var i := Find(t.objects, v, MAX_LEN).value;
    assert U29.Fits(2 * i, Width(2 * i));
  }

  lemma LeafMeans(reuse: bool, v: Value, t: Tables)
    requires Sendable(v) && !v.StrictArray? && !v.Object? && !v.TypedObject?
    ensures var m := Meaning(Tree(reuse, v, t), t);
            && m.Reads? && m.value == v
            && m.tables.objects == t.objects + Grown(Amf3, Limit(reuse), v, t.objects)
  {
    hide StringTree, StringMeaning, Utf8.Lossy, Utf8.Valid;
    match v
    case String(s) => StringTreeMeans(reuse, s, t);
    case XmlDoc(xml) => Utf8.LossyOfValid(xml);
    case _ =>
  }

  lemma {:induction false} ArrayMeans(reuse: bool, items: seq<Value>, t: Tables)
    requires |items| < MAX_LEN && forall i :: 0 <= i < |items| ==> Sendable(items[i])
    ensures var v := StrictArray(items);
            var m := Meaning(Tree(reuse, v, t), t);
            && m.Reads? && m.value == v
            && m.tables.objects == t.objects + Grown(Amf3, Limit(reuse), v, t.objects)
    decreases items, 1
  {
    hide ItemTrees, ItemsMeaning, StringMeaning, Sendable;
    EmptyStringMeans(t);
    ItemTreesMean(reuse, items, t, []);
    assert [] + items == items;
    assert U29.Fits(2 * |items| + 1, Width(2 * |items| + 1));
  }

  lemma EmptyStringMeans(t: Tables)
    ensures StringMeaning(Inlined([]), t) == Reads([], t)
  {
  }

  lemma {:induction false} InstanceMeans(reuse: bool, c: bytes, m: Members, t: Tables)
    requires SendableKey(c) && SendableMembers(m)
    ensures var v := Amf3Spec.Instance(Trait(c, [], true), m);
            var r := Meaning(InstanceTree(reuse, c, m, t), t);
            && r.Reads? && r.value == v
            && r.tables.objects == t.objects + (GrownMembers(Amf3, Limit(reuse), m, t.objects) + [v])
    decreases m, 1
  {
    hide TraitTree, TraitMeaning, MemberTrees, MembersMeaning, StringMeaning, Sendable, SendableKey, GrownMembers,
         Utf8.Valid, U29.Fits;
    var d := TraitTree(reuse, c, t);
    TraitTreeMeans(reuse, c, t);
    var t1 := AfterTrait(d, t);
    MemberTreesMean(reuse, m, t1, []);
    assert [] + m == m;
    var members := MemberTrees(reuse, m, t1);
    EmptyStringMeans(MembersMeaning(members, t1, []).tables);
    var tail := Present(members, Inlined([]));
    assert TailMeaning(true, tail, t1, []) == MembersMeaning(members, t1, []);
    assert SealedMeaning([], [], t1, []) == Reads([], t1);
    var read := MembersMeaning(members, t1, []);
    assert Meaning(InstanceTree(reuse, c, m, t), t)
        == Finished(Amf3Spec.Instance(Trait(c, [], true), m), read.tables);
  }

  lemma {:induction false} ItemTreesMean(reuse: bool, items: seq<Value>, t: Tables, acc: seq<Value>)
    requires forall i :: 0 <= i < |items| ==> Sendable(items[i])
    ensures var m := ItemsMeaning(ItemTrees(reuse, items, t), t, acc);
            && m.Reads? && m.value == acc + items
            && m.tables.objects == t.objects + GrownItems(Amf3, Limit(reuse), items, t.objects)
    decreases items, 0
  {
    hide Tree, Meaning, Sendable, Grown;
    if items != [] {
      TreeMeans(reuse, items[0], t);
      var w := Tree(reuse, items[0], t);
      ItemTreesMean(reuse, items[1..], After(w, t), acc + [items[0]]);
      assert acc + [items[0]] + items[1..] == acc + items;
      assert ItemTrees(reuse, items, t)[1..] == ItemTrees(reuse, items[1..], After(w, t));
    }
  }

  lemma {:induction false} MemberTreesMean(reuse: bool, m: Members, t: Tables, acc: Members)
    requires Sorted(acc + m)
    requires forall i :: 0 <= i < |m| ==> m[i].key != [] && SendableKey(m[i].key) && Sendable(m[i].value)
    ensures var r := MembersMeaning(MemberTrees(reuse, m, t), t, acc);
            && r.Reads? && r.value == acc + m
            && r.tables.objects == t.objects + GrownMembers(Amf3, Limit(reuse), m, t.objects)
    decreases m, 0
  {
    hide Tree, Meaning, Sendable, SendableKey, Grown, StringTree, StringMeaning;
    if m == [] {
      assert acc + m == acc;
    } else {
      var k := StringTree(reuse, m[0].key, t);
      StringTreeMeans(reuse, m[0].key, t);
      var t1 := AfterString(k, t);
      assert m[0].value < m[0];
      TreeMeans(reuse, m[0].value, t1);
      var w := Tree(reuse, m[0].value, t1);
      forall i | 0 <= i < |acc| ensures Less(acc[i].key, m[0].key) {
        assert (acc + m)[i] == acc[i] && (acc + m)[|acc|] == m[0];
      }
      InsertLast(acc, m[0].key, m[0].value);
      assert m[0] == Entry(m[0].key, m[0].value);
      assert acc + [m[0]] + m[1..] == acc + m;
      MemberTreesMean(reuse, m[1..], After(w, t1), acc + [m[0]]);
      assert MemberTrees(reuse, m, t)[1..] == MemberTrees(reuse, m[1..], After(w, t1));
    }
  }

  // ----- without reuse the tree is laid out as the encoder writes it -----

  lemma HeaderIsForm(n: nat)
    requires n < MAX_LEN
    ensures U29.Write(LenHeader(n)) == U29.Form(2 * n + 1, Width(2 * n + 1))
    ensures U29.Fits(2 * n + 1, Width(2 * n + 1))
  {
    assert n % 0x8000_0000 == n;
    U29.ReadWrite(2 * n + 1, []);
  }

  lemma StringIsTree(s: bytes, t: Tables)
    requires |s| < MAX_LEN
    ensures EncodeString(s) == WriteString(StringTree(false, s, t))
  {
    HeaderIsForm(|s|);
  }

  lemma {:induction false} EncodeIsTree(v: Value, t: Tables)
    requires Sendable(v)
    ensures Encode(v) == Write(Tree(false, v, t))
    decreases v, 0
  {
    match v
    case StrictArray(items) => ArrayIsTree(items, t);
    case Object(m) => BodyIsTree([], m, t);
    case TypedObject(c, m) => BodyIsTree(c, m, t);
    case _ => LeafIsTree(v, t);
  }

  lemma LeafIsTree(v: Value, t: Tables)
    requires Sendable(v) && !v.StrictArray? && !v.Object? && !v.TypedObject?
    ensures Encode(v) == Write(Tree(false, v, t))
  {
    hide U29.Write, U29.Form, U29.Fits, Width, LenHeader;
    match v
    case String(s) => StringIsTree(s, t);
    case XmlDoc(xml) => HeaderIsForm(|xml|);
    case ByteArray(raw) => HeaderIsForm(|raw|);
    case Date(_) => OneByteHeaders();
    case _ =>
  }

  lemma {:induction false} ArrayIsTree(items: seq<Value>, t: Tables)
    requires |items| < MAX_LEN && forall i :: 0 <= i < |items| ==> Sendable(items[i])
    ensures Encode(StrictArray(items)) == Write(Tree(false, StrictArray(items), t))
    decreases items, 1
  {
    hide U29.Write, U29.Form, U29.Fits, Width, LenHeader, Sendable, EncodeString, WriteString;
    HeaderIsForm(|items|);
    StringIsTree([], t);
    ItemsAreTrees(items, t);
  }

  lemma OneByteHeaders()
    ensures U29.Write(1) == U29.Form(1, 1) && U29.Write(0xb) == U29.Form(0xb, 1)
  {
  }

  lemma {:induction false} ItemsAreTrees(items: seq<Value>, t: Tables)
    requires forall i :: 0 <= i < |items| ==> Sendable(items[i])
    ensures EncodeItems(items) == WriteItems(ItemTrees(false, items, t))
    decreases items, 0
  {
    hide Encode, Write, Tree, Sendable;
    if items != [] {
      var w := Tree(false, items[0], t);
      EncodeIsTree(items[0], t);
      ItemsAreTrees(items[1..], After(w, t));
      assert ItemTrees(false, items, t)[1..] == ItemTrees(false, items[1..], After(w, t));
    }
  }

  lemma {:induction false} BodyIsTree(c: bytes, m: Members, t: Tables)
    requires SendableKey(c) && SendableMembers(m)
    ensures [OBJECT_MARKER] + EncodeBody(c, m) == Write(InstanceTree(false, c, m, t))
    decreases m, 1
  {
    hide U29.Write, U29.Form, WriteString, EncodeString, AfterTrait, StringMeaning, MemberTrees, WriteMembers,
         EncodeMembers, Sendable;
    var d := TraitTree(false, c, t);
    var t1 := AfterTrait(d, t);
    OneByteHeaders();
    StringIsTree(c, t);
    StringIsTree([], t1);
    MembersAreTrees(m, t1);
    var members := WriteMembers(MemberTrees(false, m, t1));
    assert WriteTrait(d) == U29.Form(0xb, 1) + (WriteString(Inlined(c)) + []);
    assert WriteString(Inlined(c)) + [] == WriteString(Inlined(c));
    assert WriteItems([]) + (members + WriteString(Inlined([]))) == members + WriteString(Inlined([]));
  }

  lemma {:induction false} MembersAreTrees(m: Members, t: Tables)
    requires forall i :: 0 <= i < |m| ==> SendableKey(m[i].key) && Sendable(m[i].value)
    ensures EncodeMembers(m) == WriteMembers(MemberTrees(false, m, t))
    decreases m, 0
  {
    hide Encode, Write, Tree, Sendable, WriteString, EncodeString, StringTree;
    if m != [] {
      var k := StringTree(false, m[0].key, t);
      StringIsTree(m[0].key, t);
      assert m[0].value < m[0];
      var t1 := AfterString(k, t);
      var w := Tree(false, m[0].value, t1);
      EncodeIsTree(m[0].value, t1);
      MembersAreTrees(m[1..], After(w, t1));
      assert MemberTrees(false, m, t)[1..] == MemberTrees(false, m[1..], After(w, t1));
    }
  }

  // ----- main results -----

  /** Round trip in context: any tables, any bytes behind. */
  lemma RoundTrip(v: Value, t: Tables, rest: bytes)
    requires Sendable(v)
    ensures var out := DecodeValue(Encode(v) + rest, t);
            out.Ok? && out.value == v && out.rest == rest && out.tables.objects == t.objects + Completed(Amf3, v)
  {
    hide Encode, Tree, Meaning, Write, DecodeValue, Sendable;
    TreeMeans(false, v, t);
    NothingReferenced(Amf3, v, t.objects);
    EncodeIsTree(v, t);
    ReadsBack(Tree(false, v, t), t, rest);
  }

  /** An encoder that sends indices for whatever it has already sent is decoded to the same values. */
  lemma ReuseRoundTrip(v: Value, t: Tables, rest: bytes)
    requires Sendable(v)
    ensures var out := DecodeValue(Write(Tree(true, v, t)) + rest, t);
            && out.Ok? && out.value == v && out.rest == rest && out.tables == After(Tree(true, v, t), t)
            && out.tables.objects == t.objects + Grown(Amf3, MAX_LEN, v, t.objects)
  {
    hide Tree, Meaning, Write, DecodeValue, Sendable;
    TreeMeans(true, v, t);
    ReadsBack(Tree(true, v, t), t, rest);
  }

  lemma {:induction false} DecodeAllRoundTripFrom(vs: seq<Value>, t: Tables, acc: seq<Value>)
    requires forall i :: 0 <= i < |vs| ==> Sendable(vs[i])
    ensures DecodeAllFrom(EncodeItems(vs), t, acc) == Values(acc + vs)
  {
    hide Encode, DecodeValue, Sendable;
    if vs == [] {
      assert acc + vs == acc;
    } else {
      RoundTrip(vs[0], t, EncodeItems(vs[1..]));
      var out := DecodeValue(EncodeItems(vs), t);
      assert EncodeItems(vs) != [] by { assert out.Ok?; }
      DecodeAllRoundTripFrom(vs[1..], out.tables, acc + [vs[0]]);
      assert acc + [vs[0]] + vs[1..] == acc + vs;
    }
  }

  lemma DecodeAllRoundTrip(vs: seq<Value>)
    requires forall i :: 0 <= i < |vs| ==> Sendable(vs[i])
    ensures DecodeAll(EncodeItems(vs)) == Values(vs)
  {
    DecodeAllRoundTripFrom(vs, EMPTY, []);
    assert [] + vs == vs;
  }

  /** The same for a body written with reuse: the encoder's tables follow the decoder's. */
  lemma {:induction false} DecodeAllReuse(vs: seq<Value>, t: Tables, acc: seq<Value>)
    requires forall i :: 0 <= i < |vs| ==> Sendable(vs[i])
    ensures DecodeAllFrom(WriteItems(ItemTrees(true, vs, t)), t, acc) == Values(acc + vs)
  {
    hide Tree, DecodeValue, Sendable, Write, Meaning;
    if vs == [] {
      assert acc + vs == acc;
    } else {
      var w := Tree(true, vs[0], t);
      var more := ItemTrees(true, vs[1..], After(w, t));
      assert ItemTrees(true, vs, t)[1..] == more;
      ReuseRoundTrip(vs[0], t, WriteItems(more));
      var b := WriteItems(ItemTrees(true, vs, t));
      assert b == Write(w) + WriteItems(more);
      assert b != [] by { assert DecodeValue(b, t).Ok?; }
      DecodeAllReuse(vs[1..], After(w, t), acc + [vs[0]]);
      assert acc + [vs[0]] + vs[1..] == acc + vs;
    }
  }

  /** No encoding is a prefix of a different one, so concatenations split in one way only. */
  lemma UniquelyDecodable(v1: Value, rest1: bytes, v2: Value, rest2: bytes)
    requires Sendable(v1) && Sendable(v2) && Encode(v1) + rest1 == Encode(v2) + rest2
    ensures v1 == v2 && rest1 == rest2
  {
    hide Encode, DecodeValue, Sendable;
    RoundTrip(v1, EMPTY, rest1);
    RoundTrip(v2, EMPTY, rest2);
  }

  /** A repeated complex value costs at most five bytes once it is in the table. */
  lemma RepeatIsShort(v: Value, t: Tables)
    requires Registers(Amf3, v) && v in t.objects && |t.objects| <= MAX_LEN
    ensures |Write(Tree(true, v, t))| <= 5
  {
    assert t.objects[..|t.objects|] == t.objects;
    var i := Find(t.objects, v, MAX_LEN).value;
    assert U29.Fits(2 * i, Width(2 * i));
  }
}
