/** The tree both codecs decode into and encode from: rtmp/src/amf/value.rs. */
module AmfValue {
  import opened Bytes
  import opened Wrappers
  import Utf8

  /** `BTreeMap<String, AmfValue>`: its entries in iteration order. */
  type Members = seq<Entry>

  datatype Entry = Entry(key: bytes, value: Value)

  datatype Value =
    | Undefined
    | Null
    | Boolean(b: bool)
    | Number(n: F64)
    | String(s: bytes)
    | XmlDoc(xml: bytes)
    | Date(millis: F64)
    | ByteArray(raw: bytes)
    | StrictArray(items: seq<Value>)
    | Object(members: Members)
    | TypedObject(className: bytes, members: Members)

  datatype DecodeError =
    | Truncated | BadReference | BadObjectEnd | AssociativeArray | Externalizable | Unsupported

  predicate Sorted(m: Members) {
    forall i, j :: 0 <= i < j < |m| ==> Less(m[i].key, m[j].key)
  }

  /** What the Rust types guarantee of any value: text is UTF-8, map entries are sorted. */
  predicate Representable(v: Value) {
    match v
    case String(s) => Utf8.Valid(s)
    case XmlDoc(s) => Utf8.Valid(s)
    case StrictArray(items) => forall i :: 0 <= i < |items| ==> Representable(items[i])
    case Object(m) => RepresentableMembers(m)
    case TypedObject(c, m) => Utf8.Valid(c) && RepresentableMembers(m)
    case _ => true
  }

  predicate RepresentableMembers(m: Members) {
    && Sorted(m)
    && forall i :: 0 <= i < |m| ==> Utf8.Valid(m[i].key) && Representable(m[i].value)
  }

  /** `BTreeMap::insert` on the entry list. */
  function Insert(m: Members, k: bytes, v: Value): Members {
    if m == [] || Less(k, m[0].key) then [Entry(k, v)] + m
    else if k == m[0].key then [Entry(k, v)] + m[1..]
    else [m[0]] + Insert(m[1..], k, v)
  }

  lemma {:induction false} InsertKeepsSorted(m: Members, k: bytes, v: Value)
    requires Sorted(m)
    ensures Sorted(Insert(m, k, v))
    ensures forall e :: e in Insert(m, k, v) ==> e == Entry(k, v) || e in m
  {
    if m == [] {
    } else if Less(k, m[0].key) {
      forall j | 0 <= j < |m| ensures Less(k, m[j].key) {
        if j > 0 { LessTransitive(k, m[0].key, m[j].key); }
      }
    } else if k != m[0].key {
      LessTotal(k, m[0].key);
      InsertKeepsSorted(m[1..], k, v);
      var rest := Insert(m[1..], k, v);
      forall j | 0 <= j < |rest| ensures Less(m[0].key, rest[j].key) {
        assert rest[j] in rest;
      }
    }
  }

  lemma {:induction false} InsertRepresentable(m: Members, k: bytes, v: Value)
    requires RepresentableMembers(m) && Utf8.Valid(k) && Representable(v)
    ensures RepresentableMembers(Insert(m, k, v))
  {
    InsertKeepsSorted(m, k, v);
    var r := Insert(m, k, v);
    forall i | 0 <= i < |r| ensures Utf8.Valid(r[i].key) && Representable(r[i].value) {
      assert r[i] in r;
    }
  }

  /** Inserting in key order appends, which is why decoding an encoded map rebuilds it. */
  lemma {:induction false} InsertLast(m: Members, k: bytes, v: Value)
    requires forall i :: 0 <= i < |m| ==> Less(m[i].key, k)
    ensures Insert(m, k, v) == m + [Entry(k, v)]
  {
    if m != [] {
      LessTotal(m[0].key, k);
      InsertLast(m[1..], k, v);
    }
  }

  function Lookup(m: Members, k: bytes): Option<Value> {
    if m == [] then None
    else if m[0].key == k then Some(m[0].value)
    else Lookup(m[1..], k)
  }

  /** `Insert` is map update: the new key reads back, every other key reads as before. */
  lemma {:induction false} InsertIsUpdate(m: Members, k: bytes, v: Value, probe: bytes)
    requires Sorted(m)
    ensures Lookup(Insert(m, k, v), probe) == if probe == k then Some(v) else Lookup(m, probe)
  {
    if m != [] && !Less(k, m[0].key) && k != m[0].key {
      InsertIsUpdate(m[1..], k, v, probe);
    }
  }

  /** The values kept in a reference table: AMF 0 and AMF 3 differ in which types count. */
  datatype Version = Amf0 | Amf3

  predicate Registers(version: Version, v: Value) {
    match v
    case StrictArray(_) => true
    case Object(_) => true
    case TypedObject(_, _) => true
    case XmlDoc(_) => version.Amf3?
    case Date(_) => version.Amf3?
    case ByteArray(_) => version.Amf3?
    case _ => false
  }

  /** Table entries one value adds, in the order in which decoding finishes them. */
  function Completed(version: Version, v: Value): seq<Value>
    decreases v, 1
  {
    CompletedInside(version, v) + if Registers(version, v) then [v] else []
  }

  function CompletedInside(version: Version, v: Value): seq<Value>
    decreases v, 0
  {
    match v
    case StrictArray(items) => CompletedItems(version, items)
    case Object(m) => CompletedMembers(version, m)
    case TypedObject(_, m) => CompletedMembers(version, m)
    case _ => []
  }

  function CompletedItems(version: Version, items: seq<Value>): seq<Value>
    decreases items
  {
    if items == [] then [] else Completed(version, items[0]) + CompletedItems(version, items[1..])
  }

  function CompletedMembers(version: Version, m: Members): seq<Value>
    decreases m
  {
    if m == [] then [] else Completed(version, m[0].value) + CompletedMembers(version, m[1..])
  }

  // ----- with references -----

  /** Table entries added by a sender that writes an index for a value found among the first `limit`
      entries, in the order in which decoding finishes them. With no limit left nothing is found. */
  function Grown(version: Version, limit: nat, v: Value, objects: seq<Value>): seq<Value>
    decreases v, 1
  {
    if Referenced(version, limit, v, objects) then []
    else GrownInside(version, limit, v, objects) + if Registers(version, v) then [v] else []
  }

  predicate Referenced(version: Version, limit: nat, v: Value, objects: seq<Value>) {
    Registers(version, v) && Find(objects, v, limit).Some?
  }

  function GrownInside(version: Version, limit: nat, v: Value, objects: seq<Value>): seq<Value>
    decreases v, 0
  {
    match v
    case StrictArray(items) => GrownItems(version, limit, items, objects)
    case Object(m) => GrownMembers(version, limit, m, objects)
    case TypedObject(_, m) => GrownMembers(version, limit, m, objects)
    case _ => []
  }

  function GrownItems(version: Version, limit: nat, items: seq<Value>, objects: seq<Value>): seq<Value>
    decreases items
  {
    if items == [] then []
    else
      var first := Grown(version, limit, items[0], objects);
      first + GrownItems(version, limit, items[1..], objects + first)
  }

  function GrownMembers(version: Version, limit: nat, m: Members, objects: seq<Value>): seq<Value>
    decreases m
  {
    if m == [] then []
    else
      var first := Grown(version, limit, m[0].value, objects);
      first + GrownMembers(version, limit, m[1..], objects + first)
  }

  lemma {:induction false} NothingReferenced(version: Version, v: Value, objects: seq<Value>)
    ensures Grown(version, 0, v, objects) == Completed(version, v)
    decreases v, 1
  {
    match v
    case StrictArray(items) => NoItemReferenced(version, items, objects);
    case Object(m) => NoMemberReferenced(version, m, objects);
    case TypedObject(_, m) => NoMemberReferenced(version, m, objects);
    case _ =>
  }

  lemma {:induction false} NoItemReferenced(version: Version, items: seq<Value>, objects: seq<Value>)
    ensures GrownItems(version, 0, items, objects) == CompletedItems(version, items)
    decreases items
  {
    if items != [] {
      NothingReferenced(version, items[0], objects);
      NoItemReferenced(version, items[1..], objects + Completed(version, items[0]));
    }
  }

  lemma {:induction false} NoMemberReferenced(version: Version, m: Members, objects: seq<Value>)
    ensures GrownMembers(version, 0, m, objects) == CompletedMembers(version, m)
    decreases m
  {
    if m != [] {
      assert m[0].value < m[0];
      NothingReferenced(version, m[0].value, objects);
      NoMemberReferenced(version, m[1..], objects + Completed(version, m[0].value));
    }
  }
}
