/**
 Both decoders number a complex value when it has been read to its end; the AMF specifications number
 it where it starts (AMF 0 section 2.9, AMF 3 section 3.11). The two numberings of one message body
 agree exactly when no value that is written out contains another one that is. The sender may refer
 back to values among the first `limit` entries of the table; with limit 0 it writes everything out.
 */
module Numbering {
  import opened AmfValue

  /** The values of `v` that are written out, in the order in which they start: the same ones as in
      `Grown`, which lists them in the order in which they finish. */
  function Opened(version: Version, limit: nat, v: Value, objects: seq<Value>): seq<Value>
    decreases v, 1
  {
    if Referenced(version, limit, v, objects) then []
    else (if Registers(version, v) then [v] else []) + OpenedInside(version, limit, v, objects)
  }

  function OpenedInside(version: Version, limit: nat, v: Value, objects: seq<Value>): seq<Value>
    decreases v, 0
  {
    match v
    case StrictArray(items) => OpenedItems(version, limit, items, objects)
    case Object(m) => OpenedMembers(version, limit, m, objects)
    case TypedObject(_, m) => OpenedMembers(version, limit, m, objects)
    case _ => []
  }

  function OpenedItems(version: Version, limit: nat, items: seq<Value>, objects: seq<Value>): seq<Value>
    decreases items
  {
    if items == [] then []
    else
      Opened(version, limit, items[0], objects)
      + OpenedItems(version, limit, items[1..], objects + Grown(version, limit, items[0], objects))
  }

  function OpenedMembers(version: Version, limit: nat, m: Members, objects: seq<Value>): seq<Value>
    decreases m
  {
    if m == [] then []
    else
      assert m[0].value < m[0];
      Opened(version, limit, m[0].value, objects)
      + OpenedMembers(version, limit, m[1..], objects + Grown(version, limit, m[0].value, objects))
  }

  /** Nothing directly inside would be written out with a number of its own. */
  predicate Adds(version: Version, limit: nat, v: Value, objects: seq<Value>) {
    Registers(version, v) && !Referenced(version, limit, v, objects)
  }

  predicate Flat(version: Version, limit: nat, v: Value, objects: seq<Value>) {
    || Referenced(version, limit, v, objects)
    || match v
       case StrictArray(items) => forall i :: 0 <= i < |items| ==> !Adds(version, limit, items[i], objects)
       case Object(m) => forall i :: 0 <= i < |m| ==> !Adds(version, limit, m[i].value, objects)
       case TypedObject(_, m) => forall i :: 0 <= i < |m| ==> !Adds(version, limit, m[i].value, objects)
       case _ => true
  }

  /** Only a value with a place in the table can hold one. */
  lemma AddsNothing(version: Version, limit: nat, v: Value, objects: seq<Value>)
    requires !Adds(version, limit, v, objects)
    ensures Grown(version, limit, v, objects) == [] && Opened(version, limit, v, objects) == []
  {
  }

  lemma {:induction false} PlainItems(version: Version, limit: nat, items: seq<Value>, objects: seq<Value>)
    ensures (forall i :: 0 <= i < |items| ==> !Adds(version, limit, items[i], objects))
       <==> GrownItems(version, limit, items, objects) == []
    ensures GrownItems(version, limit, items, objects) == [] ==> OpenedItems(version, limit, items, objects) == []
  {
    hide Adds, Grown, Opened;
    if items != [] {
      if Adds(version, limit, items[0], objects) {
        AddsSomething(version, limit, items[0], objects);
      } else {
        AddsNothing(version, limit, items[0], objects);
        assert objects + [] == objects;
        PlainItems(version, limit, items[1..], objects);
        assert forall i :: 0 < i < |items| ==> items[i] == items[1..][i - 1];
      }
    }
  }

  lemma {:induction false} PlainMembers(version: Version, limit: nat, m: Members, objects: seq<Value>)
    ensures (forall i :: 0 <= i < |m| ==> !Adds(version, limit, m[i].value, objects))
       <==> GrownMembers(version, limit, m, objects) == []
    ensures GrownMembers(version, limit, m, objects) == [] ==> OpenedMembers(version, limit, m, objects) == []
  {
    hide Adds, Grown, Opened;
    if m != [] {
      if Adds(version, limit, m[0].value, objects) {
        AddsSomething(version, limit, m[0].value, objects);
      } else {
        AddsNothing(version, limit, m[0].value, objects);
        assert objects + [] == objects;
        PlainMembers(version, limit, m[1..], objects);
        assert forall i :: 0 < i < |m| ==> m[i] == m[1..][i - 1];
      }
    }
  }

  lemma AddsSomething(version: Version, limit: nat, v: Value, objects: seq<Value>)
    requires Adds(version, limit, v, objects)
    ensures Grown(version, limit, v, objects) != []
  {
  }

  lemma FlatIffPlain(version: Version, limit: nat, v: Value, objects: seq<Value>)
    requires !Referenced(version, limit, v, objects)
    ensures Flat(version, limit, v, objects) <==> GrownInside(version, limit, v, objects) == []
    ensures GrownInside(version, limit, v, objects) == [] ==> OpenedInside(version, limit, v, objects) == []
  {
    hide Adds;
    match v
    case StrictArray(items) => PlainItems(version, limit, items, objects);
    case Object(m) => PlainMembers(version, limit, m, objects);
    case TypedObject(_, m) => PlainMembers(version, limit, m, objects);
    case _ =>
  }

  // ----- a value is larger than what it contains -----

  function Size(v: Value): nat {
    match v
    case StrictArray(items) => 1 + SizeItems(items)
    case Object(m) => 1 + SizeMembers(m)
    case TypedObject(_, m) => 1 + SizeMembers(m)
    case _ => 1
  }

  function SizeItems(items: seq<Value>): nat {
    if items == [] then 0 else Size(items[0]) + SizeItems(items[1..])
  }

  function SizeMembers(m: Members): nat {
    if m == [] then 0 else Size(m[0].value) + SizeMembers(m[1..])
  }

  lemma {:induction false} CountsAgree(version: Version, limit: nat, v: Value, objects: seq<Value>)
    ensures |Grown(version, limit, v, objects)| == |Opened(version, limit, v, objects)|
    ensures |GrownInside(version, limit, v, objects)| == |OpenedInside(version, limit, v, objects)|
    ensures forall x :: x in GrownInside(version, limit, v, objects) ==> Size(x) < Size(v)
    decreases v, 1
  {
    hide Referenced;
    match v
    case StrictArray(items) => ItemCountsAgree(version, limit, items, objects);
    case Object(m) => MemberCountsAgree(version, limit, m, objects);
    case TypedObject(_, m) => MemberCountsAgree(version, limit, m, objects);
    case _ =>
  }

  lemma SmallInside(version: Version, limit: nat, v: Value, objects: seq<Value>)
    requires forall x :: x in GrownInside(version, limit, v, objects) ==> Size(x) < Size(v)
    ensures forall x :: x in Grown(version, limit, v, objects) ==> Size(x) <= Size(v)
  {
  }

  lemma {:induction false} ItemCountsAgree(version: Version, limit: nat, items: seq<Value>, objects: seq<Value>)
    ensures |GrownItems(version, limit, items, objects)| == |OpenedItems(version, limit, items, objects)|
    ensures forall x :: x in GrownItems(version, limit, items, objects) ==> Size(x) <= SizeItems(items)
    decreases items
  {
    hide Grown, Opened, Size;
    if items != [] {
      CountsAgree(version, limit, items[0], objects);
      SmallInside(version, limit, items[0], objects);
      ItemCountsAgree(version, limit, items[1..], objects + Grown(version, limit, items[0], objects));
    }
  }

  lemma {:induction false} MemberCountsAgree(version: Version, limit: nat, m: Members, objects: seq<Value>)
    ensures |GrownMembers(version, limit, m, objects)| == |OpenedMembers(version, limit, m, objects)|
    ensures forall x :: x in GrownMembers(version, limit, m, objects) ==> Size(x) <= SizeMembers(m)
    decreases m
  {
    hide Grown, Opened, Size;
    if m != [] {
      assert m[0].value < m[0];
      CountsAgree(version, limit, m[0].value, objects);
      SmallInside(version, limit, m[0].value, objects);
      MemberCountsAgree(version, limit, m[1..], objects + Grown(version, limit, m[0].value, objects));
    }
  }

  lemma RegistersOuter(version: Version, limit: nat, v: Value, objects: seq<Value>)
    requires GrownInside(version, limit, v, objects) != []
    ensures Registers(version, v)
  {
  }

  /** The i-th value is flat in the table that the ones before it leave. */
  predicate FlatAt(version: Version, limit: nat, vs: seq<Value>, objects: seq<Value>, i: nat) {
    i < |vs| && Flat(version, limit, vs[i], objects + GrownItems(version, limit, vs[..i], objects))
  }

  lemma NextTable(version: Version, limit: nat, vs: seq<Value>, objects: seq<Value>, i: nat)
    requires i < |vs| - 1
    ensures FlatAt(version, limit, vs, objects, i + 1)
         == FlatAt(version, limit, vs[1..], objects + Grown(version, limit, vs[0], objects), i)
  {
    hide Grown, Flat;
    var c := Grown(version, limit, vs[0], objects);
    assert vs[..i + 1][1..] == vs[1..][..i];
    assert objects + (c + GrownItems(version, limit, vs[1..][..i], objects + c))
        == objects + c + GrownItems(version, limit, vs[1..][..i], objects + c);
  }

  predicate EachFlat(version: Version, limit: nat, vs: seq<Value>, objects: seq<Value>) {
    forall i :: 0 <= i < |vs| ==> FlatAt(version, limit, vs, objects, i)
  }

  lemma EachOrFirst(version: Version, limit: nat, vs: seq<Value>, objects: seq<Value>)
    requires vs != []
    ensures EachFlat(version, limit, vs, objects)
       <==> FlatAt(version, limit, vs, objects, 0)
            && EachFlat(version, limit, vs[1..], objects + Grown(version, limit, vs[0], objects))
  {
    hide FlatAt;
    var table := objects + Grown(version, limit, vs[0], objects);
    if EachFlat(version, limit, vs, objects) {
      forall i | 0 <= i < |vs[1..]| ensures FlatAt(version, limit, vs[1..], table, i) {
        NextTable(version, limit, vs, objects, i);
      }
    }
    if FlatAt(version, limit, vs, objects, 0) && EachFlat(version, limit, vs[1..], table) {
      forall i | 0 <= i < |vs| ensures FlatAt(version, limit, vs, objects, i) {
        if i > 0 {
          NextTable(version, limit, vs, objects, i - 1);
        }
      }
    }
  }

  // ----- main results -----

  /** One value, in the context of a table: finishing order is starting order exactly when nothing
      directly inside is written out with a number of its own. */
  lemma OrdersAgreeIff(version: Version, limit: nat, v: Value, objects: seq<Value>)
    ensures Grown(version, limit, v, objects) == Opened(version, limit, v, objects)
       <==> Flat(version, limit, v, objects)
  {
    hide GrownInside, OpenedInside;
    CountsAgree(version, limit, v, objects);
    if !Referenced(version, limit, v, objects) {
      FlatIffPlain(version, limit, v, objects);
      var inside := GrownInside(version, limit, v, objects);
      if inside != [] {
        RegistersOuter(version, limit, v, objects);
        assert inside[0] in inside && Grown(version, limit, v, objects)[0] == inside[0];
        assert Opened(version, limit, v, objects)[0] == v;
      }
    }
  }

  /** A whole body: the index of every table entry is the specified one exactly when each top-level value
      is flat in the table it meets. */
  lemma {:induction false} BodyOrdersAgreeIff(version: Version, limit: nat, vs: seq<Value>, objects: seq<Value>)
    ensures GrownItems(version, limit, vs, objects) == OpenedItems(version, limit, vs, objects)
       <==> EachFlat(version, limit, vs, objects)
  {
    hide Grown, Opened, Flat;
    if vs != [] {
      var c, s := Grown(version, limit, vs[0], objects), Opened(version, limit, vs[0], objects);
      var cs := GrownItems(version, limit, vs[1..], objects + c);
      var ss := OpenedItems(version, limit, vs[1..], objects + c);
      CountsAgree(version, limit, vs[0], objects);
      OrdersAgreeIff(version, limit, vs[0], objects);
      BodyOrdersAgreeIff(version, limit, vs[1..], objects + c);
      if c + cs == s + ss {
        assert c == (c + cs)[..|c|] && cs == (c + cs)[|c|..];
        assert s == (s + ss)[..|c|] && ss == (s + ss)[|c|..];
      }
      assert vs[..0] == [] && objects + [] == objects;
      EachOrFirst(version, limit, vs, objects);
    }
  }

  /** Without references: the orders agree exactly when no top-level value contains a numbered one. */
  lemma InlineOrdersAgreeIff(version: Version, vs: seq<Value>)
    ensures CompletedItems(version, vs) == OpenedItems(version, 0, vs, [])
       <==> forall i :: 0 <= i < |vs| ==> CompletedInside(version, vs[i]) == []
  {
    hide Flat, FlatAt, CompletedInside;
    NoItemReferenced(version, vs, []);
    BodyOrdersAgreeIff(version, 0, vs, []);
    forall i | 0 <= i < |vs| ensures FlatAt(version, 0, vs, [], i) <==> CompletedInside(version, vs[i]) == [] {
      InlineFlat(version, vs, i);
    }
  }

  lemma InlineFlat(version: Version, vs: seq<Value>, i: nat)
    requires i < |vs|
    ensures FlatAt(version, 0, vs, [], i) <==> CompletedInside(version, vs[i]) == []
  {
    hide Flat;
    var table := [] + GrownItems(version, 0, vs[..i], []);
    FlatIffPlain(version, 0, vs[i], table);
    InsideInline(version, vs[i], table);
  }

  /** The smallest body on which the orders differ: an array with an empty array in it. */
  lemma NestedArraysDiffer(version: Version)
    ensures var inner := StrictArray([]);
            var outer := StrictArray([inner]);
            && CompletedItems(version, [outer]) == [inner, outer]
            && OpenedItems(version, 0, [outer], []) == [outer, inner]
            && CompletedItems(version, [outer]) != OpenedItems(version, 0, [outer], [])
  {
    var inner := StrictArray([]);
    var outer := StrictArray([inner]);
    assert [outer][1..] == [] && [inner][1..] == [];
    assert Completed(version, inner) == [inner] && CompletedItems(version, [inner]) == [inner];
    assert Completed(version, outer) == [inner, outer];
    assert Opened(version, 0, inner, []) == [inner] && OpenedItems(version, 0, [inner], []) == [inner];
    assert Opened(version, 0, outer, []) == [outer, inner];
    assert [inner, outer][0] == inner && [outer, inner][0] == outer;
  }

  lemma InsideInline(version: Version, v: Value, objects: seq<Value>)
    ensures GrownInside(version, 0, v, objects) == CompletedInside(version, v)
  {
    match v
    case StrictArray(items) => NoItemReferenced(version, items, objects);
    case Object(m) => NoMemberReferenced(version, m, objects);
    case TypedObject(_, m) => NoMemberReferenced(version, m, objects);
    case _ =>
  }
}
