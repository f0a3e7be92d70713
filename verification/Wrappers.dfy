/** What every other module may need. */
module Wrappers {
  datatype Option<+T> = None | Some(value: T)

  predicate NoRepeats(xs: seq<string>) {
    forall i, j :: 0 <= i < j < |xs| ==> xs[i] != xs[j]
  }

  /** The first place of `x` among the first `limit` of `xs`. */
  function Find<T(==)>(xs: seq<T>, x: T, limit: nat): (r: Option<nat>)
    ensures r.Some? ==> r.value < |xs| && r.value < limit && xs[r.value] == x
    ensures r.None? ==> x !in xs[..if |xs| < limit then |xs| else limit]
  {
    if xs == [] || limit == 0 then None
    else if xs[0] == x then Some(0)
    else
      match Find(xs[1..], x, limit - 1)
      case None => None
      case Some(i) => Some(i + 1)
  }

  lemma {:induction false} ShiftKeepsSize(xs: set<int>, ys: set<int>)
    requires forall i :: i in ys <==> i - 1 in xs
    ensures |ys| == |xs|
  {
    if xs != {} {
      var x := SomeElement(xs);
      assert (x + 1) - 1 == x;
      ShiftKeepsSize(xs - {x}, ys - {x + 1});
    } else {
      assert forall y :: y in ys ==> y - 1 in xs;
      assert ys == {};
    }
  }

  lemma SomeElement<T>(s: set<T>) returns (x: T)
    requires s != {}
    ensures x in s
  {
    assert |s| > 0;
    x :| x in s;
  }

  /** The first text is before the second: behind what they have in common it ends, or has the smaller
      character. */
  predicate TextBefore(a: string, b: string) {
    exists k :: 0 <= k < |b| && BreaksAt(a, b, k)
  }

  predicate BreaksAt(a: string, b: string, k: nat) {
    k < |b| && k <= |a| && a[..k] == b[..k] && (k == |a| || a[k] < b[k])
  }

  lemma TextBeforeFirst(a: string, b: string)
    ensures a == [] ==> (TextBefore(a, b) <==> b != [])
    ensures b == [] ==> !TextBefore(a, b)
    ensures a != [] && b != [] && a[0] != b[0] ==> (TextBefore(a, b) <==> a[0] < b[0])
  {
    if b != [] {
      assert a[..0] == b[..0];
      assert a == [] || a[0] < b[0] ==> BreaksAt(a, b, 0);
    }
    if a != [] && b != [] && TextBefore(a, b) {
      var k :| 0 <= k < |b| && BreaksAt(a, b, k);
      assert a[..k] == b[..k];
      assert k > 0 ==> a[0] == a[..k][0] && b[0] == b[..k][0];
    }
  }

  lemma TextBeforeRest(a: string, b: string)
    requires a != [] && b != [] && a[0] == b[0]
    ensures TextBefore(a, b) <==> TextBefore(a[1..], b[1..])
  {
    assert a == [a[0]] + a[1..] && b == [b[0]] + b[1..];
    if TextBefore(a[1..], b[1..]) {
      var k :| 0 <= k < |b[1..]| && BreaksAt(a[1..], b[1..], k);
      assert a[..k + 1] == [a[0]] + a[1..][..k] && b[..k + 1] == [b[0]] + b[1..][..k];
      assert BreaksAt(a, b, k + 1);
    }
    if TextBefore(a, b) {
      var k :| 0 <= k < |b| && BreaksAt(a, b, k);
      assert a[1..][..k - 1] == a[..k][1..] == b[..k][1..] == b[1..][..k - 1];
      assert BreaksAt(a[1..], b[1..], k - 1);
    }
  }
}
