/** Finite sets visited in the order of their elements, as iteration over a std::map visits its keys. */
module Ordered {

  ghost predicate TotalOrder<T(!new)>(le: (T, T) -> bool) {
    && (forall x, y :: le(x, y) || le(y, x))
    && (forall x, y :: le(x, y) && le(y, x) ==> x == y)
    && (forall x, y, z :: le(x, y) && le(y, z) ==> le(x, z))
  }

  ghost predicate IsLeast<T>(x: T, s: set<T>, le: (T, T) -> bool) {
    x in s && forall y | y in s :: le(x, y)
  }

  /** r lists s once each, in ascending order. */
  ghost predicate Enumerates<T(!new)>(r: seq<T>, s: set<T>, le: (T, T) -> bool) {
    && (forall x :: x in r <==> x in s)
    && (forall i, j | 0 <= i < j < |r| :: r[i] != r[j] && le(r[i], r[j]))
  }

  lemma {:induction false} LeastExists<T(!new)>(s: set<T>, le: (T, T) -> bool) returns (least: T)
    requires TotalOrder(le)
    requires s != {}
    ensures IsLeast(least, s, le)
    decreases |s|
  {
    var x :| x in s;
    if s == {x} {
      least := x;
    } else {
      assert s == (s - {x}) + {x};
      var y := LeastExists(s - {x}, le);
      least := if le(x, y) then x else y;
    }
  }

  ghost function Least<T(!new)>(s: set<T>, le: (T, T) -> bool): (least: T)
    requires TotalOrder(le)
    requires s != {}
    ensures IsLeast(least, s, le)
  {
    assert exists x :: IsLeast(x, s, le) by {
      var x := LeastExists(s, le);
      assert IsLeast(x, s, le);
    }
    var x :| IsLeast(x, s, le);
    x
  }

  ghost function Ascending<T(!new)>(s: set<T>, le: (T, T) -> bool): (r: seq<T>)
    requires TotalOrder(le)
    ensures Enumerates(r, s, le)
    decreases |s|
  {
    if s == {} then
      []
    else
      var x := Least(s, le);
      [x] + Ascending(s - {x}, le)
  }

  /** There is only one ascending listing, so a loop that builds one has built Ascending. */
  lemma {:induction false} EnumerationUnique<T(!new)>(a: seq<T>, b: seq<T>, s: set<T>, le: (T, T) -> bool)
    requires TotalOrder(le)
    requires Enumerates(a, s, le) && Enumerates(b, s, le)
    ensures a == b
    decreases |a|
  {
    if a == [] {
      assert forall i | 0 <= i < |b| :: b[i] in b;
    } else {
      assert a[0] in s;
      assert b != [];
      assert a[0] in b && b[0] in s && b[0] in a;
      assert a[0] == b[0];
      var s' := s - {a[0]};
      forall x ensures x in a[1..] <==> x in s' {
        if x in a[1..] {
          var i :| 0 <= i < |a[1..]| && a[1..][i] == x;
          assert a[i + 1] == x;
          assert a[i + 1] in a;
        }
        if x in s' {
          var i :| 0 <= i < |a| && a[i] == x;
          assert a[1..][i - 1] == x;
        }
      }
      forall x ensures x in b[1..] <==> x in s' {
        if x in b[1..] {
          var i :| 0 <= i < |b[1..]| && b[1..][i] == x;
          assert b[i + 1] == x;
          assert b[i + 1] in b;
        }
        if x in s' {
          var i :| 0 <= i < |b| && b[i] == x;
          assert b[1..][i - 1] == x;
        }
      }
      EnumerationUnique(a[1..], b[1..], s', le);
    }
  }

  /** An in-order visit of all has reached rest, having seen done. */
  ghost predicate Visiting<T(!new)>(done: seq<T>, rest: set<T>, all: set<T>, le: (T, T) -> bool) {
    && rest <= all
    && Enumerates(done, all - rest, le)
    && (forall v, w | v in all - rest && w in rest :: le(v, w))
  }

  lemma VisitNext<T(!new)>(done: seq<T>, x: T, rest: set<T>, all: set<T>, le: (T, T) -> bool)
    requires TotalOrder(le)
    requires Visiting(done, rest, all, le)
    requires IsLeast(x, rest, le)
    ensures Visiting(done + [x], rest - {x}, all, le)
  {
  }

  lemma VisitEnds<T(!new)>(done: seq<T>, all: set<T>, le: (T, T) -> bool)
    requires TotalOrder(le)
    requires Visiting(done, {}, all, le)
    ensures done == Ascending(all, le)
  {
    assert all - {} == all;
    EnumerationUnique(done, Ascending(all, le), all, le);
  }

  /** The elements of r that are in keep. */
  function Selected<T(==)>(r: seq<T>, keep: set<T>): seq<T> {
    if r == [] then []
    else
      var before := Selected(r[..|r| - 1], keep);
      if r[|r| - 1] in keep then before + [r[|r| - 1]] else before
  }

  lemma {:induction false} SelectedEnumerates<T(!new)>(r: seq<T>, s: set<T>, keep: set<T>, le: (T, T) -> bool)
    requires Enumerates(r, s, le)
    ensures Enumerates(Selected(r, keep), s * keep, le)
    decreases |r|
  {
    if r != [] {
      var n := |r| - 1;
      var before := Selected(r[..n], keep);
      assert r == r[..n] + [r[n]];
      SelectedEnumerates(r[..n], s - {r[n]}, keep, le);
      forall i | 0 <= i < |before| ensures before[i] != r[n] && le(before[i], r[n]) {
        assert before[i] in before;
        assert before[i] in r[..n];
      }
    }
  }

  /** Skipping elements of an in-order visit leaves the in-order visit of the others. */
  lemma SelectedAscending<T(!new)>(s: set<T>, keep: set<T>, le: (T, T) -> bool)
    requires TotalOrder(le)
    ensures Selected(Ascending(s, le), keep) == Ascending(s * keep, le)
  {
    SelectedEnumerates(Ascending(s, le), s, keep, le);
    EnumerationUnique(Selected(Ascending(s, le), keep), Ascending(s * keep, le), s * keep, le);
  }
}
