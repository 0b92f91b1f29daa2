/** Small helpers on sequences used by several modules. */
module Basics {
  datatype Option<+T> = None | Some(value: T)

  predicate NoDup<T(==)>(s: seq<T>) {
    forall i, j :: 0 <= i < j < |s| ==> s[i] != s[j]
  }

  /** A sequence that lists a set, each element once and in some order: the rows
      of a query without an ORDER BY. */
  predicate Lists<T(==)>(rows: seq<T>, s: set<T>) {
    NoDup(rows) && s == set x | x in rows
  }

  lemma NoDupAppend<T>(s: seq<T>, x: T)
    requires NoDup(s) && x !in s
    ensures NoDup(s + [x])
  {
  }

  lemma NoDupConcat<T>(s: seq<T>, t: seq<T>)
    requires NoDup(s) && NoDup(t) && forall x :: x in s ==> x !in t
    ensures NoDup(s + t)
  {
    var u := s + t;
    forall i, j | 0 <= i < j < |u|
      ensures u[i] != u[j]
    {
      if i < |s| <= j {
        assert u[i] in s && u[j] in t;
      }
    }
  }

  lemma ListsSnoc<T>(init: seq<T>, s: set<T>, d: T) returns (rows: seq<T>)
    requires Lists(init, s) && d !in s
    ensures rows == init + [d] && Lists(rows, s + {d})
  {
    rows := init + [d];
    assert forall x :: x in init <==> x in s;
    assert forall x :: x in rows <==> x in init || x == d;
    NoDupAppend(init, d);
  }

  lemma ListsConcat<T>(a: seq<T>, s: set<T>, b: seq<T>, t: set<T>)
    requires Lists(a, s) && Lists(b, t) && s !! t
    ensures Lists(a + b, s + t)
  {
    assert forall x :: x in a <==> x in s;
    assert forall x :: x in b <==> x in t;
    assert forall x :: x in a + b <==> x in a || x in b;
    NoDupConcat(a, b);
  }

  lemma {:induction false} SomeOrder<T>(s: set<T>) returns (rows: seq<T>)
    ensures Lists(rows, s)
    decreases |s|
  {
    if s == {} {
      rows := [];
    } else {
      var d :| d in s;
      var init := SomeOrder(s - {d});
      rows := ListsSnoc(init, s - {d}, d);
      assert s == (s - {d}) + {d};
    }
  }
}
