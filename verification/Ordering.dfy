/** Finite sets of integers listed from the largest down. */
module Ordering {
  ghost predicate Descending(xs: seq<int>) {
    forall i, j :: 0 <= i < j < |xs| ==> xs[i] > xs[j]
  }

  ghost predicate IsMax(s: set<int>, m: int) {
    m in s && forall y :: y in s ==> y <= m
  }

  lemma {:induction false} MaxExists(s: set<int>, x: int)
    requires x in s
    ensures exists m :: IsMax(s, m)
    decreases |s|
  {
    if y :| y in s && y > x {
      var rest := s - {x};
      assert y in rest && |rest| < |s|;
      MaxExists(rest, y);
      var m :| IsMax(rest, m);
      forall z | z in s ensures z <= m {
        assert z == x || z in rest;
      }
      assert IsMax(s, m);
    } else {
      assert IsMax(s, x);
    }
  }

  ghost function Max(s: set<int>): (m: int)
    requires exists x :: x in s
    ensures m in s && forall y :: y in s ==> y <= m
  {
    var x :| x in s;
    MaxExists(s, x);
    var m :| IsMax(s, m);
    m
  }

  /** The elements of a set in descending order. */
  ghost function Desc(s: set<int>): (r: seq<int>)
    ensures Descending(r) && |r| == |s|
    ensures forall x :: x in r <==> x in s
  {
    if forall x :: x !in s then (assert s == {}; [])
    else
      var m := Max(s);
      [m] + Desc(s - {m})
  }

  lemma {:induction false} DescendingUnique(a: seq<int>, b: seq<int>)
    requires Descending(a) && Descending(b) && forall x :: x in a <==> x in b
    ensures a == b
  {
    if a == [] {
      if b != [] {
        HasMember(b);
      }
    } else {
      assert a[0] in a && a[0] in b;
      assert b[0] in b && b[0] in a;
      assert a[0] == b[0];
      forall x ensures x in a[1..] <==> x in b[1..] {
        TailMembers(a, x);
        TailMembers(b, x);
      }
      DescendingUnique(a[1..], b[1..]);
      assert a == [a[0]] + a[1..] && b == [b[0]] + b[1..];
    }
  }

  lemma HasMember(xs: seq<int>)
    requires xs != []
    ensures exists x :: x in xs
  {
    var x := xs[0];
    assert x in xs;
  }

  lemma TailMembers(a: seq<int>, x: int)
    requires a != [] && Descending(a)
    ensures x in a[1..] <==> x in a && x != a[0]
  {
    assert a == [a[0]] + a[1..];
    if x in a[1..] {
      var i :| 0 <= i < |a[1..]| && a[1..][i] == x;
      assert a[i + 1] == x;
    }
  }

  method Insert(xs: seq<int>, x: int) returns (r: seq<int>)
    requires Descending(xs) && x !in xs
    ensures Descending(r)
    ensures forall y :: y in r <==> y in xs || y == x
  {
    var i := 0;
    while i < |xs| && xs[i] > x
      invariant i <= |xs| && forall k :: 0 <= k < i ==> xs[k] > x
    {
      i := i + 1;
    }
    r := xs[..i] + [x] + xs[i..];
    InsertedMembers(xs, i, x);
  }

  lemma InsertedMembers(xs: seq<int>, i: nat, x: int)
    requires i <= |xs|
    ensures forall y :: y in xs[..i] + [x] + xs[i..] <==> y in xs || y == x
  {
    assert xs == xs[..i] + xs[i..];
  }

  method SortDescending(s: set<int>) returns (r: seq<int>)
    ensures r == Desc(s)
  {
    r := [];
    var left := s;
    while exists x :: x in left
      invariant left <= s && Descending(r)
      invariant forall x :: x in r <==> x in s && x !in left
      decreases |left|
    {
      var x :| x in left;
      r := Insert(r, x);
      left := left - {x};
    }
    DescendingUnique(r, Desc(s));
  }
}
