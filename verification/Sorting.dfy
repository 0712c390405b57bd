/** Sorting by an integer pair, as the standard library's stable sort does it. */
module Sorting {

  predicate LexLeq(a: (int, int), b: (int, int)) {
    a.0 < b.0 || (a.0 == b.0 && a.1 <= b.1)
  }

  predicate LexLess(a: (int, int), b: (int, int)) {
    a.0 < b.0 || (a.0 == b.0 && a.1 < b.1)
  }

  ghost predicate SortedBy<T(!new)>(key: T -> (int, int), s: seq<T>) {
    forall i, j :: 0 <= i < j < |s| ==> LexLeq(key(s[i]), key(s[j]))
  }

  function InsertBy<T(!new)>(key: T -> (int, int), s: seq<T>, x: T): (r: seq<T>)
    requires SortedBy(key, s)
    ensures SortedBy(key, r) && multiset(r) == multiset(s) + multiset{x}
  {
    if s == [] then [x]
    else if LexLeq(key(s[|s| - 1]), key(x)) then s + [x]
    else
      var last := s[|s| - 1];
      assert s == s[..|s| - 1] + [last];
      var front := InsertBy(key, s[..|s| - 1], x);
      assert forall i :: 0 <= i < |front| ==>
        front[i] in multiset(front) && (front[i] in s[..|s| - 1] || front[i] == x);
      front + [last]
  }

  function SortBy<T(!new)>(key: T -> (int, int), s: seq<T>): (r: seq<T>)
    ensures SortedBy(key, r) && multiset(r) == multiset(s)
  {
    if s == [] then []
    else
      assert s == s[..|s| - 1] + [s[|s| - 1]];
      InsertBy(key, SortBy(key, s[..|s| - 1]), s[|s| - 1])
  }

  lemma SortMembers<T(!new)>(key: T -> (int, int), s: seq<T>)
    ensures |SortBy(key, s)| == |s|
    ensures forall x :: x in SortBy(key, s) <==> x in s
  {
    assert |multiset(SortBy(key, s))| == |multiset(s)|;
    assert forall x :: x in SortBy(key, s) <==> x in multiset(SortBy(key, s));
    assert forall x :: x in s <==> x in multiset(s);
  }

  /** Distinct keys come out strictly ascending. */
  lemma SortStrict<T(!new)>(key: T -> (int, int), s: seq<T>)
    requires forall i, j :: 0 <= i < j < |s| ==> key(s[i]) != key(s[j])
    ensures forall i, j :: 0 <= i < j < |SortBy(key, s)| ==> LexLess(key(SortBy(key, s)[i]), key(SortBy(key, s)[j]))
  {
    var r := SortBy(key, s);
    forall i, j | 0 <= i < j < |r|
      ensures key(r[i]) != key(r[j])
    {
      if key(r[i]) == key(r[j]) {
        RepeatedKey(key, s, r, i, j);
      }
    }
  }

  lemma CountTwo<T(!new)>(r: seq<T>, i: nat, j: nat)
    requires i < j < |r| && r[i] == r[j]
    ensures multiset(r)[r[i]] >= 2
  {
    assert r == r[..j] + [r[j]] + r[j + 1..];
    assert r[..j][i] == r[i];
    assert r[i] in multiset(r[..j]);
  }

  lemma {:induction false} TwoPlaces<T(!new)>(s: seq<T>, x: T)
    requires multiset(s)[x] >= 2
    ensures exists a, b :: 0 <= a < b < |s| && s[a] == x && s[b] == x
  {
    assert s == s[..|s| - 1] + [s[|s| - 1]];
    if s[|s| - 1] == x {
      assert x in multiset(s[..|s| - 1]);
      var a :| 0 <= a < |s| - 1 && s[..|s| - 1][a] == x;
      assert 0 <= a < |s| - 1 < |s| && s[a] == x && s[|s| - 1] == x;
    } else {
      TwoPlaces(s[..|s| - 1], x);
      var a, b :| 0 <= a < b < |s| - 1 && s[..|s| - 1][a] == x && s[..|s| - 1][b] == x;
      assert 0 <= a < b < |s| && s[a] == x && s[b] == x;
    }
  }

  /** A key that occurs twice in a permutation occurs twice in the original. */
  lemma RepeatedKey<T(!new)>(key: T -> (int, int), s: seq<T>, r: seq<T>, i: nat, j: nat)
    requires multiset(r) == multiset(s) && i < j < |r| && key(r[i]) == key(r[j])
    ensures exists a, b :: 0 <= a < b < |s| && key(s[a]) == key(s[b])
  {
    assert r[i] in multiset(s) && r[j] in multiset(s);
    if r[i] == r[j] {
      CountTwo(r, i, j);
      TwoPlaces(s, r[i]);
    } else {
      var a :| 0 <= a < |s| && s[a] == r[i];
      var b :| 0 <= b < |s| && s[b] == r[j];
      assert a < b || b < a;
    }
  }

  lemma {:induction false} SortIdentity<T(!new)>(key: T -> (int, int), s: seq<T>)
    requires SortedBy(key, s)
    ensures SortBy(key, s) == s
  {
    if s != [] {
      SortIdentity(key, s[..|s| - 1]);
      assert s == s[..|s| - 1] + [s[|s| - 1]];
    }
  }

  function Elements<T(!new, ==)>(s: seq<T>): set<T> {
    set i | 0 <= i < |s| :: s[i]
  }

  ghost predicate Unique<T(!new)>(s: seq<T>) {
    forall i, j :: 0 <= i < j < |s| ==> s[i] != s[j]
  }

  /** A list has as many distinct elements as places exactly when it repeats none. */
  lemma {:induction false} CountUnique<T(!new)>(s: seq<T>)
    ensures |Elements(s)| <= |s|
    ensures |Elements(s)| == |s| <==> Unique(s)
  {
    if s != [] {
      var front, last := s[..|s| - 1], s[|s| - 1];
      CountUnique(front);
      assert Elements(s) == Elements(front) + {last};
      if last in Elements(front) {
        var i :| 0 <= i < |front| && front[i] == last;
        assert s[i] == s[|s| - 1];
        assert Elements(s) == Elements(front);
      } else {
        assert forall i :: 0 <= i < |front| ==> s[i] == front[i] && s[i] in Elements(front);
      }
    }
  }

  ghost predicate StrictBy<T(!new)>(key: T -> (int, int), s: seq<T>) {
    forall i, j :: 0 <= i < j < |s| ==> LexLess(key(s[i]), key(s[j]))
  }

  lemma SameLast<T(!new)>(key: T -> (int, int), s: seq<T>, t: seq<T>)
    requires StrictBy(key, s) && StrictBy(key, t) && (forall x :: x in s <==> x in t) && s != [] && t != []
    ensures s[|s| - 1] == t[|t| - 1]
  {
    var x, y := s[|s| - 1], t[|t| - 1];
    assert x in s && x in t && y in t && y in s;
    var i :| 0 <= i < |t| && t[i] == x;
    var j :| 0 <= j < |s| && s[j] == y;
  }

  lemma FrontMembers<T(!new)>(key: T -> (int, int), s: seq<T>, x: T)
    requires StrictBy(key, s) && s != []
    ensures x in s[..|s| - 1] <==> x in s && x != s[|s| - 1]
    ensures StrictBy(key, s[..|s| - 1])
  {
    var front := s[..|s| - 1];
    if x in front {
      var k :| 0 <= k < |front| && front[k] == x;
      assert LexLess(key(s[k]), key(s[|s| - 1]));
    }
    if x in s && x != s[|s| - 1] {
      var k :| 0 <= k < |s| && s[k] == x;
      assert front[k] == x;
    }
  }

  /** A strictly ascending listing is determined by its members. */
  lemma {:induction false} ListingUnique<T(!new)>(key: T -> (int, int), s: seq<T>, t: seq<T>)
    requires StrictBy(key, s) && StrictBy(key, t) && forall x :: x in s <==> x in t
    ensures s == t
    decreases |s|
  {
    if t != [] {
      var y := t[|t| - 1];
      assert y in t && y in s;
    }
    if s != [] {
      var x := s[|s| - 1];
      assert x in s && x in t;
      SameLast(key, s, t);
      var front, front' := s[..|s| - 1], t[..|t| - 1];
      forall z
        ensures z in front <==> z in front'
      {
        FrontMembers(key, s, z);
        FrontMembers(key, t, z);
      }
      FrontMembers(key, s, x);
      FrontMembers(key, t, x);
      ListingUnique(key, front, front');
      assert s == front + [x] && t == front' + [x];
    }
  }
}
