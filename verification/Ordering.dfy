/** Sorting, as Python's `sorted` and SQL's `ORDER BY` do it. */
module Ordering {

  predicate Ascending(s: seq<int>) {
    forall i, j :: 0 <= i < j < |s| ==> s[i] <= s[j]
  }

  predicate StrictlyAscending(s: seq<int>) {
    forall i, j :: 0 <= i < j < |s| ==> s[i] < s[j]
  }

  function Insert(x: int, s: seq<int>): (r: seq<int>)
    ensures |r| == |s| + 1
  {
    if s == [] then [x]
    else if x <= s[0] then [x] + s
    else [s[0]] + Insert(x, s[1..])
  }

  lemma {:induction false} InsertContents(x: int, s: seq<int>)
    ensures multiset(Insert(x, s)) == multiset(s) + multiset{x}
  {
    if s != [] && x > s[0] {
      InsertContents(x, s[1..]);
      assert s == [s[0]] + s[1..];
    }
  }

  lemma {:induction false} InsertAscends(x: int, s: seq<int>)
    requires Ascending(s)
    ensures Ascending(Insert(x, s))
    ensures forall k :: 0 <= k < |Insert(x, s)| && s != [] ==> Insert(x, s)[k] >= (if x <= s[0] then x else s[0])
  {
    if s != [] && x > s[0] {
      InsertAscends(x, s[1..]);
    }
  }

  /** `sorted(s)`. */
  function Sort(s: seq<int>): (r: seq<int>)
    ensures |r| == |s|
  {
    if s == [] then [] else Insert(s[0], Sort(s[1..]))
  }

  lemma {:induction false} SortSorts(s: seq<int>)
    ensures Ascending(Sort(s)) && multiset(Sort(s)) == multiset(s)
  {
    if s != [] {
      SortSorts(s[1..]);
      assert s == [s[0]] + s[1..];
      InsertContents(s[0], Sort(s[1..]));
      InsertAscends(s[0], Sort(s[1..]));
    }
  }

  lemma Inhabited(s: set<int>)
    requires s != {}
    ensures exists x :: x in s
  {
    assert (forall x :: x !in s) ==> s == {};
  }

  predicate IsLeast(s: set<int>, m: int) {
    m in s && forall x :: x in s ==> m <= x
  }

  predicate IsGreatest(s: set<int>, m: int) {
    m in s && forall x :: x in s ==> x <= m
  }

  lemma LeastOfMore(s: set<int>, y: int, k: int)
    requires y in s && IsLeast(s - {y}, k)
    ensures IsLeast(s, if k <= y then k else y)
  {
    assert forall x :: x in s ==> x == y || x in s - {y};
  }

  lemma GreatestOfMore(s: set<int>, y: int, k: int)
    requires y in s && IsGreatest(s - {y}, k)
    ensures IsGreatest(s, if y <= k then k else y)
  {
    assert forall x :: x in s ==> x == y || x in s - {y};
  }

  lemma {:induction false} LeastExists(s: set<int>)
    requires s != {}
    ensures exists m :: IsLeast(s, m)
  {
    Inhabited(s);
    var y :| y in s;
    if s == {y} {
      assert IsLeast(s, y);
    } else {
      Inhabited(s - {y});
      LeastExists(s - {y});
      var k :| IsLeast(s - {y}, k);
      LeastOfMore(s, y, k);
    }
  }

  lemma {:induction false} GreatestExists(s: set<int>)
    requires s != {}
    ensures exists m :: IsGreatest(s, m)
  {
    Inhabited(s);
    var y :| y in s;
    if s == {y} {
      assert IsGreatest(s, y);
    } else {
      Inhabited(s - {y});
      GreatestExists(s - {y});
      var k :| IsGreatest(s - {y}, k);
      GreatestOfMore(s, y, k);
    }
  }

  function Least(s: set<int>): (m: int)
    requires s != {}
    ensures m in s && forall x :: x in s ==> m <= x
  {
    LeastExists(s);
    var m :| IsLeast(s, m);
    m
  }

  function Greatest(s: set<int>): (m: int)
    requires s != {}
    ensures m in s && forall x :: x in s ==> x <= m
  {
    GreatestExists(s);
    var m :| IsGreatest(s, m);
    m
  }

  /** `sorted(s)` of a set: each element once, ascending. */
  function SortedSet(s: set<int>): (r: seq<int>)
    ensures forall x :: x in r <==> x in s
    ensures |r| == |s|
  {
    if s == {} then [] else [Least(s)] + SortedSet(s - {Least(s)})
  }

  lemma {:induction false} SortedSetAscends(s: set<int>)
    ensures StrictlyAscending(SortedSet(s))
  {
    if s != {} {
      var m, rest := Least(s), SortedSet(s - {Least(s)});
      SortedSetAscends(s - {m});
      forall i | 0 <= i < |rest| ensures m < rest[i] {
        assert rest[i] in rest;
      }
    }
  }

  /** A set has only one strictly ascending listing. */
  lemma {:induction false} AscendingUnique(a: seq<int>, b: seq<int>)
    requires StrictlyAscending(a) && StrictlyAscending(b)
    requires forall x :: x in a <==> x in b
    ensures a == b
    decreases |a|
  {
    if a == [] {
      assert forall k :: 0 <= k < |b| ==> b[k] in b;
    } else {
      assert a[0] in a;
      var i :| 0 <= i < |b| && b[i] == a[0];
      assert b[0] in b;
      var j :| 0 <= j < |a| && a[j] == b[0];
      assert a[0] == b[0];
      forall x ensures x in a[1..] <==> x in b[1..] {
        TailMembers(a, x);
        TailMembers(b, x);
      }
      AscendingUnique(a[1..], b[1..]);
      assert a == [a[0]] + a[1..] && b == [b[0]] + b[1..];
    }
  }

  lemma TailMembers(s: seq<int>, x: int)
    requires s != [] && StrictlyAscending(s)
    ensures x in s[1..] <==> x in s && x != s[0]
  {
    assert s == [s[0]] + s[1..];
    if x in s[1..] {
      var k :| 0 <= k < |s[1..]| && s[1..][k] == x;
    }
  }

  function Members(s: seq<int>): set<int> {
    set x | x in s
  }

  /** `s` lists the elements of `all`, ascending and once each. */
  predicate Lists(s: seq<int>, all: set<int>) {
    StrictlyAscending(s) && Members(s) == all
  }

  lemma SortedSetLists(all: set<int>)
    ensures Lists(SortedSet(all), all)
  {
    SortedSetAscends(all);
  }

  /** Dropping the first n of a listing lists the rest. */
  lemma ListsDrop(s: seq<int>, all: set<int>, n: nat)
    requires Lists(s, all) && n <= |s|
    ensures Lists(s[n..], all - Members(s[..n]))
  {
    forall x ensures x in Members(s[n..]) <==> x in all && x !in s[..n] {
      assert x in Members(s) <==> x in s;
      assert s == s[..n] + s[n..];
      if x in s[n..] {
        var k :| 0 <= k < |s[n..]| && s[n..][k] == x;
        assert x == s[n + k];
      }
    }
  }

  lemma ListsUnique(a: seq<int>, b: seq<int>, all: set<int>)
    requires Lists(a, all) && Lists(b, all)
    ensures a == b
  {
    forall x ensures x in a <==> x in b {
      assert x in a <==> x in Members(a);
      assert x in b <==> x in Members(b);
    }
    AscendingUnique(a, b);
  }

  lemma MembersAppend(s: seq<int>, n: nat)
    requires n < |s|
    ensures Members(s[..n + 1]) == Members(s[..n]) + {s[n]}
  {
    assert s[..n + 1] == s[..n] + [s[n]];
  }

  // ------------------------------------------------------------------- sizes of sets

  lemma SubsetSize<T>(a: set<T>, b: set<T>)
    requires a <= b
    ensures |b - a| == |b| - |a| && |a| <= |b|
    ensures a != b ==> |a| < |b|
  {
    assert b == a + (b - a);
    assert a != b ==> b - a != {};
  }
}
