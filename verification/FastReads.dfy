/**
 Fast reads that must equal a simple one: the loose index scan against GROUP BY and against
 counting distinct days, and the two ways of asking which sessions hold nothing.
 */
module FastReads {
  import opened Wrappers
  import opened Ordering

  // ------------------------------------------------------------------ the loose scan

  /** The values a nullable column holds. */
  function Values(column: seq<Option<int>>): set<int> {
    set v | v in column && v.Some? :: v.value
  }

  /** The buckets the values fall into: days for a timestamp column, the values themselves for width 1. */
  function Buckets(values: set<int>, width: int): set<int>
    requires width > 0
  {
    set v | v in values :: v / width
  }

  function From(values: set<int>, bound: int): set<int> {
    set v | v in values && v >= bound
  }

  /** `SELECT min(col) ... WHERE col >= bound`: NULL when there is none. */
  function MinFrom(values: set<int>, bound: int): Option<int> {
    if From(values, bound) == {} then None else Some(Least(From(values, bound)))
  }

  /** `((walk.t)::date + 1)`. */
  function NextBucket(v: int, width: int): int
    requires width > 0
  {
    (v / width + 1) * width
  }

  lemma BucketBounds(v: int, width: int, b: int)
    requires width > 0
    ensures v / width < b <==> v < b * width
    ensures v / width >= b + 1 <==> v >= (b + 1) * width
  {
    var q := v / width;
    assert q * width <= v < q * width + width;
    if q < b { Multiples(q + 1, b, width); }
    if q >= b { Multiples(b, q, width); }
    if q < b + 1 { Multiples(q + 1, b + 1, width); }
    if q >= b + 1 { Multiples(b + 1, q, width); }
  }

  lemma Multiples(a: int, b: int, n: int)
    requires a <= b && n > 0
    ensures a * n <= b * n && (a + 1) * n == a * n + n
  {
    assert b * n - a * n == (b - a) * n;
  }

  /** The whole walk: the least value, then the walk of what lies in later buckets. */
  function Walk(values: set<int>, width: int): seq<int>
    requires width > 0
    decreases |values|
  {
    if values == {} then []
    else
      var m := Least(values);
      FromShrinks(values, m, width);
      [m] + Walk(From(values, NextBucket(m, width)), width)
  }

  lemma FromShrinks(values: set<int>, m: int, width: int)
    requires width > 0 && m in values
    ensures |From(values, NextBucket(m, width))| < |values|
  {
    BucketBounds(m, width, m / width);
    assert m !in From(values, NextBucket(m, width));
    SubsetSize(From(values, NextBucket(m, width)), values);
  }

  function BucketsOf(walk: seq<int>, width: int): seq<int>
    requires width > 0
  {
    if walk == [] then [] else [walk[0] / width] + BucketsOf(walk[1..], width)
  }

  lemma ListsCons(b: int, tail: seq<int>, rest: set<int>)
    requires Lists(tail, rest) && forall x :: x in rest ==> b < x
    ensures Lists([b] + tail, {b} + rest)
  {
    assert forall i :: 0 <= i < |tail| ==> tail[i] in Members(tail);
  }

  lemma LaterBuckets(values: set<int>, width: int)
    requires width > 0 && values != {}
    ensures var m := Least(values);
            && Buckets(values, width) == {m / width} + Buckets(From(values, NextBucket(m, width)), width)
            && forall b :: b in Buckets(From(values, NextBucket(m, width)), width) ==> m / width < b
  {
    var m := Least(values);
    var rest := From(values, NextBucket(m, width));
    forall v | v in values ensures v in rest <==> m / width < v / width {
      BucketBounds(v, width, m / width);
    }
    forall b ensures b in Buckets(values, width) <==> b == m / width || b in Buckets(rest, width) {
      if b in Buckets(values, width) {
        var v :| v in values && v / width == b;
        BucketsAscend(m, v, width);
      }
    }
  }

  lemma BucketsAscend(a: int, b: int, width: int)
    requires width > 0 && a <= b
    ensures a / width <= b / width
  {
    BucketBounds(b, width, a / width);
    BucketBounds(a, width, a / width);
  }

  /** The walk visits each bucket once, in increasing order. */
  lemma {:induction false} WalkListsBuckets(values: set<int>, width: int)
    requires width > 0
    ensures Lists(BucketsOf(Walk(values, width), width), Buckets(values, width))
    decreases |values|
  {
    if values != {} {
      var m := Least(values);
      var rest := From(values, NextBucket(m, width));
      FromShrinks(values, m, width);
      WalkListsBuckets(rest, width);
      LaterBuckets(values, width);
      assert Walk(values, width)[1..] == Walk(rest, width);
      ListsCons(m / width, BucketsOf(Walk(rest, width), width), Buckets(rest, width));
    }
  }

  lemma {:induction false} BucketsOfAt(walk: seq<int>, width: int, i: nat)
    requires width > 0 && i < |walk|
    ensures |BucketsOf(walk, width)| == |walk| && BucketsOf(walk, width)[i] == walk[i] / width
  {
    if i > 0 {
      BucketsOfAt(walk[1..], width, i - 1);
    } else if |walk| > 1 {
      BucketsOfAt(walk[1..], width, 0);
    }
  }

  /** What of the walk the limit lets through. */
  function Limited<T>(all: seq<T>, limit: Option<nat>): seq<T> {
    if limit.Some? && limit.value < |all| then all[..limit.value] else all
  }

  /** The values from the next one on; none once there is no next. */
  function Ahead(values: set<int>, next: Option<int>): set<int> {
    if next.None? then {} else From(values, next.value)
  }

  /**
   WITH RECURSIVE walk: start at the least value, then each time jump to the least value of a
   later bucket. One index probe a bucket, at most `limit` of them.
   */
  method LooseScan(column: seq<Option<int>>, width: int, limit: Option<nat>) returns (walk: seq<int>)
    requires width > 0
    ensures walk == Limited(Walk(Values(column), width), limit)
  {
    var values := Values(column);
    var next := if values == {} then None else Some(Least(values));
    walk := [];
    assert values != {} ==> From(values, Least(values)) == values;
    while next.Some? && (limit.None? || |walk| < limit.value)
      invariant next.Some? ==> next.value in values
      invariant walk + Walk(Ahead(values, next), width) == Walk(values, width)
      invariant limit.Some? ==> |walk| <= limit.value
      decreases |Ahead(values, next)|
    {
      var t := next.value;
      ghost var ahead := Ahead(values, next);
      next := MinFrom(values, NextBucket(t, width));
      AheadMoves(values, t, width);
      assert Walk(ahead, width) == [t] + Walk(Ahead(values, next), width);
      walk := walk + [t];
    }
    WalkEnds(values, next, width);
  }

  lemma AheadMoves(values: set<int>, t: int, width: int)
    requires width > 0 && t in values
    ensures var ahead, next := Ahead(values, Some(t)), MinFrom(values, NextBucket(t, width));
            && ahead != {} && Least(ahead) == t && |Ahead(values, next)| < |ahead|
            && From(ahead, NextBucket(t, width)) == Ahead(values, next)
            && (next.Some? ==> next.value in values)
  {
    var ahead, later := From(values, t), From(values, NextBucket(t, width));
    assert t in ahead;
    BucketBounds(t, width, t / width);
    assert From(ahead, NextBucket(t, width)) == later;
    FromShrinks(ahead, t, width);
    if later != {} { assert Least(later) in later && From(values, Least(later)) == later; }
  }

  lemma WalkEnds(values: set<int>, next: Option<int>, width: int)
    requires width > 0 && (next.Some? ==> next.value in values)
    ensures next.None? <==> Walk(Ahead(values, next), width) == []
  {
    if next.Some? { assert next.value in Ahead(values, next); }
  }

  // ------------------------------------------------------------- oldest day by symbol

  datatype Observation = Observation(symbol: Option<int>, day: Option<int>)

  function SymbolColumn(table: seq<Observation>): seq<Option<int>> {
    if table == [] then [] else SymbolColumn(table[..|table| - 1]) + [table[|table| - 1].symbol]
  }

  function Symbols(table: seq<Observation>): set<int> {
    set r | r in table && r.symbol.Some? :: r.symbol.value
  }

  function DaysOf(table: seq<Observation>, symbol: int): set<int> {
    set r | r in table && r.symbol == Some(symbol) && r.day.Some? :: r.day.value
  }

  /** `SELECT min(day) ... WHERE symbol = s`. */
  function Oldest(table: seq<Observation>, symbol: int): Option<int> {
    if DaysOf(table, symbol) == {} then None else Some(Least(DaysOf(table, symbol)))
  }

  /** `SELECT symbol, min(day) ... GROUP BY symbol`, without the NULL group. */
  function Grouped(table: seq<Observation>): map<int, Option<int>> {
    map s | s in Symbols(table) :: Oldest(table, s)
  }

  function Sooner(a: Option<int>, b: Option<int>): Option<int> {
    if a.None? then b else if b.None? then a else if a.value <= b.value then a else b
  }

  lemma OldestAppend(table: seq<Observation>, r: Observation, s: int)
    ensures Oldest(table + [r], s) == if r.symbol == Some(s) then Sooner(Oldest(table, s), r.day) else Oldest(table, s)
  {
    assert DaysOf(table + [r], s) == DaysOf(table, s) + if r.symbol == Some(s)
           && r.day.Some? then {r.day.value} else {};
  }

  lemma GroupedAppend(table: seq<Observation>, r: Observation)
    ensures Grouped(table + [r]) ==
            if r.symbol.None? then Grouped(table)
            else
              var s := r.symbol.value;
              Grouped(table)[s := if s in Grouped(table) then Sooner(Grouped(table)[s], r.day) else r.day]
  {
    assert Symbols(table + [r]) == Symbols(table) + if r.symbol.Some? then {r.symbol.value} else {};
    forall s ensures Oldest(table + [r], s) == if r.symbol == Some(s) then Sooner(Oldest(table, s), r.day)
        else Oldest(table, s) {
      OldestAppend(table, r, s);
    }
    if r.symbol.Some? { UnseenHasNoDays(table, r.symbol.value); }
  }

  /** One pass over the table, a group at a time. */
  method GroupScan(table: seq<Observation>) returns (m: map<int, Option<int>>)
    ensures m == Grouped(table)
  {
    m := map[];
    for i := 0 to |table|
      invariant m == Grouped(table[..i])
    {
      var r := table[i];
      assert table[..i + 1] == table[..i] + [r];
      GroupedAppend(table[..i], r);
      if r.symbol.Some? {
        var s := r.symbol.value;
        m := m[s := if s in m then Sooner(m[s], r.day) else r.day];
      }
    }
    assert table[..|table|] == table;
  }

  lemma UnseenHasNoDays(table: seq<Observation>, s: int)
    ensures s !in Symbols(table) ==> Oldest(table, s) == None
  {
    assert DaysOf(table, s) != {} ==> exists d :: d in DaysOf(table, s) by {
      if DaysOf(table, s) != {} { Inhabited(DaysOf(table, s)); }
    }
  }

  lemma {:induction false} ColumnHolds(table: seq<Observation>)
    ensures forall v :: v in SymbolColumn(table) <==> exists r :: r in table && r.symbol == v
  {
    if table != [] {
      ColumnHolds(table[..|table| - 1]);
      assert table == table[..|table| - 1] + [table[|table| - 1]];
    }
  }

  lemma {:induction false} UnitBuckets(walk: seq<int>)
    ensures BucketsOf(walk, 1) == walk
  {
    if walk != [] {
      UnitBuckets(walk[1..]);
      assert walk == [walk[0]] + walk[1..];
    }
  }

  lemma UnitWalk(values: set<int>)
    ensures Lists(Walk(values, 1), values)
  {
    WalkListsBuckets(values, 1);
    UnitBuckets(Walk(values, 1));
    assert Buckets(values, 1) == values by {
      forall v ensures v in Buckets(values, 1) <==> v in values {
        assert v / 1 == v;
      }
    }
  }

  /** The skip scan's answer is the grouped one: the same pairs, each symbol once, in increasing order. */
  ghost predicate IsGrouping(pairs: seq<(int, Option<int>)>, m: map<int, Option<int>>) {
    && (forall p :: p in pairs <==> p.0 in m && m[p.0] == p.1)
    && (forall i, j :: 0 <= i < j < |pairs| ==> pairs[i].0 < pairs[j].0)
  }

  method SkipScan(table: seq<Observation>) returns (pairs: seq<(int, Option<int>)>)
    ensures IsGrouping(pairs, Grouped(table))
  {
    var walk := LooseScan(SymbolColumn(table), 1, None);
    ColumnHolds(table);
    assert Values(SymbolColumn(table)) == Symbols(table);
    UnitWalk(Symbols(table));
    pairs := [];
    for i := 0 to |walk|
      invariant |pairs| == i && forall j :: 0 <= j < i ==> pairs[j] == (walk[j], Oldest(table, walk[j]))
    {
      pairs := pairs + [(walk[i], Oldest(table, walk[i]))];
    }
    PairsGroup(pairs, walk, table);
  }

  lemma PairsGroup(pairs: seq<(int, Option<int>)>, walk: seq<int>, table: seq<Observation>)
    requires Lists(walk, Symbols(table)) && |pairs| == |walk|
    requires forall j :: 0 <= j < |walk| ==> pairs[j] == (walk[j], Oldest(table, walk[j]))
    ensures IsGrouping(pairs, Grouped(table))
  {
    var m := Grouped(table);
    forall p ensures p in pairs <==> p.0 in m && m[p.0] == p.1 {
      if p in pairs {
        var j :| 0 <= j < |pairs| && pairs[j] == p;
        assert walk[j] in Members(walk);
      }
      if p.0 in m && m[p.0] == p.1 {
        assert p.0 in Members(walk);
        var j :| 0 <= j < |walk| && walk[j] == p.0;
        assert pairs[j] == p;
      }
    }
  }

  // --------------------------------------------------------------- sessions accrued

  const DAY: int := 86_400

  function CountAfter(days: seq<int>, cut: int): nat {
    if days == [] then 0 else CountAfter(days[..|days| - 1], cut) + if days[|days| - 1] > cut then 1 else 0
  }

  lemma {:induction false} CountAfterAppends(a: seq<int>, b: seq<int>, cut: int)
    ensures CountAfter(a + b, cut) == CountAfter(a, cut) + CountAfter(b, cut)
  {
    if b == [] {
      assert a + b == a;
    } else {
      assert (a + b)[..|a + b| - 1] == a + b[..|b| - 1];
      CountAfterAppends(a, b[..|b| - 1], cut);
    }
  }

  lemma {:induction false} NoneAfterIff(days: seq<int>, cut: int)
    requires StrictlyAscending(days)
    ensures CountAfter(days, cut) == 0 <==> days == [] || days[|days| - 1] <= cut
  {
    if days != [] {
      NoneAfterIff(days[..|days| - 1], cut);
    }
  }

  /** The distinct days the walk reads: all of them, or the first `limit`. */
  function DaysRead(column: seq<Option<int>>, limit: nat): seq<int> {
    Limited(SortedSet(Buckets(Values(column), DAY)), Some(limit))
  }

  lemma {:induction false} CountAfterIs(days: seq<int>, cut: int)
    ensures CountAfter(days, cut) == |set i | 0 <= i < |days| && days[i] > cut|
  {
    if days != [] {
      var n := |days| - 1;
      CountAfterIs(days[..n], cut);
      var before := set i | 0 <= i < n && days[..n][i] > cut;
      assert (set i | 0 <= i < |days| && days[i] > cut) == before + if days[n] > cut then {n} else {};
    }
  }

  lemma BucketHas(values: set<int>, d: int)
    ensures d in Buckets(values, DAY) <==> exists v :: v in values && d * 86_400 <= v < (d + 1) * 86_400
  {
    if v :| v in values && d * 86_400 <= v < (d + 1) * 86_400 {
      assert v / DAY == d;
    }
  }

  lemma LimitedAre(all: seq<int>, limit: nat)
    requires StrictlyAscending(all)
    ensures var days := Limited(all, Some(limit));
            && StrictlyAscending(days) && |days| <= limit && (forall d :: d in days ==> d in all)
            && forall x :: x in all ==> x in days || (|days| == limit && forall d :: d in days ==> d < x)
  {
    var days := Limited(all, Some(limit));
    forall x | x in all ensures x in days || (|days| == limit && forall d :: d in days ==> d < x) {
      var i :| 0 <= i < |all| && all[i] == x;
      if i < |days| { assert days[i] == all[i]; }
    }
  }

  /** The days read: distinct, ascending, each holding a stamp; all such days, or the first `limit`. */
  lemma DaysReadAre(column: seq<Option<int>>, limit: nat)
    ensures var days := DaysRead(column, limit);
            && StrictlyAscending(days) && |days| <= limit
            && (forall d :: d in days ==> HoldsStamp(column, d))
            && forall x :: HoldsStamp(column, x) ==> x in days || (|days| == limit && forall d :: d in days ==> d < x)
  {
    var all := SortedSet(Buckets(Values(column), DAY));
    SortedSetAscends(Buckets(Values(column), DAY));
    LimitedAre(all, limit);
    forall x ensures x in all <==> HoldsStamp(column, x) {
      BucketHas(Values(column), x);
      if HoldsStamp(column, x) {
        var v :| Some(v) in column && x * 86_400 <= v < (x + 1) * 86_400;
        assert v in Values(column);
      }
    }
  }

  /** Some stamp of the column falls on the day. */
  ghost predicate HoldsStamp(column: seq<Option<int>>, d: int) {
    exists v :: Some(v) in column && d * 86_400 <= v < (d + 1) * 86_400
  }

  lemma BucketsOfLimited(walk: seq<int>, width: int, limit: Option<nat>)
    requires width > 0
    ensures BucketsOf(Limited(walk, limit), width) == Limited(BucketsOf(walk, width), limit)
  {
    var a, b := BucketsOf(Limited(walk, limit), width), Limited(BucketsOf(walk, width), limit);
    LengthOfBuckets(walk, width);
    LengthOfBuckets(Limited(walk, limit), width);
    forall i | 0 <= i < |a| ensures a[i] == b[i] {
      BucketsOfAt(walk, width, i);
      BucketsOfAt(Limited(walk, limit), width, i);
    }
  }

  lemma LengthOfBuckets(walk: seq<int>, width: int)
    requires width > 0
    ensures |BucketsOf(walk, width)| == |walk|
  {
    if walk != [] { BucketsOfAt(walk, width, 0); }
  }

  /** The outer SELECT over the walk: how many days, the first, the last, and how many are recent. */
  method Accrual(column: seq<Option<int>>, limit: nat, today: int, recent: nat)
    returns (held: nat, since: Option<int>, newest: Option<int>, gained: nat, capped: bool)
    ensures var days := DaysRead(column, limit);
            && held == |days|
            && since == (if days == [] then None else Some(days[0]))
            && newest == (if days == [] then None else Some(days[|days| - 1]))
            && gained == CountAfter(days, today - recent)
            && gained == |set i | 0 <= i < |days| && days[i] > today - recent|
            && capped == (held >= limit)
  {
    var walk := LooseScan(column, DAY, Some(limit));
    WalkIsDaysRead(column, limit, walk);
    CountAfterIs(DaysRead(column, limit), today - recent);
    held, since, newest, gained := Summarise(walk, today - recent);
    capped := held >= limit;
  }

  lemma WalkIsDaysRead(column: seq<Option<int>>, limit: nat, walk: seq<int>)
    requires walk == Limited(Walk(Values(column), DAY), Some(limit))
    ensures BucketsOf(walk, DAY) == DaysRead(column, limit) && StrictlyAscending(BucketsOf(walk, DAY))
  {
    var buckets := Buckets(Values(column), DAY);
    WalkListsBuckets(Values(column), DAY);
    SortedSetLists(buckets);
    ListsUnique(BucketsOf(Walk(Values(column), DAY), DAY), SortedSet(buckets), buckets);
    BucketsOfLimited(Walk(Values(column), DAY), DAY, Some(limit));
  }

  method Summarise(walk: seq<int>, cut: int) returns (held: nat, since: Option<int>, newest: Option<int>, gained: nat)
    requires StrictlyAscending(BucketsOf(walk, DAY))
    ensures var days := BucketsOf(walk, DAY);
            && held == |days|
            && since == (if days == [] then None else Some(days[0]))
            && newest == (if days == [] then None else Some(days[|days| - 1]))
            && gained == CountAfter(days, cut)
  {
    ghost var days := BucketsOf(walk, DAY);
    held, since, newest, gained := 0, None, None, 0;
    LengthOfBuckets(walk, DAY);
    for i := 0 to |walk|
      invariant held == i && gained == CountAfter(days[..i], cut)
      invariant i == 0 ==> since.None? && newest.None?
      invariant i > 0 ==> since == Some(days[0]) && newest == Some(days[i - 1])
    {
      BucketsOfAt(walk, DAY, i);
      assert days[..i + 1][..i] == days[..i];
      var day := walk[i] / DAY;
      held := held + 1;
      since := if since.None? || day < since.value then Some(day) else since;
      newest := if newest.None? || newest.value < day then Some(day) else newest;
      gained := gained + if day > cut then 1 else 0;
    }
    assert days[..|walk|] == days;
  }

  /**
   The count of days and the newest day are right exactly when the dataset holds no more days
   than the limit. The count of recent days is right in one more case: when the newest day is
   not recent. The walk goes up from the oldest day, so what a limit cuts off is the recent end.
   */
  lemma AccrualIsRightIff(column: seq<Option<int>>, all: seq<int>, limit: nat, cut: int)
    requires limit > 0 && Values(column) != {} && all == SortedSet(Buckets(Values(column), DAY))
    ensures var days := DaysRead(column, limit);
            && all != [] && days != []
            && (|days| == |all| <==> |all| <= limit)
            && (days[|days| - 1] == all[|all| - 1] <==> |all| <= limit)
            && (CountAfter(days, cut) == CountAfter(all, cut) <==> |all| <= limit || all[|all| - 1] <= cut)
  {
    SomeBucket(Values(column), DAY);
    SortedSetAscends(Buckets(Values(column), DAY));
    CutListing(all, limit, cut);
  }

  lemma SomeBucket(values: set<int>, width: int)
    requires width > 0 && values != {}
    ensures Buckets(values, width) != {}
  {
    Inhabited(values);
    var v :| v in values;
    assert v / width in Buckets(values, width);
  }

  lemma CutListing(all: seq<int>, limit: nat, cut: int)
    requires limit > 0 && all != [] && StrictlyAscending(all)
    ensures var days := Limited(all, Some(limit));
            && (days[|days| - 1] == all[|all| - 1] <==> |all| <= limit)
            && (CountAfter(days, cut) == CountAfter(all, cut) <==> |all| <= limit || all[|all| - 1] <= cut)
  {
    if |all| > limit {
      assert all == all[..limit] + all[limit..];
      CountAfterAppends(all[..limit], all[limit..], cut);
      NoneAfterIff(all[limit..], cut);
    }
  }

  lemma TwoDays()
    ensures Buckets(Values([Some(0), Some(DAY)]), DAY) == {0, 1}
  {
    var column := [Some(0), Some(DAY)];
    assert column[0] == Some(0) && column[1] == Some(DAY);
    assert Values(column) == {0, DAY};
    assert 0 / DAY == 0 && DAY / DAY == 1;
  }

  lemma TwoSorted(all: set<int>)
    requires all == {0, 1}
    ensures SortedSet(all) == [0, 1]
  {
    SortedSetLists(all);
    assert Members([0, 1]) == all;
    ListsUnique(SortedSet(all), [0, 1], all);
  }

  lemma OneOfTwo(all: seq<int>)
    requires all == [0, 1]
    ensures Limited(all, Some(1)) == [0] && CountAfter([0], 0) == 0 < CountAfter(all, 0)
  {
    assert all[..1] == [0];
    NoneAfterIff([0], 0);
    NoneAfterIff(all, 0);
  }

  /** Two days held and a limit of one: the newest day reported is the oldest there is. */
  lemma LimitHidesTheNewest()
    ensures var column := [Some(0), Some(DAY)];
            && SortedSet(Buckets(Values(column), DAY)) == [0, 1]
            && DaysRead(column, 1) == [0]
            && CountAfter(DaysRead(column, 1), 0) < CountAfter([0, 1], 0)
  {
    var all := Buckets(Values([Some(0), Some(DAY)]), DAY);
    TwoDays();
    TwoSorted(all);
    OneOfTwo(SortedSet(all));
  }

  // ------------------------------------------------------------- sessions that are absent

  predicate Holds(stamps: set<int>, day: int) {
    exists t :: t in stamps && day * DAY <= t < (day + 1) * DAY
  }

  function Absent(days: seq<int>, stamps: set<int>): seq<int> {
    if days == [] then []
    else Absent(days[..|days| - 1], stamps) + if Holds(stamps, days[|days| - 1]) then [] else [days[|days| - 1]]
  }

  /** The days asked about that hold nothing, repeats and all. */
  lemma {:induction false} AbsentIs(days: seq<int>, stamps: set<int>, d: int)
    ensures multiset(Absent(days, stamps))[d] == if Holds(stamps, d) then 0 else multiset(days)[d]
  {
    if days != [] {
      var init, last := days[..|days| - 1], days[|days| - 1];
      AbsentIs(init, stamps, d);
      assert days == init + [last];
      TimesAppend(init, last, d);
      if Holds(stamps, last) {
        assert Absent(days, stamps) == Absent(init, stamps);
      } else {
        TimesAppend(Absent(init, stamps), last, d);
      }
    }
  }

  lemma TimesAppend(s: seq<int>, x: int, d: int)
    ensures multiset(s + [x])[d] == multiset(s)[d] + (if x == d then 1 else 0)
  {
  }

  /** One probe a day, bounded by the day and not by a cast. */
  method MissingByProbe(days: seq<int>, stamps: set<int>) returns (r: seq<int>)
    ensures r == Sort(Absent(days, stamps))
  {
    r := [];
    for i := 0 to |days|
      invariant r == Absent(days[..i], stamps)
    {
      assert days[..i + 1][..i] == days[..i];
      if !Holds(stamps, days[i]) { r := r + [days[i]]; }
    }
    assert days[..|days|] == days;
    r := Sort(r);
  }

  /** The distinct days present between the first and the last asked about, then those not among them. */
  method MissingByScan(days: seq<int>, stamps: set<int>) returns (r: seq<int>)
    ensures r == Sort(Absent(days, stamps))
  {
    if days == [] { return []; }
    assert days[0] in Members(days);
    var lo, hi := Least(Members(days)), Greatest(Members(days));
    var present := set t | t in stamps && lo * DAY <= t < (hi + 1) * DAY :: t / DAY;
    r := [];
    for i := 0 to |days|
      invariant r == Absent(days[..i], stamps)
    {
      assert days[..i + 1][..i] == days[..i];
      assert days[i] in Members(days);
      PresentIsHolds(stamps, lo, hi, days[i]);
      if days[i] !in present { r := r + [days[i]]; }
    }
    assert days[..|days|] == days;
    r := Sort(r);
  }

  lemma PresentIsHolds(stamps: set<int>, lo: int, hi: int, d: int)
    requires lo <= d <= hi
    ensures d in (set t | t in stamps && lo * DAY <= t < (hi + 1) * DAY :: t / DAY) <==> Holds(stamps, d)
  {
  }
}
