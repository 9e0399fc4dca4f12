/**
 The fourth axis: is the middle of a series solid.

 `thin_days` judges a day against the median of the days before it; `narrow_days`, with
 a floor close to that median, also against the best of the days after it. Medians are
 kept doubled and ratios as fractions, so the arithmetic is exact.
 */
module HoleDetector {
  import opened Wrappers
  import opened Ordering

  datatype DayCount = DayCount(day: int, n: int)

  /** The parameters of a test; the floor is `num / den` of the baseline. */
  datatype Test = Test(neighbourhood: nat, num: nat, den: nat, minTrailing: nat)

  const THIN: Test := Test(10, 1, 2, 3)
  const NARROW: Test := Test(10, 17, 20, 3)

  predicate Sane(t: Test) {
    0 < t.num <= t.den && t.minTrailing >= 1 && t.neighbourhood >= t.minTrailing
  }

  // ----------------------------------------------------------------- the median

  /** Twice `statistics.median`. */
  function Median2(s: seq<int>): int
    requires s != []
  {
    var t, n := Sort(s), |s|;
    if n % 2 == 1 then 2 * t[n / 2] else t[n / 2 - 1] + t[n / 2]
  }

  function CountBelow(s: seq<int>, level: int): nat {
    if s == [] then 0 else CountBelow(s[1..], level) + (if s[0] < level then 1 else 0)
  }

  lemma {:induction false} CountBelowInsert(x: int, s: seq<int>, level: int)
    ensures CountBelow(Insert(x, s), level) == CountBelow(s, level) + (if x < level then 1 else 0)
  {
    if s != [] && x > s[0] {
      CountBelowInsert(x, s[1..], level);
    }
  }

  lemma {:induction false} CountBelowSort(s: seq<int>, level: int)
    ensures CountBelow(Sort(s), level) == CountBelow(s, level)
  {
    if s != [] {
      CountBelowSort(s[1..], level);
      CountBelowInsert(s[0], Sort(s[1..]), level);
    }
  }

  lemma {:induction false} CountBelowPrefix(s: seq<int>, level: int, k: nat)
    requires k <= |s| && forall i :: 0 <= i < k ==> s[i] < level
    ensures CountBelow(s, level) >= k
  {
    if k > 0 {
      CountBelowPrefix(s[1..], level, k - 1);
    }
  }

  lemma MiddleAtLeast(t: seq<int>, level: int)
    requires t != [] && Ascending(t) && CountBelow(t, level) <= (|t| - 1) / 2
    ensures forall i :: (|t| - 1) / 2 <= i < |t| ==> t[i] >= level
  {
    var m := (|t| - 1) / 2;
    if t[m] < level {
      CountBelowPrefix(t, level, m + 1);
    }
  }

  /** If fewer than half the values are below a level, neither is the median. */
  lemma MedianAtLeast(s: seq<int>, level: int)
    requires s != [] && CountBelow(s, level) <= (|s| - 1) / 2
    ensures Median2(s) >= 2 * level
  {
    CountBelowSort(s, level);
    SortSorts(s);
    MiddleAtLeast(Sort(s), level);
  }

  lemma {:induction false} CountBelowRest(s: seq<int>, level: int, k: nat)
    requires k <= |s| && forall i :: k <= i < |s| ==> s[i] >= level
    ensures CountBelow(s, level) <= k
  {
    if s != [] {
      CountBelowRest(s[1..], level, if k > 0 then k - 1 else 0);
    }
  }

  lemma SortMember(s: seq<int>, x: int)
    ensures x in Sort(s) <==> x in s
  {
    SortSorts(s);
    InMultiset(Sort(s), x);
    InMultiset(s, x);
  }

  lemma RankIn(t: seq<int>, k: nat)
    requires Ascending(t) && k < |t|
    ensures CountBelow(t, t[k]) <= k < CountBelow(t, t[k] + 1)
  {
    CountBelowRest(t, t[k], k);
    CountBelowPrefix(t, t[k] + 1, k + 1);
  }

  ghost predicate HasRank(s: seq<int>, x: int, k: nat) {
    x in s && CountBelow(s, x) <= k < CountBelow(s, x + 1)
  }

  lemma RankAt(s: seq<int>, t: seq<int>, k: nat)
    requires t == Sort(s) && k < |t|
    ensures HasRank(s, t[k], k)
  {
    SortSorts(s);
    SortMember(s, t[k]);
    RankIn(t, k);
    CountBelowSort(s, t[k]);
    CountBelowSort(s, t[k] + 1);
  }

  /** The two middle values: at most half the values are below one, and more than half not above. */
  lemma MedianRanks(s: seq<int>) returns (lo: int, hi: int)
    requires s != []
    ensures Median2(s) == lo + hi && HasRank(s, lo, (|s| - 1) / 2) && HasRank(s, hi, |s| / 2)
  {
    var t := Sort(s);
    lo, hi := t[(|s| - 1) / 2], t[|s| / 2];
    RankAt(s, t, (|s| - 1) / 2);
    RankAt(s, t, |s| / 2);
  }

  lemma MedianAtMost(s: seq<int>, level: int)
    requires s != [] && forall x :: x in s ==> x <= level
    ensures Median2(s) <= 2 * level
  {
    var t := Sort(s);
    SortSorts(s);
    forall i | 0 <= i < |t| ensures t[i] <= level {
      InMultiset(t, t[i]);
      InMultiset(s, t[i]);
    }
  }

  lemma InMultiset(s: seq<int>, x: int)
    ensures x in multiset(s) <==> x in s
  {
  }

  // ----------------------------------------------------------------- the two tests

  function Trailing(c: seq<int>, i: nat, t: Test): seq<int>
    requires i <= |c|
  {
    c[if i <= t.neighbourhood then 0 else i - t.neighbourhood..i]
  }

  function Following(c: seq<int>, i: nat, t: Test): seq<int>
    requires i < |c|
  {
    c[i + 1..if i + 1 + t.neighbourhood <= |c| then i + 1 + t.neighbourhood else |c|]
  }

  function Counts(s: seq<DayCount>): (c: seq<int>)
    ensures |c| == |s| && forall i :: 0 <= i < |s| ==> c[i] == s[i].n
  {
    seq(|s|, i requires 0 <= i < |s| => s[i].n)
  }

  /** Below the floor of what the feed had been producing. */
  predicate BelowTrailing(c: seq<int>, i: nat, t: Test)
    requires i < |c| && Sane(t)
  {
    var trailing := Trailing(c, i, t);
    |trailing| >= t.minTrailing && Median2(trailing) > 0 && t.den * (2 * c[i]) < t.num * Median2(trailing)
  }

  /** Some day soon after is far above this one, or no day is after it. */
  predicate Recovers(c: seq<int>, i: nat, t: Test)
    requires i < |c|
  {
    var following := Following(c, i, t);
    following == [] || exists k :: 0 <= k < |following| && t.den * c[i] < t.num * following[k]
  }

  predicate NarrowAt(c: seq<int>, i: nat, t: Test)
    requires i < |c| && Sane(t)
  {
    BelowTrailing(c, i, t) && Recovers(c, i, t)
  }

  datatype Hole = Hole(day: int, n: int, baseline: int)

  function HoleAt(s: seq<DayCount>, i: nat, t: Test): Hole
    requires i < |s| && Sane(t) && Trailing(Counts(s), i, t) != []
  {
    Hole(s[i].day, s[i].n, Median2(Trailing(Counts(s), i, t)) / 2)
  }

  function Flag(s: seq<DayCount>, i: nat, t: Test): seq<Hole>
    requires i < |s| && Sane(t)
  {
    if BelowTrailing(Counts(s), i, t) then [HoleAt(s, i, t)] else []
  }

  function NarrowFlag(s: seq<DayCount>, i: nat, t: Test): seq<Hole>
    requires i < |s| && Sane(t)
  {
    if NarrowAt(Counts(s), i, t) then [HoleAt(s, i, t)] else []
  }

  function Gather(flags: seq<seq<Hole>>): seq<Hole> {
    if flags == [] then [] else Gather(flags[..|flags| - 1]) + flags[|flags| - 1]
  }

  function ThinFlags(s: seq<DayCount>, m: nat, t: Test): seq<seq<Hole>>
    requires m <= |s| && Sane(t)
  {
    seq(m, i requires 0 <= i < m => Flag(s, i, t))
  }

  function NarrowFlags(s: seq<DayCount>, m: nat, t: Test): seq<seq<Hole>>
    requires m <= |s| && Sane(t)
  {
    seq(m, i requires 0 <= i < m => NarrowFlag(s, i, t))
  }

  /** The thin days among the first m of an ordered series. */
  function ThinUpTo(s: seq<DayCount>, m: nat, t: Test): seq<Hole>
    requires m <= |s| && Sane(t)
  {
    Gather(ThinFlags(s, m, t))
  }

  function NarrowUpTo(s: seq<DayCount>, m: nat, t: Test): seq<Hole>
    requires m <= |s| && Sane(t)
  {
    Gather(NarrowFlags(s, m, t))
  }

  /** What `narrow_days` gives with its default parameters. */
  function NarrowDaysOf(counts: seq<DayCount>): seq<Hole> {
    NarrowUpTo(SortDays(counts), |SortDays(counts)|, NARROW)
  }

  lemma GatherOne(flags: seq<seq<Hole>>, flag: seq<Hole>)
    ensures Gather(flags + [flag]) == Gather(flags) + flag
  {
    assert (flags + [flag])[..|flags|] == flags;
  }

  lemma ThinOneMore(s: seq<DayCount>, i: nat, t: Test)
    requires i < |s| && Sane(t)
    ensures ThinUpTo(s, i + 1, t) == ThinUpTo(s, i, t) + Flag(s, i, t)
  {
    assert ThinFlags(s, i + 1, t) == ThinFlags(s, i, t) + [Flag(s, i, t)];
    GatherOne(ThinFlags(s, i, t), Flag(s, i, t));
  }

  lemma NarrowOneMore(s: seq<DayCount>, i: nat, t: Test)
    requires i < |s| && Sane(t)
    ensures NarrowUpTo(s, i + 1, t) == NarrowUpTo(s, i, t) + NarrowFlag(s, i, t)
  {
    assert NarrowFlags(s, i + 1, t) == NarrowFlags(s, i, t) + [NarrowFlag(s, i, t)];
    GatherOne(NarrowFlags(s, i, t), NarrowFlag(s, i, t));
  }

  lemma {:induction false} GatherHolds(flags: seq<seq<Hole>>, h: Hole)
    ensures h in Gather(flags) <==> exists i :: 0 <= i < |flags| && h in flags[i]
  {
    if flags != [] {
      GatherHolds(flags[..|flags| - 1], h);
    }
  }

  /** What a longer list of flags adds comes at the end. */
  lemma {:induction false} GatherGrows(flags: seq<seq<Hole>>, m: nat)
    requires m <= |flags|
    ensures Gather(flags) == Gather(flags[..m]) + Gather(flags[m..])
  {
    if m == |flags| {
      assert flags[..m] == flags && Gather(flags[m..]) == [];
    } else {
      var n := |flags| - 1;
      GatherGrows(flags[..n], m);
      assert flags[..n][..m] == flags[..m] && flags[..n][m..] == flags[m..][..n - m];
    }
  }

  // --------------------------------------------------------------- `sorted(counts)`

  predicate DayBefore(a: DayCount, b: DayCount) {
    a.day < b.day || (a.day == b.day && a.n <= b.n)
  }

  function InsertDay(x: DayCount, s: seq<DayCount>): seq<DayCount> {
    if s == [] then [x] else if DayBefore(x, s[0]) then [x] + s else [s[0]] + InsertDay(x, s[1..])
  }

  function SortDays(s: seq<DayCount>): seq<DayCount> {
    if s == [] then [] else InsertDay(s[0], SortDays(s[1..]))
  }

  predicate DaysAscend(s: seq<DayCount>) {
    forall i, j :: 0 <= i < j < |s| ==> s[i].day < s[j].day
  }

  /** A read that is grouped and ordered by day is left as it is. */
  lemma {:induction false} SortDaysKeeps(s: seq<DayCount>)
    requires DaysAscend(s)
    ensures SortDays(s) == s
  {
    if s != [] {
      SortDaysKeeps(s[1..]);
      assert s == [s[0]] + s[1..];
    }
  }

  /** By day, and for one day by count. */
  predicate InDayOrder(s: seq<DayCount>) {
    forall i, j :: 0 <= i < j < |s| ==> s[i].day < s[j].day || (s[i].day == s[j].day && s[i].n <= s[j].n)
  }

  lemma {:induction false} InsertDayContents(x: DayCount, s: seq<DayCount>)
    ensures multiset(InsertDay(x, s)) == multiset(s) + multiset{x}
    ensures forall e :: e in InsertDay(x, s) <==> e == x || e in s
  {
    if s != [] {
      InsertDayContents(x, s[1..]);
      assert s == [s[0]] + s[1..];
    }
  }

  lemma {:induction false} InsertDaySorts(x: DayCount, s: seq<DayCount>)
    requires InDayOrder(s)
    ensures InDayOrder(InsertDay(x, s))
  {
    if s != [] && !DayBefore(x, s[0]) {
      var rest := s[1..];
      InsertDaySorts(x, rest);
      InsertDayContents(x, rest);
      FirstInOrder(s[0], InsertDay(x, rest));
    }
  }

  lemma FirstInOrder(first: DayCount, rest: seq<DayCount>)
    requires InDayOrder(rest)
    requires forall e :: e in rest ==> first.day < e.day || (first.day == e.day && first.n <= e.n)
    ensures InDayOrder([first] + rest)
  {
    assert forall j :: 0 <= j < |rest| ==> rest[j] in rest;
  }

  /** Any read is put in order, with nothing lost. */
  lemma {:induction false} SortDaysSorts(s: seq<DayCount>)
    ensures InDayOrder(SortDays(s)) && multiset(SortDays(s)) == multiset(s)
  {
    if s != [] {
      SortDaysSorts(s[1..]);
      assert s == [s[0]] + s[1..];
      InsertDaySorts(s[0], SortDays(s[1..]));
      InsertDayContents(s[0], SortDays(s[1..]));
    }
  }

  /** One turn of the loop of `thin_days`. */
  method JudgeThin(ordered: seq<DayCount>, c: seq<int>, i: nat, t: Test) returns (flag: seq<Hole>)
    requires Sane(t) && c == Counts(ordered) && i < |ordered|
    ensures flag == Flag(ordered, i, t)
  {
    flag := [];
    var trailing := Trailing(c, i, t);
    if |trailing| < t.minTrailing { return; }
    var baseline2 := Median2(trailing);
    if baseline2 > 0 && t.den * (2 * c[i]) < t.num * baseline2 {
      flag := [Hole(ordered[i].day, c[i], baseline2 / 2)];
    }
  }

  method ThinDays(counts: seq<DayCount>, t: Test) returns (out: seq<Hole>)
    requires Sane(t)
    ensures out == ThinUpTo(SortDays(counts), |SortDays(counts)|, t)
  {
    var ordered := SortDays(counts);
    out := [];
    for i := 0 to |ordered|
      invariant out == ThinUpTo(ordered, i, t)
    {
      var flag := JudgeThin(ordered, Counts(ordered), i, t);
      ThinOneMore(ordered, i, t);
      out := out + flag;
    }
  }

  method Largest(s: seq<int>) returns (m: int)
    requires s != []
    ensures m in s && forall x :: x in s ==> x <= m
  {
    m := s[0];
    for i := 1 to |s|
      invariant m in s && forall k :: 0 <= k < i ==> s[k] <= m
    {
      if s[i] > m { m := s[i]; }
    }
  }

  /** One turn of the loop of `narrow_days`. */
  method JudgeNarrow(ordered: seq<DayCount>, c: seq<int>, i: nat, t: Test) returns (flag: seq<Hole>)
    requires Sane(t) && c == Counts(ordered) && i < |ordered|
    ensures flag == NarrowFlag(ordered, i, t)
  {
    flag := [];
    var trailing := Trailing(c, i, t);
    if |trailing| < t.minTrailing { return; }
    var baseline2 := Median2(trailing);
    if baseline2 <= 0 || t.den * (2 * c[i]) >= t.num * baseline2 { return; }
    var following := Following(c, i, t);
    if following != [] {
      var best := Largest(following);
      BestDecides(following, best, t, c[i]);
      if t.den * c[i] >= t.num * best { return; }
    }
    flag := [Hole(ordered[i].day, c[i], baseline2 / 2)];
  }

  method NarrowDays(counts: seq<DayCount>, t: Test) returns (out: seq<Hole>)
    requires Sane(t)
    ensures out == NarrowUpTo(SortDays(counts), |SortDays(counts)|, t)
  {
    var ordered := SortDays(counts);
    out := [];
    for i := 0 to |ordered|
      invariant out == NarrowUpTo(ordered, i, t)
    {
      var flag := JudgeNarrow(ordered, Counts(ordered), i, t);
      NarrowOneMore(ordered, i, t);
      out := out + flag;
    }
  }

  lemma BestDecides(s: seq<int>, best: int, t: Test, n: int)
    requires best in s && (forall x :: x in s ==> x <= best) && t.num > 0
    ensures (exists k :: 0 <= k < |s| && t.den * n < t.num * s[k]) <==> t.den * n < t.num * best
  {
    forall k | 0 <= k < |s| ensures t.num * s[k] <= t.num * best {
      assert s[k] in s;
      Scale(t.num, s[k], best);
    }
  }

  lemma Scale(a: nat, x: int, y: int)
    requires x <= y
    ensures a * x <= a * y
  {
    assert a * (y - x) >= 0;
  }

  /** A floor at or below the baseline: what is not below the baseline is not below the floor. */
  lemma RatioBound(t: Test, x: int, y: int)
    requires Sane(t) && x <= y && 0 <= y
    ensures t.num * x <= t.den * y
  {
    Scale(t.num, x, y);
    assert (t.den - t.num) * y >= 0;
  }

  // ------------------------------------------------------------------- properties

  predicate NonDecreasing(c: seq<int>) {
    forall i, j :: 0 <= i < j < |c| ==> c[i] <= c[j]
  }

  predicate NonIncreasing(c: seq<int>) {
    forall i, j :: 0 <= i < j < |c| ==> c[i] >= c[j]
  }

  /** Growth is never a hole: on a series that never falls neither test flags a day. */
  lemma GrowthIsNoHole(c: seq<int>, i: nat, t: Test)
    requires Sane(t) && NonDecreasing(c) && i < |c|
    ensures !BelowTrailing(c, i, t) && !NarrowAt(c, i, t)
  {
    var trailing := Trailing(c, i, t);
    if |trailing| >= t.minTrailing {
      MedianAtMost(trailing, c[i]);
      if Median2(trailing) > 0 { RatioBound(t, Median2(trailing), 2 * c[i]); }
    }
  }

  /** A step down that stays down clears itself: on a series that never rises only the newest day is flagged. */
  lemma StepDownClears(c: seq<int>, i: nat, t: Test)
    requires Sane(t) && NonIncreasing(c) && (forall k :: 0 <= k < |c| ==> c[k] >= 0) && i + 1 < |c|
    ensures !NarrowAt(c, i, t)
  {
    var following := Following(c, i, t);
    assert following != [];
    forall k | 0 <= k < |following| ensures t.num * following[k] <= t.den * c[i] {
      assert following[k] == c[i + 1 + k] <= c[i];
      RatioBound(t, following[k], c[i]);
    }
  }

  lemma {:induction false} CountBelowAtMost(s: seq<int>, level: int, k: nat)
    requires k <= |s| && forall i :: 0 <= i < |s| - k ==> s[i] >= level
    ensures CountBelow(s, level) <= k
  {
    if s != [] {
      if k == |s| { CountBelowAtMost(s[1..], level, k - 1); } else { CountBelowAtMost(s[1..], level, k); }
    }
  }

  /** After a full neighbourhood at a level or above, a hole no longer than it, and a day back at the level. */
  predicate BoundedHole(c: seq<int>, start: nat, len: nat, level: int, t: Test) {
    && level > 0 && t.neighbourhood <= start && start + len < |c| && len <= t.neighbourhood
    && (forall k :: start - t.neighbourhood <= k < start ==> c[k] >= level)
    && (forall k :: start <= k < start + len ==> t.den * c[k] < t.num * level)
    && c[start + len] >= level
  }

  /**
   A bounded hole is seen from its first day: each of its days in the first half of a
   neighbourhood is flagged.
   */
  lemma HoleIsFlagged(c: seq<int>, start: nat, len: nat, level: int, j: nat, t: Test)
    requires Sane(t) && BoundedHole(c, start, len, level, t)
    requires j < len && j < (t.neighbourhood + 1) / 2
    ensures NarrowAt(c, start + j, t)
  {
    var i := start + j;
    HoleBaseline(c, start, level, j, t);
    FloorMet(t, c[i], level, Median2(Trailing(c, i, t)));
    HoleRecovers(c, start, len, level, j, t);
  }

  lemma HoleRecovers(c: seq<int>, start: nat, len: nat, level: int, j: nat, t: Test)
    requires Sane(t) && BoundedHole(c, start, len, level, t) && j < len
    ensures Recovers(c, start + j, t)
  {
    assert Following(c, start + j, t)[len - j - 1] == c[start + len];
    Scale(t.num, level, c[start + len]);
  }

  /** So early in the hole, less than half of what trails it is hole. */
  lemma HoleBaseline(c: seq<int>, start: nat, level: int, j: nat, t: Test)
    requires Sane(t) && t.neighbourhood <= start && start + j < |c| && j < (t.neighbourhood + 1) / 2
    requires forall k :: start - t.neighbourhood <= k < start ==> c[k] >= level
    ensures var trailing := Trailing(c, start + j, t);
            |trailing| == t.neighbourhood && Median2(trailing) >= 2 * level
  {
    var i := start + j;
    var trailing := Trailing(c, i, t);
    assert trailing == c[i - t.neighbourhood..i];
    MostlyAtLeast(trailing, level, j);
  }

  lemma MostlyAtLeast(s: seq<int>, level: int, k: nat)
    requires s != [] && k <= (|s| - 1) / 2 && forall i :: 0 <= i < |s| - k ==> s[i] >= level
    ensures Median2(s) >= 2 * level
  {
    CountBelowAtMost(s, level, k);
    MedianAtLeast(s, level);
  }

  lemma FloorMet(t: Test, n: int, level: int, median2: int)
    requires t.den * n < t.num * level && 2 * level <= median2
    ensures t.den * (2 * n) < t.num * median2
  {
    Scale(t.num, 2 * level, median2);
    assert t.den * (2 * n) == 2 * (t.den * n) && 2 * (t.num * level) == t.num * (2 * level);
  }

  /** So the hole's day is in the list `narrow_days` gives. */
  lemma HoleIsListed(s: seq<DayCount>, start: nat, len: nat, level: int, j: nat, t: Test)
    requires Sane(t) && DaysAscend(s) && BoundedHole(Counts(s), start, len, level, t)
    requires j < len && j < (t.neighbourhood + 1) / 2
    ensures ListsDay(NarrowUpTo(SortDays(s), |SortDays(s)|, t), s[start + j])
  {
    HoleIsFlagged(Counts(s), start, len, level, j, t);
    SortDaysKeeps(s);
    FlaggedIsListed(SortDays(s), start + j, t);
  }

  /** A hole of that day and count is listed. */
  ghost predicate ListsDay(holes: seq<Hole>, d: DayCount) {
    exists h :: h in holes && h.day == d.day && h.n == d.n
  }

  lemma FlaggedIsListed(s: seq<DayCount>, i: nat, t: Test)
    requires i < |s| && Sane(t) && NarrowAt(Counts(s), i, t)
    ensures ListsDay(NarrowUpTo(s, |s|, t), s[i])
  {
    var h := NarrowFlag(s, i, t)[0];
    GatherHolds(NarrowFlags(s, |s|, t), h);
    assert h in NarrowFlags(s, |s|, t)[i];
  }

  /** A listed hole is a flagged day of the series. */
  lemma ListedIsFlagged(s: seq<DayCount>, h: Hole, t: Test) returns (i: nat)
    requires Sane(t) && h in NarrowUpTo(s, |s|, t)
    ensures i < |s| && s[i].day == h.day && NarrowAt(Counts(s), i, t) && h == HoleAt(s, i, t)
  {
    GatherHolds(NarrowFlags(s, |s|, t), h);
    i :| 0 <= i < |s| && h in NarrowFlags(s, |s|, t)[i];
  }

  /** The counts of the last days before one, as many as a neighbourhood. */
  function Last(s: seq<DayCount>, i: nat, n: nat): seq<int>
    requires i <= |s|
  {
    if n == 0 || i == 0 then [] else Last(s, i - 1, n - 1) + [s[i - 1].n]
  }

  lemma {:induction false} TrailingIsLast(s: seq<DayCount>, i: nat, n: nat)
    requires i <= |s|
    ensures Last(s, i, n) == Counts(s)[if i <= n then 0 else i - n..i]
  {
    if n > 0 && i > 0 {
      TrailingIsLast(s, i - 1, n - 1);
      var lo := if i <= n then 0 else i - n;
      assert Counts(s)[lo..i] == Counts(s)[lo..i - 1] + [s[i - 1].n];
    }
  }

  /**
   Which days `narrow_days` lists: those with enough days before them that are below the
   floor of the last of these, a neighbourhood at most, and that have no day after them or,
   within a neighbourhood, one far above.
   */
  lemma NarrowListedIff(s: seq<DayCount>, i: nat, t: Test)
    requires Sane(t) && DaysAscend(s) && i < |s|
    ensures (exists h :: h in NarrowUpTo(SortDays(s), |SortDays(s)|, t) && h.day == s[i].day) <==>
              && i >= t.minTrailing && Median2(Last(s, i, t.neighbourhood)) > 0
              && t.den * (2 * s[i].n) < t.num * Median2(Last(s, i, t.neighbourhood))
              && (i + 1 == |s| || exists k ::
                    i < k <= i + t.neighbourhood && k < |s| && t.den * s[i].n < t.num * s[k].n)
  {
    SortDaysKeeps(s);
    TrailingIsLast(s, i, t.neighbourhood);
    RecoversIff(s, i, t);
    if NarrowAt(Counts(s), i, t) { FlaggedIsListed(s, i, t); }
    if h :| h in NarrowUpTo(s, |s|, t) && h.day == s[i].day {
      var j := ListedIsFlagged(s, h, t);
      assert j == i;
    }
  }

  lemma RecoversIff(s: seq<DayCount>, i: nat, t: Test)
    requires i < |s|
    ensures Recovers(Counts(s), i, t) <==>
              i + 1 == |s| || t.neighbourhood == 0 || exists k ::
                i < k <= i + t.neighbourhood && k < |s| && t.den * s[i].n < t.num * s[k].n
  {
    var c := Counts(s);
    var following := Following(c, i, t);
    forall k | 0 <= k < |following| ensures following[k] == s[i + 1 + k].n {
    }
    forall k | i < k <= i + t.neighbourhood && k < |s| ensures following[k - i - 1] == s[k].n {
    }
  }

  /** Which days `thin_days` lists: those with enough days before them that are below the floor of the last of these. */
  lemma ThinListedIff(s: seq<DayCount>, i: nat, t: Test)
    requires Sane(t) && DaysAscend(s) && i < |s|
    ensures (exists h :: h in ThinUpTo(SortDays(s), |SortDays(s)|, t) && h.day == s[i].day) <==>
              && i >= t.minTrailing && Median2(Last(s, i, t.neighbourhood)) > 0
              && t.den * (2 * s[i].n) < t.num * Median2(Last(s, i, t.neighbourhood))
  {
    SortDaysKeeps(s);
    TrailingIsLast(s, i, t.neighbourhood);
    if BelowTrailing(Counts(s), i, t) { FlaggedIsThin(s, i, t); }
    if h :| h in ThinUpTo(s, |s|, t) && h.day == s[i].day {
      var j := ThinIsFlagged(s, h, t);
      assert j == i;
    }
  }

  lemma FlaggedIsThin(s: seq<DayCount>, i: nat, t: Test)
    requires i < |s| && Sane(t) && BelowTrailing(Counts(s), i, t)
    ensures ListsDay(ThinUpTo(s, |s|, t), s[i])
  {
    var h := Flag(s, i, t)[0];
    GatherHolds(ThinFlags(s, |s|, t), h);
    assert h in ThinFlags(s, |s|, t)[i];
  }

  lemma ThinIsFlagged(s: seq<DayCount>, h: Hole, t: Test) returns (i: nat)
    requires Sane(t) && h in ThinUpTo(s, |s|, t)
    ensures i < |s| && s[i].day == h.day && BelowTrailing(Counts(s), i, t) && h == HoleAt(s, i, t)
  {
    GatherHolds(ThinFlags(s, |s|, t), h);
    i :| 0 <= i < |s| && h in ThinFlags(s, |s|, t)[i];
  }

  /** What a listed hole says: the day's count, and the whole part of the median it was judged against. */
  lemma ListedHoleSays(s: seq<DayCount>, i: nat, t: Test, h: Hole)
    requires Sane(t) && DaysAscend(s) && i < |s| && h.day == s[i].day
    requires h in NarrowUpTo(SortDays(s), |SortDays(s)|, t) || h in ThinUpTo(SortDays(s), |SortDays(s)|, t)
    ensures var last := Last(s, i, t.neighbourhood);
            h.n == s[i].n && last != [] && 2 * h.baseline <= Median2(last) <= 2 * h.baseline + 1
  {
    SortDaysKeeps(s);
    TrailingIsLast(s, i, t.neighbourhood);
    if h in NarrowUpTo(s, |s|, t) {
      var j := ListedIsFlagged(s, h, t);
      assert j == i;
    } else {
      var j := ThinIsFlagged(s, h, t);
      assert j == i;
    }
  }

  /** A step down that lasts a neighbourhood is no hole, whatever comes later. */
  lemma LastingStepIsNoHole(s: seq<DayCount>, i: nat, t: Test, h: Hole)
    requires Sane(t) && DaysAscend(s) && i + 1 < |s|
    requires forall k :: i < k <= i + t.neighbourhood && k < |s| ==> t.den * s[i].n >= t.num * s[k].n
    requires h in NarrowUpTo(SortDays(s), |SortDays(s)|, t)
    ensures h.day != s[i].day
  {
    NarrowListedIff(s, i, t);
  }

  /** With the doctor's own parameters: the first min(len, 5) days of a hole of at most 10. */
  lemma DoctorSeesHole(c: seq<int>, start: nat, len: nat, level: int, j: nat)
    requires level > 0 && 10 <= start && start + len < |c| && len <= 10
    requires forall k :: start - 10 <= k < start ==> c[k] >= level
    requires forall k :: start <= k < start + len ==> 20 * c[k] < 17 * level
    requires c[start + len] >= level
    requires j < len && j < 5
    ensures NarrowAt(c, start + j, NARROW)
  {
    HoleIsFlagged(c, start, len, level, j, NARROW);
  }

  /** With one ratio for both, every narrow day is a thin day. */
  lemma NarrowIsThin(s: seq<DayCount>, m: nat, t: Test, h: Hole)
    requires m <= |s| && Sane(t) && h in NarrowUpTo(s, m, t)
    ensures h in ThinUpTo(s, m, t)
  {
    GatherHolds(NarrowFlags(s, m, t), h);
    GatherHolds(ThinFlags(s, m, t), h);
    var i :| 0 <= i < m && h in NarrowFlags(s, m, t)[i];
    NarrowFlagIsFlag(s, i, t, h);
    assert h in ThinFlags(s, m, t)[i];
  }

  lemma NarrowFlagIsFlag(s: seq<DayCount>, i: nat, t: Test, h: Hole)
    requires i < |s| && Sane(t) && h in NarrowFlag(s, i, t)
    ensures h in Flag(s, i, t)
  {
  }

  lemma FlagReadsTrailing(s: seq<DayCount>, n: nat, i: nat, t: Test)
    requires i < n <= |s| && Sane(t)
    ensures Flag(s[..n], i, t) == Flag(s, i, t)
  {
    assert Trailing(Counts(s[..n]), i, t) == Trailing(Counts(s), i, t);
  }

  /** Causality: a day's thin verdict reads nothing after it. */
  lemma ThinIsCausal(s: seq<DayCount>, n: nat, m: nat, t: Test)
    requires m <= n <= |s| && Sane(t)
    ensures ThinUpTo(s[..n], m, t) == ThinUpTo(s, m, t)
  {
    forall i | 0 <= i < m ensures Flag(s[..n], i, t) == Flag(s, i, t) {
      FlagReadsTrailing(s, n, i, t);
    }
    assert ThinFlags(s[..n], m, t) == ThinFlags(s, m, t);
  }

  /** Days at the end add holes at the end: what was flagged before stays flagged, in order. */
  lemma NewHolesAreLate(s: seq<DayCount>, m: nat, n: nat, t: Test, after: int)
    requires m <= n <= |s| && Sane(t) && forall i :: m <= i < |s| ==> s[i].day > after
    ensures ThinUpTo(s, m, t) <= ThinUpTo(s, n, t)
    ensures forall h :: h in ThinUpTo(s, n, t)[|ThinUpTo(s, m, t)|..] ==> h.day > after
  {
    var flags := ThinFlags(s, n, t);
    forall i, h: Hole | m <= i < n && h in flags[i] ensures h.day > after {
      FlagDay(s, i, t, h);
    }
    assert flags[..m] == ThinFlags(s, m, t);
    LateFlags(flags, m, after);
  }

  lemma LateFlags(flags: seq<seq<Hole>>, m: nat, after: int)
    requires m <= |flags| && forall i, h: Hole :: m <= i < |flags| && h in flags[i] ==> h.day > after
    ensures Gather(flags[..m]) <= Gather(flags)
    ensures forall h :: h in Gather(flags)[|Gather(flags[..m])|..] ==> h.day > after
  {
    GatherGrows(flags, m);
    forall h | h in Gather(flags[m..]) ensures h.day > after {
      GatherHolds(flags[m..], h);
    }
  }

  lemma FlagDay(s: seq<DayCount>, i: nat, t: Test, h: Hole)
    requires i < |s| && Sane(t) && h in Flag(s, i, t)
    ensures h.day == s[i].day
  {
  }

  // ------------------------------------------------------------------ the measure

  function KeepDays(s: seq<DayCount>, days: set<int>): seq<DayCount> {
    if s == [] then [] else KeepDays(s[..|s| - 1], days) + (if s[|s| - 1].day in days then [s[|s| - 1]] else [])
  }

  function DropDays(s: seq<DayCount>, days: set<int>): seq<DayCount> {
    if s == [] then [] else DropDays(s[..|s| - 1], days) + (if s[|s| - 1].day in days then [] else [s[|s| - 1]])
  }

  function DueDays(s: seq<DayCount>, session: int): (r: seq<DayCount>)
    ensures |r| <= |s|
  {
    if s == [] then [] else DueDays(s[..|s| - 1], session) + (if s[|s| - 1].day <= session then [s[|s| - 1]] else [])
  }

  function DaySet(s: seq<DayCount>): set<int> {
    if s == [] then {} else DaySet(s[..|s| - 1]) + {s[|s| - 1].day}
  }

  lemma {:induction false} DaySetMember(s: seq<DayCount>, d: int)
    ensures d in DaySet(s) <==> exists i :: 0 <= i < |s| && s[i].day == d
  {
    if s != [] {
      var init := s[..|s| - 1];
      DaySetMember(init, d);
      if d in DaySet(init) {
        var i :| 0 <= i < |init| && init[i].day == d;
        assert s[i].day == d;
      }
      forall i | 0 <= i < |s| && s[i].day == d ensures d in DaySet(s) {
        if i < |init| { assert init[i].day == d; }
      }
    }
  }

  datatype Measure = Measure(present: nat, absent: nat, thin: seq<Hole>, offCalendar: nat, notDue: nat)

  /**
   The continuity of one dataset. `calendar` is None when the dataset is not judged
   against sessions, and an empty calendar means an unreadable one.
   */
  function Measured(counts: seq<DayCount>, calendar: Option<set<int>>, session: Option<int>): Measure {
    var sessions := if calendar.Some? && calendar.value != {} then calendar else None;
    var judged := if sessions.None? then counts else KeepDays(counts, sessions.value);
    var off := if sessions.None? then [] else DropDays(counts, sessions.value);
    var due := if session.None? then judged else DueDays(judged, session.value);
    var days := DaySet(judged);
    var absent := if sessions.None? || days == {} then {}
                  else set d | d in sessions.value - days && Least(days) <= d <= Greatest(days);
    Measure(|judged|, |absent|, ThinUpTo(SortDays(due), |SortDays(due)|, THIN), |off|, |judged| - |due|)
  }

  lemma DaySetAppend(s: seq<DayCount>, x: DayCount)
    ensures DaySet(s + [x]) == DaySet(s) + {x.day}
  {
    assert (s + [x])[..|s|] == s;
  }

  lemma {:induction false} KeepDaysFacts(s: seq<DayCount>, days: set<int>)
    ensures DaySet(KeepDays(s, days)) == DaySet(s) * days
    ensures |KeepDays(s, days)| + |DropDays(s, days)| == |s|
  {
    if s != [] {
      var init, x := s[..|s| - 1], s[|s| - 1];
      KeepDaysFacts(init, days);
      DaySetAppend(KeepDays(init, days), x);
      if x.day in days {
        assert KeepDays(s, days) == KeepDays(init, days) + [x];
      } else {
        assert KeepDays(s, days) == KeepDays(init, days);
      }
    }
  }

  lemma {:induction false} KeepDaysMember(s: seq<DayCount>, days: set<int>, e: DayCount)
    ensures e in KeepDays(s, days) <==> e in s && e.day in days
  {
    if s != [] {
      KeepDaysMember(s[..|s| - 1], days, e);
      assert s == s[..|s| - 1] + [s[|s| - 1]];
    }
  }

  lemma {:induction false} KeepDaysOfAll(s: seq<DayCount>, days: set<int>)
    requires forall e :: e in s ==> e.day in days
    ensures KeepDays(s, days) == s
  {
    if s != [] {
      KeepDaysOfAll(s[..|s| - 1], days);
      assert s == s[..|s| - 1] + [s[|s| - 1]];
    }
  }

  lemma {:induction false} KeepDaysAscend(s: seq<DayCount>, days: set<int>)
    requires DaysAscend(s)
    ensures DaysAscend(KeepDays(s, days))
  {
    if s != [] {
      var init, x := s[..|s| - 1], s[|s| - 1];
      KeepDaysAscend(init, days);
      KeepDaysFacts(init, days);
      var k := KeepDays(init, days);
      forall i | 0 <= i < |k| ensures k[i].day < x.day {
        DaySetMember(k, k[i].day);
        DaySetMember(init, k[i].day);
      }
    }
  }

  lemma {:induction false} DaySetCard(s: seq<DayCount>)
    requires DaysAscend(s)
    ensures |DaySet(s)| == |s|
  {
    if s != [] {
      DaySetCard(s[..|s| - 1]);
      DaySetMember(s[..|s| - 1], s[|s| - 1].day);
    }
  }

  /**
   The two numbers account for the calendar: within the observed span, sessions held and
   sessions missing add up to the sessions there were. Every day read is either judged
   or off the calendar.
   */
  lemma MeasureAccounts(counts: seq<DayCount>, calendar: set<int>, session: Option<int>)
    requires DaysAscend(counts) && DaySet(counts) * calendar != {}
    ensures var m, days := Measured(counts, Some(calendar), session), DaySet(counts) * calendar;
            && m.present + m.absent == |set d | d in calendar && Least(days) <= d <= Greatest(days)|
            && m.present + m.offCalendar == |counts|
  {
    KeepDaysFacts(counts, calendar);
    KeepDaysAscend(counts, calendar);
    DaySetCard(KeepDays(counts, calendar));
    var days := DaySet(counts) * calendar;
    var span := set d | d in calendar && Least(days) <= d <= Greatest(days);
    var absent := set d | d in calendar - days && Least(days) <= d <= Greatest(days);
    assert span == days + absent;
    assert days * absent == {};
  }

  lemma {:induction false} DueDaysUpTo(s: seq<DayCount>, session: int, m: nat)
    requires m <= |s| && forall i :: 0 <= i < |s| ==> (s[i].day <= session <==> i < m)
    ensures DueDays(s, session) == s[..m]
  {
    if s != [] {
      var n := |s| - 1;
      if m == |s| {
        DueDaysUpTo(s[..n], session, n);
      } else {
        DueDaysUpTo(s[..n], session, m);
        assert s[..n][..m] == s[..m];
      }
    }
  }

  lemma DueDaysIsPrefix(s: seq<DayCount>, session: int) returns (m: nat)
    requires DaysAscend(s)
    ensures m <= |s| && DueDays(s, session) == s[..m]
    ensures forall i :: 0 <= i < |s| ==> (s[i].day <= session <==> i < m)
  {
    m := 0;
    while m < |s| && s[m].day <= session
      invariant m <= |s| && forall i :: 0 <= i < m ==> s[i].day <= session
    {
      m := m + 1;
    }
    DueDaysUpTo(s, session, m);
  }

  /** Holding out the days not due yet changes no verdict on the days that are. */
  lemma NotDueChangesNothing(judged: seq<DayCount>, session: int)
    requires DaysAscend(judged)
    ensures var due := DueDays(judged, session);
            ThinUpTo(SortDays(due), |SortDays(due)|, THIN) <= ThinUpTo(SortDays(judged), |SortDays(judged)|, THIN)
    ensures var due := DueDays(judged, session);
            var early, all := ThinUpTo(SortDays(due), |SortDays(due)|, THIN),
                ThinUpTo(SortDays(judged), |SortDays(judged)|, THIN);
            forall h :: h in all[|early|..] ==> h.day > session
  {
    var m := DueDaysIsPrefix(judged, session);
    SortDaysKeeps(judged);
    SortDaysKeeps(judged[..m]);
    ThinIsCausal(judged, m, m, THIN);
    NewHolesAreLate(judged, m, |judged|, THIN, session);
  }
}
