/** NYSE sessions from weekdays and closed holidays, walked backward and forward. */
module TradingCalendar {
  import opened Ordering

  /** A proleptic ordinal, as Python's `date.toordinal`. */
  type Day = int

  /** Monday is 0. */
  function Weekday(d: Day): int {
    (d + 6) % 7
  }

  predicate IsSession(d: Day, closed: set<Day>) {
    Weekday(d) < 5 && d !in closed
  }

  /** Monday 5 January 2026. */
  const MONDAY: Day := 739621

  /** Sessions are the days Monday to Friday that are not closed, counted from that Monday. */
  lemma SessionsByTheWeek(d: Day, closed: set<Day>)
    ensures IsSession(d, closed) <==> (d - MONDAY) % 7 < 5 && d !in closed
  {
  }

  /** The sessions of `[start, end]`, ascending. */
  function SessionsIn(start: Day, end: Day, closed: set<Day>): seq<Day>
    decreases end - start
  {
    if end < start then []
    else SessionsIn(start, end - 1, closed) + (if IsSession(end, closed) then [end] else [])
  }

  function LastN(s: seq<Day>, n: int): seq<Day> {
    if n <= 0 then [] else if |s| <= n then s else s[|s| - n..]
  }

  /** The scan bound of the backward walk: weekends and holidays, with slack. */
  function MaxSteps(n: int): int {
    if n * 4 >= n + 60 then n * 4 else n + 60
  }

  /** The n most recent sessions ending at `end`, as far back as the walk looks. */
  function Recent(n: int, end: Day, closed: set<Day>): seq<Day> {
    LastN(SessionsIn(end - MaxSteps(n) + 1, end, closed), n)
  }

  // -------------------------------------------------------------------- the walks

  lemma {:induction false} SessionsAre(start: Day, end: Day, closed: set<Day>)
    ensures var s := SessionsIn(start, end, closed);
            && StrictlyAscending(s)
            && forall d :: d in s <==> start <= d <= end && IsSession(d, closed)
    decreases end - start
  {
    if start <= end {
      SessionsAre(start, end - 1, closed);
      var init := SessionsIn(start, end - 1, closed);
      assert forall i :: 0 <= i < |init| ==> init[i] in init;
    }
  }

  lemma {:induction false} SessionsSplit(start: Day, mid: Day, end: Day, closed: set<Day>)
    requires start - 1 <= mid <= end
    ensures SessionsIn(start, end, closed) == SessionsIn(start, mid, closed) + SessionsIn(mid + 1, end, closed)
    decreases end - start
  {
    if mid < end {
      SessionsSplit(start, mid, end - 1, closed);
    }
  }

  function Reverse(s: seq<Day>): (r: seq<Day>)
    ensures |r| == |s| && forall i :: 0 <= i < |s| ==> r[i] == s[|s| - 1 - i]
  {
    seq(|s|, i requires 0 <= i < |s| => s[|s| - 1 - i])
  }

  /** Sorting a strictly descending list reverses it. */
  lemma SortDescending(s: seq<Day>)
    requires forall i, j :: 0 <= i < j < |s| ==> s[i] > s[j]
    ensures Sort(s) == Reverse(s)
  {
    ReverseContents(s);
    SortSorts(s);
    AscendingContentsUnique(Sort(s), Reverse(s));
  }

  lemma {:induction false} ReverseContents(s: seq<Day>)
    ensures multiset(Reverse(s)) == multiset(s)
  {
    if s != [] {
      ReverseContents(s[1..]);
      assert Reverse(s) == Reverse(s[1..]) + [s[0]];
      assert s == [s[0]] + s[1..];
    }
  }

  /** Two ascending lists of the same contents begin alike. */
  lemma SameFirst(a: seq<int>, b: seq<int>)
    requires Ascending(a) && Ascending(b) && multiset(a) == multiset(b) && a != [] && b != []
    ensures a[0] == b[0]
  {
    assert a[0] in multiset(b) && b[0] in multiset(a);
  }

  lemma {:induction false} AscendingContentsUnique(a: seq<int>, b: seq<int>)
    requires Ascending(a) && Ascending(b) && multiset(a) == multiset(b)
    ensures a == b
    decreases |a|
  {
    assert |multiset(a)| == |multiset(b)|;
    if a != [] {
      SameFirst(a, b);
      assert a == [a[0]] + a[1..] && b == [b[0]] + b[1..];
      assert multiset(a[1..]) == multiset(a) - multiset{a[0]};
      assert multiset(b[1..]) == multiset(b) - multiset{b[0]};
      AscendingContentsUnique(a[1..], b[1..]);
    }
  }

  lemma FrontDay(start: Day, end: Day, closed: set<Day>)
    requires start <= end
    ensures SessionsIn(start, end, closed)
            == (if IsSession(start, closed) then [start] else []) + SessionsIn(start + 1, end, closed)
  {
    SessionsSplit(start, start, end, closed);
    assert SessionsIn(start, start - 1, closed) == [];
  }

  lemma ReverseAppend(s: seq<Day>, d: Day)
    ensures Reverse(s + [d]) == [d] + Reverse(s)
  {
  }

  /** Where the walk stops, what it has collected is the last n sessions of all it may visit. */
  lemma WalkStops(n: int, end: Day, cur: Day, closed: set<Day>)
    requires end - MaxSteps(n) <= cur <= end
    requires |SessionsIn(cur + 1, end, closed)| == n
             || (cur == end - MaxSteps(n) && |SessionsIn(cur + 1, end, closed)| < n)
    ensures Recent(n, end, closed) == SessionsIn(cur + 1, end, closed)
  {
    SessionsSplit(end - MaxSteps(n) + 1, cur, end, closed);
  }

  /**
   The sessions of the last max(4n, n + 60) days, ascending: all of them when they are
   fewer than n, else the last n.
   */
  ghost predicate LastSessions(days: seq<Day>, n: int, end: Day, closed: set<Day>) {
    var back := if 4 * n >= n + 60 then 4 * n else n + 60;
    && StrictlyAscending(days) && |days| <= (if n >= 0 then n else 0)
    && (forall d :: d in days ==> end - back < d <= end && (d - MONDAY) % 7 < 5 && d !in closed)
    && (forall d :: end - back < d <= end && (d - MONDAY) % 7 < 5 && d !in closed ==>
          d in days || (|days| == n && n > 0 && d < days[0]) || n <= 0)
  }

  lemma RecentIsLast(n: int, end: Day, closed: set<Day>)
    ensures LastSessions(Recent(n, end, closed), n, end, closed)
  {
    var all, days := SessionsIn(end - MaxSteps(n) + 1, end, closed), Recent(n, end, closed);
    SessionsAre(end - MaxSteps(n) + 1, end, closed);
    forall d { SessionsByTheWeek(d, closed); }
    forall d | d in days ensures d in all {
      var i :| 0 <= i < |days| && days[i] == d;
      assert all[|all| - |days| + i] == d;
    }
    forall d | d in all && n > 0 ensures d in days || (|days| == n && d < days[0]) {
      var i :| 0 <= i < |all| && all[i] == d;
      if |all| > n && i >= |all| - n { assert days[i - (|all| - n)] == d; }
    }
  }

  /** The backward walk finds exactly the last n sessions of the days it may visit. */
  method IterWeekdaysExcluding(end: Day, n: int, closed: set<Day>) returns (days: seq<Day>)
    ensures days == Recent(n, end, closed)
    ensures LastSessions(days, n, end, closed)
  {
    RecentIsLast(n, end, closed);
    var out: seq<Day> := [];
    var cur, guard, maxSteps := end, 0, MaxSteps(n);
    if n <= 0 { return []; }
    while |out| < n && guard < maxSteps
      invariant 0 <= guard <= maxSteps && cur == end - guard && |out| <= n
      invariant Reverse(out) == SessionsIn(cur + 1, end, closed)
      decreases maxSteps - guard
    {
      FrontDay(cur, end, closed);
      if Weekday(cur) < 5 && cur !in closed {
        ReverseAppend(out, cur);
        out := out + [cur];
      }
      cur, guard := cur - 1, guard + 1;
    }
    WalkStops(n, end, cur, closed);
    Descends(out, cur + 1, end, closed);
    SortDescending(out);
    days := Sort(out);
  }

  lemma Descends(out: seq<Day>, start: Day, end: Day, closed: set<Day>)
    requires Reverse(out) == SessionsIn(start, end, closed)
    ensures forall i, j :: 0 <= i < j < |out| ==> out[i] > out[j]
  {
    SessionsAre(start, end, closed);
    assert forall i :: 0 <= i < |out| ==> out[i] == Reverse(out)[|out| - 1 - i];
  }

  /** The forward walk lists every session of the range. */
  method ExpectedTradingDays(start: Day, end: Day, holidays: set<Day>) returns (out: seq<Day>)
    ensures out == SessionsIn(start, end, holidays)
    ensures StrictlyAscending(out)
    ensures forall d :: d in out <==> start <= d <= end && (d - MONDAY) % 7 < 5 && d !in holidays
  {
    SessionsAre(start, end, holidays);
    forall d { SessionsByTheWeek(d, holidays); }
    out := [];
    if end < start { return; }
    var closed := set h | h in holidays && start <= h <= end;
    var d := start;
    while d <= end
      invariant start <= d <= end + 1
      invariant out == SessionsIn(start, d - 1, holidays)
    {
      if Weekday(d) < 5 && d !in closed { out := out + [d]; }
      d := d + 1;
    }
  }

  lemma {:induction false} OnlyHolidaysInside(start: Day, end: Day, a: set<Day>, b: set<Day>)
    requires forall d :: start <= d <= end ==> (d in a <==> d in b)
    ensures SessionsIn(start, end, a) == SessionsIn(start, end, b)
    decreases end - start
  {
    if start <= end { OnlyHolidaysInside(start, end - 1, a, b); }
  }

  /** `fetch_recent_trading_days`: the holidays it reads cover every day the walk can visit. */
  method FetchRecentTradingDays(n: int, end: Day, holidays: set<Day>) returns (days: seq<Day>)
    ensures days == Recent(n, end, holidays)
    ensures LastSessions(days, n, end, holidays)
  {
    RecentIsLast(n, end, holidays);
    var lookback := end - MaxSteps(n);
    var closed := set h | h in holidays && lookback <= h <= end;
    days := IterWeekdaysExcluding(end, n, closed);
    OnlyHolidaysInside(end - MaxSteps(n) + 1, end, closed, holidays);
  }

  /** The backward walk is the tail of the forward one. */
  lemma RecentIsTailOfExpected(n: nat, end: Day, closed: set<Day>)
    ensures var all := SessionsIn(end - MaxSteps(n) + 1, end, closed);
            && Recent(n, end, closed) <= all[|all| - |Recent(n, end, closed)|..]
            && |Recent(n, end, closed)| == (if |all| <= n then |all| else n)
            && StrictlyAscending(Recent(n, end, closed))
  {
    SessionsAre(end - MaxSteps(n) + 1, end, closed);
  }

  // ----------------------------------------------------- how many the walk returns

  function HolidaysIn(start: Day, end: Day, closed: set<Day>): set<Day> {
    set h | h in closed && start <= h <= end
  }

  /** One more day adds a session, a holiday, or is a weekend day. */
  lemma CountDay(start: Day, end: Day, closed: set<Day>)
    requires start <= end
    ensures |SessionsIn(start, end, closed)| + |HolidaysIn(start, end, closed)|
         >= |SessionsIn(start, end - 1, closed)| + |HolidaysIn(start, end - 1, closed)|
             + (if Weekday(end) < 5 then 1 else 0)
  {
    var a, b := HolidaysIn(start, end - 1, closed), HolidaysIn(start, end, closed);
    if end in closed { assert b == a + {end}; } else { assert b == a; }
  }

  function OnWeekday(d: Day): nat {
    if Weekday(d) < 5 then 1 else 0
  }

  /** The weekdays among the k days from `start`. */
  function Weekdays(start: Day, k: nat): nat {
    if k == 0 then 0 else Weekdays(start, k - 1) + OnWeekday(start + k - 1)
  }

  lemma {:induction false} WeekdaysAreSessionsOrHolidays(start: Day, k: nat, closed: set<Day>)
    ensures |SessionsIn(start, start + k - 1, closed)|
            + |HolidaysIn(start, start + k - 1, closed)| >= Weekdays(start, k)
  {
    if k > 0 {
      WeekdaysAreSessionsOrHolidays(start, k - 1, closed);
      CountDay(start, start + k - 1, closed);
    }
  }

  lemma WeekHasFive(d: Day)
    ensures OnWeekday(d) + OnWeekday(d + 1) + OnWeekday(d + 2) + OnWeekday(d + 3) + OnWeekday(d + 4)
            + OnWeekday(d + 5) + OnWeekday(d + 6) == 5
  {
    NextWeekday(d); NextWeekday(d + 1); NextWeekday(d + 2);
    NextWeekday(d + 3); NextWeekday(d + 4); NextWeekday(d + 5);
  }

  lemma NextWeekday(d: Day)
    ensures Weekday(d + 1) == if Weekday(d) == 6 then 0 else Weekday(d) + 1
  {
  }

  lemma {:induction false} WeeksHaveFive(start: Day, weeks: nat)
    ensures Weekdays(start, 7 * weeks) == 5 * weeks
  {
    if weeks > 0 {
      var k := 7 * (weeks - 1);
      var d := start + k;
      WeeksHaveFive(start, weeks - 1);
      WeekHasFive(d);
      assert Weekdays(start, k + 2) == Weekdays(start, k) + OnWeekday(d) + OnWeekday(d + 1);
      assert Weekdays(start, k + 4) == Weekdays(start, k + 2) + OnWeekday(d + 2) + OnWeekday(d + 3);
      assert Weekdays(start, k + 6) == Weekdays(start, k + 4) + OnWeekday(d + 4) + OnWeekday(d + 5);
      assert Weekdays(start, k + 7) == Weekdays(start, k + 6) + OnWeekday(d + 6);
    }
  }

  /**
   The walk returns all n sessions it is asked for when its window holds at most
   5 * floor(max(4n, n + 60) / 7) - n holidays.
   */
  lemma WalkReturnsAll(n: nat, end: Day, closed: set<Day>)
    requires |HolidaysIn(end - MaxSteps(n) + 1, end, closed)| <= 5 * (MaxSteps(n) / 7) - n
    ensures |Recent(n, end, closed)| == n
  {
    var weeks, start := MaxSteps(n) / 7, end - 7 * (MaxSteps(n) / 7) + 1;
    WeekdaysAreSessionsOrHolidays(start, 7 * weeks, closed);
    WeeksHaveFive(start, weeks);
    SessionsSplit(end - MaxSteps(n) + 1, start - 1, end, closed);
    var inner, outer := HolidaysIn(start, end, closed), HolidaysIn(end - MaxSteps(n) + 1, end, closed);
    assert outer == inner + (outer - inner);
    assert |outer| == |inner| + |outer - inner|;
  }
}
