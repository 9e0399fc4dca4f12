/**
 Three answers to "which session is it": the one the tables should hold
 (`resolve_session`), the completed ones (`fetch_completed_trading_days`), and the one
 the vendor's live option chain shows (`chain_session`).

 An instant is a New York date and minute; the UTC date rolls over at 19:00 or 20:00 New
 York, with the offset of that day.
 */
module Session {
  import opened Wrappers
  import opened Ordering
  import opened TradingCalendar
  import CivilMonths

  datatype Instant = Instant(day: Day, minute: int)

  const OPEN: int := 9 * 60 + 30
  const EOD_EXPECTED_BY: int := 19 * 60 + 30

  /** Hours New York is behind UTC on the evening of a day. */
  type Offset = h: int | h == 4 || h == 5 witness 5

  function UtcDay(t: Instant, offset: Offset): Day {
    if t.minute >= (24 - offset) * 60 then t.day + 1 else t.day
  }

  predicate Clock(t: Instant) {
    0 <= t.minute < 24 * 60
  }

  predicate NotAfter(a: Instant, b: Instant) {
    a.day < b.day || (a.day == b.day && a.minute <= b.minute)
  }

  /** `fetch_completed_trading_days(n, as_of=end)` at a moment whose UTC date is `utcToday`. */
  function Completed(n: nat, end: Day, utcToday: Day, closed: set<Day>): seq<Day> {
    var live := end >= utcToday;
    var days := Recent(n + (if live then 1 else 0), end, closed);
    var cut := if live && days != [] && days[|days| - 1] == end then days[..|days| - 1] else days;
    LastN(cut, n)
  }

  /** `resolve_session`; `probe` is the trading-day read, None when it failed. */
  function Resolve(t: Instant, offset: Offset, probe: Option<bool>, closed: set<Day>): (Day, bool) {
    var trading := probe.GetOr(Weekday(t.day) < 5);
    if trading && t.minute >= EOD_EXPECTED_BY then (t.day, true)
    else
      var completed := Completed(1, t.day, UtcDay(t, offset), closed);
      if completed != [] then (completed[|completed| - 1], false) else (t.day, trading)
  }

  function Resolved(t: Instant, offset: Offset, closed: set<Day>): Day {
    Resolve(t, offset, Some(IsSession(t.day, closed)), closed).0
  }

  /** `chain_session`. */
  function Chain(t: Instant, closed: set<Day>): Day {
    if t.minute >= OPEN && IsSession(t.day, closed) then t.day
    else
      var days := Recent(2, t.day, closed);
      var prior := if days != [] && days[|days| - 1] >= t.day then days[..|days| - 1] else days;
      if prior != [] then prior[|prior| - 1]
      else if days != [] then days[|days| - 1]
      else t.day
  }

  // ----------------------------------------------------------------- what they mean

  /** `s` is the last session on or before `d`. */
  ghost predicate IsLast(s: Day, d: Day, closed: set<Day>) {
    IsSession(s, closed) && s <= d && forall x :: s < x <= d ==> !IsSession(x, closed)
  }

  predicate NoneIn(start: Day, end: Day, closed: set<Day>) {
    forall x :: start <= x <= end ==> !IsSession(x, closed)
  }

  /** The market was open on some day of the 60 before this one, so the reads find a session. */
  predicate OpenLately(d: Day, closed: set<Day>) {
    !NoneIn(d - 60, d - 1, closed)
  }

  /** The last element of a window's sessions is the last session before its end. */
  lemma WindowLast(start: Day, end: Day, closed: set<Day>)
    ensures var s := SessionsIn(start, end, closed);
            if s == [] then NoneIn(start, end, closed)
            else start <= s[|s| - 1] && IsLast(s[|s| - 1], end, closed)
                 && s[..|s| - 1] == SessionsIn(start, s[|s| - 1] - 1, closed)
  {
    var s := SessionsIn(start, end, closed);
    if s == [] {
      NoneInWindow(start, end, closed);
    } else {
      var last := s[|s| - 1];
      LastInWindow(s, start, end, closed);
      WindowSplits(start, last, end, closed);
      InitOf(s, SessionsIn(start, last - 1, closed), last);
    }
  }

  lemma NoneInWindow(start: Day, end: Day, closed: set<Day>)
    requires SessionsIn(start, end, closed) == []
    ensures NoneIn(start, end, closed)
  {
    SessionsAre(start, end, closed);
    forall x | start <= x <= end ensures !IsSession(x, closed) {
      assert x !in SessionsIn(start, end, closed);
    }
  }

  lemma LastInWindow(s: seq<Day>, start: Day, end: Day, closed: set<Day>)
    requires s == SessionsIn(start, end, closed) && s != []
    ensures start <= s[|s| - 1] && IsLast(s[|s| - 1], end, closed)
  {
    SessionsAre(start, end, closed);
    assert s[|s| - 1] in s;
    LastIsGreatest(s);
    forall x | s[|s| - 1] < x <= end ensures !IsSession(x, closed) {
      assert x !in s;
    }
  }

  lemma InitOf(s: seq<Day>, init: seq<Day>, last: Day)
    requires s == init + [last]
    ensures s[..|s| - 1] == init
  {
  }

  lemma LastIsGreatest(s: seq<Day>)
    requires s != [] && StrictlyAscending(s)
    ensures forall x :: x in s ==> x <= s[|s| - 1]
  {
  }

  /** The window up to its last session: what comes before that, and the session itself. */
  lemma WindowSplits(start: Day, last: Day, end: Day, closed: set<Day>)
    requires start <= last && IsLast(last, end, closed)
    ensures SessionsIn(start, end, closed) == SessionsIn(start, last - 1, closed) + [last]
  {
    SessionsSplit(start, last, end, closed);
    NoneAfterLast(last, end, closed);
  }

  lemma {:induction false} NoneAfterLast(s: Day, d: Day, closed: set<Day>)
    requires IsLast(s, d, closed)
    ensures SessionsIn(s + 1, d, closed) == []
    decreases d - s
  {
    if s < d { NoneAfterLast(s, d - 1, closed); }
  }

  lemma RecentOne(d: Day, closed: set<Day>)
    ensures var days := Recent(1, d, closed);
            if days == [] then NoneIn(d - 60, d, closed)
            else |days| == 1 && IsLast(days[0], d, closed) && d - 60 <= days[0]
  {
    WindowLast(d - 60, d, closed);
  }

  lemma RecentTwo(d: Day, closed: set<Day>)
    ensures var days := Recent(2, d, closed);
            && |days| <= 2
            && (days == [] ==> NoneIn(d - 61, d, closed))
            && (days != [] ==> d - 61 <= days[0] && IsLast(days[|days| - 1], d, closed))
            && (|days| == 1 ==> NoneIn(d - 61, days[0] - 1, closed))
            && (|days| == 2 ==> IsLast(days[0], days[1] - 1, closed))
  {
    WindowLast(d - 61, d, closed);
    var all := SessionsIn(d - 61, d, closed);
    if all != [] {
      WindowLast(d - 61, all[|all| - 1] - 1, closed);
      SessionsInWindow(d - 61, d, closed);
    }
  }

  lemma SessionsInWindow(start: Day, end: Day, closed: set<Day>)
    ensures forall i :: 0 <= i < |SessionsIn(start, end, closed)| ==> start <= SessionsIn(start, end, closed)[i]
  {
    var all := SessionsIn(start, end, closed);
    SessionsAre(start, end, closed);
    assert forall i :: 0 <= i < |all| ==> all[i] in all;
  }

  /** Today counts for the tables once its batch should have drained, or once the UTC date has left it. */
  predicate Current(t: Instant, offset: Offset) {
    t.minute >= EOD_EXPECTED_BY || UtcDay(t, offset) > t.day
  }

  function LastDay(t: Instant, offset: Offset): Day {
    if Current(t, offset) then t.day else t.day - 1
  }

  /** How far back the completed sessions are looked for: one day further while the UTC date is today's. */
  function Reach(t: Instant, offset: Offset): int {
    if UtcDay(t, offset) > t.day then 60 else 61
  }

  /** What `resolve_session` answers on any calendar: the last session in reach, or today when there is none. */
  lemma ResolvedIs(t: Instant, offset: Offset, closed: set<Day>)
    requires Clock(t)
    ensures var s, x := Resolved(t, offset, closed), LastDay(t, offset);
            || (IsLast(s, x, closed) && t.day - Reach(t, offset) <= s)
            || (s == t.day && NoneIn(t.day - Reach(t, offset), x, closed))
  {
    if UtcDay(t, offset) > t.day {
      RecentOne(t.day, closed);
      assert Completed(1, t.day, UtcDay(t, offset), closed) == Recent(1, t.day, closed);
    } else {
      CompletedLive(t.day, UtcDay(t, offset), closed);
    }
  }

  lemma CompletedLive(end: Day, utcToday: Day, closed: set<Day>)
    requires end >= utcToday
    ensures var days := Completed(1, end, utcToday, closed);
            if days == [] then NoneIn(end - 61, end - 1, closed)
            else |days| == 1 && IsLast(days[0], end - 1, closed) && end - 61 <= days[0]
  {
    RecentTwo(end, closed);
    var two, days := Recent(2, end, closed), Completed(1, end, utcToday, closed);
    if |two| == 2 {
      assert days == if two[1] == end then [two[0]] else [two[1]];
    } else if |two| == 1 {
      assert days == if two[0] == end then [] else two;
    }
  }

  /** What `chain_session` answers on any calendar. */
  lemma ChainIs(t: Instant, closed: set<Day>)
    ensures var s, x := Chain(t, closed), if t.minute >= OPEN then t.day else t.day - 1;
            || (IsLast(s, x, closed) && t.day - 61 <= s)
            || (s == t.day && NoneIn(t.day - 61, t.day - 1, closed))
  {
    RecentTwo(t.day, closed);
  }

  /** The resolved session is the last one on or before today when today counts, before today otherwise. */
  lemma ResolvedMeaning(t: Instant, offset: Offset, closed: set<Day>)
    requires OpenLately(t.day, closed) && Clock(t)
    ensures IsLast(Resolved(t, offset, closed), LastDay(t, offset), closed)
    ensures Resolve(t, offset, Some(IsSession(t.day, closed)), closed).1 <==>
              IsSession(t.day, closed) && t.minute >= EOD_EXPECTED_BY
  {
    ResolvedIs(t, offset, closed);
    if UtcDay(t, offset) > t.day {
      RecentOne(t.day, closed);
    } else {
      CompletedLive(t.day, UtcDay(t, offset), closed);
    }
  }

  /** The chain shows the last session that has opened. */
  lemma ChainMeaning(t: Instant, closed: set<Day>)
    requires OpenLately(t.day, closed)
    ensures IsLast(Chain(t, closed), if t.minute >= OPEN then t.day else t.day - 1, closed)
  {
    ChainIs(t, closed);
  }

  // --------------------------------------------------------------- the time line

  /** On a fixed calendar, however long its closures, neither answer ever goes back. */
  lemma SessionsNeverGoBack(a: Instant, b: Instant, offA: Offset, offB: Offset, closed: set<Day>)
    requires Clock(a) && Clock(b) && NotAfter(a, b)
    requires a.day == b.day ==> offA == offB
    ensures Resolved(a, offA, closed) <= Resolved(b, offB, closed)
    ensures Chain(a, closed) <= Chain(b, closed)
  {
    ResolvedIs(a, offA, closed);
    ResolvedIs(b, offB, closed);
    ChainIs(a, closed);
    ChainIs(b, closed);
    assert LastDay(a, offA) <= LastDay(b, offB);
  }

  /** Without the calendar's answer for today, a weekday counts as a session. */
  lemma UnreadDayIsAWeekday(t: Instant, offset: Offset, closed: set<Day>)
    ensures Resolve(t, offset, None, closed) == Resolve(t, offset, Some((t.day - MONDAY) % 7 < 5), closed)
  {
    SessionsByTheWeek(t.day, {});
  }

  /**
   The chain is never behind the tables and at most one session ahead; the two agree
   exactly outside the hours between a session's open and the moment it becomes current. While
   they agree the doctor calls the session fixable.
   */
  lemma ChainAgainstTables(t: Instant, offset: Offset, closed: set<Day>)
    requires OpenLately(t.day, closed) && Clock(t)
    ensures var tables, chain := Resolved(t, offset, closed), Chain(t, closed);
            && tables <= chain
            && (tables != chain ==> IsLast(tables, chain - 1, closed))
            && (tables == chain <==>
                  !(IsSession(t.day, closed)
                      && 9 * 60 + 30 <= t.minute < (if offset == 5 then 19 * 60 else 19 * 60 + 30)))
  {
    ResolvedMeaning(t, offset, closed);
    ChainMeaning(t, closed);
  }

  /**
   From which minute a session is the resolved one, on its own day: 19:30 in summer, but
   19:00 in winter, when the UTC date rolls over half an hour before the batch is expected
   and the completed sessions already include today.
   */
  lemma TodayResolvesFrom(t: Instant, offset: Offset, closed: set<Day>)
    requires OpenLately(t.day, closed) && Clock(t) && IsSession(t.day, closed)
    ensures Resolved(t, offset, closed) == t.day <==> t.minute >= (if offset == 5 then 19 * 60 else 19 * 60 + 30)
  {
    ResolvedMeaning(t, offset, closed);
  }

  /** Tuesday 6 January 2026, 19:00 New York. */
  const WINTER_EVENING: Instant := Instant(739622, 19 * 60)

  /** It is the sixth day of its year, and the Monday the calendar counts from the fifth. */
  lemma WinterEveningIs(years: nat)
    requires years == 2026 - 1
    ensures WINTER_EVENING.day == CivilMonths.FirstDay(12 * years) + 5
    ensures MONDAY == CivilMonths.FirstDay(12 * years) + 4
  {
    CivilMonths.YearStarts(years);
  }

  /** Half an hour before its batch is expected that session is the resolved one; in summer time it would not be. */
  lemma WinterResolvesEarly()
    ensures WINTER_EVENING.minute < EOD_EXPECTED_BY
    ensures Resolved(WINTER_EVENING, 5, {}) == WINTER_EVENING.day
    ensures Resolved(WINTER_EVENING, 4, {}) < WINTER_EVENING.day
  {
    var d := WINTER_EVENING.day;
    assert IsSession(d - 1, {}) && IsSession(d, {});
    TodayResolvesFrom(WINTER_EVENING, 5, {});
    TodayResolvesFrom(WINTER_EVENING, 4, {});
    ResolvedMeaning(WINTER_EVENING, 4, {});
  }
}
