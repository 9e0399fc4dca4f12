/**
 Night after night of healing one dataset. Each night the doctor measures afresh which
 sessions are absent and which are narrow, prescribes the three oldest, and their refills
 land what the vendor holds for them.
 */
module NightlyHeal {
  import opened Ordering
  import opened Doctor
  import HoleDetector

  /** The days a finding looks at, and whether the contract has `refill_narrow`. */
  datatype Axis = Axis(calendar: set<Day>, start: Day, cutoff: Day, judged: bool)

  /** The days that hold rows, and the symbols counted on each. */
  datatype Coverage = Coverage(held: set<Day>, breadth: map<Day, int>)

  function Sessions(a: Axis): set<Day> {
    set d | d in a.calendar && a.start <= d
  }

  /** The breadth read: grouped and ordered by day. */
  function Read(breadth: map<Day, int>): (r: seq<HoleDetector.DayCount>) {
    var days := SortedSet(breadth.Keys);
    seq(|days|, i requires 0 <= i < |days| => HoleDetector.DayCount(days[i], breadth[days[i]]))
  }

  function Series(a: Axis, breadth: map<Day, int>): seq<HoleDetector.DayCount> {
    HoleDetector.KeepDays(Read(breadth), a.calendar)
  }

  function Narrow(a: Axis, breadth: map<Day, int>): set<Day> {
    if a.judged then NarrowOf(Series(a, breadth), a.start, a.cutoff) else {}
  }

  /** The days due on this coverage. */
  function DueDays(a: Axis, c: Coverage): set<Day> {
    if Present(Sessions(a), c.held) == {} then {} else Absent(Sessions(a), c.held) + Narrow(a, c.breadth)
  }

  function Tonight(a: Axis, c: Coverage): set<Day> {
    Members(Prescribed(Sessions(a), c.held, Narrow(a, c.breadth)))
  }

  /** Refills of these days have landed; `vendor` says what a day holds after its refill. */
  function Landed(c: Coverage, vendor: Coverage, days: set<Day>): Coverage {
    Coverage(c.held + vendor.held * days, Recounted(c.breadth, vendor.breadth, days))
  }

  function Recounted(breadth: map<Day, int>, vendor: map<Day, int>, days: set<Day>): map<Day, int> {
    map d | d in breadth.Keys + vendor.Keys * days :: if d in days && d in vendor then vendor[d] else breadth[d]
  }

  function Night(a: Axis, vendor: Coverage, c: Coverage): Coverage {
    Landed(c, vendor, Tonight(a, c))
  }

  function AfterNights(a: Axis, vendor: Coverage, c: Coverage, nights: nat): Coverage {
    if nights == 0 then c else Night(a, vendor, AfterNights(a, vendor, c, nights - 1))
  }

  // ------------------------------------------------------------- who is prescribed

  function Older(days: set<Day>, d: Day): set<Day> {
    set x | x in days && x < d
  }

  function Oldest(days: set<Day>): set<Day> {
    set d | d in days && |Older(days, d)| < MAX_PRESCRIBED
  }

  lemma OlderAt(due: seq<Day>, days: set<Day>, k: nat)
    requires Lists(due, days) && k < |due|
    ensures |Older(days, due[k])| == k
  {
    assert Older(days, due[k]) == Members(due[..k]) by {
      forall x ensures x in Older(days, due[k]) <==> x in Members(due[..k]) {
        if x in Older(days, due[k]) {
          var i :| 0 <= i < |due| && due[i] == x;
          assert i < k;
        }
      }
    }
    MembersCard(due[..k]);
  }

  lemma {:induction false} MembersCard(s: seq<Day>)
    requires StrictlyAscending(s)
    ensures |Members(s)| == |s|
  {
    if s != [] {
      var n := |s| - 1;
      MembersCard(s[..n]);
      MembersAppend(s, n);
      assert s[..n + 1] == s;
      assert s[n] !in Members(s[..n]);
    }
  }

  function Taken(due: seq<Day>): nat {
    if |due| <= MAX_PRESCRIBED then |due| else MAX_PRESCRIBED
  }

  lemma OldestListed(due: seq<Day>, days: set<Day>)
    requires Lists(due, days)
    ensures Oldest(days) == Members(due[..Taken(due)])
  {
    forall d ensures d in Oldest(days) <==> d in Members(due[..Taken(due)]) {
      if d in days {
        assert d in Members(due);
        var k :| 0 <= k < |due| && due[k] == d;
        OlderAt(due, days, k);
      }
    }
  }

  lemma DueIsListed(a: Axis, c: Coverage)
    ensures Lists(Due(Sessions(a), c.held, Narrow(a, c.breadth)), DueDays(a, c))
  {
    if Present(Sessions(a), c.held) != {} { SortedSetLists(DueDays(a, c)); }
  }

  /** A due day is prescribed tonight exactly when fewer than three due days are older. */
  lemma TonightIsOldest(a: Axis, c: Coverage)
    ensures Tonight(a, c) == Oldest(DueDays(a, c))
    ensures forall d :: d in Tonight(a, c) <==>
      d in DueDays(a, c) && |set x | x in DueDays(a, c) && x < d| < 3
    ensures forall d :: d in Tonight(a, c) ==> a.start <= d && d in a.calendar
  {
    DueAreSessions(a, c);
    assert forall d :: Older(DueDays(a, c), d) == set x | x in DueDays(a, c) && x < d;
    DueIsListed(a, c);
    OldestListed(Due(Sessions(a), c.held, Narrow(a, c.breadth)), DueDays(a, c));
  }

  // ------------------------------------------------------------------- it settles

  /** The days prescribed in the first so many nights. */
  function Asked(a: Axis, vendor: Coverage, c: Coverage, nights: nat): set<Day> {
    if nights == 0 then {}
    else Asked(a, vendor, c, nights - 1) + Tonight(a, AfterNights(a, vendor, c, nights - 1))
  }

  lemma LandedTwice(c: Coverage, vendor: Coverage, d: set<Day>, e: set<Day>)
    ensures Landed(Landed(c, vendor, d), vendor, e) == Landed(c, vendor, d + e)
  {
    assert Recounted(Recounted(c.breadth, vendor.breadth, d), vendor.breadth, e)
        == Recounted(c.breadth, vendor.breadth, d + e);
    assert c.held + vendor.held * d + vendor.held * e == c.held + vendor.held * (d + e);
  }

  lemma LandedNone(c: Coverage, vendor: Coverage)
    ensures Landed(c, vendor, {}) == c
  {
    assert Recounted(c.breadth, vendor.breadth, {}) == c.breadth;
    assert c.held + vendor.held * {} == c.held;
  }

  /** However many nights there were, the coverage is what one landing of all days asked for would give. */
  ghost predicate LandsAsked(a: Axis, vendor: Coverage, c: Coverage, nights: nat) {
    AfterNights(a, vendor, c, nights) == Landed(c, vendor, Asked(a, vendor, c, nights))
  }

  lemma NightLandsAsked(a: Axis, vendor: Coverage, c: Coverage, nights: nat)
    requires LandsAsked(a, vendor, c, nights)
    ensures LandsAsked(a, vendor, c, nights + 1)
  {
    LandedTwice(c, vendor, Asked(a, vendor, c, nights), Tonight(a, AfterNights(a, vendor, c, nights)));
  }

  lemma NightsLandAsked(a: Axis, vendor: Coverage, c: Coverage, nights: nat)
    ensures LandsAsked(a, vendor, c, nights)
  {
    LandedNone(c, vendor);
    for i := 0 to nights
      invariant LandsAsked(a, vendor, c, i)
    {
      NightLandsAsked(a, vendor, c, i);
    }
  }

  /** Only sessions of the window are due. */
  lemma DueAreSessions(a: Axis, c: Coverage)
    ensures DueDays(a, c) <= Sessions(a)
    ensures Narrow(a, c.breadth) <= Sessions(a) * c.breadth.Keys
  {
    forall d | d in Narrow(a, c.breadth) ensures d in Sessions(a) * c.breadth.Keys {
      var _ := NarrowIsRead(a, c.breadth, d);
    }
  }

  lemma ReadAscends(breadth: map<Day, int>)
    ensures HoleDetector.DaysAscend(Read(breadth))
    ensures forall e :: e in Read(breadth) ==> e.day in breadth && e.n == breadth[e.day]
  {
    SortedSetAscends(breadth.Keys);
  }

  /** A narrow day is a day of the series that is below the trailing floor there. */
  lemma NarrowIsRead(a: Axis, breadth: map<Day, int>, d: Day) returns (i: nat)
    requires d in Narrow(a, breadth)
    ensures d in breadth && d in Sessions(a)
    ensures var series := Series(a, breadth);
            && i < |series| && series[i] == HoleDetector.DayCount(d, breadth[d])
            && HoleDetector.NarrowAt(HoleDetector.Counts(series), i, HoleDetector.NARROW)
  {
    var series := Series(a, breadth);
    ReadAscends(breadth);
    HoleDetector.KeepDaysAscend(Read(breadth), a.calendar);
    HoleDetector.SortDaysKeeps(series);
    var h :| h in HoleDetector.NarrowDaysOf(series) && a.start <= h.day < a.cutoff && h.day == d;
    i := HoleDetector.ListedIsFlagged(series, h, HoleDetector.NARROW);
    HoleDetector.KeepDaysMember(Read(breadth), a.calendar, series[i]);
  }

  /** Nothing a refill lands tonight changes anything. */
  ghost predicate Settled(a: Axis, vendor: Coverage, c: Coverage) {
    Night(a, vendor, c) == c
  }

  /** Asking only for days that were asked for before changes nothing. */
  lemma AskingAgain(a: Axis, vendor: Coverage, c: Coverage, now: Coverage, asked: set<Day>)
    requires now == Landed(c, vendor, asked) && Tonight(a, now) <= asked
    ensures Settled(a, vendor, now)
  {
    LandedTwice(c, vendor, asked, Tonight(a, now));
    assert asked + Tonight(a, now) == asked;
  }

  /** The first nights each asked for another day, or the coverage no longer changes. */
  ghost predicate MovesOn(a: Axis, vendor: Coverage, c: Coverage, nights: nat) {
    && Asked(a, vendor, c, nights) <= Sessions(a)
    && (Settled(a, vendor, AfterNights(a, vendor, c, nights)) || |Asked(a, vendor, c, nights)| >= nights)
  }

  lemma NightMovesOn(a: Axis, vendor: Coverage, c: Coverage, nights: nat)
    requires MovesOn(a, vendor, c, nights)
    ensures MovesOn(a, vendor, c, nights + 1)
  {
    var now, asked := AfterNights(a, vendor, c, nights), Asked(a, vendor, c, nights);
    TonightAreSessions(a, now);
    if Settled(a, vendor, now) {
      assert AfterNights(a, vendor, c, nights + 1) == now;
    } else {
      NightsLandAsked(a, vendor, c, nights);
      if Tonight(a, now) <= asked { AskingAgain(a, vendor, c, now, asked); }
      SubsetSize(asked, asked + Tonight(a, now));
    }
  }

  lemma TonightAreSessions(a: Axis, c: Coverage)
    ensures Tonight(a, c) <= Sessions(a)
  {
    TonightIsOldest(a, c);
    DueAreSessions(a, c);
  }

  lemma LastNight(a: Axis, vendor: Coverage, c: Coverage, nights: nat)
    requires nights >= |Sessions(a)| && MovesOn(a, vendor, c, nights)
    ensures Settled(a, vendor, AfterNights(a, vendor, c, nights))
  {
    var now, asked := AfterNights(a, vendor, c, nights), Asked(a, vendor, c, nights);
    if !Settled(a, vendor, now) {
      SubsetSize(asked, Sessions(a));
      TonightAreSessions(a, now);
      NightsLandAsked(a, vendor, c, nights);
      AskingAgain(a, vendor, c, now, asked);
    }
  }

  /**
   Whatever the vendor holds, the nights come to rest: once there were as many as the
   window has sessions, nothing changes any more, and what is still prescribed are days
   whose refill has landed to no effect.
   */
  lemma Settles(a: Axis, vendor: Coverage, c: Coverage, nights: nat)
    requires nights >= |Sessions(a)|
    ensures var now := AfterNights(a, vendor, c, nights);
            && AfterNights(a, vendor, c, nights + 1) == now
            && forall d :: d in Tonight(a, now) ==> BeyondHelp(a, vendor, now, d)
  {
    for i := 0 to nights
      invariant MovesOn(a, vendor, c, i)
    {
      NightMovesOn(a, vendor, c, i);
    }
    LastNight(a, vendor, c, nights);
    var now := AfterNights(a, vendor, c, nights);
    forall d | d in Tonight(a, now) ensures BeyondHelp(a, vendor, now, d) {
      SettledIsBeyondHelp(a, vendor, now, d);
    }
  }

  /** A due day the vendor has nothing for, or one that is narrow with all the vendor has. */
  ghost predicate BeyondHelp(a: Axis, vendor: Coverage, c: Coverage, d: Day) {
    || (d in Absent(Sessions(a), c.held) && d !in vendor.held)
    || (d in Narrow(a, c.breadth) && d in c.breadth && (d in vendor.breadth ==> vendor.breadth[d] == c.breadth[d]))
  }

  lemma SettledIsBeyondHelp(a: Axis, vendor: Coverage, c: Coverage, d: Day)
    requires Settled(a, vendor, c) && d in Tonight(a, c)
    ensures BeyondHelp(a, vendor, c, d)
  {
    TonightIsOldest(a, c);
    DueAreSessions(a, c);
    assert d in vendor.held ==> d in Night(a, vendor, c).held;
    assert d in vendor.breadth ==> Recounted(c.breadth, vendor.breadth, Tonight(a, c))[d] == vendor.breadth[d];
  }

  // ---------------------------------------------- a dataset not judged on breadth

  /** One night on the due days alone: those of the oldest that the vendor has are gone. */
  function Shrunk(due: set<Day>, live: set<Day>): set<Day> {
    due - Oldest(due) * live
  }

  /** The days no number of nights clears: those the vendor lacks, and those behind three such. */
  function Stuck(due: set<Day>, live: set<Day>): set<Day> {
    set d | d in due && (d !in live || |Older(due - live, d)| >= MAX_PRESCRIBED)
  }

  lemma OlderFewer(small: set<Day>, large: set<Day>, d: Day)
    requires small <= large
    ensures |Older(small, d)| <= |Older(large, d)|
  {
    SubsetSize(Older(small, d), Older(large, d));
  }

  lemma ShrunkKeepsStuck(due: set<Day>, live: set<Day>)
    ensures Stuck(Shrunk(due, live), live) == Stuck(due, live)
  {
    assert Shrunk(due, live) - live == due - live;
    forall d | d in due ensures d in Oldest(due) * live ==> d !in Stuck(due, live) {
      OlderFewer(due - live, due, d);
    }
  }

  /** As long as another day is due than the stuck ones, a night clears one of them. */
  lemma ShrinksUntilStuck(due: set<Day>, live: set<Day>)
    ensures Stuck(due, live) <= due
    ensures due != Stuck(due, live) ==> |Shrunk(due, live)| < |due|
  {
    var free := due - Stuck(due, live);
    if free != {} {
      var d := Least(free);
      assert Older(due, d) <= Older(due - live, d) by {
        forall x | x in Older(due, d) ensures x !in live {
          if x in live {
            assert x !in free;
            assert Older(due - live, x) <= Older(due - live, d);
            SubsetSize(Older(due - live, x), Older(due - live, d));
          }
        }
      }
      SubsetSize(Older(due, d), Older(due - live, d));
      assert d in Oldest(due) * live;
      SubsetSize(Shrunk(due, live), due);
    }
  }

  /** Refilling days of the span moves neither end of it. */
  lemma RefillKeepsSpan(sessions: set<Day>, held: set<Day>, days: set<Day>)
    requires Present(sessions, held) != {} && days <= Absent(sessions, held) + held
    ensures Present(sessions, held + days) != {}
    ensures Absent(sessions, held + days) == Absent(sessions, held) - days
  {
    var p, p' := Present(sessions, held), Present(sessions, held + days);
    assert Least(p) in p' && Greatest(p) in p';
    forall x | x in p' ensures Least(p) <= x <= Greatest(p) {
      assert x in p || x in Absent(sessions, held);
    }
    assert Least(p') == Least(p) && Greatest(p') == Greatest(p);
  }

  lemma AbsentShrinks(sessions: set<Day>, held: set<Day>, live: set<Day>)
    ensures Absent(sessions, held + live * Oldest(Absent(sessions, held)))
         == Shrunk(Absent(sessions, held), live)
  {
    var absent := Absent(sessions, held);
    if Present(sessions, held) == {} {
      assert held + live * Oldest(absent) == held;
    } else {
      RefillKeepsSpan(sessions, held, live * Oldest(absent));
    }
  }

  lemma DueIsAbsent(a: Axis, c: Coverage)
    requires !a.judged
    ensures DueDays(a, c) == Absent(Sessions(a), c.held)
  {
  }

  lemma NightShrinks(a: Axis, vendor: Coverage, c: Coverage)
    requires !a.judged
    ensures DueDays(a, Night(a, vendor, c)) == Shrunk(DueDays(a, c), vendor.held)
  {
    TonightIsOldest(a, c);
    DueIsAbsent(a, c);
    DueIsAbsent(a, Night(a, vendor, c));
    AbsentShrinks(Sessions(a), c.held, vendor.held);
  }

  /** Due days that are on their way to the stuck ones, a day a night at least. */
  ghost predicate OnTheWay(due: set<Day>, live: set<Day>, first: set<Day>, nights: nat) {
    Stuck(due, live) == Stuck(first, live) && (due == Stuck(first, live) || |due| + nights <= |first|)
  }

  lemma ShrunkOnTheWay(due: set<Day>, live: set<Day>, first: set<Day>, nights: nat)
    requires OnTheWay(due, live, first, nights)
    ensures OnTheWay(Shrunk(due, live), live, first, nights + 1)
  {
    ShrunkKeepsStuck(due, live);
    ShrinksUntilStuck(due, live);
    ShrinksUntilStuck(Shrunk(due, live), live);
  }

  /**
   What is left of the absent days in the end: exactly those the vendor has nothing for
   and those that at least three such days precede.
   */
  lemma LeftAreStuck(a: Axis, vendor: Coverage, c: Coverage, nights: nat)
    requires !a.judged && nights >= |DueDays(a, c)|
    ensures DueDays(a, AfterNights(a, vendor, c, nights)) == Stuck(DueDays(a, c), vendor.held)
  {
    for i := 0 to nights
      invariant OnTheWay(DueDays(a, AfterNights(a, vendor, c, i)), vendor.held, DueDays(a, c), i)
    {
      NightShrinks(a, vendor, AfterNights(a, vendor, c, i));
      ShrunkOnTheWay(DueDays(a, AfterNights(a, vendor, c, i)), vendor.held, DueDays(a, c), i);
    }
    ShrinksUntilStuck(DueDays(a, AfterNights(a, vendor, c, nights)), vendor.held);
  }

  function Cleared(due: seq<Day>, nights: nat): (n: nat)
    ensures n <= |due|
  {
    if MAX_PRESCRIBED * nights <= |due| then MAX_PRESCRIBED * nights else |due|
  }

  /** A night takes the oldest three, when the vendor holds them, and leaves the others due. */
  lemma NightTakesListed(a: Axis, vendor: Coverage, now: Coverage, rest: seq<Day>)
    requires !a.judged && Lists(rest, DueDays(a, now)) && Members(rest[..Taken(rest)]) <= vendor.held
    ensures Lists(rest[Taken(rest)..], DueDays(a, Night(a, vendor, now)))
  {
    NightShrinks(a, vendor, now);
    OldestListed(rest, DueDays(a, now));
    ListsDrop(rest, DueDays(a, now), Taken(rest));
    assert Oldest(DueDays(a, now)) * vendor.held == Members(rest[..Taken(rest)]);
  }

  function Rest(due: seq<Day>, nights: nat): seq<Day> {
    due[Cleared(due, nights)..]
  }

  lemma RestNext(due: seq<Day>, nights: nat, last: nat)
    requires nights < last
    ensures var rest := Rest(due, nights);
            && rest[Taken(rest)..] == Rest(due, nights + 1)
            && Members(rest[..Taken(rest)]) <= Members(due[..Cleared(due, last)])
  {
    var rest := Rest(due, nights);
    PartOfFirst(due, Cleared(due, nights), Cleared(due, nights + 1), Cleared(due, last));
    assert rest[..Taken(rest)] == due[Cleared(due, nights)..Cleared(due, nights + 1)];
  }

  /** After these nights the due days are the listed ones but for the oldest, three a night. */
  ghost predicate ListedAfter(a: Axis, vendor: Coverage, c: Coverage, due: seq<Day>, nights: nat) {
    Lists(Rest(due, nights), DueDays(a, AfterNights(a, vendor, c, nights)))
  }

  lemma ListedNextNight(a: Axis, vendor: Coverage, c: Coverage, due: seq<Day>, nights: nat, last: nat)
    requires !a.judged && nights < last && ListedAfter(a, vendor, c, due, nights)
    requires Members(due[..Cleared(due, last)]) <= vendor.held
    ensures ListedAfter(a, vendor, c, due, nights + 1)
  {
    RestNext(due, nights, last);
    NightTakesListed(a, vendor, AfterNights(a, vendor, c, nights), Rest(due, nights));
  }

  lemma ListedAfterNights(a: Axis, vendor: Coverage, c: Coverage, due: seq<Day>, nights: nat)
    requires !a.judged && Lists(due, DueDays(a, c)) && Members(due[..Cleared(due, nights)]) <= vendor.held
    ensures ListedAfter(a, vendor, c, due, nights)
  {
    assert Rest(due, 0) == due;
    for i := 0 to nights
      invariant ListedAfter(a, vendor, c, due, i)
    {
      ListedNextNight(a, vendor, c, due, i, nights);
    }
  }

  /**
   Convergence of the absent days: as long as the vendor holds the days it is asked for,
   they go oldest first, three a night. So k of them are gone after ceil(k / 3) nights and
   not before.
   */
  lemma DueClearsOldestFirst(a: Axis, vendor: Coverage, c: Coverage, nights: nat)
    requires !a.judged
    ensures var due, now := Due(Sessions(a), c.held, {}), AfterNights(a, vendor, c, nights);
            Members(due[..Cleared(due, nights)]) <= vendor.held ==>
            && Due(Sessions(a), now.held, {}) == due[Cleared(due, nights)..]
            && (DueDays(a, now) == {} <==> nights >= (|due| + 2) / 3)
  {
    var due := Due(Sessions(a), c.held, {});
    if Members(due[..Cleared(due, nights)]) <= vendor.held {
      DueIsListed(a, c);
      ListedAfterNights(a, vendor, c, due, nights);
      ListIsDue(a, AfterNights(a, vendor, c, nights), Rest(due, nights));
    }
  }

  lemma ListIsDue(a: Axis, now: Coverage, rest: seq<Day>)
    requires !a.judged && Lists(rest, DueDays(a, now))
    ensures Due(Sessions(a), now.held, {}) == rest && (rest == [] <==> DueDays(a, now) == {})
  {
    DueIsListed(a, now);
    ListsUnique(Due(Sessions(a), now.held, {}), rest, DueDays(a, now));
    EmptyList(rest, DueDays(a, now));
  }

  lemma PartOfFirst(s: seq<Day>, i: nat, j: nat, n: nat)
    requires i <= j <= n <= |s|
    ensures Members(s[i..j]) <= Members(s[..n])
  {
    assert s[i..j] == s[..n][i..j];
  }

  lemma EmptyList(s: seq<Day>, all: set<Day>)
    requires Lists(s, all)
    ensures s == [] <==> all == {}
  {
    if s != [] { assert s[0] in Members(s); }
  }

  // -------------------------------------------------- a dataset judged on breadth

  /** A day with no counted symbol may hold rows; a day with one does. */
  predicate Sound(c: Coverage) {
    c.breadth.Keys <= c.held
  }

  /** Sessions that hold rows and fall short of every full day. */
  function Short(a: Axis, c: Coverage, low: int): set<Day> {
    set d | d in Sessions(a) && d in c.breadth && c.breadth[d] < low
  }

  function Pool(a: Axis, c: Coverage, low: int): set<Day> {
    Absent(Sessions(a), c.held) + Short(a, c, low)
  }

  /**
   The vendor holds every absent and short session, at counts that stay within the narrow
   test's ratio of each other, and nothing in the series is above them.
   */
  predicate Steady(a: Axis, vendor: Coverage, c: Coverage, low: int, high: int) {
    && HoleDetector.NARROW.num * high <= HoleDetector.NARROW.den * low
    && Pool(a, c, low) <= vendor.held * vendor.breadth.Keys
    && (forall d :: d in vendor.breadth ==> low <= vendor.breadth[d] <= high)
    && (forall d :: d in c.breadth ==> c.breadth[d] <= high)
  }

  lemma CountsAtMost(s: seq<HoleDetector.DayCount>, high: int)
    requires forall e :: e in s ==> e.n <= high
    ensures forall x :: x in HoleDetector.Counts(s) ==> x <= high
  {
    forall i | 0 <= i < |s| ensures HoleDetector.Counts(s)[i] <= high {
      assert s[i] in s;
    }
  }

  lemma SeriesAtMost(a: Axis, breadth: map<Day, int>, high: int)
    requires forall d :: d in breadth ==> breadth[d] <= high
    ensures forall x :: x in HoleDetector.Counts(Series(a, breadth)) ==> x <= high
  {
    var series := Series(a, breadth);
    ReadAscends(breadth);
    forall e | e in series ensures e.n <= high {
      HoleDetector.KeepDaysMember(Read(breadth), a.calendar, e);
    }
    CountsAtMost(series, high);
  }

  lemma BelowFloorIsLow(c: seq<int>, i: nat, low: int, high: int)
    requires i < |c| && HoleDetector.NarrowAt(c, i, HoleDetector.NARROW)
    requires HoleDetector.NARROW.num * high <= HoleDetector.NARROW.den * low
    requires forall x :: x in c ==> x <= high
    ensures c[i] < low
  {
    var trailing := HoleDetector.Trailing(c, i, HoleDetector.NARROW);
    assert forall x :: x in trailing ==> x in c;
    HoleDetector.MedianAtMost(trailing, high);
  }

  /** Near the top of the series no day is narrow. */
  lemma NarrowIsLow(a: Axis, breadth: map<Day, int>, low: int, high: int, d: Day)
    requires HoleDetector.NARROW.num * high <= HoleDetector.NARROW.den * low
    requires forall x :: x in breadth ==> breadth[x] <= high
    requires d in Narrow(a, breadth)
    ensures d in breadth && breadth[d] < low
  {
    var i := NarrowIsRead(a, breadth, d);
    SeriesAtMost(a, breadth, high);
    BelowFloorIsLow(HoleDetector.Counts(Series(a, breadth)), i, low, high);
  }

  lemma ShortBeforeToo(a: Axis, vendor: Coverage, c: Coverage, low: int, high: int, asked: set<Day>, d: Day)
    requires Steady(a, vendor, c, low, high) && asked <= Pool(a, c, low)
    requires d in Narrow(a, Landed(c, vendor, asked).breadth)
    ensures d in Short(a, c, low) - asked
  {
    var breadth := Recounted(c.breadth, vendor.breadth, asked);
    NarrowIsLow(a, breadth, low, high, d);
    var _ := NarrowIsRead(a, breadth, d);
  }

  /** On a steady feed only absent and short days not asked for yet can be due. */
  lemma DueFromPool(a: Axis, vendor: Coverage, c: Coverage, low: int, high: int, asked: set<Day>)
    requires Sound(c) && Steady(a, vendor, c, low, high) && asked <= Pool(a, c, low)
    ensures DueDays(a, Landed(c, vendor, asked)) <= Pool(a, c, low) - asked
  {
    var now := Landed(c, vendor, asked);
    forall d | d in Narrow(a, now.breadth) ensures d in Short(a, c, low) - asked {
      ShortBeforeToo(a, vendor, c, low, high, asked, d);
    }
    assert vendor.held * asked == asked;
    if Present(Sessions(a), c.held) == {} {
      assert asked == {};
      assert now.held == c.held;
    } else {
      RefillKeepsSpan(Sessions(a), c.held, asked);
    }
  }

  ghost predicate FromPool(a: Axis, vendor: Coverage, c: Coverage, low: int, nights: nat) {
    var asked := Asked(a, vendor, c, nights);
    asked <= Pool(a, c, low) && (|asked| >= nights || DueDays(a, AfterNights(a, vendor, c, nights)) == {})
  }

  lemma NightFromPool(a: Axis, vendor: Coverage, c: Coverage, low: int, high: int, nights: nat)
    requires Sound(c) && Steady(a, vendor, c, low, high) && FromPool(a, vendor, c, low, nights)
    ensures FromPool(a, vendor, c, low, nights + 1)
  {
    var now, asked := AfterNights(a, vendor, c, nights), Asked(a, vendor, c, nights);
    NightsLandAsked(a, vendor, c, nights);
    DueFromPool(a, vendor, c, low, high, asked);
    TonightIsOldest(a, now);
    if DueDays(a, now) == {} {
      LandedNone(now, vendor);
    } else {
      DueIsListed(a, now);
      OldestOfSome(DueDays(a, now));
      SubsetSize(asked, asked + Tonight(a, now));
    }
  }

  lemma OldestOfSome(due: set<Day>)
    requires due != {}
    ensures Oldest(due) != {}
  {
    assert Older(due, Least(due)) == {};
    assert Least(due) in Oldest(due);
  }

  /**
   Convergence on breadth: on a steady feed nothing is due any more once there were as
   many nights as there are absent and short days, and it stays so.
   */
  lemma SteadyFeedClears(a: Axis, vendor: Coverage, c: Coverage, low: int, high: int, nights: nat)
    requires Sound(c) && Steady(a, vendor, c, low, high) && nights >= |Pool(a, c, low)|
    ensures DueDays(a, AfterNights(a, vendor, c, nights)) == {}
  {
    for i := 0 to nights
      invariant FromPool(a, vendor, c, low, i)
    {
      NightFromPool(a, vendor, c, low, high, i);
    }
    var asked := Asked(a, vendor, c, nights);
    NightsLandAsked(a, vendor, c, nights);
    DueFromPool(a, vendor, c, low, high, asked);
    SubsetSize(asked, Pool(a, c, low));
  }

  /** A night adds no due day when every short day is due already. */
  lemma NightAddsNone(a: Axis, vendor: Coverage, c: Coverage, low: int, high: int)
    requires Sound(c) && Steady(a, vendor, c, low, high) && Short(a, c, low) <= DueDays(a, c)
    ensures DueDays(a, Night(a, vendor, c)) <= DueDays(a, c) - Tonight(a, c)
  {
    TonightIsOldest(a, c);
    DueAreShort(a, vendor, c, low, high);
    DueFromPool(a, vendor, c, low, high, Tonight(a, c));
  }

  lemma DueAreShort(a: Axis, vendor: Coverage, c: Coverage, low: int, high: int)
    requires Sound(c) && Steady(a, vendor, c, low, high)
    ensures DueDays(a, c) <= Pool(a, c, low)
  {
    DueFromPool(a, vendor, c, low, high, {});
    LandedNone(c, vendor);
  }

  // ------------------------------------- a refill that makes another session narrow

  /** A dataset all of whose days are in the window and may be prescribed. */
  predicate AllInWindow(a: Axis, breadth: map<Day, int>) {
    a.judged && forall d :: d in breadth ==> d in a.calendar && a.start <= d < a.cutoff
  }

  lemma ReadIs(breadth: map<Day, int>, days: seq<Day>, counts: seq<int>)
    requires Lists(days, breadth.Keys)
    requires |counts| == |days| && forall i :: 0 <= i < |days| ==> counts[i] == breadth[days[i]]
    ensures |Read(breadth)| == |days| && HoleDetector.Counts(Read(breadth)) == counts
    ensures forall i :: 0 <= i < |days| ==> Read(breadth)[i] == HoleDetector.DayCount(days[i], counts[i])
  {
    SortedSetLists(breadth.Keys);
    ListsUnique(days, SortedSet(breadth.Keys), breadth.Keys);
  }

  lemma SeriesIsRead(a: Axis, breadth: map<Day, int>)
    requires AllInWindow(a, breadth)
    ensures Series(a, breadth) == Read(breadth)
  {
    ReadAscends(breadth);
    HoleDetector.KeepDaysOfAll(Read(breadth), a.calendar);
  }

  lemma NarrowIs(a: Axis, breadth: map<Day, int>, days: seq<Day>, counts: seq<int>, i: nat)
    requires AllInWindow(a, breadth) && Lists(days, breadth.Keys) && i < |days|
    requires |counts| == |days| && forall i :: 0 <= i < |days| ==> counts[i] == breadth[days[i]]
    ensures days[i] in Narrow(a, breadth) <==> HoleDetector.NarrowAt(counts, i, HoleDetector.NARROW)
  {
    ReadIs(breadth, days, counts);
    SeriesIsRead(a, breadth);
    if days[i] in Narrow(a, breadth) { NarrowIsFlagged(a, breadth, i); }
    if HoleDetector.NarrowAt(counts, i, HoleDetector.NARROW) { FlaggedIsNarrow(a, breadth, i); }
  }

  lemma NarrowIsFlagged(a: Axis, breadth: map<Day, int>, i: nat)
    requires AllInWindow(a, breadth) && Series(a, breadth) == Read(breadth) && i < |Read(breadth)|
    requires Read(breadth)[i].day in Narrow(a, breadth)
    ensures HoleDetector.NarrowAt(HoleDetector.Counts(Read(breadth)), i, HoleDetector.NARROW)
  {
    ReadAscends(breadth);
    var j := NarrowIsRead(a, breadth, Read(breadth)[i].day);
    assert j == i;
  }

  lemma FlaggedIsNarrow(a: Axis, breadth: map<Day, int>, i: nat)
    requires AllInWindow(a, breadth) && Series(a, breadth) == Read(breadth) && i < |Read(breadth)|
    requires HoleDetector.NarrowAt(HoleDetector.Counts(Read(breadth)), i, HoleDetector.NARROW)
    ensures Read(breadth)[i].day in Narrow(a, breadth)
  {
    var series := Read(breadth);
    ReadAscends(breadth);
    assert series[i] in series;
    HoleDetector.SortDaysKeeps(series);
    HoleDetector.FlaggedIsListed(series, i, HoleDetector.NARROW);
  }

  lemma NarrowOnly(a: Axis, breadth: map<Day, int>, days: seq<Day>, counts: seq<int>, narrow: set<Day>)
    requires AllInWindow(a, breadth) && Lists(days, breadth.Keys) && narrow <= breadth.Keys
    requires |counts| == |days| && forall i :: 0 <= i < |days| ==> counts[i] == breadth[days[i]]
    requires forall i :: 0 <= i < |days| ==>
      (days[i] in narrow <==> HoleDetector.NarrowAt(counts, i, HoleDetector.NARROW))
    ensures Narrow(a, breadth) == narrow
  {
    DueAreSessions(a, Coverage({}, breadth));
    forall d | d in breadth.Keys ensures d in Narrow(a, breadth) <==> d in narrow {
      assert d in Members(days);
      var i :| 0 <= i < |days| && days[i] == d;
      NarrowIs(a, breadth, days, counts, i);
    }
  }

  /** The medians the example below meets. */
  lemma Medians()
    ensures HoleDetector.Median2([100, 90, 90]) == 180
    ensures HoleDetector.Median2([100, 90, 100]) == 200
    ensures HoleDetector.Median2([100, 90, 90, 80]) == 180
    ensures HoleDetector.Median2([100, 90, 100, 90]) == 190
    ensures HoleDetector.Median2([100, 90, 100, 90, 80]) == 180
  {
    assert Sort([90]) == [90] && Sort([90, 90]) == [90, 90] && Sort([100, 90, 90]) == [90, 90, 100];
    assert Sort([80]) == [80] && Sort([90, 80]) == [80, 90] && Sort([90, 90, 80]) == [80, 90, 90];
  }

  const EXAMPLE: Axis := Axis({0, 1, 2, 3, 4, 5}, 0, 6, true)
  const BEFORE: map<Day, int> := map[0 := 100, 1 := 90, 3 := 90, 4 := 80, 5 := 100]
  const AFTER: map<Day, int> := map[0 := 100, 1 := 90, 2 := 100, 3 := 90, 4 := 80, 5 := 100]

  lemma FlagsBefore(i: nat)
    requires i < 5
    ensures !HoleDetector.NarrowAt([100, 90, 90, 80, 100], i, HoleDetector.NARROW)
  {
    var counts := [100, 90, 90, 80, 100];
    Medians();
    if i == 3 {
      assert HoleDetector.Trailing(counts, i, HoleDetector.NARROW) == [100, 90, 90];
    } else if i == 4 {
      assert HoleDetector.Trailing(counts, i, HoleDetector.NARROW) == [100, 90, 90, 80];
    }
  }

  lemma FlagsAfter(i: nat)
    requires i < 6
    ensures HoleDetector.NarrowAt([100, 90, 100, 90, 80, 100], i, HoleDetector.NARROW) <==> i == 4
  {
    var counts := [100, 90, 100, 90, 80, 100];
    Medians();
    if i == 3 {
      assert HoleDetector.Trailing(counts, i, HoleDetector.NARROW) == [100, 90, 100];
    } else if i == 4 {
      assert HoleDetector.Trailing(counts, i, HoleDetector.NARROW) == [100, 90, 100, 90];
      assert HoleDetector.Following(counts, i, HoleDetector.NARROW)[0] == 100;
    } else if i == 5 {
      assert HoleDetector.Trailing(counts, i, HoleDetector.NARROW) == [100, 90, 100, 90, 80];
    }
  }

  /** The days and counts of the example, one series. */
  predicate CountedAs(breadth: map<Day, int>, days: seq<Day>, counts: seq<int>) {
    && Lists(days, breadth.Keys) && |counts| == |days|
    && forall i :: 0 <= i < |days| ==> counts[i] == breadth[days[i]]
  }

  lemma ExampleDays()
    ensures Lists([0, 1, 3, 4, 5], BEFORE.Keys) && Lists([0, 1, 2, 3, 4, 5], AFTER.Keys)
  {
    assert Members([0, 1, 3, 4, 5]) == BEFORE.Keys;
    assert Members([0, 1, 2, 3, 4, 5]) == AFTER.Keys;
  }

  lemma CountsBefore()
    ensures CountedAs(BEFORE, [0, 1, 3, 4, 5], [100, 90, 90, 80, 100])
  {
    ExampleDays();
  }

  lemma CountsAfter()
    ensures CountedAs(AFTER, [0, 1, 2, 3, 4, 5], [100, 90, 100, 90, 80, 100])
  {
    ExampleDays();
  }

  lemma NarrowFromCounts(breadth: map<Day, int>, days: seq<Day>, counts: seq<int>, narrow: set<Day>)
    requires CountedAs(breadth, days, counts) && AllInWindow(EXAMPLE, breadth) && narrow <= breadth.Keys
    requires forall i :: 0 <= i < |days| ==>
      (days[i] in narrow <==> HoleDetector.NarrowAt(counts, i, HoleDetector.NARROW))
    ensures Narrow(EXAMPLE, breadth) == narrow
  {
    NarrowOnly(EXAMPLE, breadth, days, counts, narrow);
  }

  /** With day 2 absent, no day is narrow. */
  lemma NoneNarrowBefore()
    ensures Narrow(EXAMPLE, BEFORE) == {}
  {
    forall i | 0 <= i < 5 { FlagsBefore(i); }
    CountsBefore();
    NarrowFromCounts(BEFORE, [0, 1, 3, 4, 5], [100, 90, 90, 80, 100], {});
  }

  /** Once day 2 has landed, the 80 of day 4 is narrow. */
  lemma FourIsNarrowAfter()
    ensures Narrow(EXAMPLE, AFTER) == {4}
  {
    forall i | 0 <= i < 6 { FlagsAfter(i); }
    CountsAfter();
    NarrowFromCounts(AFTER, [0, 1, 2, 3, 4, 5], [100, 90, 100, 90, 80, 100], {4});
  }

  const GAPPED: Coverage := Coverage({0, 1, 3, 4, 5}, BEFORE)
  const FULL: Coverage :=
    Coverage({0, 1, 2, 3, 4, 5}, map[0 := 100, 1 := 100, 2 := 100, 3 := 100, 4 := 100, 5 := 100])

  lemma ExampleSpan()
    ensures Sessions(EXAMPLE) == {0, 1, 2, 3, 4, 5}
    ensures Absent(Sessions(EXAMPLE), GAPPED.held) == {2} && Absent(Sessions(EXAMPLE), FULL.held) == {}
  {
    assert Sessions(EXAMPLE) == {0, 1, 2, 3, 4, 5};
    var p := Present(Sessions(EXAMPLE), GAPPED.held);
    assert p == {0, 1, 3, 4, 5};
    assert Least(p) == 0 && Greatest(p) == 5;
  }

  lemma OneDue(a: Axis, vendor: Coverage, c: Coverage, d: Day)
    requires DueDays(a, c) == {d}
    ensures Night(a, vendor, c) == Landed(c, vendor, {d})
  {
    TonightIsOldest(a, c);
    assert Older({d}, d) == {};
    assert Oldest({d}) == {d};
  }

  lemma DueIs(a: Axis, c: Coverage, absent: set<Day>, narrow: set<Day>)
    requires Present(Sessions(a), c.held) != {}
    requires Absent(Sessions(a), c.held) == absent && Narrow(a, c.breadth) == narrow
    ensures DueDays(a, c) == absent + narrow
  {
  }

  lemma GapLanded()
    ensures Landed(GAPPED, FULL, {2}) == Coverage(FULL.held, AFTER)
  {
    assert Recounted(BEFORE, FULL.breadth, {2}) == AFTER;
    assert GAPPED.held + FULL.held * {2} == FULL.held;
  }

  lemma DueFirst()
    ensures DueDays(EXAMPLE, GAPPED) == {2}
  {
    ExampleSpan();
    NoneNarrowBefore();
    assert 0 in Present(Sessions(EXAMPLE), GAPPED.held);
    DueIs(EXAMPLE, GAPPED, {2}, {});
  }

  lemma DueNext()
    ensures DueDays(EXAMPLE, Coverage(FULL.held, AFTER)) == {4}
  {
    ExampleSpan();
    FourIsNarrowAfter();
    assert 0 in Present(Sessions(EXAMPLE), FULL.held);
    DueIs(EXAMPLE, Coverage(FULL.held, AFTER), {}, {4});
  }

  lemma ExampleIsSteady()
    ensures Short(EXAMPLE, GAPPED, 85) == {4} && Pool(EXAMPLE, GAPPED, 85) == {2, 4}
    ensures Steady(EXAMPLE, FULL, GAPPED, 85, 100)
  {
    ExampleSpan();
    assert Short(EXAMPLE, GAPPED, 85) == {4};
    assert {2} + {4} == {2, 4};
  }

  /**
   Breadth is judged anew every night. On a steady feed, one absent day is due; its refill
   moves the medians, and a session that was broad enough is due the night after. The
   absent and short days are two, and two nights clear them.
   */
  lemma RefillMakesAnotherNarrow()
    ensures Sound(GAPPED) && Steady(EXAMPLE, FULL, GAPPED, 85, 100)
    ensures DueDays(EXAMPLE, GAPPED) == {2} && Short(EXAMPLE, GAPPED, 85) == {4}
    ensures DueDays(EXAMPLE, AfterNights(EXAMPLE, FULL, GAPPED, 1)) == {4}
    ensures DueDays(EXAMPLE, AfterNights(EXAMPLE, FULL, GAPPED, 2)) == {}
  {
    DueFirst();
    OneDue(EXAMPLE, FULL, GAPPED, 2);
    GapLanded();
    DueNext();
    ExampleIsSteady();
    SteadyFeedClears(EXAMPLE, FULL, GAPPED, 85, 100, 2);
  }
}
