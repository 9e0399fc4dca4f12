/**
 The daily ingest history: job volume by UTC calendar day and by kind, read from the queue
 samples for finished work and from the live queue for the rest.
 */
module IngestHistory {
  import opened Wrappers
  import opened Ordering
  import opened QueueHistory

  /** `((sample_ts - interval '1 second') AT TIME ZONE 'UTC')::date`. */
  function SampleDay(at: int): int {
    (at - SEC) / DAY
  }

  function UtcDay(t: int): int {
    t / DAY
  }

  // ------------------------------------------------------------- windows and days

  /** Every moment of the window that closes at `at` lies in the day the history gives it. */
  predicate InItsDay(at: int, interval: int, t: int) {
    at - interval <= t < at ==> UtcDay(t) == SampleDay(at)
  }

  lemma WindowInOneDay(at: int, interval: int, t: int)
    requires interval >= SEC && DAY % interval == 0 && at % interval == 0
    ensures InItsDay(at, interval, t)
  {
    var d, m, q := UtcDay(at - interval), DAY / interval, at / interval;
    assert DAY == m * interval && at == q * interval;
    var k := (d + 1) * m - (q - 1);
    calc {
      k * interval;
      { Distribute((d + 1) * m, q - 1, interval); }
      (d + 1) * m * interval - (q - 1) * interval;
      { Distribute(q, 1, interval); Associate(d + 1, m, interval); }
      (d + 1) * DAY - (at - interval);
    }
    if k <= 0 { NotPositive(k, interval); }
    AtLeastOnce(k, interval);
    assert d * DAY <= at - interval && at <= (d + 1) * DAY;
    if at - interval <= t < at {
      DivUnique(t, DAY, d, t - d * DAY);
      DivUnique(at - SEC, DAY, d, at - SEC - d * DAY);
    }
  }

  lemma Associate(a: int, b: int, c: int)
    ensures a * b * c == a * (b * c)
  {
  }

  lemma NotPositive(k: int, n: int)
    requires k <= 0 && n > 0
    ensures k * n <= 0
  {
  }

  /** When the interval does not divide a day, the window around midnight straddles it. */
  lemma SomeWindowStraddles(interval: int)
    requires interval >= SEC && DAY % interval != 0
    ensures var at := WindowOf(DAY, interval);
            at % interval == 0 && !(InItsDay(at, interval, DAY) && InItsDay(at, interval, DAY - 1))
  {
    var at := WindowOf(DAY, interval);
    BoundaryOnGrid(DAY, interval);
    var q := Boundary(DAY, interval) / interval;
    assert at == (q + 1) * interval;
    ModOfMultiple(q + 1, interval);
    assert at - interval < DAY;
  }

  /** The day attribution is right for every window exactly when the interval divides a day. */
  lemma DaysAreRightIff(interval: int)
    requires interval >= SEC
    ensures DAY % interval == 0 <==> forall at, t :: at % interval == 0 ==> InItsDay(at, interval, t)
  {
    if DAY % interval == 0 {
      forall at, t | at % interval == 0 ensures InItsDay(at, interval, t) {
        WindowInOneDay(at, interval, t);
      }
    } else {
      SomeWindowStraddles(interval);
    }
  }

  // ---------------------------------------------------------------- what is counted

  datatype Status = Done | Failed | Pending | Running

  /** One row of the grouped query: `day, kind, status, sum(n)`. */
  datatype Row = Row(day: int, kind: int, status: Status, n: nat)

  datatype Block = Block(done: nat, failed: nat, pending: nat, running: nat) {
    function Of(s: Status): nat {
      match s
      case Done => done
      case Failed => failed
      case Pending => pending
      case Running => running
    }

    function Add(s: Status, n: nat): Block {
      match s
      case Done => this.(done := done + n)
      case Failed => this.(failed := failed + n)
      case Pending => this.(pending := pending + n)
      case Running => this.(running := running + n)
    }
  }

  const ZERO := Block(0, 0, 0, 0)

  ghost const ALL: iset<int> := iset x: int | true

  /** What the rows say of some days and some kinds. */
  ghost function Sum(rows: seq<Row>, days: iset<int>, kinds: iset<int>, s: Status): nat {
    if rows == [] then 0
    else
      var r := rows[|rows| - 1];
      Sum(rows[..|rows| - 1], days, kinds, s) + if r.day in days && r.kind in kinds && r.status == s then r.n else 0
  }

  lemma {:induction false} SumSplitsKinds(rows: seq<Row>, days: iset<int>, a: iset<int>, b: iset<int>, s: Status)
    requires a !! b
    ensures Sum(rows, days, a + b, s) == Sum(rows, days, a, s) + Sum(rows, days, b, s)
  {
    if rows != [] { SumSplitsKinds(rows[..|rows| - 1], days, a, b, s); }
  }

  lemma {:induction false} SumSplitsDays(rows: seq<Row>, a: iset<int>, b: iset<int>, kinds: iset<int>, s: Status)
    requires a !! b
    ensures Sum(rows, a + b, kinds, s) == Sum(rows, a, kinds, s) + Sum(rows, b, kinds, s)
  {
    if rows != [] { SumSplitsDays(rows[..|rows| - 1], a, b, kinds, s); }
  }

  /** Kinds no row of those days names add nothing. */
  lemma {:induction false} SumNames(rows: seq<Row>, days: iset<int>, kinds: iset<int>, s: Status)
    requires forall r :: r in rows && r.day in days ==> r.kind in kinds
    ensures Sum(rows, days, kinds, s) == Sum(rows, days, ALL, s)
  {
    if rows != [] {
      assert rows[|rows| - 1] in rows;
      SumNames(rows[..|rows| - 1], days, kinds, s);
    }
  }

  lemma {:induction false} SumNothing(rows: seq<Row>, days: iset<int>, kinds: iset<int>, s: Status)
    ensures Sum(rows, days, kinds, s) == 0
            <==> forall r :: r in rows && r.day in days && r.kind in kinds && r.status == s ==> r.n == 0
  {
    if rows != [] {
      SumNothing(rows[..|rows| - 1], days, kinds, s);
      assert rows == rows[..|rows| - 1] + [rows[|rows| - 1]];
    }
  }

  // ------------------------------------------------------------------ accumulating

  function BlockOf(kinds: map<int, Block>, k: int): Block {
    if k in kinds then kinds[k] else ZERO
  }

  function KindsOf(nested: map<int, map<int, Block>>, d: int): map<int, Block> {
    if d in nested then nested[d] else map[]
  }

  /** Each kind's block is what the rows of those days say of it, and only kinds they name have one. */
  ghost predicate Tallies(kinds: map<int, Block>, rows: seq<Row>, days: iset<int>) {
    && (forall k, s :: BlockOf(kinds, k).Of(s) == Sum(rows, days, iset{k}, s))
    && (forall k :: k in kinds <==> exists r :: r in rows && r.day in days && r.kind == k)
  }

  /** `by_status[status] = by_status.get(status, 0) + count`, with both `setdefault`s. */
  function Bump(kinds: map<int, Block>, r: Row): map<int, Block> {
    kinds[r.kind := BlockOf(kinds, r.kind).Add(r.status, r.n)]
  }

  lemma BumpTallies(kinds: map<int, Block>, rows: seq<Row>, days: iset<int>, r: Row)
    requires Tallies(kinds, rows, days) && r.day in days
    ensures Tallies(Bump(kinds, r), rows + [r], days)
  {
    var kinds', rows' := Bump(kinds, r), rows + [r];
    assert rows'[..|rows'| - 1] == rows;
    forall k, s ensures BlockOf(kinds', k).Of(s) == Sum(rows', days, iset{k}, s) {
      assert BlockOf(kinds, k).Of(s) == Sum(rows, days, iset{k}, s);
    }
  }

  lemma OtherDayTallies(kinds: map<int, Block>, rows: seq<Row>, days: iset<int>, r: Row)
    requires Tallies(kinds, rows, days) && r.day !in days
    ensures Tallies(kinds, rows + [r], days)
  {
    var rows' := rows + [r];
    assert rows'[..|rows'| - 1] == rows;
    forall k, s ensures BlockOf(kinds, k).Of(s) == Sum(rows', days, iset{k}, s) {
      assert BlockOf(kinds, k).Of(s) == Sum(rows, days, iset{k}, s);
    }
  }

  /** The loop over the query's rows: day to kind to status, and kind to status. */
  method Accumulate(rows: seq<Row>) returns (nested: map<int, map<int, Block>>, totals: map<int, Block>)
    ensures forall d :: Tallies(KindsOf(nested, d), rows, iset{d})
    ensures Tallies(totals, rows, ALL)
  {
    nested, totals := map[], map[];
    for i := 0 to |rows|
      invariant forall d :: Tallies(KindsOf(nested, d), rows[..i], iset{d})
      invariant Tallies(totals, rows[..i], ALL)
    {
      var r := rows[i];
      assert rows[..i + 1] == rows[..i] + [r];
      ghost var before := nested;
      BumpTallies(totals, rows[..i], ALL, r);
      totals := Bump(totals, r);
      nested := nested[r.day := Bump(KindsOf(nested, r.day), r)];
      forall d ensures Tallies(KindsOf(nested, d), rows[..i + 1], iset{d}) {
        assert Tallies(KindsOf(before, d), rows[..i], iset{d});
        if d == r.day {
          BumpTallies(KindsOf(before, d), rows[..i], iset{d}, r);
        } else {
          OtherDayTallies(KindsOf(before, d), rows[..i], iset{d}, r);
        }
      }
    }
    assert rows[..|rows|] == rows;
  }

  ghost function IMembers(ks: seq<int>): iset<int> {
    iset k | k in ks
  }

  ghost function SumBlocks(kinds: map<int, Block>, ks: seq<int>, s: Status): nat {
    if ks == [] then 0 else SumBlocks(kinds, ks[..|ks| - 1], s) + BlockOf(kinds, ks[|ks| - 1]).Of(s)
  }

  /** Adding up the blocks of some kinds gives what the rows say of those kinds. */
  lemma {:induction false} BlocksAddUp(kinds: map<int, Block>, rows: seq<Row>, days: iset<int>, ks: seq<int>, s: Status)
    requires Tallies(kinds, rows, days) && StrictlyAscending(ks)
    ensures SumBlocks(kinds, ks, s) == Sum(rows, days, IMembers(ks), s)
  {
    if ks == [] {
      SumNothing(rows, days, IMembers(ks), s);
    } else {
      var n := |ks| - 1;
      BlocksAddUp(kinds, rows, days, ks[..n], s);
      assert ks == ks[..n] + [ks[n]] && IMembers(ks) == IMembers(ks[..n]) + iset{ks[n]};
      SumSplitsKinds(rows, days, IMembers(ks[..n]), iset{ks[n]}, s);
    }
  }

  lemma AllBlocksAddUp(kinds: map<int, Block>, rows: seq<Row>, days: iset<int>, s: Status)
    requires Tallies(kinds, rows, days)
    ensures SumBlocks(kinds, SortedSet(kinds.Keys), s) == Sum(rows, days, ALL, s)
  {
    var ks := SortedSet(kinds.Keys);
    SortedSetAscends(kinds.Keys);
    BlocksAddUp(kinds, rows, days, ks, s);
    SumNames(rows, days, IMembers(ks), s);
  }

  /** One day's line: its kinds and their total. */
  datatype DayLine = DayLine(day: int, byKind: map<int, Block>, total: Block)

  ghost predicate IsDayLine(line: DayLine, rows: seq<Row>, d: int) {
    && line.day == d && Tallies(line.byKind, rows, iset{d})
    && forall s :: line.total.Of(s) == Sum(rows, iset{d}, ALL, s)
  }

  function Plus(a: Block, b: Block): Block {
    Block(a.done + b.done, a.failed + b.failed, a.pending + b.pending, a.running + b.running)
  }

  /** `day_totals[s] += block[s]` over the kinds in order. */
  method DayTotal(kinds: map<int, Block>) returns (total: Block)
    ensures forall s :: total.Of(s) == SumBlocks(kinds, SortedSet(kinds.Keys), s)
  {
    total := ZERO;
    var ks := SortedSet(kinds.Keys);
    for i := 0 to |ks|
      invariant forall s :: total.Of(s) == SumBlocks(kinds, ks[..i], s)
    {
      assert ks[..i + 1][..i] == ks[..i] && ks[..i + 1][i] == ks[i];
      total := Plus(total, BlockOf(kinds, ks[i]));
    }
    assert ks[..|ks|] == ks;
  }

  /** The payload: one line for each of the days asked for, and the totals by kind. */
  method BuildIngestHistory(rows: seq<Row>, start: int, days: nat)
      returns (series: seq<DayLine>, totals: map<int, Block>)
    ensures |series| == days && forall i :: 0 <= i < days ==> IsDayLine(series[i], rows, start + i)
    ensures Tallies(totals, rows, ALL)
  {
    var nested;
    nested, totals := Accumulate(rows);
    series := [];
    for i := 0 to days
      invariant |series| == i && forall j :: 0 <= j < i ==> IsDayLine(series[j], rows, start + j)
    {
      var kinds := KindsOf(nested, start + i);
      var total := DayTotal(kinds);
      forall s ensures total.Of(s) == Sum(rows, iset{start + i}, ALL, s) {
        AllBlocksAddUp(kinds, rows, iset{start + i}, s);
      }
      series := series + [DayLine(start + i, kinds, total)];
    }
  }

  // ------------------------------------------------------- day totals and kind totals

  ghost function SumDays(series: seq<DayLine>, s: Status): nat {
    if series == [] then 0 else SumDays(series[..|series| - 1], s) + series[|series| - 1].total.Of(s)
  }

  predicate Within(d: int, start: int, n: nat) {
    start <= d < start + n
  }

  ghost function DaysFrom(start: int, n: nat): iset<int> {
    iset d | Within(d, start, n)
  }

  lemma {:induction false} DaysAddUp(series: seq<DayLine>, rows: seq<Row>, start: int, s: Status)
    requires forall i :: 0 <= i < |series| ==> IsDayLine(series[i], rows, start + i)
    ensures SumDays(series, s) == Sum(rows, DaysFrom(start, |series|), ALL, s)
  {
    if series == [] {
      SumNothing(rows, DaysFrom(start, 0), ALL, s);
    } else {
      var n := |series| - 1;
      assert IsDayLine(series[n], rows, start + n);
      DaysAddUp(series[..n], rows, start, s);
      assert DaysFrom(start, n + 1) == DaysFrom(start, n) + iset{start + n};
      SumSplitsDays(rows, DaysFrom(start, n), iset{start + n}, ALL, s);
    }
  }

  /**
   The grand total by kind is the grand total by day plus whatever falls outside the days
   listed, so the two agree exactly when no counted row does.
   */
  lemma TotalsAgreeIff(series: seq<DayLine>, totals: map<int, Block>, rows: seq<Row>, start: int, s: Status)
    requires forall i :: 0 <= i < |series| ==> IsDayLine(series[i], rows, start + i)
    requires Tallies(totals, rows, ALL)
    ensures SumBlocks(totals, SortedSet(totals.Keys), s) >= SumDays(series, s)
    ensures SumBlocks(totals, SortedSet(totals.Keys), s) == SumDays(series, s)
       <==> forall r :: r in rows && r.status == s && r.n > 0 ==> start <= r.day < start + |series|
  {
    var inside := DaysFrom(start, |series|);
    var outside := ALL - inside;
    AllBlocksAddUp(totals, rows, ALL, s);
    DaysAddUp(series, rows, start, s);
    assert inside + outside == ALL;
    SumSplitsDays(rows, inside, outside, ALL, s);
    SumNothing(rows, outside, ALL, s);
  }

  lemma NoRowsTally(days: iset<int>)
    ensures Tallies(map[], [], days)
  {
  }

  /** A row dated after the last day listed is in the totals by kind and in no line. */
  lemma LaterRowInTotalsOnly(d: int, kind: int)
    ensures var rows, series, totals :=
            [Row(d + 1, kind, Done, 1)], [DayLine(d, map[], ZERO)], Bump(map[], Row(d + 1, kind, Done, 1));
            && IsDayLine(series[0], rows, d) && Tallies(totals, rows, ALL)
            && SumDays(series, Done) < SumBlocks(totals, SortedSet(totals.Keys), Done)
  {
    var r := Row(d + 1, kind, Done, 1);
    var series := [DayLine(d, map[], ZERO)];
    NoRowsTally(ALL);
    NoRowsTally(iset{d});
    assert [] + [r] == [r];
    BumpTallies(map[], [], ALL, r);
    OtherDayTallies(map[], [], iset{d}, r);
    forall s ensures ZERO.Of(s) == Sum([r], iset{d}, ALL, s) {
      SumNothing([r], iset{d}, ALL, s);
    }
    assert r in [r];
    TotalsAgreeIff(series, Bump(map[], r), [r], d, Done);
  }

  // ------------------------------------------------------ the history and the jobs

  /** `sample_ts > cutoff`, and the day the sample is given. */
  function WindowsOn(samples: map<Key, Sample>, cutoff: int, day: int): set<int> {
    set k | k in samples && k.at > cutoff && SampleDay(k.at) == day :: k.at
  }

  predicate LiveOn(j: Job, day: int, kind: int, now: int, running: bool) {
    j.kind == kind && UtcDay(j.created.at) == day && j.finish.None? && Waiting(j, now) != running
  }

  /** The union the query groups: deltas of the samples after the cutoff, and the live rows. */
  function Asked(samples: map<Key, Sample>, table: seq<Job>, now: int, start: int, day: int, kind: int, s: Status): nat
  {
    match s
    case Done => SumDeltas(samples, SortedSet(WindowsOn(samples, start * DAY, day)), kind, Completions)
    case Failed => SumDeltas(samples, SortedSet(WindowsOn(samples, start * DAY, day)), kind, Failures)
    case Pending => Count(table, j => LiveOn(j, day, kind, now, false))
    case Running => Count(table, j => LiveOn(j, day, kind, now, true))
  }

  /** The rows answer the query: `WHERE day >= start GROUP BY day, kind, status`. */
  ghost predicate Answers(rows: seq<Row>, samples: map<Key, Sample>, table: seq<Job>, now: int, start: int) {
    forall d, k, s :: Sum(rows, iset{d}, iset{k}, s) == if d >= start then Asked(samples, table, now, start, d, k, s)
        else 0
  }

  /** The live figures of a day's line: the unfinished jobs created that UTC day, waiting and running. */
  lemma LiveFigures(rows: seq<Row>, samples: map<Key, Sample>, table: seq<Job>, now: int, start: int, line: DayLine,
      kind: int)
    requires Answers(rows, samples, table, now, start) && IsDayLine(line, rows, line.day) && line.day >= start
    ensures var block, day := BlockOf(line.byKind, kind), line.day;
            && block.pending == Count(table, (j: Job) =>
                 j.kind == kind && day * DAY <= j.created.at < (day + 1) * DAY && j.finish.None?
                 && (j.started.None? || now < j.started.value))
            && block.running == Count(table, (j: Job) =>
                 j.kind == kind && day * DAY <= j.created.at < (day + 1) * DAY && j.finish.None?
                 && j.started.Some? && j.started.value <= now)
  {
    var day := line.day;
    assert BlockOf(line.byKind, kind).Of(Pending) == Sum(rows, iset{day}, iset{kind}, Pending);
    assert BlockOf(line.byKind, kind).Of(Running) == Sum(rows, iset{day}, iset{kind}, Running);
    CountSame(table, j => LiveOn(j, day, kind, now, false), (j: Job) =>
      j.kind == kind && day * DAY <= j.created.at < (day + 1) * DAY && j.finish.None?
      && (j.started.None? || now < j.started.value));
    CountSame(table, j => LiveOn(j, day, kind, now, true), (j: Job) =>
      j.kind == kind && day * DAY <= j.created.at < (day + 1) * DAY && j.finish.None?
      && j.started.Some? && j.started.value <= now);
  }

  /** The jobs of a kind that were created, done or failed that UTC day. */
  predicate OnDay(j: Job, kind: int, what: What, day: int) {
    Counts(j, kind, what) && UtcDay(StampOf(j, what).at) == day
  }

  predicate CaughtOn(j: Job, kind: int, what: What, day: int, last: map<int, int>, interval: int)
    requires interval > 0
  {
    OnDay(j, kind, what, day) && Caught(j, what, last, interval)
  }

  /** A job that was caught has left a row for its window. */
  lemma CaughtLeavesARow(samples: map<Key, Sample>, last: map<int, int>, ledger: seq<Job>, interval: int, j: Job,
      what: What)
    requires interval > 0 && Tracks(samples, last, ledger, interval) && j in ledger
    requires Counts(j, j.kind, what) && Caught(j, what, last, interval)
    ensures Key(WindowOf(StampOf(j, what).at, interval), j.kind) in samples
  {
    var t := StampOf(j, what).at;
    var w := WindowOf(t, interval);
    assert RowRead(samples, ledger, interval, w, j.kind, what, last[w]);
    BoundaryOnGrid(t, interval);
    assert ShownIn(j, j.kind, what, w - interval, w, last[w]);
    CountZero(ledger, x => ShownIn(x, j.kind, what, w - interval, w, last[w]));
  }

  /** Of the jobs caught, those of a day are those of the windows the history gives to the day. */
  lemma CaughtOnIs(samples: map<Key, Sample>, last: map<int, int>, ledger: seq<Job>, interval: int, start: int,
      day: int, j: Job, kind: int, what: What)
    requires interval >= SEC && DAY % interval == 0 && day >= start && Tracks(samples, last, ledger, interval)
             && j in ledger
    ensures CaughtIn(j, kind, what, interval, WindowsOn(samples, start * DAY, day), last)
            <==> CaughtOn(j, kind, what, day, last, interval)
  {
    if Counts(j, kind, what) && Caught(j, what, last, interval) {
      var t := StampOf(j, what).at;
      var w := WindowOf(t, interval);
      WindowOfIs(t, interval, w);
      WindowInOneDay(w, interval, t);
      assert UtcDay(t) == SampleDay(w);
      CaughtLeavesARow(samples, last, ledger, interval, j, what);
      assert Key(w, kind) in samples;
    }
  }

  /** A day's count is exactly the jobs of that kind and UTC day that the samples caught. */
  lemma HistoryCountsJobs(samples: map<Key, Sample>, last: map<int, int>, ledger: seq<Job>, interval: int,
      start: int, day: int, kind: int, what: What)
    requires interval >= SEC && DAY % interval == 0 && day >= start && Tracks(samples, last, ledger, interval)
    ensures SumDeltas(samples, SortedSet(WindowsOn(samples, start * DAY, day)), kind, what)
         == Count(ledger, j => CaughtOn(j, kind, what, day, last, interval))
  {
    var windows := WindowsOn(samples, start * DAY, day);
    SortedSetLists(windows);
    forall w | w in SortedSet(windows) ensures w % interval == 0 {
      var k :| k in samples && k.at == w;
      assert k.at in last;
    }
    DeltasConserveJobs(samples, last, ledger, interval, SortedSet(windows), kind, what);
    forall j | j in ledger
        ensures CaughtIn(j, kind, what, interval, windows, last) <==> CaughtOn(j, kind, what, day, last, interval) {
      CaughtOnIs(samples, last, ledger, interval, start, day, j, kind, what);
    }
    CountSame(ledger, j => CaughtIn(j, kind, what, interval, windows, last),
        j => CaughtOn(j, kind, what, day, last, interval));
  }

  /** It is every job of that kind and day exactly when each of them was caught. */
  lemma DayCountsAllIff(samples: map<Key, Sample>, last: map<int, int>, ledger: seq<Job>, interval: int, start: int,
      day: int, kind: int, what: What)
    requires interval >= SEC && DAY % interval == 0 && day >= start && Tracks(samples, last, ledger, interval)
    ensures SumDeltas(samples, SortedSet(WindowsOn(samples, start * DAY, day)), kind, what)
            == Count(ledger, j => OnDay(j, kind, what, day))
       <==> forall j :: j in ledger && OnDay(j, kind, what, day) ==> Caught(j, what, last, interval)
  {
    HistoryCountsJobs(samples, last, ledger, interval, start, day, kind, what);
    CountNarrower(ledger, j => CaughtOn(j, kind, what, day, last, interval), j => OnDay(j, kind, what, day));
    forall j | j in ledger && OnDay(j, kind, what, day)
        ensures CaughtOn(j, kind, what, day, last, interval) <==> Caught(j, what, last, interval) {
    }
  }

  /** The count a line of the page shows for a kind. */
  function Shown(line: DayLine, kind: int, what: What): nat
    requires !what.Creations?
  {
    BlockOf(line.byKind, kind).Of(if what.Failures? then Failed else Done)
  }

  /**
   From the sampler's runs to the page: the done, or failed, count that the line of a day shows
   for a kind is the number of jobs of the ledger that finished so that UTC day and were
   caught. It is all of that day's exactly when, of each job's window, the last sample came
   after the job had committed.
   */
  lemma HistoryOfARun(ledger: seq<Job>, nows: seq<int>, interval: int, rows: seq<Row>, now: int, start: int,
      line: DayLine, kind: int, what: What)
    requires interval >= SEC && DAY % interval == 0 && line.day >= start && Causal(ledger) && Ascending(nows)
             && !what.Creations?
    requires Answers(rows, SampleRun(ledger, nows, interval), TableAt(ledger, now), now, start)
             && IsDayLine(line, rows, line.day)
    ensures Shown(line, kind, what)
            == Count(ledger, j => CaughtOn(j, kind, what, line.day, LastReads(nows, interval), interval))
    ensures Shown(line, kind, what) == Count(ledger, j => OnDay(j, kind, what, line.day))
       <==> forall j ::
           j in ledger && OnDay(j, kind, what, line.day) ==> Caught(j, what, LastReads(nows, interval), interval)
  {
    var samples, last, day := SampleRun(ledger, nows, interval), LastReads(nows, interval), line.day;
    assert 2 * interval <= TRIM_KEEP by { DivisorIsSmall(interval); }
    RunTracks(ledger, nows, interval);
    HistoryCountsJobs(samples, last, ledger, interval, start, day, kind, what);
    DayCountsAllIff(samples, last, ledger, interval, start, day, kind, what);
    var s := if what.Failures? then Failed else Done;
    assert BlockOf(line.byKind, kind).Of(s) == Sum(rows, iset{day}, iset{kind}, s);
    assert Sum(rows, iset{day}, iset{kind}, s) == Asked(samples, TableAt(ledger, now), now, start, day, kind, s);
  }

  lemma DivisorIsSmall(interval: int)
    requires interval > 0 && DAY % interval == 0
    ensures interval <= DAY
  {
    if interval > DAY { DivUnique(DAY, interval, 0, DAY); }
  }
}
