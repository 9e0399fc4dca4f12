/**
 The queue sampler and the daily history drawn from its samples.

 Time is counted in microseconds since the epoch, UTC. A stamp is `now()`, the start of the
 transaction that writes it, and a row shows only once that transaction has committed.
 */
module QueueHistory {
  import opened Wrappers
  import opened Ordering

  const SEC: int := 1_000_000
  const DAY: int := 86_400 * SEC
  /** How long finished rows stay in the job table. */
  const TRIM_KEEP: int := 2 * DAY

  /** The moment written, and the moment from which others see it. */
  datatype Stamp = Stamp(at: int, seen: int)

  /**
   A job's whole life: when it was created, from when it shows as running, and how and when it
   finished, if it did.
   */
  datatype Job = Job(kind: int, created: Stamp, started: Option<int>, finish: Option<Finish>)
  datatype Finish = Finish(stamp: Stamp, failed: bool)

  /** One row of ops_jobs.queue_sample, without the percentiles. */
  datatype Sample = Sample(pending: nat, running: nat, created: nat, done: nat, failed: nat)
  datatype Key = Key(at: int, kind: int)

  /** The three things the delta query counts. */
  datatype What = Creations | Completions | Failures

  function Count(jobs: seq<Job>, p: Job -> bool): nat {
    if jobs == [] then 0 else Count(jobs[1..], p) + (if p(jobs[0]) then 1 else 0)
  }

  lemma {:induction false} CountSame(jobs: seq<Job>, p: Job -> bool, q: Job -> bool)
    requires forall j :: j in jobs ==> p(j) == q(j)
    ensures Count(jobs, p) == Count(jobs, q)
  {
    if jobs != [] { CountSame(jobs[1..], p, q); }
  }

  lemma {:induction false} CountSplit(jobs: seq<Job>, p: Job -> bool, q: Job -> bool, r: Job -> bool)
    requires forall j :: j in jobs ==> (p(j) <==> q(j) || r(j)) && !(q(j) && r(j))
    ensures Count(jobs, p) == Count(jobs, q) + Count(jobs, r)
  {
    if jobs != [] { CountSplit(jobs[1..], p, q, r); }
  }

  lemma {:induction false} CountZero(jobs: seq<Job>, p: Job -> bool)
    ensures Count(jobs, p) == 0 <==> forall j :: j in jobs ==> !p(j)
  {
    if jobs != [] {
      CountZero(jobs[1..], p);
      assert jobs == [jobs[0]] + jobs[1..];
    }
  }

  /** A narrower count is smaller, and equal exactly when nothing is left out. */
  lemma {:induction false} CountNarrower(jobs: seq<Job>, p: Job -> bool, q: Job -> bool)
    requires forall j :: j in jobs && p(j) ==> q(j)
    ensures Count(jobs, p) <= Count(jobs, q)
    ensures Count(jobs, p) == Count(jobs, q) <==> forall j :: j in jobs && q(j) ==> p(j)
  {
    if jobs != [] {
      CountNarrower(jobs[1..], p, q);
      assert jobs == [jobs[0]] + jobs[1..];
    }
  }

  // --------------------------------------------------------------- the delta query

  predicate Counts(j: Job, kind: int, what: What) {
    j.kind == kind && (what.Creations? || (j.finish.Some? && j.finish.value.failed == what.Failures?))
  }

  function StampOf(j: Job, what: What): Stamp
    requires what.Creations? || j.finish.Some?
  {
    if what.Creations? then j.created else j.finish.value.stamp
  }

  /** `created_at (or finished_at) >= since AND ... < until`, with the status for a finish. */
  predicate InWindow(j: Job, kind: int, what: What, since: int, until: int) {
    Counts(j, kind, what) && since <= StampOf(j, what).at < until
  }

  /** In the window, and committed by the moment of the read. */
  predicate ShownIn(j: Job, kind: int, what: What, since: int, until: int, now: int) {
    InWindow(j, kind, what, since, until) && StampOf(j, what).seen <= now
  }

  function WindowCount(jobs: seq<Job>, kind: int, what: What, since: int, until: int): nat {
    Count(jobs, j => InWindow(j, kind, what, since, until))
  }

  function ShownCount(ledger: seq<Job>, kind: int, what: What, since: int, until: int, now: int): nat {
    Count(ledger, j => ShownIn(j, kind, what, since, until, now))
  }

  /**
   The row the table holds for a job at a moment: none before its insert commits or after the
   trim, no finish before that commits.
   */
  function RowAt(j: Job, now: int): seq<Job> {
    if j.created.seen > now then []
    else if j.finish.None? || j.finish.value.stamp.seen > now then [j.(finish := None)]
    else if j.finish.value.stamp.at < now - TRIM_KEEP then []
    else [j]
  }

  /** A job shows from its commit on, as finished from that commit on, and for the 48 hours after its finish. */
  lemma ShowsForTwoDays(j: Job, now: int)
    ensures j.created.seen > now ==> RowAt(j, now) == []
    ensures j.created.seen <= now && (j.finish.None? || j.finish.value.stamp.seen > now) ==>
              |RowAt(j, now)| == 1 && RowAt(j, now)[0].finish == None
              && RowAt(j, now)[0].kind == j.kind && RowAt(j, now)[0].created == j.created
                 && RowAt(j, now)[0].started == j.started
    ensures j.created.seen <= now && j.finish.Some? && j.finish.value.stamp.seen <= now ==>
              RowAt(j, now) == if now - j.finish.value.stamp.at <= 48 * 3600 * 1_000_000 then [j] else []
  {
  }

  function TableAt(ledger: seq<Job>, now: int): seq<Job> {
    if ledger == [] then [] else RowAt(ledger[0], now) + TableAt(ledger[1..], now)
  }

  /** A job finishes no earlier than it was created, and does not show as finished before it shows. */
  predicate Causal(ledger: seq<Job>) {
    forall j :: j in ledger && j.finish.Some?
        ==> j.created.at <= j.finish.value.stamp.at && j.created.seen <= j.finish.value.stamp.seen
  }

  lemma CountAppend(row: seq<Job>, rest: seq<Job>, p: Job -> bool)
    requires |row| <= 1
    ensures Count(row + rest, p) == Count(row, p) + Count(rest, p)
  {
    if row == [] {
      assert row + rest == rest;
    } else {
      assert (row + rest)[1..] == rest && row[1..] == [];
    }
  }

  /** A read of a window not trimmed yet counts exactly the jobs of the window that had committed by then. */
  lemma {:induction false} ReadCountsShown(ledger: seq<Job>, now: int, kind: int, what: What, since: int, until: int)
    requires now - TRIM_KEEP <= since && Causal(ledger)
    ensures WindowCount(TableAt(ledger, now), kind, what, since, until)
            == ShownCount(ledger, kind, what, since, until, now)
  {
    if ledger != [] {
      var j, rest := ledger[0], TableAt(ledger[1..], now);
      assert j in ledger && forall x :: x in ledger[1..] ==> x in ledger;
      ReadCountsShown(ledger[1..], now, kind, what, since, until);
      OneRowShown(j, now, kind, what, since, until);
      var p := (x: Job) => InWindow(x, kind, what, since, until);
      CountAppend(RowAt(j, now), rest, p);
      CountSame(rest, p, x => InWindow(x, kind, what, since, until));
      CountSame(RowAt(j, now), p, x => InWindow(x, kind, what, since, until));
      CountSame(ledger[1..], x => ShownIn(x, kind, what, since, until, now),
          x => ShownIn(x, kind, what, since, until, now));
    }
  }

  lemma OneRowShown(j: Job, now: int, kind: int, what: What, since: int, until: int)
    requires now - TRIM_KEEP <= since && Causal([j])
    ensures WindowCount(RowAt(j, now), kind, what, since, until) == if ShownIn(j, kind, what, since, until, now)
            then 1 else 0
  {
    assert j in [j];
    var row := RowAt(j, now);
    if row != [] { CountOne(row[0], kind, what, since, until); }
  }

  lemma CountOne(j: Job, kind: int, what: What, since: int, until: int)
    ensures WindowCount([j], kind, what, since, until) == if InWindow(j, kind, what, since, until) then 1 else 0
  {
    var p := (x: Job) => InWindow(x, kind, what, since, until);
    assert [j][1..] == [] && Count([j][1..], p) == 0;
    assert Count([j], p) == if p(j) then 1 else 0;
  }

  /** So it is the whole window exactly when every job of the window had committed by the read. */
  lemma WindowExactIff(ledger: seq<Job>, now: int, kind: int, what: What, since: int, until: int)
    requires now - TRIM_KEEP <= since && Causal(ledger)
    ensures WindowCount(TableAt(ledger, now), kind, what, since, until) == WindowCount(ledger, kind, what, since, until)
       <==> forall j :: j in ledger && InWindow(j, kind, what, since, until) ==> StampOf(j, what).seen <= now
  {
    ReadCountsShown(ledger, now, kind, what, since, until);
    CountNarrower(ledger, j => ShownIn(j, kind, what, since, until, now), j => InWindow(j, kind, what, since, until));
    forall j | j in ledger && InWindow(j, kind, what, since, until)
      ensures ShownIn(j, kind, what, since, until, now) <==> StampOf(j, what).seen <= now
    {
    }
  }

  /** A window reads the same at two moments exactly when none of its jobs commits between them. */
  lemma ClosedWindowIsStableIff(ledger: seq<Job>, now: int, later: int, kind: int, what: What, since: int, until: int)
    requires now <= later && later - TRIM_KEEP <= since && Causal(ledger)
    ensures WindowCount(TableAt(ledger, now), kind, what, since, until)
            == WindowCount(TableAt(ledger, later), kind, what, since, until)
       <==> forall j ::
           j in ledger && ShownIn(j, kind, what, since, until, later) ==> ShownIn(j, kind, what, since, until, now)
  {
    ReadCountsShown(ledger, now, kind, what, since, until);
    ReadCountsShown(ledger, later, kind, what, since, until);
    CountNarrower(ledger, j => ShownIn(j, kind, what, since, until, now),
        j => ShownIn(j, kind, what, since, until, later));
  }

  // ------------------------------------------------------------------- the sampler

  /** The interval boundary that just closed. */
  function Boundary(now: int, interval: int): int
    requires interval > 0
  {
    now - now % interval
  }

  /** Where that interval began. */
  function Opening(now: int, interval: int): int
    requires interval > 0
  {
    Boundary(now, interval) - interval
  }

  predicate Waiting(j: Job, now: int) {
    j.finish.None? && (j.started.None? || j.started.value > now)
  }

  /** The kinds either of the two queries returns a row for. */
  function KindsSeen(table: seq<Job>, since: int, until: int): set<int> {
    set j | j in table && (j.finish.None? || since <= j.created.at < until
        || since <= j.finish.value.stamp.at < until) :: j.kind
  }

  function SampleOf(table: seq<Job>, kind: int, now: int, since: int, until: int): Sample {
    Sample(Count(table, (j: Job) => j.kind == kind && Waiting(j, now)),
           Count(table, (j: Job) => j.kind == kind && j.finish.None? && !Waiting(j, now)),
           WindowCount(table, kind, Creations, since, until),
           WindowCount(table, kind, Completions, since, until),
           WindowCount(table, kind, Failures, since, until))
  }

  function SamplesFor(kinds: set<int>, table: seq<Job>, now: int, since: int, until: int): map<Key, Sample> {
    map k | k in (set kind | kind in kinds :: Key(until, kind)) :: SampleOf(table, k.kind, now, since, until)
  }

  function Sampled(samples: map<Key, Sample>, table: seq<Job>, now: int, interval: int): map<Key, Sample>
    requires interval > 0
  {
    SampledWindow(samples, table, now, Opening(now, interval), Boundary(now, interval))
  }

  function SampledWindow(samples: map<Key, Sample>, table: seq<Job>, now: int, since: int, until: int): map<Key, Sample>
  {
    samples + SamplesFor(KindsSeen(table, since, until), table, now, since, until)
  }

  /** `values.append(...)`, kind by kind in order. */
  method ValuesFor(kinds: seq<int>, table: seq<Job>, now: int, since: int, at: int) returns (values: seq<(Key, Sample)>)
    ensures |values| == |kinds|
    ensures forall j :: 0 <= j < |kinds| ==> values[j] == (Key(at, kinds[j]), SampleOf(table, kinds[j], now, since, at))
  {
    values := [];
    for i := 0 to |kinds|
      invariant |values| == i
      invariant forall j :: 0 <= j < i ==> values[j] == (Key(at, kinds[j]), SampleOf(table, kinds[j], now, since, at))
    {
      values := values + [(Key(at, kinds[i]), SampleOf(table, kinds[i], now, since, at))];
    }
  }

  predicate Wrote(values: seq<(Key, Sample)>, k: Key) {
    exists j :: 0 <= j < |values| && values[j].0 == k
  }

  /** The list holds the rows of the map and nothing else. */
  ghost predicate IsListed(values: seq<(Key, Sample)>, rows: map<Key, Sample>) {
    && (forall v :: v in values ==> v.0 in rows && rows[v.0] == v.1)
    && (forall k :: k in rows ==> Wrote(values, k))
  }

  /** `INSERT ... ON CONFLICT (sample_ts, kind) DO UPDATE`, row by row. */
  method Write(samples: map<Key, Sample>, values: seq<(Key, Sample)>, ghost rows: map<Key, Sample>)
      returns (r: map<Key, Sample>)
    requires IsListed(values, rows)
    ensures r == samples + rows
  {
    r := samples;
    for i := 0 to |values|
      invariant forall k :: k in r <==> k in samples || Wrote(values[..i], k)
      invariant forall k :: k in r ==> r[k] == if Wrote(values[..i], k) then rows[k] else samples[k]
    {
      assert values[i] in values && values[..i + 1] == values[..i] + [values[i]];
      assert forall k :: Wrote(values[..i + 1], k) <==> Wrote(values[..i], k) || k == values[i].0 by {
        assert values[..i + 1][i] == values[i];
        assert forall j :: 0 <= j < i ==> values[..i + 1][j] == values[..i][j];
      }
      r := r[values[i].0 := values[i].1];
    }
    assert values[..|values|] == values;
  }

  lemma ValuesAreRows(kinds: seq<int>, seen: set<int>, values: seq<(Key, Sample)>, table: seq<Job>, now: int,
      since: int, at: int)
    requires |values| == |kinds| && forall x :: x in kinds <==> x in seen
    requires forall j ::
      0 <= j < |kinds| ==> values[j] == (Key(at, kinds[j]), SampleOf(table, kinds[j], now, since, at))
    ensures IsListed(values, SamplesFor(seen, table, now, since, at))
  {
    forall k | k in SamplesFor(seen, table, now, since, at) ensures Wrote(values, k) {
      assert k.kind in kinds;
      var j :| 0 <= j < |kinds| && kinds[j] == k.kind;
      assert values[j].0 == k;
    }
  }

  /** Read the window [since, at) and write its rows in the order of their kinds. */
  method SampleWindow(samples: map<Key, Sample>, table: seq<Job>, now: int, since: int, at: int)
      returns (r: map<Key, Sample>, n: nat)
    ensures r == SampledWindow(samples, table, now, since, at)
    ensures n == |KindsSeen(table, since, at)|
  {
    var seen := KindsSeen(table, since, at);
    var kinds := SortedSet(seen);
    var values := ValuesFor(kinds, table, now, since, at);
    n := |values|;
    ValuesAreRows(kinds, seen, values, table, now, since, at);
    r := Write(samples, values, SamplesFor(seen, table, now, since, at));
  }

  /** Created or finished in `[since, until)`. */
  predicate Moved(j: Job, since: int, until: int) {
    since <= j.created.at < until || (j.finish.Some? && since <= j.finish.value.stamp.at < until)
  }

  /** The kind has a live job, or one that was created or finished in the window. */
  ghost predicate Stirs(table: seq<Job>, kind: int, since: int, until: int) {
    exists j :: j in table && j.kind == kind && (j.finish.None? || Moved(j, since, until))
  }

  /**
   A row's figures: the unfinished jobs not started by now and those started, and the jobs
   of the window created, done and failed.
   */
  ghost predicate RowSays(row: Sample, table: seq<Job>, kind: int, now: int, since: int, until: int) {
    && row.pending == Count(table, (j: Job) =>
         j.kind == kind && j.finish.None? && (j.started.None? || now < j.started.value))
    && row.running == Count(table, (j: Job) =>
         j.kind == kind && j.finish.None? && j.started.Some? && j.started.value <= now)
    && row.created == Count(table, (j: Job) => j.kind == kind && since <= j.created.at < until)
    && row.done == Count(table, (j: Job) =>
         j.kind == kind && j.finish.Some? && !j.finish.value.failed && since <= j.finish.value.stamp.at < until)
    && row.failed == Count(table, (j: Job) =>
         j.kind == kind && j.finish.Some? && j.finish.value.failed && since <= j.finish.value.stamp.at < until)
  }

  lemma SampleSays(table: seq<Job>, kind: int, now: int, since: int, until: int)
    ensures RowSays(SampleOf(table, kind, now, since, until), table, kind, now, since, until)
  {
    LiveSays(table, kind, now);
    CountSame(table, (j: Job) => InWindow(j, kind, Creations, since, until),
        (j: Job) => j.kind == kind && since <= j.created.at < until);
    CountSame(table, (j: Job) => InWindow(j, kind, Completions, since, until),
        (j: Job) => j.kind == kind && j.finish.Some? && !j.finish.value.failed
            && since <= j.finish.value.stamp.at < until);
    CountSame(table, (j: Job) => InWindow(j, kind, Failures, since, until),
        (j: Job) => j.kind == kind && j.finish.Some? && j.finish.value.failed
            && since <= j.finish.value.stamp.at < until);
  }

  lemma LiveSays(table: seq<Job>, kind: int, now: int)
    ensures Count(table, (j: Job) => j.kind == kind && Waiting(j, now))
         == Count(table, (j: Job) => j.kind == kind && j.finish.None? && (j.started.None? || now < j.started.value))
    ensures Count(table, (j: Job) => j.kind == kind && j.finish.None? && !Waiting(j, now))
         == Count(table, (j: Job) => j.kind == kind && j.finish.None? && j.started.Some? && j.started.value <= now)
  {
    CountSame(table, (j: Job) => j.kind == kind && Waiting(j, now),
        (j: Job) => j.kind == kind && j.finish.None? && (j.started.None? || now < j.started.value));
    CountSame(table, (j: Job) => j.kind == kind && j.finish.None? && !Waiting(j, now),
        (j: Job) => j.kind == kind && j.finish.None? && j.started.Some? && j.started.value <= now);
  }

  /**
   The window's row of a kind that stirs says what the table does; every other row is as
   it was.
   */
  ghost predicate KeySaid(samples: map<Key, Sample>, after: map<Key, Sample>, table: seq<Job>, now: int, since: int,
      at: int, k: Key)
  {
    if k.at == at && Stirs(table, k.kind, since, at) then k in after && RowSays(after[k], table, k.kind, now, since, at)
    else (k in after <==> k in samples) && (k in after ==> after[k] == samples[k])
  }

  lemma KeySays(samples: map<Key, Sample>, table: seq<Job>, now: int, since: int, at: int, k: Key)
    ensures KeySaid(samples, SampledWindow(samples, table, now, since, at), table, now, since, at, k)
  {
    SeenIff(table, since, at, k.kind);
    SampleSays(table, k.kind, now, since, at);
    var rows := SamplesFor(KindsSeen(table, since, at), table, now, since, at);
    assert k in rows <==> k.at == at && k.kind in KindsSeen(table, since, at);
  }

  lemma WindowSays(samples: map<Key, Sample>, table: seq<Job>, now: int, since: int, at: int)
    ensures forall k :: KeySaid(samples, SampledWindow(samples, table, now, since, at), table, now, since, at, k)
  {
    forall k ensures KeySaid(samples, SampledWindow(samples, table, now, since, at), table, now, since, at, k) {
      KeySays(samples, table, now, since, at, k);
    }
  }

  lemma SeenIff(table: seq<Job>, since: int, until: int, kind: int)
    ensures kind in KindsSeen(table, since, until) <==> Stirs(table, kind, since, until)
  {
  }

  class SampleTable {
    var samples: map<Key, Sample>

    /** Write one row per kind for the interval that just ended; a failed read or write leaves a gap. */
    method TakeSample(table: seq<Job>, now: int, interval: int, fails: bool) returns (n: nat)
      requires interval > 0
      modifies this
      ensures fails ==> n == 0 && samples == old(samples)
      ensures !fails ==> samples == Sampled(old(samples), table, now, interval)
      ensures !fails ==> n == |KindsSeen(table, Opening(now, interval), Boundary(now, interval))|
      // Which rows: those of the window that ended last, for the kinds with a live job or one that moved in it.
      ensures !fails ==>
                var at := now - now % interval;
                var since := at - interval;
                forall k :: KeySaid(old(samples), samples, table, now, since, at, k)
    {
      if fails { return 0; }
      var at := Boundary(now, interval);
      WindowSays(samples, table, now, Opening(now, interval), at);
      samples, n := SampleWindow(samples, table, now, Opening(now, interval), at);
    }
  }

  /** What a row counts; a kind without a row in a window counts nothing. */
  function Delta(samples: map<Key, Sample>, k: Key, what: What): nat {
    if k !in samples then 0
    else match what
         case Creations => samples[k].created
         case Completions => samples[k].done
         case Failures => samples[k].failed
  }

  /** The row counts the jobs of its window that had committed when it was read. */
  predicate RowRead(samples: map<Key, Sample>, ledger: seq<Job>, interval: int, w: int, kind: int, what: What, now: int)
  {
    Delta(samples, Key(w, kind), what) == ShownCount(ledger, kind, what, w - interval, w, now)
  }

  /** `last` gives for each window sampled the moment it was last read, and the rows are what was read then. */
  ghost predicate Tracks(samples: map<Key, Sample>, last: map<int, int>, ledger: seq<Job>, interval: int)
    requires interval > 0
  {
    && (forall k :: k in samples ==> k.at in last)
    && (forall w :: w in last ==> w % interval == 0)
    && (forall w, kind, what :: w in last ==> RowRead(samples, ledger, interval, w, kind, what, last[w]))
  }

  lemma BoundaryOnGrid(now: int, interval: int)
    requires interval > 0
    ensures Boundary(now, interval) % interval == 0
            && Boundary(now, interval) <= now < Boundary(now, interval) + interval
  {
    var q := now / interval;
    assert Boundary(now, interval) == q * interval;
    ModOfMultiple(q, interval);
  }

  lemma ModOfMultiple(q: int, n: int)
    requires n > 0
    ensures (q * n) % n == 0
  {
    assert (q * n) / n == q by { DivUnique(q * n, n, q, 0); }
  }

  /** Euclidean division has one quotient and one remainder. */
  lemma DivUnique(x: int, n: int, q: int, r: int)
    requires n > 0 && x == q * n + r && 0 <= r < n
    ensures x / n == q && x % n == r
  {
    var q' := x / n;
    Distribute(q, q', n);
    if q > q' { AtLeastOnce(q - q', n); }
    if q < q' { AtLeastOnce(q' - q, n); }
  }

  lemma Distribute(a: int, b: int, n: int)
    ensures (a - b) * n == a * n - b * n && (b - a) * n == b * n - a * n
  {
  }

  lemma AtLeastOnce(a: int, n: int)
    requires a >= 1 && n > 0
    ensures a * n >= n
  {
  }

  lemma UnseenKindCountsNothing(table: seq<Job>, kind: int, what: What, since: int, until: int)
    requires kind !in KindsSeen(table, since, until)
    ensures WindowCount(table, kind, what, since, until) == 0
  {
    CountZero(table, j => InWindow(j, kind, what, since, until));
  }

  /** What shows at a moment still shows later. */
  lemma ShownGrows(ledger: seq<Job>, kind: int, what: What, since: int, until: int, now: int, later: int)
    requires now <= later
    ensures ShownCount(ledger, kind, what, since, until, now) <= ShownCount(ledger, kind, what, since, until, later)
  {
    CountNarrower(ledger, j => ShownIn(j, kind, what, since, until, now),
        j => ShownIn(j, kind, what, since, until, later));
  }

  /** A sample writes the rows of the kinds its queries saw and leaves the others alone. */
  lemma SampledDelta(samples: map<Key, Sample>, table: seq<Job>, now: int, interval: int, kind: int, what: What)
    requires interval > 0
    ensures var w, since := Boundary(now, interval), Opening(now, interval);
            Delta(Sampled(samples, table, now, interval), Key(w, kind), what) ==
            if kind in KindsSeen(table, since, w) then WindowCount(table, kind, what, since, w)
                else Delta(samples, Key(w, kind), what)
  {
    WindowDelta(samples, table, now, Opening(now, interval), Boundary(now, interval), kind, what);
  }

  lemma WindowDelta(samples: map<Key, Sample>, table: seq<Job>, now: int, since: int, w: int, kind: int, what: What)
    ensures Delta(SampledWindow(samples, table, now, since, w), Key(w, kind), what) ==
            if kind in KindsSeen(table, since, w) then WindowCount(table, kind, what, since, w)
                else Delta(samples, Key(w, kind), what)
  {
  }

  /** The row just written, or the absence of one, is what the read counted. */
  lemma NewRowRead(samples: map<Key, Sample>, after: map<Key, Sample>, last: map<int, int>, ledger: seq<Job>,
      now: int, interval: int,
                   since: int, w: int, kind: int, what: What)
    requires interval > 0 && Causal(ledger) && Tracks(samples, last, ledger, interval) && (w in last ==> last[w] <= now)
    requires since == w - interval && now - TRIM_KEEP <= since
    requires Delta(after, Key(w, kind), what) ==
             if kind in KindsSeen(TableAt(ledger, now), since, w)
                 then WindowCount(TableAt(ledger, now), kind, what, since, w)
             else Delta(samples, Key(w, kind), what)
    ensures RowRead(after, ledger, interval, w, kind, what, now)
  {
    ReadCountsShown(ledger, now, kind, what, since, w);
    if kind !in KindsSeen(TableAt(ledger, now), since, w) {
      UnseenKindCountsNothing(TableAt(ledger, now), kind, what, since, w);
      OldRowNothing(samples, last, ledger, interval, w, kind, what, now);
    }
  }

  lemma OldRowNothing(samples: map<Key, Sample>, last: map<int, int>, ledger: seq<Job>, interval: int, w: int,
      kind: int, what: What, now: int)
    requires interval > 0 && Tracks(samples, last, ledger, interval) && (w in last ==> last[w] <= now)
    requires ShownCount(ledger, kind, what, w - interval, w, now) == 0
    ensures Delta(samples, Key(w, kind), what) == 0
  {
    if w in last {
      assert RowRead(samples, ledger, interval, w, kind, what, last[w]);
      ShownGrows(ledger, kind, what, w - interval, w, last[w], now);
    }
  }

  /**
   A sample, first or repeated, leaves every row what was read last: sampling a window again
   never counts it twice.
   */
  lemma SampleTracks(samples: map<Key, Sample>, last: map<int, int>, ledger: seq<Job>, now: int, interval: int)
    requires interval > 0 && 2 * interval <= TRIM_KEEP && Causal(ledger) && Tracks(samples, last, ledger, interval)
    requires Boundary(now, interval) in last ==> last[Boundary(now, interval)] <= now
    ensures Tracks(Sampled(samples, TableAt(ledger, now), now, interval), last[Boundary(now, interval) := now],
            ledger, interval)
  {
    var until, after := Boundary(now, interval), Sampled(samples, TableAt(ledger, now), now, interval);
    var last' := last[until := now];
    BoundaryOnGrid(now, interval);
    forall w, kind, what | w in last' ensures RowRead(after, ledger, interval, w, kind, what, last'[w]) {
      if w == until {
        SampledDelta(samples, TableAt(ledger, now), now, interval, kind, what);
        NewRowRead(samples, after, last, ledger, now, interval, Opening(now, interval), w, kind, what);
      } else {
        assert RowRead(samples, ledger, interval, w, kind, what, last[w]);
      }
    }
  }

  /** What the table holds after samples taken at the given moments. */
  function SampleRun(ledger: seq<Job>, nows: seq<int>, interval: int): map<Key, Sample>
    requires interval > 0
  {
    if nows == [] then map[]
    else
      var now := nows[|nows| - 1];
      Sampled(SampleRun(ledger, nows[..|nows| - 1], interval), TableAt(ledger, now), now, interval)
  }

  /** The moment each window was last read. */
  function LastReads(nows: seq<int>, interval: int): map<int, int>
    requires interval > 0
  {
    if nows == [] then map[]
    else LastReads(nows[..|nows| - 1], interval)[Boundary(nows[|nows| - 1], interval) := nows[|nows| - 1]]
  }

  lemma {:induction false} LastReadsAre(nows: seq<int>, interval: int, w: int)
    requires interval > 0 && Ascending(nows)
    ensures w in LastReads(nows, interval) <==> exists i :: 0 <= i < |nows| && Boundary(nows[i], interval) == w
    ensures w in LastReads(nows, interval) ==> LastReads(nows, interval)[w] in nows
    ensures forall i ::
      0 <= i < |nows| && Boundary(nows[i], interval) == w ==>
        w in LastReads(nows, interval) && nows[i] <= LastReads(nows, interval)[w]
  {
    if nows != [] {
      var n := |nows| - 1;
      LastReadsAre(nows[..n], interval, w);
      assert forall i :: 0 <= i < n ==> nows[..n][i] == nows[i];
      if w in LastReads(nows[..n], interval) {
        var i :| 0 <= i < n && nows[..n][i] == LastReads(nows[..n], interval)[w];
        assert nows[i] in nows;
      }
    }
  }

  /** After any run of samples, each window's rows are what was read of it last. */
  lemma {:induction false} RunTracks(ledger: seq<Job>, nows: seq<int>, interval: int)
    requires interval > 0 && 2 * interval <= TRIM_KEEP && Causal(ledger) && Ascending(nows)
    ensures Tracks(SampleRun(ledger, nows, interval), LastReads(nows, interval), ledger, interval)
  {
    if nows != [] {
      var n := |nows| - 1;
      RunTracks(ledger, nows[..n], interval);
      LastReadsAre(nows[..n], interval, Boundary(nows[n], interval));
      SampleTracks(SampleRun(ledger, nows[..n], interval), LastReads(nows[..n], interval), ledger, nows[n], interval);
    }
  }

  /** A row is exact exactly when every job of its window had committed when the window was last read. */
  lemma RunRowExactIff(ledger: seq<Job>, nows: seq<int>, interval: int, w: int, kind: int, what: What)
    requires interval > 0 && 2 * interval <= TRIM_KEEP && Causal(ledger) && Ascending(nows)
             && w in LastReads(nows, interval)
    ensures Delta(SampleRun(ledger, nows, interval), Key(w, kind), what)
            == WindowCount(ledger, kind, what, w - interval, w)
       <==> forall j ::
           j in ledger && InWindow(j, kind, what, w - interval, w)
           ==> StampOf(j, what).seen <= LastReads(nows, interval)[w]
  {
    RunTracks(ledger, nows, interval);
    var now := LastReads(nows, interval)[w];
    assert RowRead(SampleRun(ledger, nows, interval), ledger, interval, w, kind, what, now);
    CountNarrower(ledger, j => ShownIn(j, kind, what, w - interval, w, now),
        j => InWindow(j, kind, what, w - interval, w));
    forall j | j in ledger && InWindow(j, kind, what, w - interval, w)
      ensures ShownIn(j, kind, what, w - interval, w, now) <==> StampOf(j, what).seen <= now
    {
    }
  }

  // ---------------------------------------------------------------- conservation

  /** The boundary of the window a moment falls in. */
  function WindowOf(t: int, interval: int): int
    requires interval > 0
  {
    Boundary(t, interval) + interval
  }

  lemma WindowOfIs(t: int, interval: int, at: int)
    requires interval > 0 && at % interval == 0
    ensures at - interval <= t < at <==> WindowOf(t, interval) == at
  {
    BoundaryOnGrid(t, interval);
    var q := at / interval;
    assert at == q * interval;
    if at - interval <= t < at {
      assert (q - 1) * interval == at - interval;
      DivUnique(t, interval, q - 1, t - (at - interval));
    }
  }

  predicate InWindows(j: Job, kind: int, what: What, interval: int, windows: set<int>)
    requires interval > 0
  {
    Counts(j, kind, what) && WindowOf(StampOf(j, what).at, interval) in windows
  }

  /** The job's window was sampled, the last time after the job had committed. */
  predicate Caught(j: Job, what: What, last: map<int, int>, interval: int)
    requires interval > 0 && (what.Creations? || j.finish.Some?)
  {
    var w := WindowOf(StampOf(j, what).at, interval);
    w in last && StampOf(j, what).seen <= last[w]
  }

  predicate CaughtIn(j: Job, kind: int, what: What, interval: int, windows: set<int>, last: map<int, int>)
    requires interval > 0
  {
    InWindows(j, kind, what, interval, windows) && Caught(j, what, last, interval)
  }

  function SumDeltas(samples: map<Key, Sample>, windows: seq<int>, kind: int, what: What): nat {
    if windows == [] then 0
    else Delta(samples, Key(windows[0], kind), what) + SumDeltas(samples, windows[1..], kind, what)
  }

  /** The jobs of the given windows that their samples caught. */
  function CaughtJobs(ledger: seq<Job>, kind: int, what: What, interval: int, windows: set<int>,
      last: map<int, int>): nat
    requires interval > 0
  {
    Count(ledger, j => CaughtIn(j, kind, what, interval, windows, last))
  }

  lemma CaughtSplit(ledger: seq<Job>, kind: int, what: What, interval: int, w: int, rest: set<int>, last: map<int, int>)
    requires interval > 0 && w !in rest
    ensures CaughtJobs(ledger, kind, what, interval, {w} + rest, last)
         == CaughtJobs(ledger, kind, what, interval, {w}, last) + CaughtJobs(ledger, kind, what, interval, rest, last)
  {
    CountSplit(ledger, j => CaughtIn(j, kind, what, interval, {w} + rest, last),
               j => CaughtIn(j, kind, what, interval, {w}, last),
               j => CaughtIn(j, kind, what, interval, rest, last));
  }

  lemma OneWindow(samples: map<Key, Sample>, last: map<int, int>, ledger: seq<Job>, interval: int, w: int, kind: int,
      what: What)
    requires interval > 0 && w % interval == 0 && Tracks(samples, last, ledger, interval)
    ensures Delta(samples, Key(w, kind), what) == CaughtJobs(ledger, kind, what, interval, {w}, last)
  {
    if w in last {
      assert RowRead(samples, ledger, interval, w, kind, what, last[w]);
      forall j | j in ledger
          ensures CaughtIn(j, kind, what, interval, {w}, last) == ShownIn(j, kind, what, w - interval, w, last[w]) {
        if Counts(j, kind, what) { WindowOfIs(StampOf(j, what).at, interval, w); }
      }
      CountSame(ledger, j => CaughtIn(j, kind, what, interval, {w}, last),
          j => ShownIn(j, kind, what, w - interval, w, last[w]));
    } else {
      assert Key(w, kind) !in samples;
      CountZero(ledger, j => CaughtIn(j, kind, what, interval, {w}, last));
    }
  }

  /**
   Conservation: over any set of windows the deltas, of creations as of finishes, add up to
   exactly the jobs of those windows that were caught. A window that was missed is a gap in the
   sum, not a spike in the next one.
   */
  lemma {:induction false} DeltasConserveJobs(samples: map<Key, Sample>, last: map<int, int>, ledger: seq<Job>,
      interval: int,
                                              windows: seq<int>, kind: int, what: What)
    requires interval > 0 && Tracks(samples, last, ledger, interval)
    requires StrictlyAscending(windows) && forall w :: w in windows ==> w % interval == 0
    ensures SumDeltas(samples, windows, kind, what) == CaughtJobs(ledger, kind, what, interval, Members(windows), last)
  {
    if windows == [] {
      CountZero(ledger, j => CaughtIn(j, kind, what, interval, Members(windows), last));
    } else {
      var w, rest := windows[0], windows[1..];
      assert windows == [w] + rest && w in windows && forall x :: x in rest ==> x in windows;
      assert forall k :: 0 <= k < |rest| ==> rest[k] == windows[k + 1];
      assert StrictlyAscending(rest) && w !in rest;
      DeltasConserveJobs(samples, last, ledger, interval, rest, kind, what);
      OneWindow(samples, last, ledger, interval, w, kind, what);
      assert Members(windows) == {w} + Members(rest);
      CaughtSplit(ledger, kind, what, interval, w, Members(rest), last);
    }
  }

  /** The sum is all the jobs of the windows exactly when each of them was caught. */
  lemma AllConservedIff(samples: map<Key, Sample>, last: map<int, int>, ledger: seq<Job>, interval: int,
                        windows: seq<int>, kind: int, what: What)
    requires interval > 0 && Tracks(samples, last, ledger, interval)
    requires StrictlyAscending(windows) && forall w :: w in windows ==> w % interval == 0
    ensures SumDeltas(samples, windows, kind, what)
            == Count(ledger, j => InWindows(j, kind, what, interval, Members(windows)))
       <==> forall j ::
           j in ledger && InWindows(j, kind, what, interval, Members(windows)) ==> Caught(j, what, last, interval)
  {
    DeltasConserveJobs(samples, last, ledger, interval, windows, kind, what);
    CountNarrower(ledger, j => CaughtIn(j, kind, what, interval, Members(windows), last),
        j => InWindows(j, kind, what, interval, Members(windows)));
    forall j | j in ledger && InWindows(j, kind, what, interval, Members(windows))
      ensures CaughtIn(j, kind, what, interval, Members(windows), last) <==> Caught(j, what, last, interval)
    {
    }
  }

  /**
   A batch begun just before a boundary and committed after the sampler has read is in no
   sample: not in the window its stamp lies in, and not in the next one.
   */
  lemma LateCommitIsInNoSample(kind: int)
    ensures var ledger := [Job(kind, Stamp(300 * SEC - 1, 302 * SEC), None, None)];
            var samples := SampleRun(ledger, [301 * SEC, 601 * SEC], 300 * SEC);
            && Causal(ledger)
            && SumDeltas(samples, [300 * SEC, 600 * SEC], kind, Creations) == 0
            && Count(ledger, j => InWindows(j, kind, Creations, 300 * SEC, {300 * SEC, 600 * SEC})) == 1
  {
    var j := Job(kind, Stamp(300 * SEC - 1, 302 * SEC), None, None);
    var ledger, nows, windows := [j], [301 * SEC, 601 * SEC], [300 * SEC, 600 * SEC];
    var last := LastReads(nows, 300 * SEC);
    RunTracks(ledger, nows, 300 * SEC);
    LateReads();
    DeltasConserveJobs(SampleRun(ledger, nows, 300 * SEC), last, ledger, 300 * SEC, windows, kind, Creations);
    assert WindowOf(j.created.at, 300 * SEC) == 300 * SEC;
    assert Members(windows) == {300 * SEC, 600 * SEC};
    CountZero(ledger, x => CaughtIn(x, kind, Creations, 300 * SEC, Members(windows), last));
    assert ledger[1..] == [];
  }

  lemma LateReads()
    ensures var last := LastReads([301 * SEC, 601 * SEC], 300 * SEC);
            300 * SEC in last && last[300 * SEC] == 301 * SEC
  {
    var nows := [301 * SEC, 601 * SEC];
    assert Boundary(301 * SEC, 300 * SEC) == 300 * SEC && Boundary(601 * SEC, 300 * SEC) == 600 * SEC;
    assert nows[..1] == [301 * SEC] && nows[..1][..0] == [];
    assert LastReads(nows[..1], 300 * SEC) == LastReads([], 300 * SEC)[300 * SEC := 301 * SEC];
  }

  /** One job failed at 100 s, by a reclaim say, or done at 400 s, by a late mark. */
  function FinishedTwice(kind: int, failed: bool): Job {
    Job(kind, Stamp(0, 0), Some(0),
        Some(Finish(if failed then Stamp(100 * SEC, 100 * SEC) else Stamp(400 * SEC, 400 * SEC), failed)))
  }

  /** A row marked a second time is counted in two windows: that a job finishes once is needed. */
  lemma SecondFinishCountsTwice(kind: int)
    ensures var first := Sampled(map[], TableAt([FinishedTwice(kind, true)], 301 * SEC), 301 * SEC, 300 * SEC);
            var samples := Sampled(first, TableAt([FinishedTwice(kind, false)], 601 * SEC), 601 * SEC, 300 * SEC);
            Delta(samples, Key(300 * SEC, kind), Failures) == 1
                && Delta(samples, Key(600 * SEC, kind), Completions) == 1
  {
    var first := Sampled(map[], TableAt([FinishedTwice(kind, true)], 301 * SEC), 301 * SEC, 300 * SEC);
    FirstFinishCounted(kind, map[]);
    SecondFinishCounted(kind, first);
  }

  lemma FirstFinishCounted(kind: int, samples: map<Key, Sample>)
    ensures Delta(Sampled(samples, TableAt([FinishedTwice(kind, true)], 301 * SEC), 301 * SEC, 300 * SEC),
                  Key(300 * SEC, kind), Failures) == 1
  {
    assert Boundary(301 * SEC, 300 * SEC) == 300 * SEC;
    OneJobSampled(samples, FinishedTwice(kind, true), kind, Failures, 301 * SEC, 300 * SEC, 300 * SEC);
  }

  lemma SecondFinishCounted(kind: int, first: map<Key, Sample>)
    ensures var samples := Sampled(first, TableAt([FinishedTwice(kind, false)], 601 * SEC), 601 * SEC, 300 * SEC);
            && Delta(samples, Key(600 * SEC, kind), Completions) == 1
            && Delta(samples, Key(300 * SEC, kind), Failures) == Delta(first, Key(300 * SEC, kind), Failures)
  {
    var b := FinishedTwice(kind, false);
    assert Boundary(601 * SEC, 300 * SEC) == 600 * SEC;
    OneJobSampled(first, b, kind, Completions, 601 * SEC, 300 * SEC, 600 * SEC);
    OtherWindowStands(first, TableAt([b], 601 * SEC), 601 * SEC, 300 * SEC, Key(300 * SEC, kind));
  }

  lemma OneJobSampled(samples: map<Key, Sample>, j: Job, kind: int, what: What, now: int, interval: int, w: int)
    requires interval > 0 && w == Boundary(now, interval)
    requires RowAt(j, now) == [j] && InWindow(j, kind, what, Opening(now, interval), w)
    ensures Delta(Sampled(samples, TableAt([j], now), now, interval), Key(w, kind), what) == 1
  {
    OneJobTable(j, now);
    SampledDelta(samples, [j], now, interval, kind, what);
    CountOne(j, kind, what, Opening(now, interval), w);
    assert j in [j];
  }

  lemma OneJobTable(j: Job, now: int)
    requires RowAt(j, now) == [j]
    ensures TableAt([j], now) == [j]
  {
    assert [j][1..] == [] && TableAt([], now) == [];
  }

  lemma OtherWindowStands(samples: map<Key, Sample>, table: seq<Job>, now: int, interval: int, k: Key)
    requires interval > 0 && k.at != Boundary(now, interval)
    ensures forall what :: Delta(Sampled(samples, table, now, interval), k, what) == Delta(samples, k, what)
  {
  }
}
