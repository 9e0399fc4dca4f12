/**
 `archive_range` and `archive_past_window`: how one pass walks the expired days.

 The methods run over a `Site`, the database and archive directory they share with
 other sessions. Each is proved to be a run of the protocol machine, so what the
 machine keeps, a pass keeps, whatever other sessions commit and whichever call fails.
 */
module RetentionArchive {
  import opened Wrappers
  import opened CivilMonths
  import opened ArchiveProtocol

  const FETCH_ROWS: nat := 50_000

  // ----------------------------------------------------------------- the ranges

  function Min(a: int, b: int): int { if a <= b then a else b }

  /** End (exclusive) of the range archived in one transaction. */
  function ChunkEnd(start: Day, cutoff: Day, spanDays: int): int {
    var nextMonth := ReplaceDay1(ReplaceDay1(start) + 32);
    var span := if spanDays > 1 then spanDays else 1;
    Min(cutoff, Min(nextMonth, start + span))
  }

  /** A chunk is not empty, stops at the cutoff, and lies in one month. */
  lemma ChunkInOneMonth(start: Day, cutoff: Day, spanDays: int)
    requires start < cutoff
    ensures start < ChunkEnd(start, cutoff, spanDays) <= cutoff
    ensures MonthOf(ChunkEnd(start, cutoff, spanDays) - 1) == MonthOf(start)
  {
    NextMonthStep(start);
    MonthUnique(ChunkEnd(start, cutoff, spanDays) - 1, MonthOf(start));
  }

  /** It is the least of the cutoff, the first of the next month and the span from the start, at least a day. */
  lemma ChunkEndIsLeast(start: Day, cutoff: Day, spanDays: int)
    ensures var end, next := ChunkEnd(start, cutoff, spanDays), FirstDay(MonthOf(start) + 1);
            && end <= cutoff && end <= next && (spanDays >= 1 ==> end <= start + spanDays)
            && (end == cutoff || end == next || end == start + spanDays || (spanDays <= 1 && end == start + 1))
            && (spanDays <= 1 ==> end <= start + 1)
  {
    NextMonthStep(start);
  }

  datatype Chunk = Chunk(start: Day, end: Day)

  /** The ranges a pass over `[day, cutoff)` takes when nothing stops it. */
  function Chunks(day: Day, cutoff: Day, spanDays: int): seq<Chunk>
    decreases cutoff - day
  {
    if day >= cutoff then []
    else
      ChunkInOneMonth(day, cutoff, spanDays);
      var end := ChunkEnd(day, cutoff, spanDays);
      [Chunk(day, end)] + Chunks(end, cutoff, spanDays)
  }

  lemma ChunksStep(day: Day, cutoff: Day, spanDays: int) returns (end: Day)
    requires day < cutoff
    ensures day < end <= cutoff && end == ChunkEnd(day, cutoff, spanDays)
    ensures Chunks(day, cutoff, spanDays) == [Chunk(day, end)] + Chunks(end, cutoff, spanDays)
  {
    ChunkInOneMonth(day, cutoff, spanDays);
    end := ChunkEnd(day, cutoff, spanDays);
  }

  /** Chunk ranges follow one another from `day` to `cutoff` without gap or overlap. */
  ghost predicate Tiles(cs: seq<Chunk>, day: int, cutoff: int) {
    if cs == [] then day >= cutoff
    else cs[0].start == day < cs[0].end <= cutoff && Tiles(cs[1..], cs[0].end, cutoff)
  }

  lemma {:induction false} ChunksFollow(day: Day, cutoff: Day, spanDays: int)
    ensures Tiles(Chunks(day, cutoff, spanDays), day, cutoff)
    decreases cutoff - day
  {
    if day < cutoff {
      var end := ChunksStep(day, cutoff, spanDays);
      ChunksFollow(end, cutoff, spanDays);
      assert ([Chunk(day, end)] + Chunks(end, cutoff, spanDays))[1..] == Chunks(end, cutoff, spanDays);
    }
  }

  lemma {:induction false} TilesAhead(cs: seq<Chunk>, day: int, cutoff: int, i: nat)
    requires Tiles(cs, day, cutoff) && i < |cs|
    ensures day <= cs[i].start < cs[i].end <= cutoff
  {
    if i > 0 { TilesAhead(cs[1..], cs[0].end, cutoff, i - 1); }
  }

  lemma {:induction false} TilesCover(cs: seq<Chunk>, day: int, cutoff: int, d: int) returns (i: nat)
    requires Tiles(cs, day, cutoff) && day <= d < cutoff
    ensures i < |cs| && cs[i].start <= d < cs[i].end
  {
    if d < cs[0].end {
      i := 0;
    } else {
      var j := TilesCover(cs[1..], cs[0].end, cutoff, d);
      i := j + 1;
    }
  }

  lemma {:induction false} TilesApart(cs: seq<Chunk>, day: int, cutoff: int, i: nat, j: nat)
    requires Tiles(cs, day, cutoff) && i < j < |cs|
    ensures cs[i].end <= cs[j].start
  {
    if i == 0 {
      TilesAhead(cs[1..], cs[0].end, cutoff, j - 1);
    } else {
      TilesApart(cs[1..], cs[0].end, cutoff, i - 1, j - 1);
    }
  }

  /** The chunks tile `[day, cutoff)`: every day of it, and no other, is in exactly one. */
  lemma ChunksTile(day: Day, cutoff: Day, spanDays: int, d: Day)
    ensures var cs := Chunks(day, cutoff, spanDays);
            && (day <= d < cutoff <==> exists i :: 0 <= i < |cs| && cs[i].start <= d < cs[i].end)
            && (forall i, j :: 0 <= i < j < |cs| ==> cs[i].end <= cs[j].start)
  {
    ChunksFollow(day, cutoff, spanDays);
    TileFacts(Chunks(day, cutoff, spanDays), day, cutoff, d);
  }

  lemma TileFacts(cs: seq<Chunk>, day: int, cutoff: int, d: int)
    requires Tiles(cs, day, cutoff)
    ensures day <= d < cutoff <==> exists i :: 0 <= i < |cs| && cs[i].start <= d < cs[i].end
    ensures forall i, j :: 0 <= i < j < |cs| ==> cs[i].end <= cs[j].start
  {
    if day <= d < cutoff {
      var i := TilesCover(cs, day, cutoff, d);
      assert cs[i].start <= d < cs[i].end;
    }
    forall i | 0 <= i < |cs| && cs[i].start <= d < cs[i].end ensures day <= d < cutoff {
      TilesAhead(cs, day, cutoff, i);
    }
    forall i, j | 0 <= i < j < |cs| ensures cs[i].end <= cs[j].start {
      TilesApart(cs, day, cutoff, i, j);
    }
  }

  /** The part of month `m` that lies in `[start, cutoff)`. */
  function Part(start: Day, cutoff: Day, m: nat): Chunk {
    Chunk(if start <= FirstDay(m) then FirstDay(m) else start,
          if cutoff <= FirstDay(m + 1) then cutoff else FirstDay(m + 1))
  }

  predicate OneAMonth(cs: seq<Chunk>, start: Day, m: nat, cutoff: Day, months: int) {
    |cs| == months && forall i :: 0 <= i < |cs| ==> cs[i] == Part(start, cutoff, m + i)
  }

  /** The calendar months that `[start, cutoff)` touches, `m` being that of `start`. */
  function MonthsTouched(start: Day, m: nat, cutoff: Day): int {
    if start < cutoff then MonthOf(cutoff - 1) - m + 1 else 0
  }

  /** The pass takes each of them in one range. */
  ghost predicate ByMonth(start: Day, m: nat, cutoff: Day, spanDays: int) {
    OneAMonth(Chunks(start, cutoff, spanDays), start, m, cutoff, MonthsTouched(start, m, cutoff))
  }

  predicate InMonth(day: Day, m: nat) {
    FirstDay(m) <= day < FirstDay(m + 1)
  }

  lemma MonthChunkEnd(start: Day, m: nat, cutoff: Day, spanDays: int)
    requires spanDays >= 31 && InMonth(start, m)
    ensures ChunkEnd(start, cutoff, spanDays) == Part(start, cutoff, m).end
  {
    MonthUnique(start, m);
    NextMonthStep(start);
    MonthIsShort(m);
  }

  lemma PartAhead(start: Day, next: Day, cutoff: Day, m: nat, k: nat)
    requires start <= next == FirstDay(m) && m <= k
    ensures Part(next, cutoff, k) == Part(start, cutoff, k)
  {
    FirstDayMonotone(m, k);
  }

  lemma MonthAhead(start: Day, next: Day, m: nat, cutoff: Day, months: int, rest: seq<Chunk>)
    requires start <= next == FirstDay(m + 1) && OneAMonth(rest, next, m + 1, cutoff, months)
    ensures OneAMonth([Part(start, cutoff, m)] + rest, start, m, cutoff, months + 1)
  {
    var cs := [Part(start, cutoff, m)] + rest;
    forall i | 0 <= i < |cs| ensures cs[i] == Part(start, cutoff, m + i) {
      if i > 0 { RestAhead(start, next, m, cutoff, months, rest, i - 1); }
    }
  }

  lemma RestAhead(start: Day, next: Day, m: nat, cutoff: Day, months: int, rest: seq<Chunk>, i: nat)
    requires start <= next == FirstDay(m + 1) && OneAMonth(rest, next, m + 1, cutoff, months) && i < |rest|
    ensures rest[i] == Part(start, cutoff, m + (i + 1))
  {
    assert rest[i] == Part(next, cutoff, (m + 1) + i);
    PartAhead(start, next, cutoff, m + 1, m + 1 + i);
  }

  lemma LastChunk(start: Day, cutoff: Day, spanDays: int)
    requires start < cutoff == ChunkEnd(start, cutoff, spanDays)
    ensures Chunks(start, cutoff, spanDays) == [Chunk(start, cutoff)]
  {
    var end := ChunksStep(start, cutoff, spanDays);
  }

  lemma OnlyPart(start: Day, m: nat, cutoff: Day)
    requires InMonth(start, m) && start < cutoff <= FirstDay(m + 1)
    ensures Part(start, cutoff, m) == Chunk(start, cutoff)
  {
  }

  lemma OnlyMonth(start: Day, m: nat, cutoff: Day)
    requires InMonth(start, m) && start < cutoff <= FirstDay(m + 1)
    ensures MonthsTouched(start, m, cutoff) == 1
  {
    MonthUnique(cutoff - 1, m);
  }

  lemma LastMonth(start: Day, m: nat, cutoff: Day, spanDays: int)
    requires spanDays >= 31 && InMonth(start, m) && start < cutoff <= FirstDay(m + 1)
    ensures ByMonth(start, m, cutoff, spanDays)
  {
    OnlyPart(start, m, cutoff);
    OnlyMonth(start, m, cutoff);
    MonthChunkEnd(start, m, cutoff, spanDays);
    LastChunk(start, cutoff, spanDays);
  }

  lemma MonthBefore(start: Day, next: Day, m: nat, cutoff: Day, spanDays: int)
    requires spanDays >= 31 && InMonth(start, m) && next == FirstDay(m + 1) < cutoff
    requires ByMonth(next, m + 1, cutoff, spanDays)
    ensures ByMonth(start, m, cutoff, spanDays)
  {
    var end := ChunksStep(start, cutoff, spanDays);
    MonthChunkEnd(start, m, cutoff, spanDays);
    MonthAhead(start, next, m, cutoff, MonthsTouched(next, m + 1, cutoff), Chunks(next, cutoff, spanDays));
  }

  lemma MonthTurn(start: Day, m: nat, cutoff: Day, spanDays: int)
    requires spanDays >= 31 && InMonth(start, m) && start < cutoff
    requires FirstDay(m + 1) < cutoff ==> ByMonth(FirstDay(m + 1), m + 1, cutoff, spanDays)
    ensures ByMonth(start, m, cutoff, spanDays)
  {
    if cutoff <= FirstDay(m + 1) {
      LastMonth(start, m, cutoff, spanDays);
    } else {
      MonthBefore(start, FirstDay(m + 1), m, cutoff, spanDays);
    }
  }

  lemma NextInMonth(m: nat)
    ensures InMonth(FirstDay(m + 1), m + 1)
  {
    MonthIsShort(m + 1);
  }

  lemma {:induction false} ChunksByMonth(start: Day, m: nat, cutoff: Day, spanDays: int)
    requires spanDays >= 31 && InMonth(start, m)
    ensures ByMonth(start, m, cutoff, spanDays)
    decreases cutoff - start
  {
    if start < cutoff {
      NextInMonth(m);
      ChunksByMonth(FirstDay(m + 1), m + 1, cutoff, spanDays);
      MonthTurn(start, m, cutoff, spanDays);
    }
  }

  /**
   With a span of a month every calendar month between any first day and any cutoff goes
   in exactly one range, which is the whole part of it that is due.
   */
  lemma MonthlyChunks(start: Day, cutoff: Day, spanDays: int)
    requires spanDays >= 31
    ensures ByMonth(start, MonthOf(start), cutoff, spanDays)
  {
    ChunksByMonth(start, MonthOf(start), cutoff, spanDays);
  }

  // ------------------------------------------------------- the world around a pass

  /** What happens around the n-th database or file call. */
  datatype World = World(
    writes: nat -> seq<Row>,   // rows other sessions commit just before it
    drops: nat -> nat,         // rows of the written batch that do not reach the disk
    raises: nat -> bool)       // whether the call raises

  /** `Unrecorded`: the range was committed, and writing its manifest or ledger line raised. */
  datatype Outcome = Archived(rows: nat, file: Name) | NothingThere | Raised | Unrecorded(file: Name)

  /** Some session other than the archive committed the key during the run. */
  ghost predicate Written(trace: seq<Action>, k: Key) {
    exists a :: a in trace && a.Upsert? && a.key == k
  }

  lemma WrittenMonotone(a: seq<Action>, b: seq<Action>, k: Key)
    ensures Written(a, k) || Written(b, k) <==> Written(a + b, k)
  {
    if Written(a, k) { var x :| x in a && x.Upsert? && x.key == k; assert x in a + b; }
    if Written(b, k) { var x :| x in b && x.Upsert? && x.key == k; assert x in a + b; }
  }

  /** The action takes the snapshot of a range the key lies in. */
  predicate Opens(a: Action, k: Key) {
    a.Begin? && Matches(k, a.kind, a.start, a.end)
  }

  predicate Commits(a: Action, k: Key) {
    a.Upsert? && a.key == k
  }

  /** The snapshot of the range has been taken. */
  ghost predicate Begun(trace: seq<Action>, kind: Kind, start: int, end: int) {
    exists i :: 0 <= i < |trace| && Starts(trace[i], kind, start, end)
  }

  predicate Starts(a: Action, kind: Kind, start: int, end: int) {
    a.Begin? && a.kind == kind && a.start == start && a.end == end
  }

  ghost predicate Opened(trace: seq<Action>, k: Key) {
    exists i :: 0 <= i < |trace| && Opens(trace[i], k)
  }

  /** Some other session committed the key after the snapshot of a range it lies in. */
  ghost predicate WrittenLate(trace: seq<Action>, k: Key) {
    exists i, j :: 0 <= i < j < |trace| && Opens(trace[i], k) && Commits(trace[j], k)
  }

  lemma BegunBefore(a: seq<Action>, b: seq<Action>, kind: Kind, start: int, end: int)
    requires Begun(a, kind, start, end)
    ensures Begun(a + b, kind, start, end)
  {
    var i :| 0 <= i < |a| && Starts(a[i], kind, start, end);
    assert (a + b)[i] == a[i];
  }

  lemma BegunAfter(a: seq<Action>, b: seq<Action>, kind: Kind, start: int, end: int)
    requires Begun(b, kind, start, end)
    ensures Begun(a + b, kind, start, end)
  {
    var i :| 0 <= i < |b| && Starts(b[i], kind, start, end);
    assert (a + b)[|a| + i] == b[i];
  }

  lemma BegunOpens(trace: seq<Action>, kind: Kind, start: int, end: int, k: Key)
    requires Begun(trace, kind, start, end) && Matches(k, kind, start, end)
    ensures Opened(trace, k)
  {
    var i :| 0 <= i < |trace| && Starts(trace[i], kind, start, end);
    assert Opens(trace[i], k);
  }

  lemma OpenedOn(a: seq<Action>, b: seq<Action>, k: Key)
    requires Opened(a, k) || Opened(b, k)
    ensures Opened(a + b, k)
  {
    if Opened(a, k) {
      var i :| 0 <= i < |a| && Opens(a[i], k);
      assert (a + b)[i] == a[i];
    } else {
      var i :| 0 <= i < |b| && Opens(b[i], k);
      assert (a + b)[|a| + i] == b[i];
    }
  }

  lemma LateBefore(a: seq<Action>, b: seq<Action>, k: Key)
    requires WrittenLate(a, k)
    ensures WrittenLate(a + b, k)
  {
    var i, j :| 0 <= i < j < |a| && Opens(a[i], k) && Commits(a[j], k);
    assert (a + b)[i] == a[i] && (a + b)[j] == a[j];
  }

  lemma LateAfter(a: seq<Action>, b: seq<Action>, k: Key)
    requires WrittenLate(b, k)
    ensures WrittenLate(a + b, k)
  {
    var i, j :| 0 <= i < j < |b| && Opens(b[i], k) && Commits(b[j], k);
    assert (a + b)[|a| + i] == b[i] && (a + b)[|a| + j] == b[j];
  }

  lemma LateAcross(a: seq<Action>, b: seq<Action>, k: Key)
    requires Opened(a, k) && Written(b, k)
    ensures WrittenLate(a + b, k)
  {
    var i :| 0 <= i < |a| && Opens(a[i], k);
    var x :| x in b && x.Upsert? && x.key == k;
    var j :| 0 <= j < |b| && b[j] == x;
    assert (a + b)[i] == a[i] && (a + b)[|a| + j] == b[j] && Commits(b[j], k);
  }

  /** The snapshot was taken, and what touched the range was committed after it. */
  ghost predicate TouchedLate(trace: seq<Action>, t: Txn) {
    && Begun(trace, t.kind, t.start, t.end)
    && forall k :: k in t.touched && Matches(k, t.kind, t.start, t.end) ==> WrittenLate(trace, k)
  }

  /** The trace so far leads from `s0` to `s`, and accounts for all the transaction was touched by. */
  ghost predicate Follows(s0: State, trace: seq<Action>, s: State) {
    && ValidRun(s0, trace) && s == Run(s0, trace) && Inv(s)
    && (s.txn.Some? ==> TouchedLate(trace, s.txn.value))
  }

  /** Nothing fails, nothing is lost on the way to the disk, and no other session writes. */
  ghost predicate Quiet(world: World) {
    forall i: nat :: !world.raises(i) && world.drops(i) == 0 && world.writes(i) == []
  }

  /** The partial file holds as many rows as were read. */
  ghost predicate Whole(s: State) {
    s.txn.Some? && var t := s.txn.value;
    t.read != [] ==> t.name in s.partials && |s.partials[t.name]| == |t.read|
  }

  /** The transaction under way is the one that archives this range. */
  ghost predicate Working(s: State, kind: Kind, start: int, end: int, name: Name, phase: Phase) {
    s.txn.Some? && var t := s.txn.value;
    t.name == name && t.kind == kind && t.start == start && t.end == end && t.phase == phase
  }

  lemma FollowsSnoc(s0: State, trace: seq<Action>, s: State, a: Action)
    requires Follows(s0, trace, s) && Valid(s, a)
    ensures Follows(s0, trace + [a], Step(s, a))
  {
    StepKeeps(s, a);
    RunCompose(s0, trace, [a]);
    RunCons(s, a, []);
    assert [a] + [] == [a];
    if Step(s, a).txn.Some? { TouchedLateStep(trace, s, a); }
  }

  lemma TouchedLateStep(trace: seq<Action>, s: State, a: Action)
    requires s.txn.Some? ==> TouchedLate(trace, s.txn.value)
    requires Valid(s, a) && Step(s, a).txn.Some?
    ensures TouchedLate(trace + [a], Step(s, a).txn.value)
  {
    var t := Step(s, a).txn.value;
    if a.Begin? {
      assert Starts((trace + [a])[|trace|], t.kind, t.start, t.end);
    } else {
      BegunBefore(trace, [a], t.kind, t.start, t.end);
      forall k | k in t.touched && Matches(k, t.kind, t.start, t.end) ensures WrittenLate(trace + [a], k) {
        if k in s.txn.value.touched {
          LateBefore(trace, [a], k);
        } else {
          BegunOpens(trace, t.kind, t.start, t.end, k);
          assert a in [a];
          LateAcross(trace, [a], k);
        }
      }
    }
  }

  /** A batch of which a beginning reaches the disk is a step of the protocol. */
  lemma FetchIsValid(s: State, t: Txn, n: nat, kept: seq<Row>, before: seq<Row>)
    requires s.txn == Some(t) && t.phase.Reading? && 1 <= n <= |t.pending| && kept <= t.pending[..n]
    requires before == if t.read == [] || t.name !in s.partials then [] else s.partials[t.name]
    ensures Valid(s, Fetch(n, kept))
    ensures Step(s, Fetch(n, kept)) == s.(partials := s.partials[t.name := before + kept],
                                          txn := Some(t.(pending := t.pending[n..], read := t.read + t.pending[..n])))
  {
    assert t.pending[..n] == kept + t.pending[..n][|kept|..];
  }

  /** Once the deletion has committed, only rows other sessions wrote are left in the range. */
  lemma CommittedRangeIsEmpty(s0: State, trace: seq<Action>, s: State, k: Key)
    requires Follows(s0, trace, s) && s.txn.Some? && Enabled(s, CommitOk)
    requires k in Step(s, CommitOk).table && Matches(k, s.txn.value.kind, s.txn.value.start, s.txn.value.end)
    ensures WrittenLate(trace + [CommitOk], k)
  {
    LateBefore(trace, [CommitOk], k);
  }

  /** An empty read means the range held nothing the snapshot could see. */
  lemma EmptyRangeIsEmpty(s0: State, trace: seq<Action>, s: State, k: Key)
    requires Follows(s0, trace, s) && s.txn.Some? && Enabled(s, Nothing)
    requires k in s.table && Matches(k, s.txn.value.kind, s.txn.value.start, s.txn.value.end)
    ensures WrittenLate(trace + [Nothing], k)
  {
    var t := s.txn.value;
    assert t.read + t.pending == [];
    assert Row(k, s.table[k]) !in t.read + t.pending;
    LateBefore(trace, [Nothing], k);
  }

  /** The range was taken, and what it holds now was committed after its snapshot. */
  ghost predicate Swept(trace: seq<Action>, table: map<Key, int>, kind: Kind, start: int, end: int) {
    && Begun(trace, kind, start, end)
    && forall k :: k in table && Matches(k, kind, start, end) ==> WrittenLate(trace, k)
  }

  lemma RemovedAgain(files: map<Name, seq<Row>>, name: Name, rows: seq<Row>)
    requires name !in files
    ensures files[name := rows] - {name} == files
  {
  }

  ghost predicate WithinBudget(overBudget: nat -> bool, n: nat) {
    forall i :: 0 <= i < n ==> !overBudget(i)
  }

  predicate KeysStay(before: map<Key, int>, after: map<Key, int>) {
    forall k :: k in before ==> k in after
  }

  /** One transaction, further on. */
  predicate SameRange(t: Txn, t': Txn) {
    t'.name == t.name && t'.kind == t.kind && t'.start == t.start && t'.end == t.end && t'.phase == t.phase
  }

  /** Nothing is gone but rows of the range, and of a pass over intraday rows no 16:00 anchor. */
  predicate KeepsOutside(before: map<Key, int>, after: map<Key, int>, kind: Kind, start: int, end: int) {
    forall k :: k in before && (k.day < start || end <= k.day || (kind.IntradayOnly? && k.eod)) ==> k in after
  }

  /** The rows lie in the range, and of a pass over intraday rows none is a 16:00 anchor. */
  predicate RowsInside(rows: seq<Row>, kind: Kind, start: int, end: int) {
    forall r :: r in rows ==> start <= r.key.day < end && (kind.IntradayOnly? ==> !r.key.eod)
  }

  lemma FileRowsInside(s: State)
    requires Inv(s) && s.txn.Some? && s.txn.value.phase.Renamed?
    ensures var t := s.txn.value; t.name in s.files && RowsInside(s.files[t.name], t.kind, t.start, t.end)
  {
    var t := s.txn.value;
    forall r | r in s.files[t.name] ensures r in t.read + t.pending {
      SameElements(s.files[t.name], t.read, r);
    }
  }

  /** The range's file is final with as many rows as were read, and the range is swept. */
  ghost predicate Published(trace: seq<Action>, s: State, t: Txn) {
    && t.name in s.files && |s.files[t.name]| == |t.read|
    && RowsInside(s.files[t.name], t.kind, t.start, t.end)
    && Swept(trace, s.table, t.kind, t.start, t.end)
  }

  predicate Expired(k: Key, kind: Kind, before: int) {
    k.day < before && (kind.All? || !k.eod)
  }

  /** Exactly the listed files are new. */
  ghost predicate Adds(before: map<Name, seq<Row>>, after: map<Name, seq<Row>>, names: seq<Name>) {
    && (forall n :: n in names ==> n in after && n !in before)
    && (forall n :: n in after <==> n in before || n in names)
  }

  lemma AddsOneMore(before: map<Name, seq<Row>>, mid: map<Name, seq<Row>>, after: map<Name, seq<Row>>,
      names: seq<Name>, name: Name)
    requires Adds(before, mid, names) && name !in mid && (forall n :: n in after <==> n in mid || n == name)
    ensures Adds(before, after, names + [name])
  {
    assert forall n :: n in names + [name] <==> n in names || n == name;
  }

  /** The files a pass has added are those it reports, with their rows and days counted. */
  ghost predicate Accounted(before: map<Name, seq<Row>>, after: map<Name, seq<Row>>, run: ArchiveRun) {
    && Adds(before, after, run.files)
    && run.rows == FileRows(after, run.files) && run.days == FileDays(run.files)
  }

  /** As `Accounted`, but for the one file whose manifest could not be written. */
  ghost predicate AccountedBut(before: map<Name, seq<Row>>, after: map<Name, seq<Row>>, unrecorded: Option<Name>,
      run: ArchiveRun)
  {
    if unrecorded.None? then Accounted(before, after, run)
    else unrecorded.value in after && Accounted(before, after - {unrecorded.value}, run)
  }

  lemma OneUnrecorded(before: map<Name, seq<Row>>, mid: map<Name, seq<Row>>, after: map<Name, seq<Row>>,
      run: ArchiveRun, name: Name)
    requires Accounted(before, mid, run) && name !in mid && name in after && after == mid[name := after[name]]
    ensures AccountedBut(before, after, Some(name), run.(error := true))
  {
    assert after - {name} == mid;
  }

  lemma AccountedStep(before: map<Name, seq<Row>>, mid: map<Name, seq<Row>>, after: map<Name, seq<Row>>,
      run: ArchiveRun, name: Name)
    requires Accounted(before, mid, run) && name !in mid && name in after && after == mid[name := after[name]]
    ensures Accounted(before, after, run.(days := run.days + (name.last + 1 - name.start),
                                          rows := run.rows + |after[name]|, files := run.files + [name]))
  {
    FileRowsSame(mid, after, run.files);
    FileSumsGrow(after, run.files, name);
    AddsOneMore(before, mid, after, run.files, name);
  }

  /**
   Every expired row before `day` was committed by another session during the pass, and in
   the ranges it has taken after the snapshot of the row's own range.
   */
  ghost predicate ClearedTo(s: State, trace: seq<Action>, kind: Kind, oldest: int, day: int) {
    forall k :: k in s.table && Expired(k, kind, day) ==>
      if k.day < oldest then Written(trace, k) else WrittenLate(trace, k)
  }

  lemma ClearedIsWritten(s: State, trace: seq<Action>, kind: Kind, oldest: int, day: int)
    requires ClearedTo(s, trace, kind, oldest, day)
    ensures forall k :: k in s.table && k.day < day && (kind.IntradayOnly? ==> !k.eod) ==>
              exists a :: a in trace && a.Upsert? && a.key == k
  {
    forall k | k in s.table && k.day < day && (kind.IntradayOnly? ==> !k.eod)
      ensures exists a :: a in trace && a.Upsert? && a.key == k
    {
      assert Expired(k, kind, day);
      if WrittenLate(trace, k) {
        var i, j :| 0 <= i < j < |trace| && Opens(trace[i], k) && Commits(trace[j], k);
        assert trace[j] in trace;
      }
    }
  }

  ghost predicate OpenedTo(trace: seq<Action>, kind: Kind, oldest: int, day: int) {
    forall k :: Matches(k, kind, oldest, day) ==> Opened(trace, k)
  }

  lemma OpenedStep(trace: seq<Action>, more: seq<Action>, kind: Kind, oldest: int, day: int, end: int)
    requires OpenedTo(trace, kind, oldest, day) && Begun(more, kind, day, end)
    ensures OpenedTo(trace + more, kind, oldest, end)
  {
    forall k | Matches(k, kind, oldest, end) ensures Opened(trace + more, k) {
      if k.day >= day { BegunOpens(more, kind, day, end, k); }
      OpenedOn(trace, more, k);
    }
  }

  lemma ClearedStep(s: State, trace: seq<Action>, s': State, more: seq<Action>, kind: Kind, oldest: int, day: int,
      end: int)
    requires ClearedTo(s, trace, kind, oldest, day) && OpenedTo(trace, kind, oldest, day)
    requires s' == Run(s, more) && Swept(more, s'.table, kind, day, end)
    requires oldest <= day
    ensures ClearedTo(s', trace + more, kind, oldest, end)
  {
    forall k | k in s'.table && Expired(k, kind, end)
      ensures if k.day < oldest then Written(trace + more, k) else WrittenLate(trace + more, k)
    {
      if k.day >= day {
        LateAfter(trace, more, k);
      } else {
        OnlyWritersAdd(s, more, k);
        LeftBefore(s, trace, more, kind, oldest, day, k);
      }
    }
  }

  lemma LeftBefore(s: State, trace: seq<Action>, more: seq<Action>, kind: Kind, oldest: int, day: int, k: Key)
    requires ClearedTo(s, trace, kind, oldest, day) && OpenedTo(trace, kind, oldest, day)
    requires Expired(k, kind, day) && (k in s.table || Written(more, k))
    ensures if k.day < oldest then Written(trace + more, k) else WrittenLate(trace + more, k)
  {
    if k.day < oldest {
      WrittenMonotone(trace, more, k);
    } else if k in s.table {
      LateBefore(trace, more, k);
    } else {
      LateAcross(trace, more, k);
    }
  }

  lemma DoneStep(oldest: Day, day: Day, cutoff: Day, spanDays: int, done: seq<Chunk>, end: Day)
    requires day < cutoff && end == ChunkEnd(day, cutoff, spanDays)
    requires Chunks(oldest, cutoff, spanDays) == done + Chunks(day, cutoff, spanDays)
    ensures Chunks(oldest, cutoff, spanDays) == (done + [Chunk(day, end)]) + Chunks(end, cutoff, spanDays)
  {
    var e := ChunksStep(day, cutoff, spanDays);
    assert done + ([Chunk(day, end)] + Chunks(end, cutoff, spanDays))
           == (done + [Chunk(day, end)]) + Chunks(end, cutoff, spanDays);
  }

  /** A pass that has come to `day`: the ranges taken, what they cleared, and what it reports so far. */
  ghost predicate PassAt(s0: State, trace: seq<Action>, s: State, kind: Kind, oldest: Day, day: Day, cutoff: Day,
      spanDays: int,
                         done: seq<Chunk>, run: ArchiveRun, passStamp: int)
  {
    && oldest <= day <= cutoff && Follows(s0, trace, s) && s.txn.None?
    && ClearedTo(s, trace, kind, oldest, day) && OpenedTo(trace, kind, oldest, day)
    && Chunks(oldest, cutoff, spanDays) == done + Chunks(day, cutoff, spanDays)
    && (if done == [] then day == oldest else done[0].start == oldest)
    && (forall n :: n in s.files ==> n.stamp < passStamp || n.start < day)
    && Accounted(s0.files, s.files, run)
  }

  /** What a pass over the days before `cutoff` may not touch stands, and is in no file it adds. */
  ghost predicate SparesTheRest(s0: State, s: State, kind: Kind, cutoff: int) {
    && KeepsOutside(s0.table, s.table, kind, 1, cutoff)
    && forall n :: n in s.files && n !in s0.files ==> RowsInside(s.files[n], kind, 1, cutoff)
  }

  /** What a range's outcome says of the run that led to it. */
  ghost predicate OutcomeOf(before: State, more: seq<Action>, after: State, kind: Kind, day: int, end: int,
      out: Outcome)
  {
    && Follows(before, more, after) && after.txn.None?
    && (!out.Raised? ==> Swept(more, after.table, kind, day, end))
    && (out.Archived? || out.Unrecorded? ==>
          && out.file.start == day && out.file.last + 1 == end && out.file !in before.files && out.file in after.files
          && after.files == before.files[out.file := after.files[out.file]])
    && (out.Archived? ==> |after.files[out.file]| == out.rows)
    && (out.NothingThere? || out.Raised? ==> after.files == before.files)
    && KeepsOutside(before.table, after.table, kind, day, end)
    && forall n :: n in after.files && n !in before.files ==> RowsInside(after.files[n], kind, day, end)
  }

  /** A pass that has come to `day` or ended with an error: what it did, and what it says it did. */
  ghost predicate Walked(s0: State, trace: seq<Action>, s: State, kind: Kind, oldest: Day, day: Day, cutoff: Day,
      spanDays: int, done: seq<Chunk>, run: ArchiveRun, passStamp: int, unrecorded: Option<Name>)
  {
    && Follows(s0, trace, s) && s.txn.None?
    && (!run.error ==>
          unrecorded == None && PassAt(s0, trace, s, kind, oldest, day, cutoff, spanDays, done, run, passStamp))
    && (done != [] ==> done[0].start == oldest && done <= Chunks(oldest, cutoff, spanDays))
    && AccountedBut(s0.files, s.files, unrecorded, run) && SparesTheRest(s0, s, kind, cutoff)
  }

  lemma WalkEnds(s0: State, trace: seq<Action>, s: State, kind: Kind, oldest: Day, day: Day, cutoff: Day,
      spanDays: int, done: seq<Chunk>, run: ArchiveRun, passStamp: int, unrecorded: Option<Name>)
    requires Walked(s0, trace, s, kind, oldest, day, cutoff, spanDays, done, run, passStamp, unrecorded)
    requires !run.error && oldest < cutoff <= day
    ensures ClearedTo(s, trace, kind, oldest, cutoff) && done != [] && done == Chunks(oldest, cutoff, spanDays)
  {
    assert Chunks(day, cutoff, spanDays) == [];
  }

  lemma SparesOn(s0: State, before: State, more: seq<Action>, after: State, kind: Kind, day: int, end: int,
      cutoff: int, out: Outcome)
    requires OutcomeOf(before, more, after, kind, day, end, out) && 1 <= day && end <= cutoff
    requires SparesTheRest(s0, before, kind, cutoff)
    ensures SparesTheRest(s0, after, kind, cutoff)
  {
    forall n | n in after.files && n !in s0.files ensures RowsInside(after.files[n], kind, 1, cutoff) {
      if n in before.files { assert after.files[n] == before.files[n]; }
    }
  }

  /** What the pass reports after a range. */
  function Reported(run: ArchiveRun, out: Outcome, day: int, end: int): ArchiveRun {
    match out
    case Archived(rows, file) => run.(days := run.days + (end - day), rows := run.rows + rows, files :=
        run.files + [file])
    case NothingThere => run
    case _ => run.(error := true)
  }

  function UnrecordedBy(out: Outcome): Option<Name> {
    if out.Unrecorded? then Some(out.file) else None
  }

  lemma ReportAccounts(s0: State, before: State, more: seq<Action>, after: State, kind: Kind, day: int, end: int,
      run: ArchiveRun, out: Outcome)
    requires OutcomeOf(before, more, after, kind, day, end, out) && Accounted(s0.files, before.files, run)
    ensures AccountedBut(s0.files, after.files, UnrecordedBy(out), Reported(run, out, day, end))
  {
    if out.Archived? {
      AccountedStep(s0.files, before.files, after.files, run, out.file);
    } else if out.Unrecorded? {
      OneUnrecorded(s0.files, before.files, after.files, run, out.file);
    }
  }

  /** A range that does not err is cleared and reported, and brings the pass to its end. */
  lemma RangeDone(s0: State, past: seq<Action>, before: State, more: seq<Action>, after: State, kind: Kind,
      oldest: Day, day: Day,
                  cutoff: Day, spanDays: int, done: seq<Chunk>, run: ArchiveRun, out: Outcome, passStamp: int)
    requires PassAt(s0, past, before, kind, oldest, day, cutoff, spanDays, done, run, passStamp) && day < cutoff
    requires OutcomeOf(before, more, after, kind, day, ChunkEnd(day, cutoff, spanDays), out)
             && (out.Archived? || out.NothingThere?)
    ensures var end := ChunkEnd(day, cutoff, spanDays);
            && 1 <= day < end <= cutoff
            && PassAt(s0, past + more, after, kind, oldest, end, cutoff, spanDays, done + [Chunk(day, end)],
               Reported(run, out, day, end), passStamp)
  {
    ChunkInOneMonth(day, cutoff, spanDays);
    var end := ChunkEnd(day, cutoff, spanDays);
    DoneStep(oldest, day, cutoff, spanDays, done, end);
    FollowsOn(s0, past, before, more, after);
    ClearedStep(before, past, after, more, kind, oldest, day, end);
    OpenedStep(past, more, kind, oldest, day, end);
    ReportAccounts(s0, before, more, after, kind, day, end, run, out);
  }

  /** What one table's pass did. */
  datatype ArchiveRun = ArchiveRun(days: int, rows: nat, files: seq<Name>, error: bool, budgetExhausted: bool)

  function FileRows(files: map<Name, seq<Row>>, names: seq<Name>): nat {
    if names == [] then 0
    else FileRows(files, names[..|names| - 1])
         + (if names[|names| - 1] in files then |files[names[|names| - 1]]| else 0)
  }

  function FileDays(names: seq<Name>): int {
    if names == [] then 0
    else FileDays(names[..|names| - 1]) + (names[|names| - 1].last + 1 - names[|names| - 1].start)
  }

  lemma {:induction false} FileRowsSame(a: map<Name, seq<Row>>, b: map<Name, seq<Row>>, names: seq<Name>)
    requires forall n :: n in names ==> n in a && n in b && a[n] == b[n]
    ensures FileRows(a, names) == FileRows(b, names)
  {
    if names != [] {
      assert names[|names| - 1] in names;
      FileRowsSame(a, b, names[..|names| - 1]);
    }
  }

  lemma FileSumsGrow(files: map<Name, seq<Row>>, names: seq<Name>, added: Name)
    requires added in files
    ensures FileRows(files, names + [added]) == FileRows(files, names) + |files[added]|
    ensures FileDays(names + [added]) == FileDays(names) + (added.last + 1 - added.start)
  {
    assert (names + [added])[..|names|] == names;
  }

  lemma FollowsOn(s0: State, t1: seq<Action>, s1: State, t2: seq<Action>, s2: State)
    requires Follows(s0, t1, s1) && Follows(s1, t2, s2)
    ensures Follows(s0, t1 + t2, s2)
  {
    RunCompose(s0, t1, t2);
    if s2.txn.Some? {
      var t := s2.txn.value;
      BegunAfter(t1, t2, t.kind, t.start, t.end);
      forall k | k in t.touched && Matches(k, t.kind, t.start, t.end) ensures WrittenLate(t1 + t2, k) {
        LateAfter(t1, t2, k);
      }
    }
  }

  lemma OnlyWritersAddStep(s: State, a: Action, k: Key)
    requires k in Step(s, a).table && k !in s.table
    ensures a.Upsert? && a.key == k
  {
  }

  /** No step but another session's commit puts a key into the table. */
  lemma {:induction false} OnlyWritersAdd(s: State, trace: seq<Action>, k: Key)
    requires k in Run(s, trace).table
    ensures k in s.table || Written(trace, k)
    decreases |trace|
  {
    if trace != [] {
      OnlyWritersAdd(Step(s, trace[0]), trace[1..], k);
      assert trace == [trace[0]] + trace[1..];
      WrittenMonotone([trace[0]], trace[1..], k);
      if !Written(trace[1..], k) && k !in s.table {
        OnlyWritersAddStep(s, trace[0], k);
        assert trace[0] in [trace[0]];
      }
    }
  }

  class Site {
    var table: map<Key, int>
    var latest: map<Key, int>
    var files: map<Name, seq<Row>>
    var partials: map<Name, seq<Row>>
    var txn: Option<Txn>
    var calls: nat

    function View(): State
      reads this
    {
      State(table, latest, files, partials, txn)
    }

    /** Other sessions commit; a write to a row the archive has deleted waits for it. */
    method OthersCommit(world: World, ghost s0: State, ghost past: seq<Action>) returns (ghost trace: seq<Action>)
      requires Follows(s0, past, View())
      modifies this`table, this`latest, this`txn
      ensures Follows(s0, trace, View())
      ensures txn.Some? <==> old(txn).Some?
      ensures txn.Some? ==> txn.value == old(txn).value.(touched := txn.value.touched)
      ensures KeysStay(old(table), table)
      ensures Quiet(world) ==> View() == old(View())
    {
      trace := past;
      var rows := world.writes(calls);
      for i := 0 to |rows|
        invariant Follows(s0, trace, View())
        invariant i == 0 ==> View() == old(View())
        invariant txn.Some? <==> old(txn).Some?
        invariant txn.Some? ==> txn.value == old(txn).value.(touched := txn.value.touched)
        invariant KeysStay(old(table), table)
      {
        var r := rows[i];
        if !Locked(View(), r.key) {
          ghost var before, a := View(), Upsert(r.key, r.data);
          FollowsSnoc(s0, trace, before, a);
          table, latest := table[r.key := r.data], latest[r.key := r.data];
          if txn.Some? {
            txn := Some(txn.value.(touched := txn.value.touched + {r.key}));
          }
          assert View() == Step(before, a);
          trace := trace + [a];
        }
      }
    }

    /** The first statement of the transaction: take the snapshot, open the cursor. */
    method BeginRange(kind: Kind, start: int, end: int, stamp: int, ghost s0: State, ghost past: seq<Action>)
        returns (ghost a: Action)
      requires Follows(s0, past, View()) && txn.None?
      requires NameOf(kind, start, end, stamp) !in files
      modifies this`txn
      ensures Follows(s0, past + [a], View()) && txn.Some?
      ensures var t := txn.value;
              t.name == NameOf(kind, start, end, stamp) && t.kind == kind && t.start == start && t.end == end
              && t.phase.Reading? && t.read == [] && t.touched == {}
    {
      var left := set k | k in table && Matches(k, kind, start, end);
      var order: seq<Row> := [];
      ghost var all := left;
      while left != {}
        invariant left <= all
        invariant forall r :: r in order <==> r.key in all - left && table[r.key] == r.data
        invariant forall i, j :: 0 <= i < j < |order| ==> order[i].key != order[j].key
      {
        var k :| k in left;
        assert forall i :: 0 <= i < |order| ==> order[i] in order;
        left, order := left - {k}, order + [Row(k, table[k])];
      }
      a := Begin(kind, start, end, stamp, order);
      FollowsSnoc(s0, past, View(), a);
      txn := Some(Txn(NameOf(kind, start, end, stamp), kind, start, end, table, order, [], {}, Reading));
    }

    /** `fetchmany` and `write_table`: a batch goes to the partial file, some of it maybe lost. */
    method FetchBatch(dropped: nat, ghost s0: State, ghost past: seq<Action>) returns (n: nat, ghost a: Action)
      requires Follows(s0, past, View()) && txn.Some? && txn.value.phase.Reading? && txn.value.pending != []
      modifies this`txn, this`partials
      ensures Follows(s0, past + [a], View())
      ensures txn.Some? && txn.value == old(txn).value.(read := txn.value.read, pending := txn.value.pending)
      ensures |txn.value.read| == |old(txn).value.read| + n && |txn.value.pending| < |old(txn).value.pending|
      ensures dropped == 0 && old(Whole(View())) ==> Whole(View())
      ensures n == (if |old(txn).value.pending| <= 50_000 then |old(txn).value.pending| else 50_000)
    {
      var t := txn.value;
      n := if |t.pending| <= FETCH_ROWS then |t.pending| else FETCH_ROWS;
      var kept := t.pending[..n - (if dropped <= n then dropped else n)];
      var before := if t.read == [] || t.name !in partials then [] else partials[t.name];
      a := Fetch(n, kept);
      FetchIsValid(View(), t, n, kept, before);
      FollowsSnoc(s0, past, View(), a);
      partials := partials[t.name := before + kept];
      txn := Some(t.(pending := t.pending[n..], read := t.read + t.pending[..n]));
    }

    /** Unlink the partial file and roll back. */
    method Abandon(ghost s0: State, ghost past: seq<Action>) returns (ghost a: Action)
      requires Follows(s0, past, View()) && txn.Some? && !txn.value.phase.Renamed?
      modifies this`txn, this`partials
      ensures a == Raise && Follows(s0, past + [a], View()) && txn.None?
    {
      a := Raise;
      FollowsSnoc(s0, past, View(), a);
      partials := partials - {txn.value.name};
      txn := None;
    }

    /** Steps 1 and 2: read the range into the partial file, and count what the file holds. */
    method ExportRange(kind: Kind, start: int, end: int, stamp: int, world: World, ghost s0: State)
        returns (rows: nat, raised: bool, ghost trace: seq<Action>)
      requires s0 == View() && Inv(s0) && txn.None?
      requires NameOf(kind, start, end, stamp) !in files
      modifies this
      ensures Follows(s0, trace, View()) && files == old(files) && KeysStay(old(table), table)
      ensures Quiet(world) ==> !raised && Whole(View()) && txn.value.touched == {}
      ensures Working(View(), kind, start, end, NameOf(kind, start, end, stamp), Reading)
      ensures |txn.value.read| == rows
      ensures !raised ==> txn.value.pending == []
    {
      var name := NameOf(kind, start, end, stamp);
      trace := OthersCommit(world, s0, []);
      ghost var a := BeginRange(kind, start, end, stamp, s0, trace);
      trace := trace + [a];
      rows, raised, trace := ReadAll(world, s0, trace);
      calls := calls + 1;
      trace := OthersCommit(world, s0, trace);
    }

    /** The loop over `fetchmany`, until the cursor is empty or a call raises. */
    method ReadAll(world: World, ghost s0: State, ghost past: seq<Action>)
        returns (rows: nat, raised: bool, ghost trace: seq<Action>)
      requires Follows(s0, past, View()) && txn.Some? && txn.value.phase.Reading? && txn.value.read == []
      modifies this
      ensures Follows(s0, trace, View()) && files == old(files) && KeysStay(old(table), table)
      ensures Quiet(world) && old(Whole(View())) && old(txn).value.touched == {} ==>
                !raised && Whole(View()) && txn.value.touched == {}
      ensures txn.Some? && SameRange(old(txn).value, txn.value) && |txn.value.read| == rows
      ensures !raised ==> txn.value.pending == []
    {
      trace := past;
      rows, raised := 0, world.raises(calls);
      while !raised && txn.value.pending != []
        invariant Follows(s0, trace, View()) && files == old(files) && KeysStay(old(table), table)
        invariant txn.Some? && SameRange(old(txn).value, txn.value) && |txn.value.read| == rows
        invariant Quiet(world) && old(Whole(View())) && old(txn).value.touched == {} ==>
                    !raised && Whole(View()) && txn.value.touched == {}
        decreases !raised, |txn.value.pending|
      {
        calls := calls + 1;
        trace := OthersCommit(world, s0, trace);
        if world.raises(calls) {
          raised := true;
        } else {
          var n;
          ghost var a;
          n, a := FetchBatch(world.drops(calls), s0, trace);
          trace, rows := trace + [a], rows + n;
        }
      }
    }

    /** Close the file, read its row count back, and on agreement delete under the snapshot. */
    method CountAndDelete(rows: nat, world: World, ghost s0: State, ghost past: seq<Action>)
        returns (ok: bool, ghost trace: seq<Action>)
      requires Follows(s0, past, View())
      requires txn.Some? && txn.value.phase.Reading? && txn.value.pending == []
      requires |txn.value.read| == rows && rows > 0
      modifies this
      ensures Follows(s0, trace, View()) && files == old(files) && KeysStay(old(table), table)
      ensures if ok
              then txn.Some? && txn.value == old(txn).value.(touched := txn.value.touched, phase := Deleted)
              else txn.None?
      ensures Quiet(world) && old(Whole(View())) && old(txn).value.touched == {} ==> ok
    {
      ok, trace := CountBack(rows, world, s0, past);
      if ok {
        calls := calls + 1;
        trace := OthersCommit(world, s0, trace);
        ok, trace := DeleteRange(rows, world, s0, trace);
      }
    }

    /** `parquet_row_count` of the file just closed against the rows handed to it. */
    method CountBack(rows: nat, world: World, ghost s0: State, ghost past: seq<Action>)
        returns (ok: bool, ghost trace: seq<Action>)
      requires Follows(s0, past, View())
      requires txn.Some? && txn.value.phase.Reading? && txn.value.pending == []
      requires |txn.value.read| == rows && rows > 0
      modifies this`txn, this`partials
      ensures Follows(s0, trace, View())
      ensures if ok then txn == Some(old(txn).value.(phase := Counted)) else txn.None?
      ensures Quiet(world) && old(Whole(View())) ==> ok
    {
      var written := |partials[txn.value.name]|;
      ok := written == rows && !world.raises(calls);
      if !ok {
        ghost var a := Abandon(s0, past);
        return false, past + [a];
      }
      FollowsSnoc(s0, past, View(), Count);
      txn := Some(txn.value.(phase := Counted));
      trace := past + [Count];
    }

    /** The DELETE: a row of the range that changed since the snapshot fails it, and so does a count that differs. */
    method DeleteRange(rows: nat, world: World, ghost s0: State, ghost past: seq<Action>)
        returns (ok: bool, ghost trace: seq<Action>)
      requires Follows(s0, past, View())
      requires txn.Some? && txn.value.phase.Counted? && |txn.value.read| == rows
      modifies this`txn, this`partials
      ensures Follows(s0, trace, View())
      ensures if ok then txn == Some(old(txn).value.(phase := Deleted)) else txn.None?
      ensures Quiet(world) && old(txn).value.touched == {} ==> ok
    {
      assert txn.value.read + txn.value.pending == txn.value.read;
      SnapshotCount(txn.value);
      var conflict := exists k :: k in txn.value.touched && InRange(txn.value, k);
      ok := !conflict && DeleteCount(txn.value) == rows && !world.raises(calls);
      if !ok {
        ghost var a := Abandon(s0, past);
        return false, past + [a];
      }
      FollowsSnoc(s0, past, View(), Delete);
      txn := Some(txn.value.(phase := Deleted));
      trace := past + [Delete];
    }

    /** `os.replace` the partial file into place. */
    method RenameIntoPlace(ghost s0: State, ghost past: seq<Action>) returns (ghost trace: seq<Action>)
      requires Follows(s0, past, View()) && txn.Some? && txn.value.phase.Deleted?
      modifies this`files, this`partials, this`txn
      ensures trace == past + [Rename] && Follows(s0, trace, View())
      ensures old(txn).value.name in files && files == old(files)[old(txn).value.name := files[old(txn).value.name]]
      ensures old(txn).value.name !in old(files)
      ensures txn == Some(old(txn).value.(phase := Renamed))
    {
      trace := past + [Rename];
      FollowsSnoc(s0, past, View(), Rename);
      var name := txn.value.name;
      files, partials := files[name := partials[name]], partials - {name};
      txn := Some(txn.value.(phase := Renamed));
    }

    /** A commit that raises did not happen; the final file would be a second copy. */
    method UnlinkFinal(ghost s0: State, ghost past: seq<Action>) returns (ghost trace: seq<Action>)
      requires Follows(s0, past, View()) && txn.Some? && txn.value.phase.Renamed?
      modifies this`files, this`txn
      ensures trace == past + [CommitRaises] && Follows(s0, trace, View()) && txn.None?
      ensures files == old(files) - {old(txn).value.name}
    {
      trace := past + [CommitRaises];
      FollowsSnoc(s0, past, View(), CommitRaises);
      files, txn := files - {txn.value.name}, None;
    }

    /** Rename the file into place and commit; a commit that raises takes the file back. */
    method Publish(world: World, ghost s0: State, ghost past: seq<Action>)
        returns (ok: bool, ghost trace: seq<Action>)
      requires Follows(s0, past, View())
      requires txn.Some? && txn.value.phase.Deleted?
      modifies this
      ensures Follows(s0, trace, View()) && txn.None?
      ensures KeepsOutside(old(table), table, old(txn).value.kind, old(txn).value.start, old(txn).value.end)
      ensures Quiet(world) ==> ok
      ensures !ok ==> files == old(files)
      ensures ok ==> Published(trace, View(), old(txn).value)
      ensures ok ==> files == old(files)[old(txn).value.name := files[old(txn).value.name]]
    {
      calls := calls + 1;
      trace := OthersCommit(world, s0, past);
      if world.raises(calls) {
        ghost var a := Abandon(s0, trace);
        return false, trace + [a];
      }
      ok, trace := RenameAndCommit(world, s0, trace);
    }

    method RenameAndCommit(world: World, ghost s0: State, ghost past: seq<Action>)
        returns (ok: bool, ghost trace: seq<Action>)
      requires Follows(s0, past, View()) && txn.Some? && txn.value.phase.Deleted?
      modifies this
      ensures Follows(s0, trace, View()) && txn.None?
      ensures KeepsOutside(old(table), table, old(txn).value.kind, old(txn).value.start, old(txn).value.end)
      ensures Quiet(world) ==> ok
      ensures !ok ==> files == old(files)
      ensures ok ==> Published(trace, View(), old(txn).value)
      ensures ok ==> files == old(files)[old(txn).value.name := files[old(txn).value.name]]
    {
      ghost var before, name := files, txn.value.name;
      trace := RenameIntoPlace(s0, past);
      RemovedAgain(before, name, files[name]);
      ok, trace := CommitOrUnlink(world, s0, trace);
    }

    method CommitOrUnlink(world: World, ghost s0: State, ghost past: seq<Action>)
        returns (ok: bool, ghost trace: seq<Action>)
      requires Follows(s0, past, View()) && txn.Some? && txn.value.phase.Renamed?
      modifies this
      ensures Follows(s0, trace, View()) && txn.None?
      ensures KeepsOutside(old(table), table, old(txn).value.kind, old(txn).value.start, old(txn).value.end)
      ensures Quiet(world) ==> ok
      ensures !ok ==> files == old(files) - {old(txn).value.name}
      ensures ok ==> files == old(files) && Published(trace, View(), old(txn).value)
    {
      calls := calls + 1;
      trace := OthersCommit(world, s0, past);
      ok := !world.raises(calls);
      if ok {
        trace := CommitRange(s0, trace);
      } else {
        trace := UnlinkFinal(s0, trace);
      }
    }

    method CommitRange(ghost s0: State, ghost past: seq<Action>) returns (ghost trace: seq<Action>)
      requires Follows(s0, past, View()) && txn.Some? && txn.value.phase.Renamed?
      modifies this`table, this`txn
      ensures trace == past + [CommitOk] && Follows(s0, trace, View()) && txn.None?
      ensures KeepsOutside(old(table), table, old(txn).value.kind, old(txn).value.start, old(txn).value.end)
      ensures Published(trace, View(), old(txn).value)
    {
      ghost var t := txn.value;
      trace := past + [CommitOk];
      FileRowsInside(View());
      assert |files[t.name]| == |t.read| by { assert |multiset(files[t.name])| == |multiset(t.read)|; }
      BegunBefore(past, [CommitOk], t.kind, t.start, t.end);
      forall k | k in Step(View(), CommitOk).table && Matches(k, t.kind, t.start, t.end) ensures WrittenLate(trace, k) {
        CommittedRangeIsEmpty(s0, past, View(), k);
      }
      FollowsSnoc(s0, past, View(), CommitOk);
      table := map k | k in table && !InRange(txn.value, k) :: table[k];
      txn := None;
    }

    /**
     Export the rows in `[start, end)`, delete exactly those, commit. The method is a run
     of the protocol; on success what is left in the range was written by other sessions
     after its snapshot. An error before the commit leaves no final file; one after it, when the
     manifest is written, leaves the file and the deletion standing.
     */
    method ArchiveRange(kind: Kind, start: int, end: int, stamp: int, world: World)
        returns (out: Outcome, ghost trace: seq<Action>)
      requires Inv(View()) && txn.None?
      requires NameOf(kind, start, end, stamp) !in files
      modifies this
      ensures Follows(old(View()), trace, View()) && txn.None?
      ensures Quiet(world) ==> out.Archived? || out.NothingThere?
      ensures !out.Raised? ==> Swept(trace, table, kind, start, end)
      ensures out.Archived? ==>
                && out.rows > 0 && out.file == Name(kind, start, end - 1, stamp) && out.file in files
                && |files[out.file]| == out.rows && files == old(files)[out.file := files[out.file]]
      ensures out.Unrecorded? ==>
                && out.file == Name(kind, start, end - 1, stamp) && out.file in files
                   && files == old(files)[out.file := files[out.file]]
      ensures out.NothingThere? || out.Raised? ==> files == old(files)
      ensures forall k :: k in old(table) && (k.day < start || end <= k.day) ==> k in table
      ensures kind.IntradayOnly? ==> forall k :: k in old(table) && k.eod ==> k in table
      ensures forall n, r :: n in files && n !in old(files) && r in files[n] ==>
                start <= r.key.day < end && (kind.IntradayOnly? ==> !r.key.eod)
    {
      ghost var s0, a := View(), Nothing;
      var name := NameOf(kind, start, end, stamp);
      var rows, raised;
      rows, raised, trace := ExportRange(kind, start, end, stamp, world, s0);
      if raised {
        a := Abandon(s0, trace);
        return Raised, trace + [a];
      }
      if rows == 0 {
        BegunBefore(trace, [Nothing], kind, start, end);
        forall k | k in table && Matches(k, kind, start, end) ensures WrittenLate(trace + [Nothing], k) {
          EmptyRangeIsEmpty(s0, trace, View(), k);
        }
        FollowsSnoc(s0, trace, View(), Nothing);
        txn := None;
        return NothingThere, trace + [Nothing];
      }
      var ok;
      ok, trace := DeleteAndPublish(rows, world, s0, trace);
      if !ok { return Raised, trace; }
      calls := calls + 1;
      out := if world.raises(calls) then Unrecorded(name) else Archived(rows, name);
    }

    method DeleteAndPublish(rows: nat, world: World, ghost s0: State, ghost past: seq<Action>)
        returns (ok: bool, ghost trace: seq<Action>)
      requires Follows(s0, past, View())
      requires txn.Some? && txn.value.phase.Reading? && txn.value.pending == []
      requires |txn.value.read| == rows && rows > 0
      modifies this
      ensures Follows(s0, trace, View()) && txn.None?
      ensures Quiet(world) && old(Whole(View())) && old(txn).value.touched == {} ==> ok
      ensures !ok ==> files == old(files)
      ensures ok ==> Published(trace, View(), old(txn).value)
      ensures ok ==> files == old(files)[old(txn).value.name := files[old(txn).value.name]]
      ensures KeepsOutside(old(table), table, old(txn).value.kind, old(txn).value.start, old(txn).value.end)
    {
      ok, trace := CountAndDelete(rows, world, s0, past);
      if !ok { return; }
      ok, trace := Publish(world, s0, trace);
    }

    /** `SELECT min(day) ... WHERE day < before`. */
    method OldestDay(kind: Kind, before: int) returns (oldest: Option<Day>)
      ensures oldest.None? ==> forall k :: k in table ==> !Expired(k, kind, before)
      ensures oldest.Some? ==>
        oldest.value < before && forall k :: k in table && Expired(k, kind, before) ==> oldest.value <= k.day
    {
      var left := set k | k in table && Expired(k, kind, before);
      oldest := None;
      while left != {}
        invariant oldest.Some? ==> oldest.value < before
        invariant forall k :: k in left ==> Expired(k, kind, before)
        invariant forall k ::
          k in table && Expired(k, kind, before) ==> k in left || (oldest.Some? && oldest.value <= k.day)
      {
        var k :| k in left;
        if oldest.None? || k.day < oldest.value { oldest := Some(k.day); }
        left := left - {k};
      }
    }

    /**
     Archive then delete every whole day before `cutoff`. A pass without error that is not
     stopped by its budget leaves before the cutoff only rows other sessions committed while
     it ran: after the snapshot of the row's own range, or on a day before the oldest the
     pass saw. The ranges it takes are the first of the tiling of `[oldest, cutoff)`.
     */
    method ArchivePastWindow(kind: Kind, unavailable: bool, cutoff: Day, spanDays: int, passStamp: int,
                             stamp: nat -> int, overBudget: nat -> bool, world: World)
        returns (run: ArchiveRun, ghost trace: seq<Action>, ghost done: seq<Chunk>, ghost unrecorded: Option<Name>)
      requires Inv(View()) && txn.None?
      // Stamps of this pass are later than those of earlier passes; within the pass they may repeat.
      requires forall n :: n in files ==> n.stamp < passStamp
      requires forall i: nat :: passStamp <= stamp(i)
      modifies this
      ensures Follows(old(View()), trace, View()) && txn.None?
      ensures Quiet(world) && !unavailable ==> !run.error
      ensures unavailable ==> run.error && trace == [] && View() == old(View())
      ensures !run.error && !run.budgetExhausted ==>
                ClearedTo(View(), trace, kind, if done == [] then cutoff else done[0].start, cutoff)
      ensures !run.error && !run.budgetExhausted ==>
                forall k :: k in table && k.day < cutoff && (kind.IntradayOnly? ==> !k.eod) ==>
                  exists a :: a in trace && a.Upsert? && a.key == k
      ensures done != [] ==> done <= Chunks(done[0].start, cutoff, spanDays)
      ensures !run.error && !run.budgetExhausted && done != [] ==> done == Chunks(done[0].start, cutoff, spanDays)
      ensures AccountedBut(old(files), files, unrecorded, run)
      ensures forall k :: k in old(table) && cutoff <= k.day ==> k in table
      ensures kind.IntradayOnly? ==> forall k :: k in old(table) && k.eod ==> k in table
      ensures forall n, r :: n in files && n !in old(files) && r in files[n] ==>
                r.key.day < cutoff && (kind.IntradayOnly? ==> !r.key.eod)
      ensures forall i :: 0 <= i < |done| ==> !overBudget(i)
      ensures run.budgetExhausted ==> overBudget(|done|)
      ensures run.files == [] ==> run.rows == 0 && run.days == 0
      ensures unrecorded.Some? ==> run.error
    {
      run, trace, done, unrecorded := ArchiveRun(0, 0, [], false, false), [], [], None;
      if unavailable || world.raises(calls) { return run.(error := true), [], [], None; }
      ghost var s0 := View();
      var oldest := OldestDay(kind, cutoff);
      if oldest.None? { return; }
      run, trace, done, unrecorded :=
        WalkDays(kind, oldest.value, cutoff, spanDays, passStamp, stamp, overBudget, world);
      if !run.error && !run.budgetExhausted { ClearedIsWritten(View(), trace, kind, oldest.value, cutoff); }
    }

    /** The loop of the pass, from the oldest day to the cutoff, an error or the budget. */
    method WalkDays(kind: Kind, oldest: Day, cutoff: Day, spanDays: int, passStamp: int, stamp: nat -> int,
                    overBudget: nat -> bool, world: World)
        returns (run: ArchiveRun, ghost trace: seq<Action>, ghost done: seq<Chunk>, ghost unrecorded: Option<Name>)
      requires Inv(View()) && txn.None? && oldest < cutoff
      requires forall n :: n in files ==> n.stamp < passStamp
      requires forall i: nat :: passStamp <= stamp(i)
      requires forall k :: k in table && Expired(k, kind, cutoff) ==> oldest <= k.day
      modifies this
      ensures Follows(old(View()), trace, View()) && txn.None?
      ensures Quiet(world) ==> !run.error
      ensures !run.error && !run.budgetExhausted ==> ClearedTo(View(), trace, kind, oldest, cutoff)
      ensures done != [] ==> done[0].start == oldest && done <= Chunks(oldest, cutoff, spanDays)
      ensures !run.error && !run.budgetExhausted ==> done != [] && done == Chunks(oldest, cutoff, spanDays)
      ensures AccountedBut(old(files), files, unrecorded, run) && SparesTheRest(old(View()), View(), kind, cutoff)
      ensures WithinBudget(overBudget, |done|)
      ensures run.budgetExhausted ==> overBudget(|done|)
      ensures unrecorded.Some? ==> run.error
    {
      run, trace, done, unrecorded := ArchiveRun(0, 0, [], false, false), [], [], None;
      ghost var s0 := View();
      var day: Day, i: nat := oldest, 0;
      while day < cutoff && !run.error
        invariant Walked(s0, trace, View(), kind, oldest, day, cutoff, spanDays, done, run, passStamp, unrecorded)
        invariant |done| <= i && (!run.error ==> i == |done|) && WithinBudget(overBudget, i)
        invariant !run.budgetExhausted && (Quiet(world) ==> !run.error)
        decreases !run.error, cutoff - day
      {
        if overBudget(i) { run := run.(budgetExhausted := true); break; }
        day, run, trace, done, unrecorded :=
            TakeRange(kind, day, cutoff, spanDays, passStamp, stamp(i), world, run, s0, trace, oldest, done);
        i := i + 1;
      }
      if !run.error && !run.budgetExhausted {
        WalkEnds(s0, trace, View(), kind, oldest, day, cutoff, spanDays, done, run, passStamp, unrecorded);
      }
    }

    method ArchiveNext(kind: Kind, start: int, end: int, stamp: int, world: World)
        returns (out: Outcome, ghost trace: seq<Action>)
      requires Inv(View()) && txn.None?
      requires NameOf(kind, start, end, stamp) !in files
      modifies this
      ensures OutcomeOf(old(View()), trace, View(), kind, start, end, out)
      ensures Quiet(world) ==> out.Archived? || out.NothingThere?
    {
      out, trace := ArchiveRange(kind, start, end, stamp, world);
    }

    /** One turn of the pass: archive the range that starts at `day`, and report it or the error. */
    method TakeRange(kind: Kind, day: Day, cutoff: Day, spanDays: int, passStamp: int, stamp: int, world: World,
        run: ArchiveRun,
                     ghost s0: State, ghost past: seq<Action>, ghost oldest: Day, ghost done: seq<Chunk>)
        returns (end: Day, run': ArchiveRun, ghost trace: seq<Action>, ghost done': seq<Chunk>,
            ghost unrecorded: Option<Name>)
      requires Walked(s0, past, View(), kind, oldest, day, cutoff, spanDays, done, run, passStamp, None)
      requires day < cutoff && passStamp <= stamp && !run.error
      modifies this
      ensures day < end <= cutoff && run'.budgetExhausted == run.budgetExhausted
      ensures Walked(s0, trace, View(), kind, oldest, end, cutoff, spanDays, done', run', passStamp, unrecorded)
      ensures |done'| == |done| + if run'.error then 0 else 1
      ensures Quiet(world) ==> !run'.error
    {
      ghost var before := View();
      ChunkInOneMonth(day, cutoff, spanDays);
      end := ChunkEnd(day, cutoff, spanDays);
      var out;
      ghost var more;
      out, more := ArchiveNext(kind, day, end, stamp, world);
      ghost var after := View();
      run', trace, unrecorded := Reported(run, out, day, end), past + more, UnrecordedBy(out);
      ReportAccounts(s0, before, more, after, kind, day, end, run, out);
      SparesOn(s0, before, more, after, kind, day, end, cutoff, out);
      if out.Raised? || out.Unrecorded? {
        FollowsOn(s0, past, before, more, after);
        done' := done;
      } else {
        RangeDone(s0, past, before, more, after, kind, oldest, day, cutoff, spanDays, done, run, out, passStamp);
        done' := done + [Chunk(day, end)];
      }
    }
  }
}
