/**
 The coverage matrix's memory: a run-length encoded table of verdict maps.

 Calls are serial, the database clock does not run backwards between them, and two
 maps have one digest exactly when they are equal.
 */
module CoverageHistory {
  import opened Wrappers
  import opened Ordering
  import opened Verdicts

  /** One row of ops_jobs.coverage_sample. */
  datatype Sample = Sample(id: nat, first: int, last: int, verdicts: VerdictMap)

  /** One compute as the reader would remember it: when, and the verdicts that stand. */
  datatype Reading = Reading(at: int, verdicts: VerdictMap)

  /** A stretch of computes that reproduced one map. */
  datatype Span = Span(first: int, last: int, verdicts: VerdictMap)

  // ---------------------------------------------------------------- carry forward

  /** The last good verdicts stand for each unread dataset the previous map judged. */
  function CarryForward(current: VerdictMap, previous: Option<VerdictMap>, unread: set<Name>): VerdictMap {
    var prior := previous.GetOr(map[]);
    map n | n in current.Keys + (unread * prior.Keys) && (n in current || prior[n].Axes?) ::
      if n in unread && n in prior && prior[n].Axes? then prior[n] else current[n]
  }

  lemma CarryOneMore(current: VerdictMap, previous: Option<VerdictMap>, unread: set<Name>, name: Name)
    ensures var prior := previous.GetOr(map[]);
            CarryForward(current, previous, unread + {name}) ==
            if name in prior && prior[name].Axes? then CarryForward(current, previous, unread)[name := prior[name]]
            else CarryForward(current, previous, unread)
  {
  }

  method MergeUnread(current: VerdictMap, previous: Option<VerdictMap>, unread: seq<Name>) returns (merged: VerdictMap)
    ensures merged == CarryForward(current, previous, Members(unread))
  {
    merged := current;
    var prior := previous.GetOr(map[]);
    for i := 0 to |unread|
      invariant merged == CarryForward(current, previous, Members(unread[..i]))
    {
      var name := unread[i];
      assert unread[..i + 1] == unread[..i] + [name];
      CarryOneMore(current, previous, Members(unread[..i]), name);
      assert Members(unread[..i + 1]) == Members(unread[..i]) + {name};
      if name in prior && prior[name].Axes? {
        merged := merged[name := prior[name]];
      }
    }
    assert unread[..|unread|] == unread;
  }

  /**
   A compute reproduces the previous map exactly when the two agree everywhere except on
   the unread datasets the previous map had judged.
   */
  lemma UnreadFlapChangesNothing(current: VerdictMap, previous: VerdictMap, unread: set<Name>)
    ensures CarryForward(current, Some(previous), unread) == previous <==> AgreeElsewhere(current, previous, unread)
  {
    var merged := CarryForward(current, Some(previous), unread);
    if AgreeElsewhere(current, previous, unread) {
      assert forall n :: n in merged <==> n in previous;
      assert forall n :: n in merged ==> merged[n] == previous[n];
    }
    if merged == previous {
      assert forall n :: n in merged <==> n in previous;
    }
  }

  ghost predicate AgreeElsewhere(current: VerdictMap, previous: VerdictMap, unread: set<Name>) {
    forall n :: !(n in unread && n in previous && previous[n].Axes?) ==>
      (n in current <==> n in previous) && (n in current ==> current[n] == previous[n])
  }

  // ------------------------------------------------------------ run-length encoding

  function RunLength(log: seq<Reading>): seq<Span> {
    if log == [] then []
    else
      Extend(RunLength(log[..|log| - 1]), log[|log| - 1])
  }

  /** One more reading lengthens the last span or adds one; it never touches the others. */
  function Extend(spans: seq<Span>, r: Reading): seq<Span> {
    if spans != [] && spans[|spans| - 1].verdicts == r.verdicts
    then spans[..|spans| - 1] + [spans[|spans| - 1].(last := r.at)]
    else spans + [Span(r.at, r.at, r.verdicts)]
  }

  /** How many times the map had changed by the i-th reading. */
  function ChangesBy(log: seq<Reading>, i: nat): nat
    requires i < |log|
  {
    if i == 0 then 0
    else ChangesBy(log, i - 1) + (if log[i].verdicts == log[i - 1].verdicts then 0 else 1)
  }

  predicate ClockOk(log: seq<Reading>) {
    forall i, j :: 0 <= i < j < |log| ==> log[i].at <= log[j].at
  }

  /**
   The encoding answers for every reading: the span numbered by the changes before it
   holds its map and covers its time, and it starts and ends at a reading of that stretch.
   */
  ghost predicate Answers(spans: seq<Span>, log: seq<Reading>, i: nat)
    requires i < |log|
  {
    && ChangesBy(log, i) < |spans|
    && var s := spans[ChangesBy(log, i)];
    && s.verdicts == log[i].verdicts && s.first <= log[i].at <= s.last
    && (i == 0 || ChangesBy(log, i - 1) != ChangesBy(log, i) ==> s.first == log[i].at)
    && (i + 1 == |log| || ChangesBy(log, i + 1) != ChangesBy(log, i) ==> s.last == log[i].at)
  }

  lemma {:induction false} ChangesByPrefix(log: seq<Reading>, n: nat, i: nat)
    requires i < n <= |log|
    ensures ChangesBy(log[..n], i) == ChangesBy(log, i)
  {
    if i > 0 { ChangesByPrefix(log, n, i - 1); }
  }

  lemma {:induction false} ChangesByMonotone(log: seq<Reading>, i: nat, j: nat)
    requires i <= j < |log|
    ensures ChangesBy(log, i) <= ChangesBy(log, j)
  {
    if i < j { ChangesByMonotone(log, i, j - 1); }
  }

  lemma ExtendAt(spans: seq<Span>, r: Reading, c: nat)
    requires c < |spans|
    ensures var s, e := spans[c], Extend(spans, r);
            c < |e| && e[c] == if c == |spans| - 1 && s.verdicts == r.verdicts then s.(last := r.at) else s
  {
  }

  lemma AnswersStay(spans: seq<Span>, log: seq<Reading>, n: nat, i: nat)
    requires 0 < n == |log| - 1 && i < n
    requires ClockOk(log) && Answers(spans, log[..n], i)
    requires |spans| == ChangesBy(log, n - 1) + 1 && spans[|spans| - 1].verdicts == log[n - 1].verdicts
    ensures Answers(Extend(spans, log[n]), log, i)
  {
    ChangesByPrefix(log, n, i);
    if i > 0 { ChangesByPrefix(log, n, i - 1); }
    if i + 1 < n { ChangesByPrefix(log, n, i + 1); ChangesByMonotone(log, i + 1, n - 1); }
    ChangesByMonotone(log, i, n - 1);
    assert log[..n][i] == log[i];
    ExtendAt(spans, log[n], ChangesBy(log, i));
  }

  lemma AnswersLast(spans: seq<Span>, log: seq<Reading>, n: nat)
    requires n == |log| - 1 && ClockOk(log)
    requires n == 0 ==> spans == []
    requires n > 0 ==> Answers(spans, log[..n], n - 1)
    requires n > 0 ==> |spans| == ChangesBy(log, n - 1) + 1 && spans[|spans| - 1].verdicts == log[n - 1].verdicts
    ensures Answers(Extend(spans, log[n]), log, n)
    ensures |Extend(spans, log[n])| == ChangesBy(log, n) + 1
  {
    if n > 0 {
      ChangesByPrefix(log, n, n - 1);
      assert log[..n][n - 1] == log[n - 1];
    }
  }

  /** Every reading is answered by its own span, and there is one span per change. */
  lemma {:induction false} RunLengthAnswers(log: seq<Reading>)
    requires ClockOk(log)
    ensures log != [] ==> |RunLength(log)| == ChangesBy(log, |log| - 1) + 1
    ensures forall i :: 0 <= i < |log| ==> Answers(RunLength(log), log, i)
  {
    if log != [] {
      var n := |log| - 1;
      var spans := RunLength(log[..n]);
      RunLengthAnswers(log[..n]);
      if n > 0 {
        ChangesByPrefix(log, n, n - 1);
        assert Answers(spans, log[..n], n - 1);
        assert log[..n][n - 1] == log[n - 1];
      }
      AnswersLast(spans, log, n);
      forall i | 0 <= i < n ensures Answers(RunLength(log), log, i) {
        AnswersStay(spans, log, n, i);
      }
    }
  }

  /** Neighbouring spans differ, and both ends of the spans follow the clock. */
  ghost predicate InOrder(spans: seq<Span>) {
    && (forall j :: 0 < j < |spans| ==> spans[j - 1].verdicts != spans[j].verdicts)
    && (forall j :: 0 <= j < |spans| ==> spans[j].first <= spans[j].last)
    && (forall i, j :: 0 <= i < j < |spans| ==> spans[i].last <= spans[j].first)
  }

  lemma ExtendInOrder(spans: seq<Span>, r: Reading)
    requires InOrder(spans) && (spans != [] ==> spans[|spans| - 1].last <= r.at)
    ensures InOrder(Extend(spans, r)) && Extend(spans, r) != []
    ensures var e := Extend(spans, r); e[|e| - 1].last == r.at && e[|e| - 1].verdicts == r.verdicts
  {
    var e := Extend(spans, r);
    forall i, j | 0 <= i < j < |e| ensures e[i].last <= e[j].first {
      if j < |spans| { assert e[j].first == spans[j].first; }
      assert i < |spans| && e[i] == spans[i];
      if j == |spans| && i < |spans| - 1 { assert spans[i].last <= spans[|spans| - 1].first; }
    }
  }

  lemma {:induction false} RunLengthInOrder(log: seq<Reading>)
    requires ClockOk(log)
    ensures InOrder(RunLength(log))
    ensures log != [] ==>
              var spans := RunLength(log);
              spans != [] && spans[|spans| - 1].last == log[|log| - 1].at
                  && spans[|spans| - 1].verdicts == log[|log| - 1].verdicts
  {
    if log != [] {
      var n := |log| - 1;
      RunLengthInOrder(log[..n]);
      if n > 0 { assert log[..n][n - 1] == log[n - 1]; }
      ExtendInOrder(RunLength(log[..n]), log[n]);
    }
  }

  // ------------------------------------------------------------------- the table

  /** The payload `record` returns. */
  datatype Report = Report(
    recorded: bool,
    changedAt: Option<int>,
    previousAt: Option<int>,
    samples: nat,
    carriedForward: set<Name>,
    changes: seq<Change>)

  /** `ORDER BY first_seen_at, coverage_sample_id`. */
  predicate Older(a: Sample, b: Sample) {
    a.first < b.first || (a.first == b.first && a.id < b.id)
  }

  function SpanOf(s: Sample): Span {
    Span(s.first, s.last, s.verdicts)
  }

  /** The map the next compute is carried forward over: the last reading's. */
  function Standing(log: seq<Reading>): Option<VerdictMap> {
    if log == [] then None else Some(log[|log| - 1].verdicts)
  }

  /** The table is the run-length encoding of every compute, less the first `dropped` spans. */
  ghost predicate Encodes(rows: seq<Sample>, nextId: nat, log: seq<Reading>, dropped: nat) {
    && ClockOk(log)
    && Shows(rows, RunLength(log), dropped)
    && (log != [] ==> rows != [])
    && IdsAscend(rows, nextId)
  }

  ghost predicate IdsAscend(rows: seq<Sample>, nextId: nat) {
    && (forall i :: 0 <= i < |rows| ==> rows[i].id < nextId)
    && (forall i, j :: 0 <= i < j < |rows| ==> rows[i].id < rows[j].id)
  }

  lemma BumpIds(rows: seq<Sample>, nextId: nat, at: int)
    requires IdsAscend(rows, nextId) && rows != []
    ensures IdsAscend(rows[|rows| - 1 := rows[|rows| - 1].(last := at)], nextId)
  {
  }

  lemma RowsOrdered(rows: seq<Sample>, nextId: nat, log: seq<Reading>, dropped: nat)
    requires Encodes(rows, nextId, log, dropped)
    ensures InIdOrder(rows) && LastSeenAscends(rows)
    ensures forall i :: 0 < i < |rows| ==> rows[i - 1].verdicts != rows[i].verdicts
    ensures rows != [] <==> log != []
    ensures rows != [] ==>
      rows[|rows| - 1].verdicts == log[|log| - 1].verdicts && rows[|rows| - 1].last == log[|log| - 1].at
  {
    RunLengthInOrder(log);
    var spans := RunLength(log);
    forall i, j | 0 <= i < j < |rows| ensures Older(rows[i], rows[j]) && rows[i].last <= rows[j].last {
      assert SpanOf(rows[i]) == spans[dropped + i] && SpanOf(rows[j]) == spans[dropped + j];
    }
    forall i | 0 < i < |rows| ensures rows[i - 1].verdicts != rows[i].verdicts {
      assert SpanOf(rows[i - 1]) == spans[dropped + i - 1] && SpanOf(rows[i]) == spans[dropped + i];
    }
    if rows != [] { assert SpanOf(rows[|rows| - 1]) == spans[|spans| - 1]; }
  }

  lemma AppendClock(log: seq<Reading>, r: Reading)
    requires ClockOk(log) && (log != [] ==> log[|log| - 1].at <= r.at)
    ensures ClockOk(log + [r])
  {
  }

  lemma AppendRun(log: seq<Reading>, r: Reading)
    ensures RunLength(log + [r]) == Extend(RunLength(log), r)
  {
    assert (log + [r])[..|log|] == log;
  }

  /** The rows show the spans from the `dropped`-th on. */
  ghost predicate Shows(rows: seq<Sample>, spans: seq<Span>, dropped: nat) {
    dropped + |rows| == |spans| && forall i :: 0 <= i < |rows| ==> SpanOf(rows[i]) == spans[dropped + i]
  }

  lemma BumpShows(rows: seq<Sample>, spans: seq<Span>, dropped: nat, r: Reading)
    requires Shows(rows, spans, dropped) && rows != [] && rows[|rows| - 1].verdicts == r.verdicts
    ensures Shows(rows[|rows| - 1 := rows[|rows| - 1].(last := r.at)], Extend(spans, r), dropped)
  {
    assert SpanOf(rows[|rows| - 1]) == spans[dropped + |rows| - 1];
  }

  lemma InsertShows(rows: seq<Sample>, spans: seq<Span>, dropped: nat, r: Reading, id: nat)
    requires Shows(rows, spans, dropped) && (rows == [] ==> spans == [])
    requires rows == [] || rows[|rows| - 1].verdicts != r.verdicts
    ensures Shows(rows + [Sample(id, r.at, r.at, r.verdicts)], Extend(spans, r), dropped)
  {
    if rows != [] { assert SpanOf(rows[|rows| - 1]) == spans[dropped + |rows| - 1]; }
  }

  /** The UPDATE of `record`: the newest row is seen again. */
  lemma BumpEncodes(rows: seq<Sample>, nextId: nat, log: seq<Reading>, dropped: nat, r: Reading)
    requires Encodes(rows, nextId, log, dropped) && (log != [] ==> log[|log| - 1].at <= r.at)
    requires rows != [] && rows[|rows| - 1].verdicts == r.verdicts
    ensures Encodes(rows[|rows| - 1 := rows[|rows| - 1].(last := r.at)], nextId, log + [r], dropped)
  {
    AppendClock(log, r);
    AppendRun(log, r);
    BumpShows(rows, RunLength(log), dropped, r);
    BumpIds(rows, nextId, r.at);
  }

  /** The INSERT of `record`: a new newest row. */
  lemma InsertEncodes(rows: seq<Sample>, nextId: nat, log: seq<Reading>, dropped: nat, r: Reading)
    requires Encodes(rows, nextId, log, dropped) && (log != [] ==> log[|log| - 1].at <= r.at)
    requires rows == [] || rows[|rows| - 1].verdicts != r.verdicts
    ensures Encodes(rows + [Sample(nextId, r.at, r.at, r.verdicts)], nextId + 1, log + [r], dropped)
  {
    AppendClock(log, r);
    AppendRun(log, r);
    assert log == [] ==> RunLength(log) == [];
    InsertShows(rows, RunLength(log), dropped, r, nextId);
  }

  lemma SuffixEncodes(rows: seq<Sample>, nextId: nat, log: seq<Reading>, dropped: nat, n: nat)
    requires Encodes(rows, nextId, log, dropped) && n <= |rows| && (rows != [] ==> n < |rows|)
    ensures Encodes(rows[n..], nextId, log, dropped + n)
  {
    forall i | 0 <= i < |rows[n..]| ensures SpanOf(rows[n..][i]) == RunLength(log)[dropped + n + i] {
      assert SpanOf(rows[n + i]) == RunLength(log)[dropped + (n + i)];
    }
  }

  predicate InIdOrder(rows: seq<Sample>) {
    forall i, j :: 0 <= i < j < |rows| ==> Older(rows[i], rows[j])
  }

  predicate LastSeenAscends(rows: seq<Sample>) {
    forall i, j :: 0 <= i < j < |rows| ==> rows[i].last <= rows[j].last
  }

  /** The two newest rows by (first_seen_at, id), in whatever order the table gives them. */
  method LatestTwo(rows: seq<Sample>) returns (head: Option<Sample>, prior: Option<Sample>)
    requires forall i, j :: 0 <= i < j < |rows| ==> rows[i].id != rows[j].id
    ensures head.None? <==> rows == []
    ensures head.Some? ==> head.value in rows && forall r :: r in rows ==> r == head.value || Older(r, head.value)
    ensures prior.None? <==> |rows| < 2
    ensures prior.Some? ==>
              && prior.value in rows && prior != head
              && forall r :: r in rows ==> r == head.value || r == prior.value || Older(r, prior.value)
  {
    head, prior := None, None;
    for i := 0 to |rows|
      invariant head.None? <==> i == 0
      invariant head.Some? ==>
        head.value in rows[..i] && forall r :: r in rows[..i] ==> r == head.value || Older(r, head.value)
      invariant prior.None? <==> i < 2
      invariant prior.Some? ==>
                  && prior.value in rows[..i] && prior != head
                  && forall r :: r in rows[..i] ==> r == head.value || r == prior.value || Older(r, prior.value)
    {
      var r := rows[i];
      assert rows[..i + 1] == rows[..i] + [r];
      assert forall q :: q in rows[..i] ==> q.id != r.id;
      if head.None? || Older(head.value, r) {
        head, prior := Some(r), head;
      } else if prior.None? || Older(prior.value, r) {
        prior := Some(r);
      }
    }
    assert rows[..|rows|] == rows;
  }

  lemma NewestAreLast(rows: seq<Sample>, head: Sample, prior: Option<Sample>)
    requires InIdOrder(rows) && head in rows && forall r :: r in rows ==> r == head || Older(r, head)
    requires prior.Some? ==>
               && prior.value in rows && prior.value != head
               && forall r :: r in rows ==> r == head || r == prior.value || Older(r, prior.value)
    ensures head == rows[|rows| - 1]
    ensures prior.Some? ==> |rows| > 1 && prior.value == rows[|rows| - 2]
  {
    assert rows[|rows| - 1] in rows;
    if prior.Some? {
      assert rows[|rows| - 2] in rows;
    }
  }

  method NewestTwo(rows: seq<Sample>) returns (head: Option<Sample>, prior: Option<Sample>)
    requires InIdOrder(rows) && forall i, j :: 0 <= i < j < |rows| ==> rows[i].id != rows[j].id
    ensures head == if rows == [] then None else Some(rows[|rows| - 1])
    ensures prior == if |rows| < 2 then None else Some(rows[|rows| - 2])
  {
    head, prior := LatestTwo(rows);
    if head.Some? { NewestAreLast(rows, head.value, prior); }
  }

  /** `DELETE ... WHERE last_seen_at < cutoff AND id <> (the newest row's)`. */
  method DeleteExpired(rows: seq<Sample>, cutoff: int) returns (n: nat, kept: seq<Sample>)
    requires rows != [] && InIdOrder(rows) && LastSeenAscends(rows)
    requires forall i, j :: 0 <= i < j < |rows| ==> rows[i].id != rows[j].id
    ensures n < |rows| && kept == rows[n..]
    ensures forall i :: 0 <= i < n ==> rows[i].last < cutoff
    ensures forall i :: n <= i < |rows| - 1 ==> rows[i].last >= cutoff
  {
    var head, _ := NewestTwo(rows);
    n, kept := 0, [];
    for i := 0 to |rows|
      invariant n <= i && n < |rows| && kept == rows[n..i]
      invariant forall j :: 0 <= j < n ==> rows[j].last < cutoff
      invariant n < i ==> rows[n].last >= cutoff || n == |rows| - 1
    {
      if rows[i].last < cutoff && rows[i] != head.value {
        n := n + 1;
      } else {
        kept := kept + [rows[i]];
      }
    }
    assert rows[n..|rows|] == rows[n..];
  }

  /** The newest row is seen again when it holds this map; else this map is a new newest row. */
  predicate StoredOver(rows: seq<Sample>, rows': seq<Sample>, nextId: nat, effective: VerdictMap, now: int) {
    rows' == if rows != [] && rows[|rows| - 1].verdicts == effective
             then rows[|rows| - 1 := rows[|rows| - 1].(last := now)]
             else rows + [Sample(nextId, now, now, effective)]
  }

  /** See the newest map again, or insert a new one; returns the map before the standing one. */
  method Store(rows: seq<Sample>, nextId: nat, merged: VerdictMap, now: int, ghost log: seq<Reading>,
      ghost dropped: nat)
      returns (rows': seq<Sample>, nextId': nat, before: Option<Sample>, changedAt: int)
    requires Encodes(rows, nextId, log, dropped) && (log != [] ==> log[|log| - 1].at <= now)
    ensures Encodes(rows', nextId', log + [Reading(now, merged)], dropped)
    ensures rows' != [] && rows'[|rows'| - 1].verdicts == merged && changedAt == rows'[|rows'| - 1].first
    ensures before == if |rows'| < 2 then None else Some(rows'[|rows'| - 2])
    ensures StoredOver(rows, rows', nextId, merged, now)
  {
    RowsOrdered(rows, nextId, log, dropped);
    EncodesStored(rows, nextId, log, dropped, merged, now);
    var head, prior := NewestTwo(rows);
    if head.Some? && head.value.verdicts == merged {
      rows', nextId' := rows[|rows| - 1 := head.value.(last := now)], nextId;
      before, changedAt := prior, head.value.first;
    } else {
      rows', nextId' := rows + [Sample(nextId, now, now, merged)], nextId + 1;
      before, changedAt := head, now;
    }
  }

  lemma EncodesStored(rows: seq<Sample>, nextId: nat, log: seq<Reading>, dropped: nat, merged: VerdictMap, now: int)
    requires Encodes(rows, nextId, log, dropped) && (log != [] ==> log[|log| - 1].at <= now)
    ensures if rows != [] && rows[|rows| - 1].verdicts == merged
            then Encodes(rows[|rows| - 1 := rows[|rows| - 1].(last := now)], nextId, log + [Reading(now, merged)],
                dropped)
            else Encodes(rows + [Sample(nextId, now, now, merged)], nextId + 1, log + [Reading(now, merged)], dropped)
  {
    if rows != [] && rows[|rows| - 1].verdicts == merged {
      BumpEncodes(rows, nextId, log, dropped, Reading(now, merged));
    } else {
      InsertEncodes(rows, nextId, log, dropped, Reading(now, merged));
    }
  }

  /** What a report says: the standing map's start, the map before it, and the move between the two. */
  function ReportOn(rows: seq<Sample>, unread: seq<Name>): Report
    requires rows != []
  {
    var n := |rows|;
    Report(true, Some(rows[n - 1].first), if n < 2 then None else Some(rows[n - 2].first), n, Members(unread),
           if n < 2 then [] else Diff(rows[n - 2].verdicts, rows[n - 1].verdicts))
  }

  method Describe(changedAt: int, before: Option<Sample>, standing: VerdictMap, samples: nat, unread: seq<Name>)
      returns (report: Report)
    ensures report == Report(true, Some(changedAt), if before.None? then None else Some(before.value.first), samples,
                             Members(unread), if before.None? then [] else Diff(before.value.verdicts, standing))
  {
    var changes := [];
    if before.Some? { changes := ComputeDiff(before.value.verdicts, standing); }
    report := Report(true, Some(changedAt), if before.None? then None else Some(before.value.first),
                     samples, Members(unread), changes);
  }

  /** The compute as the memory takes it: carried forward over the last effective map. */
  function Effective(verdicts: VerdictMap, log: seq<Reading>, unread: seq<Name>, now: int): Reading {
    Reading(now, CarryForward(verdicts, Standing(log), Members(unread)))
  }

  /** An unread dataset the head had judged keeps the head's entry; every other name has this compute's. */
  ghost predicate CarriedOver(head: VerdictMap, verdicts: VerdictMap, unread: seq<Name>, effective: VerdictMap) {
    && (forall d :: d in unread && d in head && head[d].Axes? ==> d in effective && effective[d] == head[d])
    && (forall d :: d !in unread || d !in head || !head[d].Axes? ==> (d in effective <==> d in verdicts))
    && (forall d :: d in verdicts && (d !in unread || d !in head || !head[d].Axes?) ==>
          d in effective && effective[d] == verdicts[d])
  }

  ghost predicate CarriedOverHead(rows: seq<Sample>, verdicts: VerdictMap, unread: seq<Name>, effective: VerdictMap) {
    if rows == [] then effective == verdicts
    else
      var head := rows[|rows| - 1].verdicts;
      && CarriedOver(head, verdicts, unread, effective)
      && (AgreeElsewhere(verdicts, head, Members(unread)) ==> effective == head)
  }

  lemma CarriesOverHead(rows: seq<Sample>, verdicts: VerdictMap, unread: seq<Name>)
    ensures var head := if rows == [] then None else Some(rows[|rows| - 1].verdicts);
            CarriedOverHead(rows, verdicts, unread, CarryForward(verdicts, head, Members(unread)))
  {
    if rows != [] {
      UnreadFlapChangesNothing(verdicts, rows[|rows| - 1].verdicts, Members(unread));
    }
  }

  /** One compute: carry it forward over the head, store it, and report. */
  method Compute(rows: seq<Sample>, nextId: nat, verdicts: VerdictMap, unread: seq<Name>, now: int,
                 ghost log: seq<Reading>, ghost dropped: nat)
      returns (rows': seq<Sample>, nextId': nat, report: Report, ghost log': seq<Reading>)
    requires Encodes(rows, nextId, log, dropped) && (log != [] ==> log[|log| - 1].at <= now)
    ensures log' == log + [Effective(verdicts, log, unread, now)]
    ensures Encodes(rows', nextId', log', dropped)
    ensures rows' != [] && report == ReportOn(rows', unread)
    ensures StoredOver(rows, rows', nextId, rows'[|rows'| - 1].verdicts, now)
    ensures CarriedOverHead(rows, verdicts, unread, rows'[|rows'| - 1].verdicts)
  {
    RowsOrdered(rows, nextId, log, dropped);
    var head, _ := NewestTwo(rows);
    var standing := MergeUnread(verdicts, if rows == [] then None else Some(head.value.verdicts), unread);
    CarriesOverHead(rows, verdicts, unread);
    var before, changedAt;
    rows', nextId', before, changedAt := Store(rows, nextId, standing, now, log, dropped);
    report := Describe(changedAt, before, standing, |rows'|, unread);
    log' := log + [Reading(now, standing)];
  }

  lemma ReportMeans(rows: seq<Sample>, unread: seq<Name>)
    requires rows != []
    ensures forall c :: c in ReportOn(rows, unread).changes <==>
              |rows| >= 2 && Due(c, rows[|rows| - 2].verdicts, rows[|rows| - 1].verdicts)
  {
    if |rows| >= 2 {
      forall c ensures c in ReportOn(rows, unread).changes
          <==> Due(c, rows[|rows| - 2].verdicts, rows[|rows| - 1].verdicts) {
        DiffExact(rows[|rows| - 2].verdicts, rows[|rows| - 1].verdicts, c);
      }
    }
  }

  class CoverageLog {
    var rows: seq<Sample>
    var nextId: nat
    ghost var log: seq<Reading>    // every recorded compute, never shortened
    ghost var dropped: nat         // spans the trim has removed

    ghost predicate Valid()
      reads this
    {
      Encodes(rows, nextId, log, dropped)
    }

    constructor ()
      ensures Valid() && log == [] && dropped == 0
    {
      rows, nextId, log, dropped := [], 0, [], 0;
    }

    /**
     Store this compute's verdicts and report what moved. The log grows by the compute
     carried forward over the standing map; the table stays its encoding; the report
     compares the two newest distinct maps, also when this compute changed nothing.
     */
    method Record(verdicts: VerdictMap, unread: seq<Name>, now: int, fails: bool) returns (report: Report)
      requires Valid()
      requires log != [] ==> log[|log| - 1].at <= now
      modifies this
      ensures Valid() && dropped == old(dropped)
      ensures verdicts == map[] || fails ==>
                report == Report(false, None, None, 0, {}, []) && rows == old(rows) && log == old(log)
      ensures verdicts != map[] && !fails ==>
                && log == old(log) + [Effective(verdicts, old(log), unread, now)]
                && rows != [] && report == ReportOn(rows, unread)
      // What stands: an unread dataset the head had judged as in the head, all else as in this compute.
      ensures verdicts != map[] && !fails && old(rows) == [] ==> rows[|rows| - 1].verdicts == verdicts
      ensures verdicts != map[] && !fails && old(rows) != [] ==>
                var head, effective := old(rows)[|old(rows)| - 1].verdicts, rows[|rows| - 1].verdicts;
                && (forall d :: d in unread && d in head && head[d].Axes? ==> d in effective && effective[d] == head[d])
                && (forall d :: d !in unread || d !in head || !head[d].Axes? ==> (d in effective <==> d in verdicts))
                && (forall d :: d in verdicts && (d !in unread || d !in head || !head[d].Axes?) ==>
                      d in effective && effective[d] == verdicts[d])
      // An unread flap: all else as the head has it, the head is seen once more.
      ensures verdicts != map[] && !fails && old(rows) != [] ==>
                var n := |old(rows)|;
                AgreeElsewhere(verdicts, old(rows)[n - 1].verdicts, Members(unread)) ==>
                  rows == old(rows)[n - 1 := old(rows)[n - 1].(last := now)]
      // The table: seen again, or a new row.
      ensures verdicts != map[] && !fails ==>
                var effective, n := rows[|rows| - 1].verdicts, |old(rows)|;
                rows == if n > 0 && old(rows)[n - 1].verdicts == effective
                        then old(rows)[n - 1 := old(rows)[n - 1].(last := now)]
                        else old(rows) + [Sample(old(nextId), now, now, effective)]
      // The report: the newest row and the one before it.
      ensures verdicts != map[] && !fails ==>
                && report.recorded && report.changedAt == Some(rows[|rows| - 1].first) && report.samples == |rows|
                && report.previousAt == (if |rows| < 2 then None else Some(rows[|rows| - 2].first))
                && (forall d :: d in report.carriedForward <==> d in unread)
                && (forall c :: c in report.changes <==>
                      |rows| >= 2 && Due(c, rows[|rows| - 2].verdicts, rows[|rows| - 1].verdicts))
    {
      if verdicts == map[] || fails { return Report(false, None, None, 0, {}, []); }
      rows, nextId, report, log := Compute(rows, nextId, verdicts, unread, now, log, dropped);
      ReportMeans(rows, unread);
    }

    /**
     Drop rows last seen before the window, but never the newest. What goes is a prefix,
     so what stays is still the end of the encoding, with the standing map in it.
     */
    method TrimSamples(now: int, keepDays: nat, fails: bool) returns (n: nat)
      requires Valid()
      modifies this`rows, this`dropped
      ensures Valid()
      ensures fails ==> n == 0 && rows == old(rows)
      ensures n <= |old(rows)| && rows == old(rows)[n..] && dropped == old(dropped) + n
      ensures forall i :: 0 <= i < n ==> old(rows)[i].last < now - keepDays
      ensures !fails ==> forall i :: n <= i < |old(rows)| - 1 ==> old(rows)[i].last >= now - keepDays
    {
      if fails || rows == [] { return 0; }
      RowsOrdered(rows, nextId, log, dropped);
      var kept;
      n, kept := DeleteExpired(rows, now - keepDays);
      SuffixEncodes(rows, nextId, log, dropped, n);
      rows, dropped := kept, dropped + n;
    }
  }

  /** Once there is an earlier distinct map, a report on well-formed maps names at least one change. */
  lemma ReportNamesAChange(rows: seq<Sample>, nextId: nat, log: seq<Reading>, dropped: nat, unread: seq<Name>)
    requires Encodes(rows, nextId, log, dropped) && |rows| >= 2
    requires forall r :: r in rows ==> WellFormed(r.verdicts)
    ensures ReportOn(rows, unread).changes != []
  {
    RowsOrdered(rows, nextId, log, dropped);
    var n := |rows|;
    assert rows[n - 1] in rows && rows[n - 2] in rows;
    DiffEmptyIffEqual(rows[n - 2].verdicts, rows[n - 1].verdicts);
  }

  /** The table still answers for every compute whose stretch the trim has not dropped. */
  lemma TableAnswers(rows: seq<Sample>, nextId: nat, log: seq<Reading>, dropped: nat, i: nat)
    requires Encodes(rows, nextId, log, dropped) && i < |log| && dropped <= ChangesBy(log, i)
    ensures var j := ChangesBy(log, i) - dropped;
            j < |rows| && rows[j].verdicts == log[i].verdicts && rows[j].first <= log[i].at <= rows[j].last
  {
    RunLengthAnswers(log);
    assert Answers(RunLength(log), log, i);
    assert SpanOf(rows[ChangesBy(log, i) - dropped]) == RunLength(log)[ChangesBy(log, i)];
  }
}
