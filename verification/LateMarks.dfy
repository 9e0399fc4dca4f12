/**
 Marks that come late. `mark_done` and `mark_failed` update by id alone, so a worker that was
 given up on can still mark a row that has been reclaimed, finished or retried since.
 */
module LateMarks {
  import opened Ordering
  import opened JobQueue

  predicate Marks(q: Queue, a: Action) {
    (a.MarkDone? || a.MarkFailed?) && a.id in q.jobs
  }

  predicate Requeues(a: Action) {
    a.MarkFailed? && a.attempts < a.maxAttempts
  }

  /** Every newer finished row of the lineage finished this very moment. */
  predicate NewerJustFinished(q: Queue, id: int)
    requires id in q.jobs
  {
    forall k :: k in q.jobs && k > id && SameLineage(q.jobs[k], q.jobs[id]) && !q.jobs[k].Active()
        ==> q.jobs[k].finishedAt == q.clock
  }

  /**
   A mark does no harm when it requeues a row with no newer one, or is refused doing so, or
   finishes a row no newer one of which has finished before.
   */
  predicate Harmless(q: Queue, a: Action) {
    Marks(q, a) ==> if Requeues(a) then IndexRefuses(q, a.id) || !HasNewer(q, a.id) else NewerJustFinished(q, a.id)
  }

  lemma RequeueOrderIff(q: Queue, id: int, error: string)
    requires Orderly(q) && id in q.jobs && !IndexRefuses(q, id)
    ensures Orderly(Put(q, id, q.jobs[id].(status := Pending, error := error))) <==> !HasNewer(q, id)
  {
    var q' := Put(q, id, q.jobs[id].(status := Pending, error := error));
    forall i | i in q.jobs ensures HasNewer(q', i) <==> HasNewer(q, i) {
      SameNewer(q, q', i);
    }
    assert q'.jobs[id].Active();
    if !HasNewer(q, id) {
      forall i | i in q'.jobs && q'.jobs[i].Active() ensures !HasNewer(q', i) {
        assert i != id ==> !HasNewer(q, i);
      }
    }
  }

  /** Which rows have a newer one depends on ids and lineages only. */
  lemma SameNewer(q: Queue, q': Queue, i: int)
    requires i in q.jobs && q'.jobs.Keys == q.jobs.Keys
             && forall k :: k in q.jobs ==> SameLineage(q'.jobs[k], q.jobs[k])
    ensures HasNewer(q', i) <==> HasNewer(q, i)
  {
    if HasNewer(q, i) {
      var k :| k in q.jobs && k > i && SameLineage(q.jobs[k], q.jobs[i]);
      assert k in q'.jobs && SameLineage(q'.jobs[k], q'.jobs[i]);
    }
    if HasNewer(q', i) {
      var k :| k in q'.jobs && k > i && SameLineage(q'.jobs[k], q'.jobs[i]);
      assert k in q.jobs && SameLineage(q.jobs[k], q.jobs[i]);
    }
  }

  lemma FinishOrderIff(q: Queue, id: int, j: Job)
    requires Orderly(q) && id in q.jobs && SameLineage(j, q.jobs[id]) && !j.Active() && j.finishedAt == q.clock
    ensures Orderly(Put(q, id, j)) <==> NewerJustFinished(q, id)
  {
    var q' := Put(q, id, j);
    forall i | i in q'.jobs && q'.jobs[i].Active() ensures !HasNewer(q', i) {
      SameNewer(q, q', i);
      assert !HasNewer(q, i);
    }
    if Orderly(q') {
      forall k | k in q.jobs && k > id && SameLineage(q.jobs[k], q.jobs[id]) && !q.jobs[k].Active()
        ensures q.jobs[k].finishedAt == q.clock
      {
        assert q'.jobs[k] == q.jobs[k] && q'.jobs[id] == j;
      }
    }
  }

  /** A mark, late or not, keeps the queue in order exactly when it is harmless. */
  lemma MarkKeepsOrderIff(q: Queue, a: Action)
    requires Orderly(q) && Marks(q, a)
    ensures Orderly(Step(q, a)) <==> Harmless(q, a)
  {
    if Requeues(a) {
      if !IndexRefuses(q, a.id) { RequeueOrderIff(q, a.id, a.error); }
    } else {
      FinishOrderIff(q, a.id, Step(q, a).jobs[a.id]);
    }
  }

  /** A worker that marks a row it still runs does no harm. */
  lemma OwnedIsHarmless(q: Queue, a: Action)
    requires Orderly(q) && Owned(q, a)
    ensures Harmless(q, a)
  {
    if Marks(q, a) {
      assert !HasNewer(q, a.id);
    }
  }

  predicate HarmlessRun(q: Queue, trace: seq<Action>) {
    trace == [] ||
    (HarmlessRun(q, trace[..|trace| - 1]) && Harmless(Run(q, trace[..|trace| - 1]), trace[|trace| - 1]))
  }

  lemma StepOrderIff(q: Queue, a: Action)
    requires Orderly(q) && Enabled(q, a)
    ensures Orderly(Step(q, a)) <==> Harmless(q, a)
  {
    if Marks(q, a) { MarkKeepsOrderIff(q, a); } else { StepOrderly(q, a); }
  }

  ghost predicate OrderlyAt(q: Queue, trace: seq<Action>, n: nat)
    requires n <= |trace|
  {
    Orderly(Run(q, trace[..n]))
  }

  /** The queue is in order at every moment of the run. */
  ghost predicate AlwaysOrderly(q: Queue, trace: seq<Action>) {
    forall n :: 0 <= n <= |trace| ==> OrderlyAt(q, trace, n)
  }

  lemma OrderlyAtInit(q: Queue, trace: seq<Action>, m: nat, n: nat)
    requires n <= m <= |trace|
    ensures OrderlyAt(q, trace[..m], n) <==> OrderlyAt(q, trace, n)
  {
    assert trace[..m][..n] == trace[..n];
  }

  lemma OrderlyAtEnd(q: Queue, trace: seq<Action>)
    ensures OrderlyAt(q, trace, |trace|) <==> Orderly(Run(q, trace))
  {
    assert trace[..|trace|] == trace;
  }

  lemma AlwaysOrderlyMore(q: Queue, trace: seq<Action>)
    requires trace != []
    ensures AlwaysOrderly(q, trace) <==> AlwaysOrderly(q, trace[..|trace| - 1]) && Orderly(Run(q, trace))
  {
    var m := |trace| - 1;
    OrderlyAtEnd(q, trace);
    forall n | 0 <= n <= m ensures OrderlyAt(q, trace[..m], n) <==> OrderlyAt(q, trace, n) {
      OrderlyAtInit(q, trace, m, n);
    }
  }

  /** Over a whole run the order holds at every moment exactly when every mark is harmless as it comes. */
  lemma {:induction false} RunOrderIff(q: Queue, trace: seq<Action>)
    requires Orderly(q) && ValidRun(q, trace)
    ensures HarmlessRun(q, trace) <==> AlwaysOrderly(q, trace)
  {
    if trace != [] {
      var init := trace[..|trace| - 1];
      RunOrderIff(q, init);
      AlwaysOrderlyMore(q, trace);
      if HarmlessRun(q, init) {
        OrderlyAtEnd(q, init);
        StepOrderIff(Run(q, init), trace[|trace| - 1]);
      }
    }
  }

  // ------------------------------------------------------- a row that has been retried

  /** A failed row that has been retried, or has aged out of the offer. */
  ghost predicate Retired(q: Queue, f: int) {
    f < q.nextId && (f in q.jobs
        ==> !q.jobs[f].Active() && (HasNewer(q, f) || q.jobs[f].finishedAt < q.clock - OFFER_WINDOW))
  }

  /** The step does not bring the row back: it does not mark it, or is refused, or finishes it beside a newer one. */
  predicate Spares(q: Queue, a: Action, f: int) {
    Marks(q, a) && a.id == f ==> if Requeues(a) then IndexRefuses(q, f) else HasNewer(q, f)
  }

  /** A step keeps a retired row retired exactly when it spares it. */
  lemma RetiredStaysIff(q: Queue, a: Action, f: int)
    requires Orderly(q) && Enabled(q, a) && Retired(q, f)
    ensures Retired(Step(q, a), f) <==> Spares(q, a, f)
  {
    var q' := Step(q, a);
    if a.Insert? {
      InsertAllExtends(q, a.specs);
      if f in q.jobs { NewerAfterInsert(q, a.specs, f); }
    } else if Marks(q, a) {
      if f in q.jobs { SameNewer(q, q', f); }
    } else if f in q'.jobs && HasNewer(q, f) {
      var k :| k in q.jobs && k > f && SameLineage(q.jobs[k], q.jobs[f]);
      if k in q'.jobs { assert k > f && SameLineage(q'.jobs[k], q'.jobs[f]); }
    }
  }

  /** The step fails the row for good, and no newer row of its lineage has taken over. */
  predicate FailsAgain(q: Queue, a: Action, f: int) {
    a.MarkFailed? && a.id == f && f in q.jobs && a.attempts >= a.maxAttempts && !HasNewer(q, f)
  }

  /** A step brings a retired row back into the offer of its kind exactly when it fails the row for good again. */
  lemma RetiredIsOfferedIff(q: Queue, a: Action, f: int, kind: int)
    requires Orderly(q) && Enabled(q, a) && Retired(q, f)
    ensures f in Offered(Step(q, a), kind) <==> FailsAgain(q, a, f) && q.jobs[f].kind == kind
  {
    RetiredStaysIff(q, a, f);
    if !Spares(q, a, f) {
      var q' := Step(q, a);
      assert f in q'.jobs;
      SameNewer(q, q', f);
    }
  }

  predicate SparesRun(q: Queue, trace: seq<Action>, f: int) {
    trace == [] ||
    (SparesRun(q, trace[..|trace| - 1], f) && Spares(Run(q, trace[..|trace| - 1]), trace[|trace| - 1], f))
  }

  /** A retired row is offered at no later moment of a run in which every mark is harmless and spares it. */
  lemma {:induction false} RetiredForGood(q: Queue, trace: seq<Action>, f: int, kind: int)
    requires Orderly(q) && Retired(q, f) && ValidRun(q, trace)
    requires HarmlessRun(q, trace) && SparesRun(q, trace, f)
    ensures Orderly(Run(q, trace)) && Retired(Run(q, trace), f)
    ensures f !in Offered(Run(q, trace), kind)
  {
    if trace != [] {
      var m := |trace| - 1;
      RetiredForGood(q, trace[..m], f, kind);
      StepOrderIff(Run(q, trace[..m]), trace[m]);
      RetiredStaysIff(Run(q, trace[..m]), trace[m], f);
    }
  }

  /** Workers that mark only rows they run do no harm and spare every retired row. */
  lemma {:induction false} OwnedRunsSpare(q: Queue, trace: seq<Action>, f: int)
    requires Orderly(q) && Retired(q, f) && ValidRun(q, trace) && OwnedRun(q, trace)
    ensures HarmlessRun(q, trace) && SparesRun(q, trace, f)
  {
    if trace != [] {
      var m := |trace| - 1;
      OwnedRunsSpare(q, trace[..m], f);
      RetiredForGood(q, trace[..m], f, 0);
      OwnedIsHarmless(Run(q, trace[..m]), trace[m]);
    }
  }

  // -------------------------------------------------------------- a retry that stalls

  /** The retry of an offered row leaves it offered exactly when an older row of its lineage is active. */
  lemma RetryStallsIff(q: Queue, kind: int, f: int)
    requires OneActive(q) && f in Offered(q, kind)
    ensures f in Offered(InsertAll(q, RetrySpecs(q, [f])), kind)
            <==> ActiveLineage(q, q.jobs[f].kind, q.jobs[f].payload)
  {
    var s := Spec(q.jobs[f].kind, q.jobs[f].payload, q.jobs[f].priority, 3);
    var q' := InsertAll(q, RetrySpecs(q, [f]));
    OneRetry(q, f);
    assert q' == InsertOne(q, s);
    if !ActiveLineage(q, s.kind, s.payload) {
      assert q'.jobs[f] == q.jobs[f] && q.nextId in q'.jobs && SameLineage(q'.jobs[q.nextId], q'.jobs[f]);
      assert HasNewer(q', f);
    }
  }

  lemma OneRetry(q: Queue, f: int)
    requires f in q.jobs && q.jobs[f].status.Failed?
    ensures InsertAll(q, RetrySpecs(q, [f]))
            == InsertOne(q, Spec(q.jobs[f].kind, q.jobs[f].payload, q.jobs[f].priority, 3))
  {
    var s := Spec(q.jobs[f].kind, q.jobs[f].payload, q.jobs[f].priority, 3);
    assert [f][..0] == [] && RetrySpecs(q, []) == [];
    assert RetrySpecs(q, [f]) == [s] && [s][..0] == [];
  }

  // ------------------------------------------------------------------ two late marks

  /** Two rows of one lineage, the older one finished first. */
  function TwoRows(kind: int, payload: int, older: Status, newer: Status, end: int, clock: int): Queue {
    Queue(map[0 := Job(kind, payload, 0, older, 2, 3, 0, ""), 1 := Job(kind, payload, 0, newer, 3, 3, end, "")], 2,
        clock)
  }

  lemma RevivedRow(kind: int, payload: int, error: string)
    ensures var q := TwoRows(kind, payload, Done, Failed, 0, 0);
            var late := Step(q, MarkFailed(0, 1, 3, error));
            && Orderly(q) && !Harmless(q, MarkFailed(0, 1, 3, error))
            && late == q.(jobs := q.jobs[0 := q.jobs[0].(status := Pending, error := error)])
            && OneActive(late) && 1 in Offered(late, kind) && ActiveLineage(late, kind, payload)
  {
    var q := TwoRows(kind, payload, Done, Failed, 0, 0);
    var late := Step(q, MarkFailed(0, 1, 3, error));
    assert HasNewer(q, 0) by { assert SameLineage(q.jobs[1], q.jobs[0]); }
    assert !IndexRefuses(q, 0) && late.jobs[0].Active() && late.jobs[0].kind == kind && late.jobs[0].payload == payload;
  }

  lemma FinishedRow(kind: int, payload: int, error: string)
    ensures var q := TwoRows(kind, payload, Done, Failed, 0, 0);
            var late := q.(jobs := q.jobs[0 := q.jobs[0].(status := Pending, error := error)]);
            var over := Step(Step(late, Claim(0)), MarkDone(0));
            OneActive(over) && 1 in Offered(over, kind) && over.jobs[1] == q.jobs[1]
                && !ActiveLineage(over, kind, payload)
  {
    var q := TwoRows(kind, payload, Done, Failed, 0, 0);
    var late := q.(jobs := q.jobs[0 := q.jobs[0].(status := Pending, error := error)]);
    var over := Step(Step(late, Claim(0)), MarkDone(0));
    assert forall i :: i in over.jobs ==> i == 0 || i == 1;
    assert !over.jobs[0].Active() && !over.jobs[1].Active();
  }

  /**
   A late mark revives the older row: the newer failed row is offered, and retrying it
   changes nothing. Once the revived row has run and finished, the same retry succeeds.
   */
  lemma LateMarkStallsRetry(kind: int, payload: int, error: string)
    ensures var q := TwoRows(kind, payload, Done, Failed, 0, 0);
            var late := Step(q, MarkFailed(0, 1, 3, error));
            var over := Step(Step(late, Claim(0)), MarkDone(0));
            && Orderly(q) && !Harmless(q, MarkFailed(0, 1, 3, error))
            && 1 in Offered(late, kind) && InsertAll(late, RetrySpecs(late, [1])) == late
            && 1 in Offered(over, kind) && 1 !in Offered(InsertAll(over, RetrySpecs(over, [1])), kind)
  {
    RevivedRow(kind, payload, error);
    FinishedRow(kind, payload, error);
    var late := Step(TwoRows(kind, payload, Done, Failed, 0, 0), MarkFailed(0, 1, 3, error));
    OneRetry(late, 1);
    RetryStallsIff(Step(Step(late, Claim(0)), MarkDone(0)), kind, 1);
  }

  /**
   A late mark that fails the older row again breaks the order with no requeue at all: once
   the newer row is trimmed, the older one, retried long since, is offered again.
   */
  lemma LateFailureIsOfferedAgain(kind: int, payload: int, error: string)
    ensures var q := TwoRows(kind, payload, Failed, Done, 60, 61 + TRIM_KEEP);
            var late := Step(q, MarkFailed(0, 3, 3, error));
            && Orderly(q) && Retired(q, 0) && Spares(q, MarkFailed(0, 3, 3, error), 0)
            && !Harmless(q, MarkFailed(0, 3, 3, error)) && ActiveIsNewest(late)
            && 0 in Offered(Step(late, Trim({1})), kind)
  {
    var q := TwoRows(kind, payload, Failed, Done, 60, 61 + TRIM_KEEP);
    var late := Step(q, MarkFailed(0, 3, 3, error));
    assert SameLineage(q.jobs[1], q.jobs[0]) && HasNewer(q, 0);
    assert late.jobs[1] == q.jobs[1] && Trimmable(late, 1);
    var trimmed := Step(late, Trim({1}));
    assert 0 in trimmed.jobs && 1 !in trimmed.jobs && !HasNewer(trimmed, 0);
  }
}
