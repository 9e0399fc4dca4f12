/**
 The job table `ops_jobs.job_ingest`: bulk insert with dedup, the worker's updates, the
 trim, and the retry of failed jobs that the doctor prescribes and `heal` executes.

 A lineage is all the rows of one kind and payload hash. The partial unique index holds
 at most one pending or running row per lineage.
 */
module JobQueue {
  import opened Wrappers
  import opened Ordering

  datatype Status = Pending | Running | Done | Failed

  /**
   `finishedAt` is read only on a done or failed row; the source keeps it NULL on the others.
   `error` is the error text of the row's result, read only on a failed row.
   */
  datatype Job = Job(kind: int, payload: int, priority: int, status: Status, attempts: nat, maxAttempts: nat,
                     finishedAt: int, error: string)
  {
    predicate Active() { status.Pending? || status.Running? }
  }

  datatype Spec = Spec(kind: int, payload: int, priority: int, maxAttempts: nat)

  datatype Queue = Queue(jobs: map<int, Job>, nextId: int, clock: int)

  /** The error `reclaim_stale_running` writes. */
  const STALE_RUNNING := "stale_running: abandoned after started_at"

  const HOUR: int := 3600
  const TRIM_KEEP: int := 48 * HOUR
  const OFFER_WINDOW: int := 24 * HOUR
  const OFFER_CAP: nat := 50

  predicate SameLineage(a: Job, b: Job) {
    a.kind == b.kind && a.payload == b.payload
  }

  predicate ActiveLineage(q: Queue, kind: int, payload: int) {
    exists i :: i in q.jobs && q.jobs[i].Active() && q.jobs[i].kind == kind && q.jobs[i].payload == payload
  }

  /** A newer row of the same lineage exists. */
  predicate HasNewer(q: Queue, id: int)
    requires id in q.jobs
  {
    exists i :: i in q.jobs && i > id && SameLineage(q.jobs[i], q.jobs[id])
  }

  // ------------------------------------------------------------------ the updates

  /** `INSERT ... ON CONFLICT (kind, payload_hash) WHERE active DO NOTHING`. */
  function InsertOne(q: Queue, s: Spec): Queue {
    if ActiveLineage(q, s.kind, s.payload) then q
    else Queue(q.jobs[q.nextId := Job(s.kind, s.payload, s.priority, Pending, 0, s.maxAttempts, 0, "")],
        q.nextId + 1, q.clock)
  }

  function InsertAll(q: Queue, specs: seq<Spec>): Queue {
    if specs == [] then q else InsertOne(InsertAll(q, specs[..|specs| - 1]), specs[|specs| - 1])
  }

  datatype Action =
    | Tick(to: int)                                            // time passes
    | Insert(specs: seq<Spec>)
    | Claim(id: int)
    | MarkDone(id: int)
    | MarkFailed(id: int, attempts: nat, maxAttempts: nat, error: string) // the counts of the claimed JobRow
    | Reclaim(id: int)                                         // a stale running row
    | Trim(ids: set<int>)

  function Put(q: Queue, id: int, j: Job): Queue {
    q.(jobs := q.jobs[id := j])
  }

  /** The update makes the row pending again; the unique index refuses a second active row of the lineage. */
  predicate IndexRefuses(q: Queue, id: int)
    requires id in q.jobs
  {
    exists i :: i in q.jobs && i != id && q.jobs[i].Active() && SameLineage(q.jobs[i], q.jobs[id])
  }

  function Step(q: Queue, a: Action): Queue {
    match a
    case Tick(to) => q.(clock := to)
    case Insert(specs) => InsertAll(q, specs)
    case Claim(id) =>
      if id in q.jobs && q.jobs[id].status.Pending?
      then Put(q, id, q.jobs[id].(status := Running, attempts := q.jobs[id].attempts + 1)) else q
    case MarkDone(id) =>
      if id in q.jobs then Put(q, id, q.jobs[id].(status := Done, finishedAt := q.clock)) else q
    case MarkFailed(id, attempts, maxAttempts, error) =>
      if id !in q.jobs then q
      else if attempts >= maxAttempts
          then Put(q, id, q.jobs[id].(status := Failed, finishedAt := q.clock, error := error))
      else if IndexRefuses(q, id) then q
      else Put(q, id, q.jobs[id].(status := Pending, error := error))
    case Reclaim(id) =>
      if id in q.jobs && q.jobs[id].status.Running?
      then if q.jobs[id].attempts >= q.jobs[id].maxAttempts
           then Put(q, id, q.jobs[id].(status := Failed, finishedAt := q.clock, error := STALE_RUNNING))
           else Put(q, id, q.jobs[id].(status := Pending, error := STALE_RUNNING))
      else q
    case Trim(ids) =>
      q.(jobs := map i | i in q.jobs && !(i in ids && Trimmable(q, i)) :: q.jobs[i])
  }

  predicate Trimmable(q: Queue, id: int)
    requires id in q.jobs
  {
    !q.jobs[id].Active() && q.jobs[id].finishedAt < q.clock - TRIM_KEEP
  }

  predicate Enabled(q: Queue, a: Action) {
    a.Tick? ==> a.to >= q.clock
  }

  /** A worker marks only the row it still runs. Neither mark checks this: both update by id alone. */
  predicate Owned(q: Queue, a: Action) {
    && (a.MarkDone? && a.id in q.jobs ==> q.jobs[a.id].status.Running?)
    && (a.MarkFailed? && a.id in q.jobs ==> q.jobs[a.id].status.Running?)
  }

  function Run(q: Queue, trace: seq<Action>): Queue {
    if trace == [] then q else Step(Run(q, trace[..|trace| - 1]), trace[|trace| - 1])
  }

  predicate ValidRun(q: Queue, trace: seq<Action>) {
    trace == [] ||
    (ValidRun(q, trace[..|trace| - 1]) && Enabled(Run(q, trace[..|trace| - 1]), trace[|trace| - 1]))
  }

  predicate OwnedRun(q: Queue, trace: seq<Action>) {
    trace == [] ||
    (OwnedRun(q, trace[..|trace| - 1]) && Owned(Run(q, trace[..|trace| - 1]), trace[|trace| - 1]))
  }

  // --------------------------------------------------------------- what every step keeps

  ghost predicate OneActive(q: Queue) {
    && (forall i :: i in q.jobs ==> i < q.nextId)
    && (forall i, k :: i in q.jobs && k in q.jobs && i != k && SameLineage(q.jobs[i], q.jobs[k]) ==>
          !(q.jobs[i].Active() && q.jobs[k].Active()))
  }

  /** A lineage's active row is its newest. */
  ghost predicate ActiveIsNewest(q: Queue) {
    forall i :: i in q.jobs && q.jobs[i].Active() ==> !HasNewer(q, i)
  }

  /** Within a lineage rows finish in the order of their ids, and none in the future. */
  ghost predicate FinishInOrder(q: Queue) {
    && (forall i :: i in q.jobs && !q.jobs[i].Active() ==> q.jobs[i].finishedAt <= q.clock)
    && (forall i, k :: i in q.jobs && k in q.jobs && i < k && SameLineage(q.jobs[i], q.jobs[k]) ==>
          !q.jobs[i].Active() && !q.jobs[k].Active() ==> q.jobs[i].finishedAt <= q.jobs[k].finishedAt)
  }

  ghost predicate Orderly(q: Queue) {
    OneActive(q) && ActiveIsNewest(q) && FinishInOrder(q)
  }

  lemma {:induction false} InsertAllOneActive(q: Queue, specs: seq<Spec>)
    requires OneActive(q)
    ensures OneActive(InsertAll(q, specs))
  {
    if specs != [] {
      InsertAllOneActive(q, specs[..|specs| - 1]);
    }
  }

  /** Whatever workers do, late marks included, a lineage never has two active rows. */
  lemma StepOneActive(q: Queue, a: Action)
    requires OneActive(q)
    ensures OneActive(Step(q, a))
  {
    if a.Insert? { InsertAllOneActive(q, a.specs); }
  }

  lemma InsertOneOrderly(q: Queue, s: Spec)
    requires Orderly(q)
    ensures Orderly(InsertOne(q, s))
  {
    var q' := InsertOne(q, s);
    forall i | i in q'.jobs && q'.jobs[i].Active() ensures !HasNewer(q', i) {
      if i in q.jobs { assert !HasNewer(q, i); }
    }
  }

  lemma {:induction false} InsertAllOrderly(q: Queue, specs: seq<Spec>)
    requires Orderly(q)
    ensures Orderly(InsertAll(q, specs))
  {
    if specs != [] {
      InsertAllOrderly(q, specs[..|specs| - 1]);
      InsertOneOrderly(InsertAll(q, specs[..|specs| - 1]), specs[|specs| - 1]);
    }
  }

  /** A change of one row's status keeps the order when the row was active, or stays as it was. */
  lemma PutOrderly(q: Queue, id: int, j: Job)
    requires Orderly(q) && id in q.jobs && q.jobs[id].Active() && SameLineage(j, q.jobs[id])
    requires !j.Active() ==> j.finishedAt == q.clock
    ensures Orderly(Put(q, id, j))
  {
    var q' := Put(q, id, j);
    forall i | i in q'.jobs && q'.jobs[i].Active() ensures !HasNewer(q', i) {
      assert !HasNewer(q, i);
    }
    assert !HasNewer(q, id);
  }

  lemma TrimOrderly(q: Queue, ids: set<int>)
    requires Orderly(q)
    ensures Orderly(Step(q, Trim(ids)))
  {
    var q' := Step(q, Trim(ids));
    forall i | i in q'.jobs && q'.jobs[i].Active() ensures !HasNewer(q', i) {
      assert !HasNewer(q, i);
    }
  }

  lemma StepOrderly(q: Queue, a: Action)
    requires Orderly(q) && Enabled(q, a) && Owned(q, a)
    ensures Orderly(Step(q, a))
  {
    if a.Insert? { InsertAllOrderly(q, a.specs); }
    else if a.Trim? { TrimOrderly(q, a.ids); }
    else if a.Tick? {
      forall i | i in q.jobs && q.jobs[i].Active() ensures !HasNewer(Step(q, a), i) { assert !HasNewer(q, i); }
    } else if a.id in q.jobs && q.jobs[a.id].Active() && Step(q, a) != q {
      PutOrderly(q, a.id, Step(q, a).jobs[a.id]);
    }
  }

  /** In every run where workers mark only the rows they run, an active row is the newest of its lineage. */
  lemma {:induction false} RunOrderly(q: Queue, trace: seq<Action>)
    requires Orderly(q) && ValidRun(q, trace) && OwnedRun(q, trace)
    ensures Orderly(Run(q, trace))
  {
    if trace != [] {
      RunOrderly(q, trace[..|trace| - 1]);
      StepOrderly(Run(q, trace[..|trace| - 1]), trace[|trace| - 1]);
    }
  }

  // ----------------------------------------------------------- the retry of failed jobs

  /** The failed rows of the last 24 hours that no newer row of their lineage has taken over. */
  function Offered(q: Queue, kind: int): set<int> {
    set i | i in q.jobs && q.jobs[i].status.Failed? && q.jobs[i].kind == kind
            && q.jobs[i].finishedAt >= q.clock - OFFER_WINDOW && !HasNewer(q, i)
  }

  /** `array_agg(id ORDER BY id DESC)[:50]`. */
  function Offer(q: Queue, kind: int): seq<int> {
    var ids := SortedSet(Offered(q, kind));
    NewestFirst(ids, if |ids| <= OFFER_CAP then |ids| else OFFER_CAP)
  }

  /** The specs `_retry_jobs` builds: the failed rows among the ids, with three fresh attempts. */
  function RetrySpecs(q: Queue, ids: seq<int>): seq<Spec> {
    if ids == [] then []
    else
      var id := ids[|ids| - 1];
      RetrySpecs(q, ids[..|ids| - 1])
      + (if id in q.jobs && q.jobs[id].status.Failed?
         then [Spec(q.jobs[id].kind, q.jobs[id].payload, q.jobs[id].priority, 3)] else [])
  }

  predicate InSpecs(specs: seq<Spec>, j: Job) {
    exists s :: s in specs && s.kind == j.kind && s.payload == j.payload
  }

  /** At most one failed row of a lineage is offered. */
  lemma OneOfferPerLineage(q: Queue, kind: int, i: int, k: int)
    requires i in Offered(q, kind) && k in Offered(q, kind) && SameLineage(q.jobs[i], q.jobs[k])
    ensures i == k
  {
    assert !HasNewer(q, i) && !HasNewer(q, k);
  }

  /** `q'` is `q` after a bulk insert: old rows alone, only pending rows added, every named lineage active. */
  ghost predicate Extends(q: Queue, specs: seq<Spec>, q': Queue) {
    && q'.clock == q.clock && q'.nextId >= q.nextId
    && (forall i :: i in q.jobs ==> i in q'.jobs && q'.jobs[i] == q.jobs[i])
    && (forall i :: i in q'.jobs && i !in q.jobs ==>
          i >= q.nextId && q'.jobs[i].status.Pending? && InSpecs(specs, q'.jobs[i])
          && !ActiveLineage(q, q'.jobs[i].kind, q'.jobs[i].payload))
    && (forall s :: s in specs ==> ActiveLineage(q', s.kind, s.payload))
  }

  lemma ActiveLineageStays(q: Queue, q': Queue, kind: int, payload: int)
    requires forall i :: i in q.jobs ==> i in q'.jobs && q'.jobs[i] == q.jobs[i]
    ensures ActiveLineage(q, kind, payload) ==> ActiveLineage(q', kind, payload)
  {
    if ActiveLineage(q, kind, payload) {
      var k :| k in q.jobs && q.jobs[k].Active() && q.jobs[k].kind == kind && q.jobs[k].payload == payload;
      assert k in q'.jobs && q'.jobs[k] == q.jobs[k];
    }
  }

  lemma InSpecsMore(specs: seq<Spec>, s: Spec, j: Job)
    ensures InSpecs(specs + [s], j) <==> InSpecs(specs, j) || (s.kind == j.kind && s.payload == j.payload)
  {
    if InSpecs(specs, j) {
      var x :| x in specs && x.kind == j.kind && x.payload == j.payload;
      assert x in specs + [s];
    }
    assert s in specs + [s];
  }

  lemma ExtendsStep(q: Queue, specs: seq<Spec>, mid: Queue, s: Spec)
    requires OneActive(mid) && Extends(q, specs, mid)
    ensures Extends(q, specs + [s], InsertOne(mid, s))
  {
    var q' := InsertOne(mid, s);
    assert forall i :: i in mid.jobs ==> i in q'.jobs && q'.jobs[i] == mid.jobs[i];
    ActiveLineageStays(q, mid, s.kind, s.payload);
    forall i | i in q'.jobs && i !in q.jobs
      ensures i >= q.nextId && q'.jobs[i].status.Pending? && InSpecs(specs + [s], q'.jobs[i])
              && !ActiveLineage(q, q'.jobs[i].kind, q'.jobs[i].payload)
    {
      InSpecsMore(specs, s, q'.jobs[i]);
    }
    forall x | x in specs + [s] ensures ActiveLineage(q', x.kind, x.payload) {
      ActiveLineageStays(mid, q', x.kind, x.payload);
      if x !in specs && !ActiveLineage(mid, s.kind, s.payload) { assert mid.nextId in q'.jobs; }
    }
  }

  lemma InsertAllLast(q: Queue, specs: seq<Spec>, s: Spec)
    ensures InsertAll(q, specs + [s]) == InsertOne(InsertAll(q, specs), s)
  {
    assert (specs + [s])[..|specs|] == specs;
  }

  ghost predicate AllExtends(q: Queue, specs: seq<Spec>) {
    Extends(q, specs, InsertAll(q, specs))
  }

  lemma AllExtendsMore(q: Queue, specs: seq<Spec>, s: Spec)
    requires OneActive(q) && AllExtends(q, specs)
    ensures AllExtends(q, specs + [s])
  {
    InsertAllOneActive(q, specs);
    InsertAllLast(q, specs, s);
    ExtendsStep(q, specs, InsertAll(q, specs), s);
  }

  lemma InsertAllExtends(q: Queue, specs: seq<Spec>)
    requires OneActive(q)
    ensures Extends(q, specs, InsertAll(q, specs))
  {
    for i := 0 to |specs|
      invariant AllExtends(q, specs[..i])
    {
      assert specs[..i + 1] == specs[..i] + [specs[i]];
      AllExtendsMore(q, specs[..i], specs[i]);
    }
    assert specs[..|specs|] == specs;
  }

  /** After a bulk insert a failed row is still offered exactly when its lineage was not in the batch. */
  lemma OfferedAfterInsert(q: Queue, specs: seq<Spec>, kind: int)
    requires Orderly(q)
    ensures Offered(InsertAll(q, specs), kind) == set i | i in Offered(q, kind) && !InSpecs(specs, q.jobs[i])
  {
    var q' := InsertAll(q, specs);
    InsertAllExtends(q, specs);
    forall i ensures i in Offered(q', kind) <==> i in Offered(q, kind) && !InSpecs(specs, q.jobs[i]) {
      if i in q.jobs && !q.jobs[i].Active() {
        NewerAfterInsert(q, specs, i);
      }
    }
  }

  /** The lineage of a finished newest row has no active row: a retry of it cannot be deduplicated away. */
  lemma NewestDoneMeansIdle(q: Queue, i: int)
    requires Orderly(q) && i in q.jobs && !q.jobs[i].Active() && !HasNewer(q, i)
    ensures !ActiveLineage(q, q.jobs[i].kind, q.jobs[i].payload)
  {
    forall k | k in q.jobs && SameLineage(q.jobs[k], q.jobs[i]) ensures !q.jobs[k].Active() {
      if k < i { assert HasNewer(q, k); }
    }
  }

  lemma NewerAfterInsert(q: Queue, specs: seq<Spec>, i: int)
    requires Orderly(q) && i in q.jobs && !q.jobs[i].Active()
    ensures i in InsertAll(q, specs).jobs && InsertAll(q, specs).jobs[i] == q.jobs[i]
    ensures !HasNewer(q, i) ==> (HasNewer(InsertAll(q, specs), i) <==> InSpecs(specs, q.jobs[i]))
    ensures HasNewer(q, i) ==> HasNewer(InsertAll(q, specs), i)
  {
    var q' := InsertAll(q, specs);
    InsertAllExtends(q, specs);
    if HasNewer(q, i) {
      var k :| k in q.jobs && k > i && SameLineage(q.jobs[k], q.jobs[i]);
      assert k in q'.jobs && q'.jobs[k] == q.jobs[k];
    } else {
      if HasNewer(q', i) {
        var k :| k in q'.jobs && k > i && SameLineage(q'.jobs[k], q'.jobs[i]);
        assert k !in q.jobs;
      }
      if InSpecs(specs, q.jobs[i]) {
        var s :| s in specs && s.kind == q.jobs[i].kind && s.payload == q.jobs[i].payload;
        assert ActiveLineage(q', s.kind, s.payload);
        var k :| k in q'.jobs && q'.jobs[k].Active() && q'.jobs[k].kind == s.kind && q'.jobs[k].payload == s.payload;
        NewestDoneMeansIdle(q, i);
        assert k !in q.jobs && k > i;
      }
    }
  }

  lemma {:induction false} RetrySpecsExact(q: Queue, ids: seq<int>, j: Job)
    ensures InSpecs(RetrySpecs(q, ids), j) <==>
            exists id :: id in ids && id in q.jobs && q.jobs[id].status.Failed? && SameLineage(q.jobs[id], j)
  {
    if ids != [] {
      var init, id := ids[..|ids| - 1], ids[|ids| - 1];
      RetrySpecsExact(q, init, j);
      assert ids == init + [id];
      var a, b := RetrySpecs(q, init), RetrySpecs(q, ids);
      if InSpecs(a, j) {
        var s :| s in a && s.kind == j.kind && s.payload == j.payload;
        assert s in b;
      }
      if id in q.jobs && q.jobs[id].status.Failed? && SameLineage(q.jobs[id], j) {
        assert b[|b| - 1] in b;
      }
    }
  }

  /** `ids[:-n-1:-1]`: the last n of an ascending list, newest first. */
  function NewestFirst(ids: seq<int>, n: nat): seq<int>
    requires n <= |ids|
  {
    seq(n, i requires 0 <= i < n => ids[|ids| - 1 - i])
  }

  lemma NewestFirstFacts(ids: seq<int>, n: nat)
    requires n <= |ids| && StrictlyAscending(ids)
    ensures var top := NewestFirst(ids, n);
            && (forall x :: x in top ==> x in ids)
            && (forall i, k :: 0 <= i < k < n ==> top[i] > top[k])
            && (forall i, x :: 0 <= i < n && x in ids && x !in top ==> x < top[i])
  {
    var top := NewestFirst(ids, n);
    assert forall k :: |ids| - n <= k < |ids| ==> ids[k] == top[|ids| - 1 - k];
    forall i, x | 0 <= i < n && x in ids && x !in top ensures x < top[i] {
      var k :| 0 <= k < |ids| && ids[k] == x;
      assert k < |ids| - n;
    }
  }

  /** The offer is the newest min(50, n) of the offered rows, each once. */
  lemma OfferIsNewest(q: Queue, kind: int)
    ensures var ids, all := Offer(q, kind), Offered(q, kind);
            && |ids| == (if |all| <= OFFER_CAP then |all| else OFFER_CAP)
            && (forall i :: i in ids ==> i in all)
            && (forall i, k :: 0 <= i < k < |ids| ==> ids[i] > ids[k])
            && (forall i, x :: 0 <= i < |ids| && x in all && x !in ids ==> x < ids[i])
  {
    SortedSetAscends(Offered(q, kind));
    NewestFirstFacts(SortedSet(Offered(q, kind)), |Offer(q, kind)|);
  }

  lemma {:induction false} DistinctCard(s: seq<int>)
    requires forall i, k :: 0 <= i < k < |s| ==> s[i] != s[k]
    ensures |set x | x in s| == |s|
  {
    if s != [] {
      DistinctCard(s[1..]);
      assert (set x | x in s) == (set x | x in s[1..]) + {s[0]};
      assert s[0] !in s[1..];
    }
  }

  // --------------------------------------------------------------- the bulk insert

  predicate SameKey(a: Spec, b: Spec) {
    a.kind == b.kind && a.payload == b.payload
  }

  predicate KeySeen(specs: seq<Spec>, s: Spec) {
    exists i :: 0 <= i < |specs| && SameKey(specs[i], s)
  }

  /** Duplicate keys inside a batch are folded onto the first occurrence. */
  function Fold(specs: seq<Spec>): seq<Spec> {
    if specs == [] then []
    else
      var init, s := specs[..|specs| - 1], specs[|specs| - 1];
      if KeySeen(init, s) then Fold(init) else Fold(init) + [s]
  }

  lemma InsertAllActivates(q: Queue, specs: seq<Spec>, s: Spec)
    requires OneActive(q) && KeySeen(specs, s)
    ensures ActiveLineage(InsertAll(q, specs), s.kind, s.payload)
  {
    InsertAllExtends(q, specs);
    var i :| 0 <= i < |specs| && SameKey(specs[i], s);
    assert specs[i] in specs;
  }

  /** Folding first changes nothing: a second occurrence would have met the first one's pending row. */
  lemma {:induction false} FoldInsertsSame(q: Queue, specs: seq<Spec>)
    requires OneActive(q)
    ensures InsertAll(q, Fold(specs)) == InsertAll(q, specs)
  {
    if specs != [] {
      var init, s := specs[..|specs| - 1], specs[|specs| - 1];
      FoldInsertsSame(q, init);
      if KeySeen(init, s) {
        InsertAllActivates(q, init, s);
      } else {
        assert (Fold(init) + [s])[..|Fold(init)|] == Fold(init);
      }
    }
  }

  lemma {:induction false} FoldKeys(specs: seq<Spec>, s: Spec)
    ensures KeySeen(Fold(specs), s) <==> KeySeen(specs, s)
  {
    if specs != [] {
      var init, last := specs[..|specs| - 1], specs[|specs| - 1];
      FoldKeys(init, s);
      SeenMore(init, last, s);
      SeenMore(Fold(init), last, s);
      assert specs == init + [last];
      if KeySeen(init, last) && SameKey(last, s) {
        var i :| 0 <= i < |init| && SameKey(init[i], last);
        assert SameKey(init[i], s);
      }
    }
  }

  lemma SeenMore(specs: seq<Spec>, last: Spec, s: Spec)
    ensures KeySeen(specs + [last], s) <==> KeySeen(specs, s) || SameKey(last, s)
  {
    var more := specs + [last];
    if KeySeen(specs, s) {
      var i :| 0 <= i < |specs| && SameKey(specs[i], s);
      assert SameKey(more[i], s);
    }
    assert more[|specs|] == last;
  }

  /** The id the k-th spec gets when the batch is inserted one row at a time. */
  function IdOf(q: Queue, specs: seq<Spec>, k: nat): Option<int>
    requires k < |specs|
  {
    var before := InsertAll(q, specs[..k]);
    if ActiveLineage(before, specs[k].kind, specs[k].payload) then None else Some(before.nextId)
  }

  /** Where each spec of the batch went in the folded list; None for a duplicate. */
  ghost predicate Placed(specs: seq<Spec>, folded: seq<Spec>, positions: seq<Option<nat>>) {
    && |positions| == |specs|
    && forall m :: 0 <= m < |specs| ==>
         if KeySeen(specs[..m], specs[m]) then positions[m] == None
         else && positions[m].Some? && positions[m].value < |folded|
              && folded[..positions[m].value] == Fold(specs[..m]) && folded[positions[m].value] == specs[m]
  }

  lemma PlacedStep(specs: seq<Spec>, folded: seq<Spec>, positions: seq<Option<nat>>, s: Spec)
    requires folded == Fold(specs) && Placed(specs, folded, positions)
    ensures KeySeen(specs, s) ==> Fold(specs + [s]) == folded && Placed(specs + [s], folded, positions + [None])
    ensures !KeySeen(specs, s) ==>
              Fold(specs + [s]) == folded + [s] && Placed(specs + [s], folded + [s], positions + [Some(|folded|)])
  {
    var more := specs + [s];
    assert more[..|specs|] == specs;
    forall m | 0 <= m < |specs| ensures more[..m] == specs[..m] && more[m] == specs[m] {
    }
    if !KeySeen(specs, s) {
      var folded' := folded + [s];
      assert folded'[..|folded|] == folded;
      forall m | 0 <= m < |specs| && !KeySeen(specs[..m], specs[m])
        ensures folded'[..positions[m].value] == folded[..positions[m].value]
      {
      }
    }
  }

  method FoldBatch(specs: seq<Spec>) returns (folded: seq<Spec>, positions: seq<Option<nat>>)
    ensures folded == Fold(specs) && Placed(specs, folded, positions)
  {
    folded, positions := [], [];
    for k := 0 to |specs|
      invariant folded == Fold(specs[..k]) && Placed(specs[..k], folded, positions)
    {
      var s := specs[k];
      assert specs[..k + 1] == specs[..k] + [s];
      folded, positions := FoldOne(specs[..k], folded, positions, s);
    }
    assert specs[..|specs|] == specs;
  }

  /** One spec of the batch: a key seen before is a duplicate, a new one goes to the end. */
  method FoldOne(ghost specs: seq<Spec>, folded: seq<Spec>, positions: seq<Option<nat>>, s: Spec)
      returns (folded': seq<Spec>, positions': seq<Option<nat>>)
    requires folded == Fold(specs) && Placed(specs, folded, positions)
    ensures folded' == Fold(specs + [s]) && Placed(specs + [s], folded', positions')
  {
    FoldKeys(specs, s);
    PlacedStep(specs, folded, positions, s);
    if KeySeen(folded, s) {
      folded', positions' := folded, positions + [None];
    } else {
      folded', positions' := folded + [s], positions + [Some(|folded|)];
    }
  }

  /** `[id_by_key.get(key) if key is not None else None for key in positions]`. */
  method PickIds(positions: seq<Option<nat>>, got: seq<Option<int>>) returns (ids: seq<Option<int>>)
    requires forall k :: 0 <= k < |positions| && positions[k].Some? ==> positions[k].value < |got|
    ensures |ids| == |positions|
    ensures forall k :: 0 <= k < |positions| ==> ids[k] == if positions[k].None? then None else got[positions[k].value]
  {
    ids := [];
    for k := 0 to |positions|
      invariant |ids| == k
      invariant forall m :: 0 <= m < k ==> ids[m] == if positions[m].None? then None else got[positions[m].value]
    {
      ids := ids + [if positions[k].None? then None else got[positions[k].value]];
    }
  }

  /** The id found through the folded list is the one a row-at-a-time insert would have given. */
  lemma PlacedIds(q: Queue, specs: seq<Spec>, folded: seq<Spec>, positions: seq<Option<nat>>, k: nat)
    requires OneActive(q) && Placed(specs, folded, positions) && k < |specs|
    ensures positions[k].None? ==> IdOf(q, specs, k) == None
    ensures positions[k].Some?
            ==> positions[k].value < |folded| && IdOf(q, folded, positions[k].value) == IdOf(q, specs, k)
  {
    if KeySeen(specs[..k], specs[k]) {
      InsertAllActivates(q, specs[..k], specs[k]);
    } else {
      FoldInsertsSame(q, specs[..k]);
    }
  }

  class JobTable {
    var jobs: map<int, Job>
    var nextId: int
    var clock: int

    function View(): Queue
      reads this
    {
      Queue(jobs, nextId, clock)
    }

    /** `INSERT ... ON CONFLICT DO NOTHING RETURNING id` for one row. */
    method InsertRow(s: Spec) returns (id: Option<int>)
      modifies this`jobs, this`nextId
      ensures View() == InsertOne(old(View()), s)
      ensures id == if ActiveLineage(old(View()), s.kind, s.payload) then None else Some(old(nextId))
    {
      if exists i :: i in jobs && jobs[i].Active() && jobs[i].kind == s.kind && jobs[i].payload == s.payload {
        return None;
      }
      id := Some(nextId);
      jobs, nextId := jobs[nextId := Job(s.kind, s.payload, s.priority, Pending, 0, s.maxAttempts, 0, "")], nextId + 1;
    }

    method InsertRows(rows: seq<Spec>) returns (got: seq<Option<int>>)
      modifies this`jobs, this`nextId
      ensures View() == InsertAll(old(View()), rows)
      ensures |got| == |rows| && forall m :: 0 <= m < |rows| ==> got[m] == IdOf(old(View()), rows, m)
    {
      ghost var q := View();
      got := [];
      for m := 0 to |rows|
        invariant View() == InsertAll(q, rows[..m]) && |got| == m
        invariant forall i :: 0 <= i < m ==> got[i] == IdOf(q, rows, i)
      {
        assert rows[..m + 1][..m] == rows[..m];
        var id := InsertRow(rows[m]);
        got := got + [id];
      }
      assert rows[..|rows|] == rows;
    }

    /**
     Fold the batch, insert what is left, and give every spec its id back. The table and
     the ids are those of inserting the batch one row at a time.
     */
    method InsertJobsBulk(specs: seq<Spec>) returns (ids: seq<Option<int>>)
      requires OneActive(View())
      modifies this`jobs, this`nextId
      ensures View() == InsertAll(old(View()), specs) && OneActive(View())
      ensures |ids| == |specs| && forall k :: 0 <= k < |specs| ==> ids[k] == IdOf(old(View()), specs, k)
    {
      ghost var q := View();
      var folded, positions := FoldBatch(specs);
      var got := InsertRows(folded);
      FoldInsertsSame(q, specs);
      assert View() == InsertAll(q, specs);
      InsertAllOneActive(q, specs);
      ids := PickIds(positions, got);
      forall k | 0 <= k < |specs| ensures ids[k] == IdOf(q, specs, k) {
        PlacedIds(q, specs, folded, positions, k);
      }
    }

    /** The ids that are there are rows inserted; the rest were deduplicated. */
    method CountInserted(got: seq<Option<int>>, ghost q: Queue, ghost specs: seq<Spec>)
        returns (enqueued: nat, deduped: nat)
      requires |got| == |specs| && forall k :: 0 <= k < |specs| ==> got[k] == IdOf(q, specs, k)
      ensures enqueued + deduped == |specs| && enqueued == InsertAll(q, specs).nextId - q.nextId
    {
      enqueued, deduped := 0, 0;
      for i := 0 to |got|
        invariant enqueued + deduped == i && enqueued == InsertAll(q, specs[..i]).nextId - q.nextId
      {
        assert specs[..i + 1][..i] == specs[..i];
        if got[i].Some? { enqueued := enqueued + 1; } else { deduped := deduped + 1; }
      }
      assert specs[..|specs|] == specs;
    }

    /** Re-enqueue failed jobs with their kind and payload; a retry of an active lineage is deduplicated. */
    method RetryJobs(ids: seq<int>) returns (enqueued: nat, deduped: nat)
      requires OneActive(View())
      modifies this`jobs, this`nextId
      ensures View() == InsertAll(old(View()), RetrySpecs(old(View()), ids)) && OneActive(View())
      ensures enqueued == nextId - old(nextId) && enqueued + deduped == |RetrySpecs(old(View()), ids)|
    {
      ghost var q := View();
      var specs: seq<Spec> := [];
      for i := 0 to |ids|
        invariant specs == RetrySpecs(View(), ids[..i])
      {
        assert ids[..i + 1][..i] == ids[..i];
        var id := ids[i];
        if id in jobs && jobs[id].status.Failed? {
          specs := specs + [Spec(jobs[id].kind, jobs[id].payload, jobs[id].priority, 3)];
        }
      }
      assert ids[..|ids|] == ids;
      var got := InsertJobsBulk(specs);
      enqueued, deduped := CountInserted(got, q, specs);
    }

    /**
     `mark_failed`: by id alone, whatever the row's status. Only the row named changes, its
     lineage keeps one active row at most, and a requeue is refused exactly when another row
     of the lineage is active.
     */
    method MarkJobFailed(id: int, attempts: nat, maxAttempts: nat, error: string) returns (raised: bool)
      modifies this`jobs
      ensures View() == Step(old(View()), MarkFailed(id, attempts, maxAttempts, error))
      ensures old(OneActive(View())) ==> OneActive(View())
      ensures jobs.Keys == old(jobs).Keys && forall i :: i in jobs && i != id ==> jobs[i] == old(jobs)[i]
      ensures raised <==> attempts < maxAttempts && id in old(jobs)
                          && exists i ::
                              i in old(jobs) && i != id && old(jobs)[i].Active()
                              && SameLineage(old(jobs)[i], old(jobs)[id])
      ensures raised ==> jobs == old(jobs)
      ensures !raised && id in jobs ==> SameLineage(jobs[id], old(jobs)[id]) && jobs[id].error == error
      ensures !raised && id in jobs ==> if attempts < maxAttempts then jobs[id].Active() else jobs[id].status.Failed?
    {
      raised := false;
      if id !in jobs { return; }
      if attempts >= maxAttempts {
        jobs := jobs[id := jobs[id].(status := Failed, finishedAt := clock, error := error)];
      } else if exists i :: i in jobs && i != id && jobs[i].Active() && SameLineage(jobs[i], jobs[id]) {
        raised := true;
      } else {
        jobs := jobs[id := jobs[id].(status := Pending, error := error)];
      }
    }
  }
}
