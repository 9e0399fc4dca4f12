/**
 The retry prescription for a kind's failed jobs and how heals drain them.

 The doctor prescribes the retry of all of a kind's offered rows or of none: none when the
 least of their error texts says the plan does not cover the data.
 */
module RetryDrain {
  import opened Ordering
  import opened Texts
  import opened JobQueue
  import opened LateMarks

  // ------------------------------------------------------------------ the prescription

  /** `"not entitled" in sample.lower() or "upgrade your plan" in sample.lower()`. */
  predicate Unentitled(sample: string) {
    Contains(Lower(sample), "not entitled") || Contains(Lower(sample), "upgrade your plan")
  }

  /** The row's error is `min(result->>'error')` of the rows. */
  predicate HasLeastError(q: Queue, ids: set<int>, i: int)
    requires i in q.jobs
  {
    forall k :: k in ids && k in q.jobs ==> !Less(q.jobs[k].error, q.jobs[i].error)
  }

  /** The sample error of the rows says the plan does not cover them. */
  predicate Refused(q: Queue, ids: set<int>) {
    exists i :: i in ids && i in q.jobs && Unentitled(q.jobs[i].error) && HasLeastError(q, ids, i)
  }

  /** Whichever row holds the least error decides. */
  lemma LeastErrorDecides(q: Queue, ids: set<int>, i: int)
    requires i in ids && i in q.jobs && HasLeastError(q, ids, i)
    ensures Refused(q, ids) <==> Unentitled(q.jobs[i].error)
  {
    if Refused(q, ids) {
      var k :| k in ids && k in q.jobs && Unentitled(q.jobs[k].error) && HasLeastError(q, ids, k);
      LessTotal(q.jobs[i].error, q.jobs[k].error);
    }
  }

  /** The job ids of the kind's fix; none when there is no fix. */
  function Prescribed(q: Queue, kind: int): seq<int> {
    if Refused(q, Offered(q, kind)) then [] else Offer(q, kind)
  }

  /** One heal of a kind's failures: retry what the doctor prescribes. */
  function Heal(q: Queue, kind: int): Queue {
    InsertAll(q, RetrySpecs(q, Prescribed(q, kind)))
  }

  /** The phrase stands in the text from position `i`, in whatever case of letters. */
  predicate SaysAt(text: string, phrase: string, i: nat) {
    i + |phrase| <= |text| && forall k :: 0 <= k < |phrase| ==>
      text[i + k] == phrase[k] || ('A' <= text[i + k] <= 'Z' && text[i + k] as int + 32 == phrase[k] as int)
  }

  /** The phrase holds small letters and blanks only. */
  predicate Small(phrase: string) {
    forall k :: 0 <= k < |phrase| ==> phrase[k] == ' ' || 'a' <= phrase[k] <= 'z'
  }

  lemma SaysIff(text: string, phrase: string)
    requires Small(phrase)
    ensures Contains(Lower(text), phrase) <==> exists i :: SaysAt(text, phrase, i)
  {
    forall i: nat | i + |phrase| <= |text| ensures SaysAt(text, phrase, i) <==> Begins(Lower(text)[i..], phrase) {
      BeginsIff(Lower(text)[i..], phrase);
      forall k | 0 <= k < |phrase| ensures Lower(text)[i..][k] == LowerChar(text[i + k]) {
      }
    }
    if Contains(Lower(text), phrase) {
      var i :| 0 <= i <= |text| - |phrase| && Begins(Lower(text)[i..], phrase);
      assert SaysAt(text, phrase, i);
    }
  }

  lemma BeginsIff(s: string, part: string)
    ensures Begins(s, part) <==> |part| <= |s| && forall k :: 0 <= k < |part| ==> s[k] == part[k]
  {
  }

  /**
   The text decides: a least error that speaks of the plan, wherever and in whatever case,
   leaves nothing prescribed; any other least error leaves the newest 50 offered rows.
   */
  lemma ErrorTextDecides(q: Queue, kind: int, f: int)
    requires f in Offered(q, kind) && forall k :: k in Offered(q, kind) ==> !Less(q.jobs[k].error, q.jobs[f].error)
    ensures var text, ids, all := q.jobs[f].error, Prescribed(q, kind), Offered(q, kind);
            if exists i :: SaysAt(text, "not entitled", i) || SaysAt(text, "upgrade your plan", i) then ids == []
            else
              && |ids| == (if |all| <= 50 then |all| else 50) && (forall i :: i in ids ==> i in all)
              && (forall i, x :: 0 <= i < |ids| && x in all && x !in ids ==> x < ids[i])
  {
    var text := q.jobs[f].error;
    LeastErrorDecides(q, Offered(q, kind), f);
    SaysIff(text, "not entitled");
    SaysIff(text, "upgrade your plan");
    assert (exists i :: SaysAt(text, "not entitled", i) || SaysAt(text, "upgrade your plan", i))
      <==> (exists i :: SaysAt(text, "not entitled", i)) || (exists i :: SaysAt(text, "upgrade your plan", i));
    PrescribedIsNewest(q, kind);
  }

  /** What is prescribed: nothing when refused, else the newest min(50, n) offered rows, each once. */
  lemma PrescribedIsNewest(q: Queue, kind: int)
    ensures var ids, all := Prescribed(q, kind), Offered(q, kind);
            && |ids| == (if Refused(q, all) then 0 else if |all| <= OFFER_CAP then |all| else OFFER_CAP)
            && (forall i :: i in ids ==> i in all)
            && (forall i, k :: 0 <= i < k < |ids| ==> ids[i] > ids[k])
            && (forall i, x :: 0 <= i < |ids| && x in all && x !in ids ==> x < ids[i])
  {
    OfferIsNewest(q, kind);
  }

  // -------------------------------------------------------------------------- one heal

  lemma OfferTakesItself(q: Queue, kind: int, i: int)
    requires i in Offered(q, kind)
    ensures InSpecs(RetrySpecs(q, Prescribed(q, kind)), q.jobs[i]) <==> i in Prescribed(q, kind)
  {
    PrescribedIsNewest(q, kind);
    RetrySpecsExact(q, Prescribed(q, kind), q.jobs[i]);
    forall k | k in Prescribed(q, kind) && SameLineage(q.jobs[k], q.jobs[i]) ensures k == i {
      OneOfferPerLineage(q, kind, i, k);
    }
  }

  lemma HealTakesPrescribed(q: Queue, kind: int)
    requires Orderly(q)
    ensures Orderly(Heal(q, kind))
    ensures forall i :: i in Offered(Heal(q, kind), kind) <==> i in Offered(q, kind) && i !in Prescribed(q, kind)
  {
    var specs := RetrySpecs(q, Prescribed(q, kind));
    InsertAllOrderly(q, specs);
    OfferedAfterInsert(q, specs, kind);
    forall i | i in Offered(q, kind) ensures InSpecs(specs, q.jobs[i]) <==> i in Prescribed(q, kind) {
      OfferTakesItself(q, kind, i);
    }
  }

  /** What n offered rows come down to in m full heals. */
  function Remaining(n: nat, m: nat): nat {
    if n <= OFFER_CAP * m then 0 else n - OFFER_CAP * m
  }

  /** A heal takes exactly the rows prescribed off the offer: none when refused, else 50 or all. */
  lemma HealClearsItsOffer(q: Queue, kind: int)
    requires Orderly(q)
    ensures Orderly(Heal(q, kind))
    ensures Offered(Heal(q, kind), kind) == Offered(q, kind) - Members(Prescribed(q, kind))
    ensures |Offered(Heal(q, kind), kind)|
            == Remaining(|Offered(q, kind)|, if Refused(q, Offered(q, kind)) then 0 else 1)
  {
    var taken := Members(Prescribed(q, kind));
    HealTakesPrescribed(q, kind);
    PrescribedIsNewest(q, kind);
    DistinctCard(Prescribed(q, kind));
    assert Offered(Heal(q, kind), kind) == Offered(q, kind) - taken;
    SubsetSize(taken, Offered(q, kind));
  }

  lemma RefusedHealChangesNothing(q: Queue, kind: int)
    requires Refused(q, Offered(q, kind))
    ensures Heal(q, kind) == q
  {
    assert RetrySpecs(q, []) == [];
  }

  lemma RetriedIsRetired(q: Queue, kind: int, f: int)
    requires Orderly(q) && f in Prescribed(q, kind)
    ensures Orderly(Heal(q, kind)) && Retired(Heal(q, kind), f)
  {
    PrescribedIsNewest(q, kind);
    var specs := RetrySpecs(q, Prescribed(q, kind));
    InsertAllOrderly(q, specs);
    InsertAllExtends(q, specs);
    OfferTakesItself(q, kind, f);
    NewerAfterInsert(q, specs, f);
  }

  /**
   Once a heal has retried a row no later doctor run offers it again, in every run whose marks
   do no harm and spare the row.
   */
  lemma NeverOfferedAgain(q: Queue, kind: int, f: int, trace: seq<Action>, anyKind: int)
    requires Orderly(q) && f in Prescribed(q, kind) && ValidRun(Heal(q, kind), trace)
    requires OwnedRun(Heal(q, kind), trace) || (HarmlessRun(Heal(q, kind), trace) && SparesRun(Heal(q, kind), trace, f))
    ensures Retired(Run(Heal(q, kind), trace), f)
    ensures f !in Offered(Run(Heal(q, kind), trace), anyKind)
  {
    RetriedIsRetired(q, kind, f);
    if OwnedRun(Heal(q, kind), trace) { OwnedRunsSpare(Heal(q, kind), trace, f); }
    RetiredForGood(Heal(q, kind), trace, f, anyKind);
  }

  // ------------------------------------------------------------------- heals alone

  function Healed(q: Queue, kind: int, m: nat): Queue {
    if m == 0 then q else Heal(Healed(q, kind, m - 1), kind)
  }

  /** The offered rows that are left once the newest 50 have gone j times. */
  function Left(q: Queue, kind: int, j: nat): set<int> {
    var ids := SortedSet(Offered(q, kind));
    Members(ids[..Remaining(|ids|, j)])
  }

  /** How many of m heals retry anything before one is refused. */
  function Served(q: Queue, kind: int, m: nat): (s: nat)
    ensures s <= m
  {
    if m == 0 then 0
    else if Served(q, kind, m - 1) == m - 1 && !Refused(q, Left(q, kind, m - 1)) then m
    else Served(q, kind, m - 1)
  }

  lemma {:induction false} ServedStops(q: Queue, kind: int, m: nat)
    ensures Served(q, kind, m) < m ==> Refused(q, Left(q, kind, Served(q, kind, m)))
    ensures forall j :: 0 <= j < Served(q, kind, m) ==> !Refused(q, Left(q, kind, j))
  {
    if m > 0 { ServedStops(q, kind, m - 1); }
  }

  /** Rows that stand keep their errors, so the refusal does not depend on when they are looked at. */
  lemma RefusedSame(q: Queue, p: Queue, ids: set<int>)
    requires forall i :: i in ids ==> i in q.jobs && i in p.jobs && p.jobs[i].error == q.jobs[i].error
    ensures Refused(p, ids) <==> Refused(q, ids)
  {
    forall i | i in ids ensures HasLeastError(p, ids, i) <==> HasLeastError(q, ids, i) {
    }
  }

  /** The first r of a listing, less its last 50, are its first r - 50. */
  lemma NewestOff(ids: seq<int>, r: nat, top: nat)
    requires StrictlyAscending(ids) && top <= r <= |ids|
    ensures Members(ids[..r]) - Members(NewestFirst(ids[..r], top)) == Members(ids[..r - top])
  {
    var a, t := ids[..r], NewestFirst(ids[..r], top);
    forall i | r - top <= i < r ensures a[i] in t {
      assert t[r - 1 - i] == a[i];
    }
    forall x ensures x in Members(a) && x !in Members(t) <==> x in Members(ids[..r - top]) {
      if x in Members(a) && x !in Members(t) {
        var i :| 0 <= i < r && a[i] == x;
        assert ids[..r - top][i] == x;
      }
      if x in Members(ids[..r - top]) {
        var i :| 0 <= i < r - top && ids[..r - top][i] == x;
        assert a[i] == x;
        assert forall k :: 0 <= k < top ==> t[k] == a[r - 1 - k];
      }
    }
  }

  /** One more heal from a stage that is not refused leads to the next. */
  lemma NextStage(q: Queue, p: Queue, kind: int, j: nat)
    requires Orderly(p) && Offered(p, kind) == Left(q, kind, j) && !Refused(p, Offered(p, kind))
    ensures Offered(Heal(p, kind), kind) == Left(q, kind, j + 1)
  {
    var ids := SortedSet(Offered(q, kind));
    var r := Remaining(|ids|, j);
    SortedSetAscends(Offered(q, kind));
    OfferOfListing(p, kind, ids[..r]);
    HealClearsItsOffer(p, kind);
    StageLess(ids, j);
  }

  lemma StageLess(ids: seq<int>, j: nat)
    requires StrictlyAscending(ids)
    ensures var left := ids[..Remaining(|ids|, j)];
            Members(left) - Members(NewestFirst(left, if |left| <= OFFER_CAP then |left| else OFFER_CAP))
            == Members(ids[..Remaining(|ids|, j + 1)])
  {
    var r := Remaining(|ids|, j);
    NewestOff(ids, r, if r <= OFFER_CAP then r else OFFER_CAP);
  }

  lemma OfferOfListing(p: Queue, kind: int, ids: seq<int>)
    requires Lists(ids, Offered(p, kind))
    ensures Offer(p, kind) == NewestFirst(ids, if |ids| <= OFFER_CAP then |ids| else OFFER_CAP)
  {
    SortedSetLists(Offered(p, kind));
    ListsUnique(SortedSet(Offered(p, kind)), ids, Offered(p, kind));
  }

  /** `p` offers what `q` offered less the newest 50j, and holds the rows of `q` as they were. */
  ghost predicate StageOf(q: Queue, kind: int, p: Queue, j: nat) {
    && Orderly(p) && Offered(p, kind) == Left(q, kind, j)
    && forall i :: i in q.jobs ==> i in p.jobs && p.jobs[i] == q.jobs[i]
  }

  lemma StageIsRefused(q: Queue, kind: int, p: Queue, j: nat)
    requires StageOf(q, kind, p, j)
    ensures Refused(p, Offered(p, kind)) <==> Refused(q, Left(q, kind, j))
  {
    LeftIsOffered(q, kind, j);
    RefusedSame(q, p, Left(q, kind, j));
  }

  lemma HealMovesStage(q: Queue, kind: int, p: Queue, j: nat)
    requires StageOf(q, kind, p, j) && !Refused(p, Offered(p, kind))
    ensures StageOf(q, kind, Heal(p, kind), j + 1)
  {
    NextStage(q, p, kind, j);
    HealClearsItsOffer(p, kind);
    InsertAllExtends(p, RetrySpecs(p, Prescribed(p, kind)));
  }

  /** After m heals alone the rows left are those of the stage at which they were refused, or of the m-th. */
  ghost predicate AtStage(q: Queue, kind: int, m: nat) {
    StageOf(q, kind, Healed(q, kind, m), Served(q, kind, m))
  }

  lemma StageMoves(q: Queue, kind: int, m: nat)
    requires AtStage(q, kind, m)
    ensures AtStage(q, kind, m + 1)
  {
    var p, j := Healed(q, kind, m), Served(q, kind, m);
    StageIsRefused(q, kind, p, j);
    if Refused(p, Offered(p, kind)) { StageStays(q, kind, m); } else { StageAdvances(q, kind, m); }
  }

  lemma StageStays(q: Queue, kind: int, m: nat)
    requires AtStage(q, kind, m) && Refused(Healed(q, kind, m), Offered(Healed(q, kind, m), kind))
    requires Refused(q, Left(q, kind, Served(q, kind, m)))
    ensures AtStage(q, kind, m + 1)
  {
    RefusedHealChangesNothing(Healed(q, kind, m), kind);
  }

  lemma StageAdvances(q: Queue, kind: int, m: nat)
    requires AtStage(q, kind, m) && !Refused(Healed(q, kind, m), Offered(Healed(q, kind, m), kind))
    requires !Refused(q, Left(q, kind, Served(q, kind, m)))
    ensures AtStage(q, kind, m + 1)
  {
    ServedStops(q, kind, m);
    HealMovesStage(q, kind, Healed(q, kind, m), Served(q, kind, m));
  }

  lemma LeftIsOffered(q: Queue, kind: int, j: nat)
    ensures Left(q, kind, j) <= Offered(q, kind) && |Left(q, kind, j)| == Remaining(|Offered(q, kind)|, j)
    ensures Left(q, kind, 0) == Offered(q, kind)
  {
    var ids := SortedSet(Offered(q, kind));
    SortedSetAscends(Offered(q, kind));
    DistinctCard(ids[..Remaining(|ids|, j)]);
    assert ids[..|ids|] == ids;
  }

  lemma HealedStage(q: Queue, kind: int, m: nat)
    requires Orderly(q)
    ensures AtStage(q, kind, m)
  {
    LeftIsOffered(q, kind, 0);
    for i := 0 to m
      invariant AtStage(q, kind, i)
    {
      StageMoves(q, kind, i);
    }
  }

  /** With heals alone n offered rows come down by 50 a heal until one heal is refused; from then on none goes. */
  lemma HealsDrain(q: Queue, kind: int, m: nat)
    requires Orderly(q)
    ensures |Offered(Healed(q, kind, m), kind)| == Remaining(|Offered(q, kind)|, Served(q, kind, m))
  {
    HealedStage(q, kind, m);
    LeftIsOffered(q, kind, Served(q, kind, m));
  }

  /**
   The drain, exactly: with nothing but heals, m of them leave max(0, n - 50m) of n failed
   lineages if and only if no stage before the m-th is refused. Which stages are can be told
   from the queue as it is: the j-th is its offer less the newest 50j rows.
   */
  lemma DrainsIff(q: Queue, kind: int, m: nat)
    requires Orderly(q)
    ensures |Offered(Healed(q, kind, m), kind)| == Remaining(|Offered(q, kind)|, m)
       <==> forall j :: 0 <= j < m ==> !Refused(q, Left(q, kind, j))
  {
    HealsDrain(q, kind, m);
    ServedStops(q, kind, m);
    var s := Served(q, kind, m);
    if s < m {
      LeftIsOffered(q, kind, s);
      assert Left(q, kind, s) != {};
      SubsetSize({}, Left(q, kind, s));
    }
  }

  /** A kind whose offer is refused is never drained by heals: they change nothing at all. */
  lemma RefusedNeverDrains(q: Queue, kind: int, m: nat)
    requires Refused(q, Offered(q, kind))
    ensures Healed(q, kind, m) == q
  {
    for i := 0 to m
      invariant Healed(q, kind, i) == q
    {
      RefusedHealChangesNothing(q, kind);
    }
  }

  // ------------------------------------------------- heals with the queue at work between

  /** Nothing new fails: every failed row after the step had failed before it. */
  ghost predicate Quiet(q: Queue, a: Action) {
    forall i :: i in Step(q, a).jobs && Step(q, a).jobs[i].status.Failed? ==> i in q.jobs && q.jobs[i].status.Failed?
  }

  lemma FailedRowStands(q: Queue, a: Action, f: int)
    requires Orderly(q) && Owned(q, a)
    requires f in q.jobs && q.jobs[f].status.Failed? && f in Step(q, a).jobs
    ensures Step(q, a).jobs[f] == q.jobs[f]
  {
    if a.Insert? { InsertAllExtends(q, a.specs); }
  }

  lemma QuietShrinksOffer(q: Queue, a: Action, kind: int)
    requires Orderly(q) && Enabled(q, a) && Owned(q, a) && Quiet(q, a)
    ensures Offered(Step(q, a), kind) <= Offered(q, kind)
  {
    forall f | f in Offered(Step(q, a), kind) && f !in Offered(q, kind) ensures false {
      FailedRowStands(q, a, f);
      assert Retired(q, f);
      RetiredStaysIff(q, a, f);
    }
  }

  /** A night: heals of the kind, with the queue at work between them. */
  datatype Event = HealNow | Does(action: Action)

  function After(q: Queue, kind: int, events: seq<Event>): Queue {
    if events == [] then q
    else
      var p := After(q, kind, events[..|events| - 1]);
      match events[|events| - 1]
      case HealNow => Heal(p, kind)
      case Does(a) => Step(p, a)
  }

  ghost predicate QuietEvents(q: Queue, kind: int, events: seq<Event>) {
    events == [] ||
    (QuietEvents(q, kind, events[..|events| - 1]) &&
     var p := After(q, kind, events[..|events| - 1]);
     match events[|events| - 1]
     case HealNow => true
     case Does(a) => Enabled(p, a) && Owned(p, a) && Quiet(p, a))
  }

  /** The heals that are not refused when their turn comes. */
  function Heals(q: Queue, kind: int, events: seq<Event>): nat {
    if events == [] then 0
    else
      var init := events[..|events| - 1];
      var p := After(q, kind, init);
      Heals(q, kind, init) + if events[|events| - 1].HealNow? && !Refused(p, Offered(p, kind)) then 1 else 0
  }

  /** If nothing fails anew, m heals that are not refused leave at most max(0, n - 50m) of n failed lineages. */
  lemma {:induction false} OfferDrains(q: Queue, kind: int, events: seq<Event>)
    requires Orderly(q) && QuietEvents(q, kind, events)
    ensures Orderly(After(q, kind, events))
    ensures |Offered(After(q, kind, events), kind)| <= Remaining(|Offered(q, kind)|, Heals(q, kind, events))
  {
    if events != [] {
      var init, e := events[..|events| - 1], events[|events| - 1];
      OfferDrains(q, kind, init);
      var p := After(q, kind, init);
      if e.HealNow? {
        HealClearsItsOffer(p, kind);
      } else {
        StepOrderly(p, e.action);
        QuietShrinksOffer(p, e.action, kind);
        SubsetSize(Offered(Step(p, e.action), kind), Offered(p, kind));
      }
    }
  }

  // ------------------------------------------------- a refusal holds back the others

  /** Heals, and time passing between them. */
  ghost predicate HealsAndWaits(q: Queue, kind: int, events: seq<Event>) {
    events == [] ||
    (HealsAndWaits(q, kind, events[..|events| - 1]) &&
     match events[|events| - 1]
     case HealNow => true
     case Does(a) => a.Tick? && Enabled(After(q, kind, events[..|events| - 1]), a))
  }

  /** Two failed rows of a kind, of different lineages: one the plan does not cover, and a transient one. */
  function TwoFailures(kind: int, refusedAt: int, transientAt: int, clock: int): Queue {
    Queue(map[0 := Job(kind, 0, 0, Failed, 3, 3, refusedAt, "Not entitled"),
              1 := Job(kind, 1, 0, Failed, 3, 3, transientAt, "timeout")], 2, clock)
  }

  lemma TwoFailuresOffered(kind: int, refusedAt: int, transientAt: int, clock: int)
    requires refusedAt <= clock && transientAt <= clock
    ensures var q := TwoFailures(kind, refusedAt, transientAt, clock);
            && Orderly(q) && (forall i :: i in Offered(q, kind) ==> i == 0 || i == 1)
            && (0 in Offered(q, kind) <==> refusedAt >= clock - OFFER_WINDOW)
            && (1 in Offered(q, kind) <==> transientAt >= clock - OFFER_WINDOW)
  {
    var q := TwoFailures(kind, refusedAt, transientAt, clock);
    assert !HasNewer(q, 0) && !HasNewer(q, 1);
  }

  lemma ErrorTexts()
    ensures Unentitled("Not entitled") && !Unentitled("timeout") && !Less("timeout", "Not entitled")
  {
    var s := Lower("Not entitled");
    assert s == "not entitled" && s[0..] == s;
    assert Begins(s[0..], "not entitled");
  }

  /** As long as the refused row is offered it holds back the other. */
  lemma RefusedWhileOffered(kind: int, refusedAt: int, transientAt: int, clock: int)
    requires refusedAt <= clock && transientAt <= clock
    ensures var q := TwoFailures(kind, refusedAt, transientAt, clock);
            Refused(q, Offered(q, kind)) <==> refusedAt >= clock - OFFER_WINDOW
  {
    var q := TwoFailures(kind, refusedAt, transientAt, clock);
    TwoFailuresOffered(kind, refusedAt, transientAt, clock);
    ErrorTexts();
    LessIrreflexive("Not entitled");
    if 0 in Offered(q, kind) { assert HasLeastError(q, Offered(q, kind), 0); }
  }

  lemma NothingToHeal(q: Queue, kind: int)
    requires Offered(q, kind) == {}
    ensures Heal(q, kind) == q
  {
  }

  /** The refused row being the younger, a heal never retries the transient one. */
  lemma YoungerRefusalStops(kind: int, refusedAt: int, transientAt: int, clock: int)
    requires transientAt <= refusedAt <= clock
    ensures var q := TwoFailures(kind, refusedAt, transientAt, clock); Heal(q, kind) == q
  {
    var q := TwoFailures(kind, refusedAt, transientAt, clock);
    TwoFailuresOffered(kind, refusedAt, transientAt, clock);
    RefusedWhileOffered(kind, refusedAt, transientAt, clock);
    if refusedAt >= clock - OFFER_WINDOW {
      RefusedHealChangesNothing(q, kind);
    } else {
      NothingToHeal(q, kind);
    }
  }

  lemma {:induction false} OnlyTimePasses(kind: int, refusedAt: int, transientAt: int, clock: int, events: seq<Event>)
    requires transientAt <= refusedAt <= clock
    requires HealsAndWaits(TwoFailures(kind, refusedAt, transientAt, clock), kind, events)
    ensures var p := After(TwoFailures(kind, refusedAt, transientAt, clock), kind, events);
            p.clock >= clock && p == TwoFailures(kind, refusedAt, transientAt, p.clock)
  {
    if events != [] {
      var init := events[..|events| - 1];
      OnlyTimePasses(kind, refusedAt, transientAt, clock, init);
      var p := After(TwoFailures(kind, refusedAt, transientAt, clock), kind, init);
      YoungerRefusalStops(kind, refusedAt, transientAt, p.clock);
    }
  }

  /** A heal that prescribes an offered row adds a row. */
  lemma HealChangesJobs(q: Queue, kind: int, f: int)
    requires Orderly(q) && f in Offered(q, kind) && f in Prescribed(q, kind)
    ensures Heal(q, kind).jobs != q.jobs
  {
    HealClearsItsOffer(q, kind);
    HealKeepsClock(q, kind);
    assert f !in Offered(Heal(q, kind), kind);
    if Heal(q, kind).jobs == q.jobs { SameOffer(q, Heal(q, kind), kind); }
  }

  lemma HealKeepsClock(q: Queue, kind: int)
    requires Orderly(q)
    ensures Heal(q, kind).clock == q.clock
  {
    InsertAllExtends(q, RetrySpecs(q, Prescribed(q, kind)));
  }

  lemma SameOffer(q: Queue, p: Queue, kind: int)
    requires q.jobs == p.jobs && q.clock == p.clock
    ensures Offered(q, kind) == Offered(p, kind)
  {
    assert forall i :: i in q.jobs ==> (HasNewer(q, i) <==> HasNewer(p, i));
  }

  /** Once the refused row has aged out, the transient one is retried. */
  lemma OlderRefusalAges(kind: int, refusedAt: int, transientAt: int, clock: int)
    requires refusedAt < transientAt <= clock && refusedAt < clock - OFFER_WINDOW <= transientAt
    ensures var q := TwoFailures(kind, refusedAt, transientAt, clock); Heal(q, kind).jobs != q.jobs
  {
    var q := TwoFailures(kind, refusedAt, transientAt, clock);
    TwoFailuresOffered(kind, refusedAt, transientAt, clock);
    RefusedWhileOffered(kind, refusedAt, transientAt, clock);
    PrescribedIsNewest(q, kind);
    assert Offered(q, kind) == {1};
    assert Prescribed(q, kind) != [];
    HealChangesJobs(q, kind, Prescribed(q, kind)[0]);
  }

  /**
   One failure the plan does not cover, whose text sorts first, keeps a transient one of
   the same kind from being retried, however often the doctor heals and however much time
   passes, exactly when it is not the older of the two.
   */
  lemma OneRefusalStopsAllIff(kind: int, refusedAt: int, transientAt: int, clock: int)
    requires refusedAt <= clock <= refusedAt + OFFER_WINDOW && transientAt <= clock <= transientAt + OFFER_WINDOW
    ensures var q := TwoFailures(kind, refusedAt, transientAt, clock);
            (forall events :: HealsAndWaits(q, kind, events) ==> After(q, kind, events).jobs == q.jobs)
            <==> transientAt <= refusedAt
  {
    var q := TwoFailures(kind, refusedAt, transientAt, clock);
    if transientAt <= refusedAt {
      forall events | HealsAndWaits(q, kind, events) ensures After(q, kind, events).jobs == q.jobs {
        OnlyTimePasses(kind, refusedAt, transientAt, clock, events);
      }
    } else {
      var later := refusedAt + OFFER_WINDOW + 1;
      OlderRefusalAges(kind, refusedAt, transientAt, later);
      WaitAndHeal(q, kind, later);
      assert q.(clock := later) == TwoFailures(kind, refusedAt, transientAt, later);
      assert HealsAndWaits(q, kind, [Does(Tick(later)), HealNow]);
    }
  }

  lemma AfterOne(q: Queue, kind: int, events: seq<Event>, e: Event)
    ensures After(q, kind, events + [e]) ==
            match e { case HealNow => Heal(After(q, kind, events), kind) case Does(a) => Step(After(q, kind, events),
                a) }
    ensures HealsAndWaits(q, kind, events + [e]) <==>
            HealsAndWaits(q, kind, events) && (e.Does? ==> e.action.Tick? && Enabled(After(q, kind, events), e.action))
  {
    assert (events + [e])[..|events|] == events;
  }

  lemma WaitAndHeal(q: Queue, kind: int, later: int)
    requires later >= q.clock
    ensures HealsAndWaits(q, kind, [Does(Tick(later)), HealNow])
    ensures After(q, kind, [Does(Tick(later)), HealNow]) == Heal(q.(clock := later), kind)
  {
    AfterOne(q, kind, [], Does(Tick(later)));
    assert [] + [Does(Tick(later))] == [Does(Tick(later))];
    AfterOne(q, kind, [Does(Tick(later))], HealNow);
    assert [Does(Tick(later))] + [HealNow] == [Does(Tick(later)), HealNow];
  }
}
