/**
 What the doctor prescribes for the sessions a dataset is missing, how findings become
 prescriptions, and which of them a heal executes.
 */
module Doctor {
  import opened Wrappers
  import opened Ordering
  import HoleDetector

  type Day = int

  datatype Fix =
    | EnqueueSlot(slot: int, session: Option<Day>, force: bool)
    | Enqueue(kind: int, date: Day)
    | RetryFailed(kind: int, ids: seq<int>)
    | Manual(what: int)                       // nothing the plugin can execute

  datatype Finding = Finding(id: int, fix: Option<Fix>, autoFixable: bool)

  datatype Refill = BySlot(slot: int) | ByKind(kind: int)

  const MAX_PRESCRIBED: nat := 3

  function RefillFix(r: Refill, day: Day): Fix {
    match r
    case ByKind(kind) => Enqueue(kind, day)
    case BySlot(slot) => EnqueueSlot(slot, Some(day), true)
  }

  // ------------------------------------------------------------- missing sessions

  /** The sessions of the window that hold rows. */
  function Present(sessions: set<Day>, held: set<Day>): set<Day> {
    sessions * held
  }

  /** Sessions inside the observed span that hold no row. */
  function Absent(sessions: set<Day>, held: set<Day>): set<Day> {
    var present := Present(sessions, held);
    if present == {} then {}
    else set d | d in sessions - held && Least(present) <= d <= Greatest(present)
  }

  /** The days `narrow_days` flags, of those a finding may prescribe. */
  function NarrowOf(series: seq<HoleDetector.DayCount>, start: Day, cutoff: Day): set<Day> {
    set h | h in HoleDetector.NarrowDaysOf(series) && start <= h.day < cutoff :: h.day
  }

  /** The narrow sessions of a breadth read, judged on the days of it that are on the calendar. */
  method NarrowSessions(read: seq<HoleDetector.DayCount>, calendar: set<Day>, start: Day, cutoff: Day)
    returns (narrow: set<Day>)
    ensures narrow == NarrowOf(HoleDetector.KeepDays(read, calendar), start, cutoff)
    ensures forall d ::
      d in narrow <==>
        start <= d < cutoff && exists h ::
          h in HoleDetector.NarrowDaysOf(HoleDetector.KeepDays(read, calendar)) && h.day == d
  {
    var series := OnCalendar(read, calendar);
    var holes := HoleDetector.NarrowDays(series, HoleDetector.NARROW);
    narrow := {};
    for i := 0 to |holes|
      invariant narrow == set h | h in holes[..i] && start <= h.day < cutoff :: h.day
    {
      assert holes[..i + 1] == holes[..i] + [holes[i]];
      if start <= holes[i].day < cutoff { narrow := narrow + {holes[i].day}; }
    }
    assert holes[..|holes|] == holes;
  }

  method OnCalendar(read: seq<HoleDetector.DayCount>, calendar: set<Day>)
    returns (series: seq<HoleDetector.DayCount>)
    ensures series == HoleDetector.KeepDays(read, calendar)
  {
    series := [];
    for i := 0 to |read|
      invariant series == HoleDetector.KeepDays(read[..i], calendar)
    {
      assert read[..i + 1][..i] == read[..i];
      if read[i].day in calendar { series := series + [read[i]]; }
    }
    assert read[..|read|] == read;
  }

  /** The days due a refill, oldest first; one cap covers absent and narrow days. */
  function Due(sessions: set<Day>, held: set<Day>, narrow: set<Day>): seq<Day> {
    if Present(sessions, held) == {} then [] else SortedSet(Absent(sessions, held) + narrow)
  }

  function Prescribed(sessions: set<Day>, held: set<Day>, narrow: set<Day>): seq<Day> {
    var due := Due(sessions, held, narrow);
    if |due| <= MAX_PRESCRIBED then due else due[..MAX_PRESCRIBED]
  }

  /** The continuity findings of one dataset whose presence read answered. */
  method ContinuityFindings(sessions: seq<Day>, held: set<Day>, narrow: set<Day>, refill: Refill)
      returns (out: seq<Finding>)
    requires StrictlyAscending(sessions)
    ensures var days := Prescribed(Members(sessions), held, narrow);
            if days == [] then forall f :: f in out ==> f.fix == None
            else
              && |out| == |days| <= 3
              && forall i :: 0 <= i < |days| ==>
                   out[i] == Finding(days[i], Some(RefillFix(refill, days[i])), true)
    // A refill names the session it is for, and one by slot is forced.
    ensures forall f :: f in out && f.fix.Some? ==>
              if refill.BySlot? then f.fix == Some(EnqueueSlot(refill.slot, Some(f.id), true))
              else f.fix == Some(Enqueue(refill.kind, f.id))
  {
    out := [];
    var present, gaps := SplitSessions(sessions, held);
    if present == [] { return; }
    var first, last := present[0], present[|present| - 1];
    SpanEnds(present, Present(Members(sessions), held));
    var absent := set d | d in gaps && first <= d <= last;
    assert absent == Absent(Members(sessions), held);
    var due := SortedSet(absent + narrow);
    if due == [] { return [Finding(first, None, false)]; }
    var prescribed := if |due| <= MAX_PRESCRIBED then due else due[..MAX_PRESCRIBED];
    out := DescribeDays(prescribed, refill);
  }

  method DescribeDays(days: seq<Day>, refill: Refill) returns (out: seq<Finding>)
    ensures |out| == |days|
            && forall i :: 0 <= i < |days| ==> out[i] == Finding(days[i], Some(RefillFix(refill, days[i])), true)
  {
    out := [];
    for i := 0 to |days|
      invariant |out| == i
      invariant forall k :: 0 <= k < i ==> out[k] == Finding(days[k], Some(RefillFix(refill, days[k])), true)
    {
      out := out + [Finding(days[i], Some(RefillFix(refill, days[i])), true)];
    }
  }

  method SplitSessions(sessions: seq<Day>, held: set<Day>) returns (present: seq<Day>, gaps: seq<Day>)
    requires StrictlyAscending(sessions)
    ensures Lists(present, Present(Members(sessions), held))
    ensures Members(gaps) == Members(sessions) - held
  {
    present, gaps := [], [];
    for i := 0 to |sessions|
      invariant StrictlyAscending(present) && (present != [] ==> i > 0 && present[|present| - 1] <= sessions[i - 1])
      invariant Members(present) == Members(sessions[..i]) * held && Members(gaps) == Members(sessions[..i]) - held
    {
      MembersAppend(sessions, i);
      if sessions[i] in held {
        assert Members(present + [sessions[i]]) == Members(present) + {sessions[i]};
        present := present + [sessions[i]];
      } else {
        assert Members(gaps + [sessions[i]]) == Members(gaps) + {sessions[i]};
        gaps := gaps + [sessions[i]];
      }
    }
    assert sessions[..|sessions|] == sessions;
  }

  lemma SpanEnds(listed: seq<Day>, all: set<Day>)
    requires Lists(listed, all) && listed != []
    ensures all != {} && Least(all) == listed[0] && Greatest(all) == listed[|listed| - 1]
  {
    assert listed[0] in Members(listed) && listed[|listed| - 1] in Members(listed);
    assert Least(all) in Members(listed) && Greatest(all) in Members(listed);
  }

  // ----------------------------------------------------------------- prescriptions

  datatype Prescription = Prescription(findingIds: seq<int>, fix: Fix)

  function IdsWith(findings: seq<Finding>, fix: Fix): seq<int> {
    if findings == [] then []
    else
      var f := findings[|findings| - 1];
      IdsWith(findings[..|findings| - 1], fix) + (if f.autoFixable && f.fix == Some(fix) then [f.id] else [])
  }

  lemma {:induction false} IdsWithMember(findings: seq<Finding>, fix: Fix, id: int)
    ensures id in IdsWith(findings, fix)
            <==> exists f :: f in findings && f.autoFixable && f.fix == Some(fix) && f.id == id
  {
    if findings != [] {
      var init, f := findings[..|findings| - 1], findings[|findings| - 1];
      IdsWithMember(init, fix, id);
      assert findings == init + [f];
    }
  }

  predicate DistinctFixes(ps: seq<Prescription>) {
    forall i, j :: 0 <= i < j < |ps| ==> ps[i].fix != ps[j].fix
  }

  predicate HasFix(ps: seq<Prescription>, fix: Fix) {
    exists i :: 0 <= i < |ps| && ps[i].fix == fix
  }

  predicate Wants(findings: seq<Finding>, fix: Fix) {
    exists i :: 0 <= i < |findings| && findings[i].autoFixable && findings[i].fix == Some(fix)
  }

  /** One prescription per distinct fix of a fixable finding, listing all the findings that share it. */
  ghost predicate Partitions(ps: seq<Prescription>, findings: seq<Finding>, seen: seq<Finding>) {
    && DistinctFixes(ps)
    && (forall i :: 0 <= i < |ps| ==> ps[i].findingIds == IdsWith(findings, ps[i].fix))
    && (forall x :: HasFix(ps, x) <==> Wants(seen, x))
  }

  method CollectIds(findings: seq<Finding>, fix: Fix) returns (ids: seq<int>)
    ensures ids == IdsWith(findings, fix)
  {
    ids := [];
    for i := 0 to |findings|
      invariant ids == IdsWith(findings[..i], fix)
    {
      assert findings[..i + 1][..i] == findings[..i];
      if findings[i].fix == Some(fix) && findings[i].autoFixable { ids := ids + [findings[i].id]; }
    }
    assert findings[..|findings|] == findings;
  }

  lemma WantsMore(seen: seq<Finding>, f: Finding, x: Fix)
    ensures Wants(seen + [f], x) <==> Wants(seen, x) || (f.autoFixable && f.fix == Some(x))
  {
    var more := seen + [f];
    if Wants(seen, x) {
      var i :| 0 <= i < |seen| && seen[i].autoFixable && seen[i].fix == Some(x);
      assert more[i] == seen[i];
    }
    assert more[|seen|] == f;
  }

  lemma HasFixMore(ps: seq<Prescription>, p: Prescription, x: Fix)
    ensures HasFix(ps + [p], x) <==> HasFix(ps, x) || p.fix == x
  {
    var more := ps + [p];
    if HasFix(ps, x) {
      var i :| 0 <= i < |ps| && ps[i].fix == x;
      assert more[i] == ps[i];
    }
    assert more[|ps|] == p;
  }

  method GroupPrescriptions(findings: seq<Finding>) returns (prescriptions: seq<Prescription>)
    ensures Partitions(prescriptions, findings, findings)
  {
    prescriptions := [];
    var seen: set<Fix> := {};
    for i := 0 to |findings|
      invariant forall x :: x in seen <==> HasFix(prescriptions, x)
      invariant Partitions(prescriptions, findings, findings[..i])
    {
      var f := findings[i];
      assert findings[..i + 1] == findings[..i] + [f];
      forall x { WantsMore(findings[..i], f, x); }
      if f.fix.None? || !f.autoFixable { continue; }
      var fix := f.fix.value;
      if fix in seen { continue; }
      var ids := CollectIds(findings, fix);
      forall x { HasFixMore(prescriptions, Prescription(ids, fix), x); }
      seen := seen + {fix};
      prescriptions := prescriptions + [Prescription(ids, fix)];
    }
    assert findings[..|findings|] == findings;
  }

  // -------------------------------------------------------------------------- heal

  predicate Chosen(p: Prescription, wanted: set<int>) {
    wanted == {} || exists id :: id in p.findingIds && id in wanted
  }

  /** A heal of these prescriptions runs this fix. */
  predicate Runs(ps: seq<Prescription>, wanted: set<int>, x: Fix) {
    !x.Manual? && exists i :: 0 <= i < |ps| && ps[i].fix == x && Chosen(ps[i], wanted)
  }

  lemma RunsMore(ps: seq<Prescription>, p: Prescription, wanted: set<int>, x: Fix)
    ensures Runs(ps + [p], wanted, x) <==> Runs(ps, wanted, x) || (!x.Manual? && p.fix == x && Chosen(p, wanted))
  {
    var more := ps + [p];
    if Runs(ps, wanted, x) {
      var i :| 0 <= i < |ps| && ps[i].fix == x && Chosen(ps[i], wanted);
      assert more[i] == ps[i];
    }
    assert more[|ps|] == p;
  }

  lemma RunsOnce(ps: seq<Prescription>, i: nat, wanted: set<int>)
    requires DistinctFixes(ps) && i < |ps|
    ensures !Runs(ps[..i], wanted, ps[i].fix)
  {
    forall j | 0 <= j < i ensures ps[..i][j].fix != ps[i].fix {
      assert ps[j].fix != ps[i].fix;
    }
  }

  /** The fixes a heal hands to the queue, in order; a failing one is reported and the rest go on. */
  method Heal(prescriptions: seq<Prescription>, wanted: set<int>, dryRun: bool) returns (executed: seq<Fix>)
    requires DistinctFixes(prescriptions)
    ensures dryRun ==> executed == []
    ensures forall i, j :: 0 <= i < j < |executed| ==> executed[i] != executed[j]
    ensures !dryRun ==> forall x :: x in executed <==> Runs(prescriptions, wanted, x)
    // With no finding asked for, every fix there is is run.
    ensures !dryRun && wanted == {} ==> forall p :: p in prescriptions && !p.fix.Manual? ==> p.fix in executed
  {
    executed := [];
    for i := 0 to |prescriptions|
      invariant dryRun ==> executed == []
      invariant forall k, j :: 0 <= k < j < |executed| ==> executed[k] != executed[j]
      invariant forall x :: x in executed ==> Runs(prescriptions[..i], wanted, x)
      invariant !dryRun ==> forall x :: Runs(prescriptions[..i], wanted, x) ==> x in executed
    {
      var p := prescriptions[i];
      forall x ensures Runs(prescriptions[..i + 1], wanted, x) <==>
                       Runs(prescriptions[..i], wanted, x) || (!x.Manual? && p.fix == x && Chosen(p, wanted))
      {
        assert prescriptions[..i + 1] == prescriptions[..i] + [p];
        RunsMore(prescriptions[..i], p, wanted, x);
      }
      RunsOnce(prescriptions, i, wanted);
      if !Chosen(p, wanted) { continue; }
      if dryRun || p.fix.Manual? { continue; }
      executed := executed + [p.fix];
    }
    assert prescriptions[..|prescriptions|] == prescriptions;
  }

  /** A chosen fixable finding is repaired: its one prescription names it, and the heal runs that fix. */
  lemma ChosenFindingIsHealed(findings: seq<Finding>, ps: seq<Prescription>, f: Finding, wanted: set<int>)
    requires Partitions(ps, findings, findings) && f in findings && f.autoFixable && f.fix.Some?
    requires f.id in wanted && !f.fix.value.Manual?
    ensures Runs(ps, wanted, f.fix.value)
  {
    var k :| 0 <= k < |findings| && findings[k] == f;
    assert Wants(findings, f.fix.value) && HasFix(ps, f.fix.value);
    var i :| 0 <= i < |ps| && ps[i].fix == f.fix.value;
    IdsWithMember(findings, ps[i].fix, f.id);
    assert f.id in ps[i].findingIds && Chosen(ps[i], wanted);
  }
}
