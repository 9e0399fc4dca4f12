/** What moved between two recorded verdict maps, and in which direction. */
module Verdicts {
  import opened Wrappers
  import opened Ordering

  /** A dataset name; names matter only by equality and by their string order. */
  type Name = int

  datatype Verdict = Ok | Partial | Thin | Boundary | Unknown

  datatype Axis = Breadth | Depth | Freshness | Continuity | OtherAxis(code: nat)

  const AXES: seq<Axis> := [Breadth, Depth, Freshness, Continuity]

  type Judged = map<Axis, Verdict>

  /** What a map may hold under a name: verdicts, a falsy value, or anything else. */
  datatype Entry = Axes(judged: Judged) | Falsy | NotAMapping

  type VerdictMap = map<Name, Entry>

  /** Severity order; boundary and unknown are deliberately unranked. */
  function Rank(v: Option<Verdict>): Option<int> {
    match v
    case Some(Ok) => Some(0)
    case Some(Partial) => Some(1)
    case Some(Thin) => Some(2)
    case _ => None
  }

  datatype Direction = Regressed | Recovered | Changed

  function DirectionOf(before: Option<Verdict>, after: Option<Verdict>): Direction {
    var a, b := Rank(before), Rank(after);
    if a.None? || b.None? then Changed
    else if b.value > a.value then Regressed
    else if b.value < a.value then Recovered
    else Changed
  }

  datatype Change = Change(dataset: Name, axis: Axis, was: Option<Verdict>, now: Option<Verdict>, direction: Direction)

  /** `m.get(name) or {}`; None when that is not a mapping, which `diff` skips. */
  function Held(m: VerdictMap, name: Name): Option<Judged> {
    if name !in m || m[name].Falsy? then Some(map[])
    else if m[name].Axes? then Some(m[name].judged)
    else None
  }

  function Get(j: Judged, x: Axis): Option<Verdict> {
    if x in j then Some(j[x]) else None
  }

  // --------------------------------------------------- the list `diff` builds

  function AxisChanges(name: Name, b: Judged, a: Judged, axes: seq<Axis>): seq<Change> {
    if axes == [] then []
    else
      var x := axes[|axes| - 1];
      AxisChanges(name, b, a, axes[..|axes| - 1])
      + (if Get(b, x) == Get(a, x) then []
         else [Change(name, x, Get(b, x), Get(a, x), DirectionOf(Get(b, x), Get(a, x)))])
  }

  function NameChanges(name: Name, before: VerdictMap, after: VerdictMap): seq<Change> {
    var b, a := Held(before, name), Held(after, name);
    if b.None? || a.None? then [] else AxisChanges(name, b.value, a.value, AXES)
  }

  function ChangesOver(names: seq<Name>, before: VerdictMap, after: VerdictMap): seq<Change>
  {
    if names == [] then []
    else
      ChangesOver(names[..|names| - 1], before, after) + NameChanges(names[|names| - 1], before, after)
  }

  function Names(before: VerdictMap, after: VerdictMap): seq<Name> {
    SortedSet(before.Keys + after.Keys)
  }

  function Diff(before: VerdictMap, after: VerdictMap): seq<Change> {
    ChangesOver(Names(before, after), before, after)
  }

  method ComputeName(name: Name, before: VerdictMap, after: VerdictMap, sofar: seq<Change>) returns (out: seq<Change>)
    ensures out == sofar + NameChanges(name, before, after)
  {
    out := sofar;
    if Held(before, name).None? || Held(after, name).None? { return; }
    var b, a := Held(before, name).value, Held(after, name).value;
    for j := 0 to |AXES|
      invariant out == sofar + AxisChanges(name, b, a, AXES[..j])
    {
      var x := AXES[j];
      assert AXES[..j + 1][..j] == AXES[..j];
      if Get(b, x) == Get(a, x) { continue; }
      out := out + [Change(name, x, Get(b, x), Get(a, x), DirectionOf(Get(b, x), Get(a, x)))];
    }
    assert AXES[..|AXES|] == AXES;
  }

  lemma ChangesOverMore(names: seq<Name>, i: nat, before: VerdictMap, after: VerdictMap)
    requires i < |names|
    ensures ChangesOver(names[..i + 1], before, after)
         == ChangesOver(names[..i], before, after) + NameChanges(names[i], before, after)
  {
    assert names[..i + 1][..i] == names[..i];
  }

  /** Every axis whose verdict differs, dataset by dataset in name order. */
  method ComputeDiff(before: VerdictMap, after: VerdictMap) returns (out: seq<Change>)
    ensures out == Diff(before, after)
  {
    out := [];
    var names := Names(before, after);
    for i := 0 to |names|
      invariant out == ChangesOver(names[..i], before, after)
    {
      ChangesOverMore(names, i, before, after);
      out := ComputeName(names[i], before, after, out);
    }
    assert names[..|names|] == names;
  }

  // ------------------------------------------------------------ what it means

  /** The change the two maps call for at one dataset and axis. */
  predicate Due(c: Change, before: VerdictMap, after: VerdictMap) {
    && (c.dataset in before || c.dataset in after)
    && Held(before, c.dataset).Some? && Held(after, c.dataset).Some?
    && c.axis in AXES
    && c.was == Get(Held(before, c.dataset).value, c.axis)
    && c.now == Get(Held(after, c.dataset).value, c.axis)
    && c.was != c.now
    && c.direction == DirectionOf(c.was, c.now)
  }

  lemma {:induction false} AxisChangesExact(name: Name, b: Judged, a: Judged, axes: seq<Axis>, c: Change)
    ensures c in AxisChanges(name, b, a, axes) <==>
            c.dataset == name && c.axis in axes && c.was == Get(b, c.axis) && c.now == Get(a, c.axis)
            && c.was != c.now && c.direction == DirectionOf(c.was, c.now)
  {
    if axes != [] {
      var init, x := axes[..|axes| - 1], axes[|axes| - 1];
      AxisChangesExact(name, b, a, init, c);
      assert axes == init + [x];
    }
  }

  lemma {:induction false} ChangesOverExact(names: seq<Name>, before: VerdictMap, after: VerdictMap, c: Change)
    ensures c in ChangesOver(names, before, after) <==> c.dataset in names && c in NameChanges(c.dataset, before, after)
  {
    if names != [] {
      var init, n := names[..|names| - 1], names[|names| - 1];
      ChangesOverExact(init, before, after, c);
      assert names == init + [n] && n in names;
      var b, a := Held(before, n), Held(after, n);
      if b.Some? && a.Some? { AxisChangesExact(n, b.value, a.value, AXES, c); }
    }
  }

  /** The list holds exactly the due changes. */
  lemma DiffExact(before: VerdictMap, after: VerdictMap, c: Change)
    ensures c in Diff(before, after) <==> Due(c, before, after)
  {
    ChangesOverExact(Names(before, after), before, after, c);
    var b, a := Held(before, c.dataset), Held(after, c.dataset);
    if b.Some? && a.Some? { AxisChangesExact(c.dataset, b.value, a.value, AXES, c); }
  }

  /** The verdict at one place after the listed changes are applied. */
  function Patched(changes: seq<Change>, name: Name, axis: Axis, was: Option<Verdict>): Option<Verdict> {
    if changes == [] then was
    else
      var c := changes[|changes| - 1];
      if c.dataset == name && c.axis == axis then c.now
      else Patched(changes[..|changes| - 1], name, axis, was)
  }

  lemma {:induction false} PatchedFinds(changes: seq<Change>, name: Name, axis: Axis, was: Option<Verdict>,
      now: Option<Verdict>)
    requires forall c :: c in changes && c.dataset == name && c.axis == axis ==> c.now == now
    ensures Patched(changes, name, axis, was) ==
            if exists c :: c in changes && c.dataset == name && c.axis == axis then now else was
  {
    if changes != [] {
      var init, c := changes[..|changes| - 1], changes[|changes| - 1];
      assert changes == init + [c];
      PatchedFinds(init, name, axis, was, now);
    }
  }

  /** Applying the diff to the old map gives the new one, on every axis the two can be compared on. */
  lemma DiffPatches(before: VerdictMap, after: VerdictMap, name: Name, axis: Axis)
    requires Held(before, name).Some? && Held(after, name).Some? && axis in AXES
    ensures Patched(Diff(before, after), name, axis, Get(Held(before, name).value, axis))
         == Get(Held(after, name).value, axis)
  {
    var was, now := Get(Held(before, name).value, axis), Get(Held(after, name).value, axis);
    forall c | c in Diff(before, after) && c.dataset == name && c.axis == axis ensures c.now == now {
      DiffExact(before, after, c);
    }
    PatchedFinds(Diff(before, after), name, axis, was, now);
    if was != now {
      var c := Change(name, axis, was, now, DirectionOf(was, now));
      DiffExact(before, after, c);
    }
  }

  function Mirror(c: Change): Change {
    Change(c.dataset, c.axis, c.now, c.was,
           match c.direction case Regressed => Recovered case Recovered => Regressed case Changed => Changed)
  }

  function MirrorAll(cs: seq<Change>): (r: seq<Change>)
    ensures |r| == |cs| && forall i :: 0 <= i < |cs| ==> r[i] == Mirror(cs[i])
  {
    seq(|cs|, i requires 0 <= i < |cs| => Mirror(cs[i]))
  }

  lemma MirrorConcat(a: seq<Change>, b: seq<Change>)
    ensures MirrorAll(a + b) == MirrorAll(a) + MirrorAll(b)
  {
  }

  lemma {:induction false} AxisChangesMirror(name: Name, b: Judged, a: Judged, axes: seq<Axis>)
    ensures AxisChanges(name, a, b, axes) == MirrorAll(AxisChanges(name, b, a, axes))
  {
    if axes != [] {
      var init, x := axes[..|axes| - 1], axes[|axes| - 1];
      AxisChangesMirror(name, b, a, init);
      MirrorConcat(AxisChanges(name, b, a, init),
                   if Get(b, x) == Get(a, x) then []
                       else [Change(name, x, Get(b, x), Get(a, x), DirectionOf(Get(b, x), Get(a, x)))]);
    }
  }

  lemma {:induction false} ChangesOverMirror(names: seq<Name>, before: VerdictMap, after: VerdictMap)
    ensures ChangesOver(names, after, before) == MirrorAll(ChangesOver(names, before, after))
  {
    if names != [] {
      var init, n := names[..|names| - 1], names[|names| - 1];
      ChangesOverMirror(init, before, after);
      var b, a := Held(before, n), Held(after, n);
      if b.Some? && a.Some? { AxisChangesMirror(n, b.value, a.value, AXES); }
      MirrorConcat(ChangesOver(init, before, after), NameChanges(n, before, after));
    }
  }

  /** Read backwards, the diff is the same list with from/to and regressed/recovered swapped. */
  lemma DiffMirrors(before: VerdictMap, after: VerdictMap)
    ensures Diff(after, before) == MirrorAll(Diff(before, after))
  {
    assert before.Keys + after.Keys == after.Keys + before.Keys;
    ChangesOverMirror(Names(before, after), before, after);
  }

  /** Each recorded dataset carries at least one of the four axes and nothing else. */
  predicate WellFormed(m: VerdictMap) {
    forall n :: n in m ==> m[n].Axes? && m[n].judged != map[] && forall x :: x in m[n].judged ==> x in AXES
  }

  /** Between well-formed maps the diff is empty exactly when nothing differs. */
  lemma DiffEmptyIffEqual(before: VerdictMap, after: VerdictMap)
    requires WellFormed(before) && WellFormed(after)
    ensures Diff(before, after) == [] <==> before == after
  {
    if Diff(before, after) == [] {
      forall n: Name ensures Held(before, n) == Held(after, n) {
        NoDiffHeldSame(before, after, n);
      }
      SameHeldSame(before, after);
    } else if before == after {
      DiffExact(before, after, Diff(before, after)[0]);
      assert false;
    }
  }

  lemma NoDiffHeldSame(before: VerdictMap, after: VerdictMap, n: Name)
    requires WellFormed(before) && WellFormed(after) && Diff(before, after) == []
    ensures Held(before, n) == Held(after, n)
  {
    forall x: Axis | x in AXES ensures Get(Held(before, n).value, x) == Get(Held(after, n).value, x) {
      DiffPatches(before, after, n, x);
    }
    SameJudged(Held(before, n).value, Held(after, n).value);
  }

  lemma SameHeldSame(before: VerdictMap, after: VerdictMap)
    requires WellFormed(before) && WellFormed(after)
    requires forall n: Name :: Held(before, n) == Held(after, n)
    ensures before == after
  {
    forall n ensures n in before <==> n in after {
      assert Held(before, n) == Held(after, n);
    }
    forall n | n in before ensures before[n] == after[n] {
      assert Held(before, n) == Held(after, n);
    }
  }

  lemma SameJudged(a: Judged, b: Judged)
    requires forall x :: x in a ==> x in AXES
    requires forall x :: x in b ==> x in AXES
    requires forall x :: x in AXES ==> Get(a, x) == Get(b, x)
    ensures a == b
  {
    forall x ensures x in a <==> x in b {
      if x in a || x in b { assert x in AXES; assert Get(a, x) == Get(b, x); }
    }
    forall x | x in a ensures a[x] == b[x] {
      assert Get(a, x) == Get(b, x);
    }
  }

  /** A direction is claimed only between two ranked verdicts, and says which of them is worse. */
  lemma DirectionsAreRanked(before: VerdictMap, after: VerdictMap, c: Change)
    requires c in Diff(before, after)
    ensures c.direction == Changed <==> Rank(c.was).None? || Rank(c.now).None?
    ensures c.direction == Regressed
            <==> Rank(c.was).Some? && Rank(c.now).Some? && Rank(c.was).value < Rank(c.now).value
    ensures c.direction == Regressed
            <==> || (c.was == Some(Ok) && (c.now == Some(Partial) || c.now == Some(Thin)))
                 || (c.was == Some(Partial) && c.now == Some(Thin))
    ensures c.direction == Recovered
            <==> || (c.now == Some(Ok) && (c.was == Some(Partial) || c.was == Some(Thin)))
                 || (c.now == Some(Partial) && c.was == Some(Thin))
  {
    DiffExact(before, after, c);
    RanksTell(c.was, c.now);
  }

  lemma RanksTell(was: Option<Verdict>, now: Option<Verdict>)
    requires was != now
    ensures DirectionOf(was, now) == Changed <==> Rank(was).None? || Rank(now).None?
    ensures DirectionOf(was, now) == Regressed
            <==> Rank(was).Some? && Rank(now).Some? && Rank(was).value < Rank(now).value
    ensures DirectionOf(was, now) == Regressed
            <==> || (was == Some(Ok) && (now == Some(Partial) || now == Some(Thin)))
                 || (was == Some(Partial) && now == Some(Thin))
    ensures DirectionOf(was, now) == Recovered
            <==> || (now == Some(Ok) && (was == Some(Partial) || was == Some(Thin)))
                 || (now == Some(Partial) && was == Some(Thin))
  {
  }
}
