/**
 Ticker renames: which symbol an option chain is filed under when its contracts are rooted at
 another symbol. Text is ASCII and already stripped of blanks.
 */
module SymbolRename {
  import opened Wrappers
  import opened OptionTicker
  import opened Texts

  /** A row of the ticker catalogue; a NULL cik or figi is the empty text. */
  datatype Listing = Listing(active: Option<bool>, cik: string, figi: string)

  /** The catalogue a lookup finds, None when it cannot be read. */
  type Catalogue = Option<map<string, Listing>>

  function ActiveOf(c: Catalogue, symbol: string): Option<bool> {
    if c.Some? && symbol in c.value then c.value[symbol].active else None
  }

  function CikOf(c: Catalogue, symbol: string): string {
    if c.Some? && symbol in c.value then c.value[symbol].cik else ""
  }

  function FigiOf(c: Catalogue, symbol: string): string {
    if c.Some? && symbol in c.value then c.value[symbol].figi else ""
  }

  /** `root` is the live symbol that `requested` was renamed to; an unreadable catalogue answers no. */
  predicate IsRename(c: Catalogue, requested: string, root: string) {
    var dead, alive := Upper(requested), Upper(root);
    if dead == "" || alive == "" || dead == alive || c.None? then false
    else if ActiveOf(c, alive) != Some(true) then false
    else if ActiveOf(c, dead) == Some(true) then false
    else if ActiveOf(c, dead) == None then true
    else && CikOf(c, dead) != "" && CikOf(c, dead) == CikOf(c, alive)
         && FigiOf(c, dead) != "" && FigiOf(c, dead) == FigiOf(c, alive)
  }

  /**
   A rename is to a listed live symbol, from one the catalogue does not list or knows no
   state of, or from one that is not live and shares both identifiers with it.
   */
  lemma RenameIff(m: map<string, Listing>, requested: string, root: string)
    ensures !IsRename(None, requested, root)
    ensures var dead, alive := Upper(requested), Upper(root);
            IsRename(Some(m), requested, root) <==>
              && dead != "" && alive != "" && dead != alive
              && alive in m && m[alive].active == Some(true)
              && (dead in m && m[dead].active.Some? ==>
                    && !m[dead].active.value
                    && m[dead].cik != "" && m[dead].cik == m[alive].cik
                    && m[dead].figi != "" && m[dead].figi == m[alive].figi)
  {
    var dead, alive := Upper(requested), Upper(root);
    assert ActiveOf(Some(m), dead) == if dead in m then m[dead].active else None;
    assert ActiveOf(Some(m), alive) == if alive in m then m[alive].active else None;
    if dead in m && m[dead].active.Some? {
      assert m[dead].active == Some(m[dead].active.value);
    }
  }

  // ------------------------------------------------------------------ sorting texts

  predicate Ordered(s: seq<string>) {
    forall i, j :: 0 <= i < j < |s| ==> !Less(s[j], s[i])
  }

  function Place(x: string, s: seq<string>): seq<string> {
    if s == [] then [x]
    else if !Less(s[0], x) then [x] + s
    else [s[0]] + Place(x, s[1..])
  }

  lemma {:induction false} PlaceHolds(x: string, s: seq<string>)
    ensures forall y :: y in Place(x, s) <==> y == x || y in s
  {
    if s != [] && Less(s[0], x) {
      PlaceHolds(x, s[1..]);
      assert s == [s[0]] + s[1..];
    }
  }

  lemma {:induction false} PlaceOrders(x: string, s: seq<string>)
    requires Ordered(s)
    ensures Ordered(Place(x, s))
  {
    if s != [] {
      if Less(s[0], x) {
        PlaceOrders(x, s[1..]);
        PlaceHolds(x, s[1..]);
        LessAsymmetric(s[0], x);
        forall y | y in Place(x, s[1..]) ensures !Less(y, s[0]) {
          if y != x { var j :| 0 <= j < |s[1..]| && s[1..][j] == y; assert s[j + 1] == y; }
        }
      } else {
        forall j | 0 <= j < |s| ensures !Less(s[j], x) {
          if Less(s[j], x) { NotBefore(s[0], s[j], x); }
        }
      }
    }
  }

  lemma NotBefore(a: string, b: string, x: string)
    requires !Less(a, x) && Less(b, x)
    ensures Less(b, a)
  {
    LessTotal(a, b);
    LessTotal(a, x);
    if Less(a, b) { LessTransitive(a, b, x); }
  }

  /** `sorted(roots)`. */
  function SortTexts(s: seq<string>): (r: seq<string>)
    ensures Ordered(r) && forall y :: y in r <==> y in s
  {
    if s == [] then []
    else
      var rest := SortTexts(s[1..]);
      assert s == [s[0]] + s[1..];
      PlaceHolds(s[0], rest);
      PlaceOrders(s[0], rest);
      Place(s[0], rest)
  }

  // ---------------------------------------------------------------------- resolving

  /** The first distinct roots other than the base, `bound` of them at most. */
  function Roots(tickers: seq<string>, base: string, bound: nat): seq<string> {
    if tickers == [] then []
    else
      var before := Roots(tickers[..|tickers| - 1], base, bound);
      var root := OptionRoot(tickers[|tickers| - 1]);
      if |before| < bound && root.Some? && root.value != base
          && root.value !in before then before + [root.value] else before
  }

  /** `max_roots`; the loop looks at it only after it has taken a root, so one is always taken. */
  function Bound(maxRoots: int): nat {
    if maxRoots < 1 then 1 else maxRoots
  }

  function FirstRename(c: Catalogue, base: string, roots: seq<string>): string {
    if roots == [] then base else if IsRename(c, base, roots[0]) then roots[0] else FirstRename(c, base, roots[1..])
  }

  function Resolved(c: Catalogue, storage: string, tickers: seq<string>, maxRoots: int): string {
    var base := Upper(storage);
    if base == "" then base else FirstRename(c, base, SortTexts(Roots(tickers, base, Bound(maxRoots))))
  }

  method CollectRoots(tickers: seq<string>, base: string, maxRoots: int) returns (roots: seq<string>)
    ensures roots == Roots(tickers, base, Bound(maxRoots))
  {
    roots := [];
    var i := 0;
    while i < |tickers|
      invariant 0 <= i <= |tickers| && roots == Roots(tickers[..i], base, Bound(maxRoots)) && |roots| < Bound(maxRoots)
    {
      assert tickers[..i + 1][..i] == tickers[..i];
      var root := OptionRoot(tickers[i]);
      i := i + 1;
      if root.Some? && root.value != base && root.value !in roots {
        roots := roots + [root.value];
        if |roots| >= maxRoots { break; }
      }
    }
    FullRootsStand(tickers, i, base, Bound(maxRoots));
    assert tickers[..|tickers|] == tickers;
  }

  /** Once the bound is reached the rest of the chain is not looked at. */
  lemma {:induction false} FullRootsStand(tickers: seq<string>, i: nat, base: string, bound: nat)
    requires i <= |tickers|
    ensures |Roots(tickers[..i], base, bound)| >= bound
            ==> Roots(tickers, base, bound) == Roots(tickers[..i], base, bound)
  {
    if i == |tickers| {
      assert tickers[..i] == tickers;
    } else {
      assert tickers[..|tickers| - 1][..i] == tickers[..i];
      FullRootsStand(tickers[..|tickers| - 1], i, base, bound);
    }
  }

  method ResolveStorage(c: Catalogue, storage: string, tickers: seq<string>, maxRoots: int) returns (filed: string)
    ensures filed == Resolved(c, storage, tickers, maxRoots)
  {
    var base := Upper(storage);
    if base == "" { return base; }
    var roots := CollectRoots(tickers, base, maxRoots);
    var sorted := SortTexts(roots);
    var i := 0;
    while i < |sorted|
      invariant 0 <= i <= |sorted| && FirstRename(c, base, sorted) == FirstRename(c, base, sorted[i..])
    {
      if IsRename(c, base, sorted[i]) { return sorted[i]; }
      assert sorted[i..][1..] == sorted[i + 1..];
      i := i + 1;
    }
    filed := base;
  }

  // --------------------------------------------------------------------- properties

  lemma {:induction false} RootsAre(tickers: seq<string>, base: string, bound: nat)
    ensures |Roots(tickers, base, bound)| <= bound
    ensures forall q :: q in Roots(tickers, base, bound) ==>
      q != base && exists t :: t in tickers && OptionRoot(t) == Some(q)
    ensures |Roots(tickers, base, bound)| < bound ==>
              forall t :: t in tickers && OptionRoot(t).Some? && OptionRoot(t).value != base
                  ==> OptionRoot(t).value in Roots(tickers, base, bound)
  {
    if tickers != [] {
      var n := |tickers| - 1;
      RootsAre(tickers[..n], base, bound);
      assert tickers == tickers[..n] + [tickers[n]];
      assert tickers[n] in tickers;
    }
  }

  lemma {:induction false} FirstRenameIs(c: Catalogue, base: string, roots: seq<string>)
    requires Ordered(roots)
    ensures var r := FirstRename(c, base, roots);
            || (r == base && forall q :: q in roots ==> !IsRename(c, base, q))
            || (r in roots && IsRename(c, base, r) && forall q :: q in roots && IsRename(c, base, q) ==> !Less(q, r))
  {
    if roots != [] {
      assert roots == [roots[0]] + roots[1..];
      FirstRenameIs(c, base, roots[1..]);
      LessIrreflexive(roots[0]);
    }
  }

  /** The label moves only to a live symbol some contract is rooted at, from one that is not live. */
  lemma LabelIsLive(c: Catalogue, storage: string, tickers: seq<string>, maxRoots: int)
    ensures var filed := Resolved(c, storage, tickers, maxRoots);
            || filed == Upper(storage)
            || (ActiveOf(c, filed) == Some(true) && ActiveOf(c, Upper(storage)) != Some(true)
                && Upper(filed) == filed && exists t :: t in tickers && OptionRoot(t) == Some(filed))
  {
    var base := Upper(storage);
    var roots := Roots(tickers, base, Bound(maxRoots));
    FirstRenameIs(c, base, SortTexts(roots));
    RootsAre(tickers, base, Bound(maxRoots));
    forall t | t in tickers && OptionRoot(t).Some? ensures Upper(OptionRoot(t).value) == OptionRoot(t).value {
      UpperTwice(t);
    }
    UpperAgain(storage);
  }

  lemma UpperAgain(s: string)
    ensures Upper(Upper(s)) == Upper(s)
  {
  }

  lemma UpperTwice(t: string)
    requires OptionRoot(t).Some?
    ensures Upper(OptionRoot(t).value) == OptionRoot(t).value
  {
    var u, r := Upper(t), OptionRoot(t).value;
    assert forall i :: 0 <= i < |r| ==> r[i] == u[PREFIX + i] && UpperChar(r[i]) == r[i];
    assert Upper(r) == r;
  }

  /** The distinct roots of a chain other than the base, in the order they first appear. */
  function ForeignRoots(tickers: seq<string>, base: string): seq<string> {
    if tickers == [] then []
    else
      var before := ForeignRoots(tickers[..|tickers| - 1], base);
      var root := OptionRoot(tickers[|tickers| - 1]);
      if root.Some? && root.value != base && root.value !in before then before + [root.value] else before
  }

  lemma {:induction false} ForeignRootsAre(tickers: seq<string>, base: string, q: string)
    ensures q in ForeignRoots(tickers, base) <==> q != base && exists t :: t in tickers && OptionRoot(t) == Some(q)
  {
    if tickers != [] {
      var n := |tickers| - 1;
      ForeignRootsAre(tickers[..n], base, q);
      assert tickers == tickers[..n] + [tickers[n]];
    }
  }

  /** The roots taken are the first of them, as many as the bound allows. */
  lemma {:induction false} RootsAreFirst(tickers: seq<string>, base: string, bound: nat)
    ensures var all := ForeignRoots(tickers, base);
            Roots(tickers, base, bound) == all[..if |all| <= bound then |all| else bound]
  {
    if tickers != [] {
      RootsAreFirst(tickers[..|tickers| - 1], base, bound);
    }
  }

  /** Some contract of the chain is rooted at a rename of the symbol. */
  ghost predicate HoldsRename(c: Catalogue, base: string, tickers: seq<string>) {
    exists t :: t in tickers && OptionRoot(t).Some? && IsRename(c, base, OptionRoot(t).value)
  }

  lemma HoldsRenameIff(c: Catalogue, base: string, tickers: seq<string>)
    requires Upper(base) == base
    ensures HoldsRename(c, base, tickers) <==> exists q :: q in ForeignRoots(tickers, base) && IsRename(c, base, q)
  {
    assert !IsRename(c, base, base);
    if HoldsRename(c, base, tickers) {
      var t :| t in tickers && OptionRoot(t).Some? && IsRename(c, base, OptionRoot(t).value);
      ForeignRootsAre(tickers, base, OptionRoot(t).value);
    }
    forall q | q in ForeignRoots(tickers, base) && IsRename(c, base, q) ensures HoldsRename(c, base, tickers) {
      ForeignRootsAre(tickers, base, q);
      var t :| t in tickers && OptionRoot(t) == Some(q);
    }
  }

  /** A rename is among the first foreign roots, as many as the bound allows. */
  ghost predicate RenameInReach(c: Catalogue, base: string, tickers: seq<string>, bound: nat) {
    RenameAmong(c, base, ForeignRoots(tickers, base), bound)
  }

  ghost predicate RenameAmong(c: Catalogue, base: string, all: seq<string>, bound: nat) {
    exists i :: 0 <= i < |all| && i < bound && IsRename(c, base, all[i])
  }

  /**
   For every chain the label moves exactly when a rename is in reach of the bound, and then to
   the first in order of the renames in reach.
   */
  lemma LabelMovesIff(c: Catalogue, storage: string, tickers: seq<string>, maxRoots: int)
    requires Upper(storage) != ""
    ensures var base, filed, all :=
            Upper(storage), Resolved(c, storage, tickers, maxRoots), ForeignRoots(tickers, Upper(storage));
            && (filed != base <==> RenameInReach(c, base, tickers, if maxRoots < 1 then 1 else maxRoots))
            && forall i ::
                 0 <= i < |all| && (i == 0 || i < maxRoots) && IsRename(c, base, all[i])
                 ==> !Less(all[i], filed)
  {
    var base, all := Upper(storage), ForeignRoots(tickers, Upper(storage));
    var roots := Roots(tickers, base, Bound(maxRoots));
    RootsAreFirst(tickers, base, Bound(maxRoots));
    FirstRenameIs(c, base, SortTexts(roots));
    forall i | 0 <= i < |all| && i < Bound(maxRoots) ensures all[i] in SortTexts(roots) {
      assert roots[i] == all[i];
    }
    assert !IsRename(c, base, base);
    assert forall q :: q in SortTexts(roots) <==> exists i :: 0 <= i < |roots| && roots[i] == q;
  }

  ghost predicate FirstIsLate(c: Catalogue, base: string, all: seq<string>, bound: nat) {
    exists i :: bound <= i < |all| && FirstRenameAt(c, base, all, i)
  }

  predicate FirstRenameAt(c: Catalogue, base: string, all: seq<string>, i: nat)
    requires i < |all|
  {
    IsRename(c, base, all[i]) && forall k :: 0 <= k < i ==> !IsRename(c, base, all[k])
  }

  lemma FirstExists(c: Catalogue, base: string, all: seq<string>)
    requires RenameAmong(c, base, all, |all|)
    ensures exists i :: 0 <= i < |all| && FirstRenameAt(c, base, all, i)
  {
    var i := 0;
    while !IsRename(c, base, all[i])
      invariant i < |all| && forall k :: 0 <= k < i ==> !IsRename(c, base, all[k])
      decreases |all| - i
    {
      i := i + 1;
    }
    assert FirstRenameAt(c, base, all, i);
  }

  lemma LateIff(c: Catalogue, base: string, all: seq<string>, bound: nat)
    ensures RenameAmong(c, base, all, |all|) && !RenameAmong(c, base, all, bound) <==> FirstIsLate(c, base, all, bound)
  {
    if RenameAmong(c, base, all, |all|) && !RenameAmong(c, base, all, bound) {
      FirstExists(c, base, all);
      var i :| 0 <= i < |all| && FirstRenameAt(c, base, all, i);
      assert i >= bound;
    }
  }

  lemma HoldsIsAmong(c: Catalogue, base: string, tickers: seq<string>)
    requires Upper(base) == base
    ensures var all := ForeignRoots(tickers, base);
            HoldsRename(c, base, tickers) <==> RenameAmong(c, base, all, |all|)
  {
    HoldsRenameIff(c, base, tickers);
  }

  /**
   A rename that the chain holds is missed exactly when its first one stands behind as many
   foreign roots as the bound allows, or more.
   */
  lemma RenameIsMissedIff(c: Catalogue, storage: string, tickers: seq<string>, maxRoots: int)
    requires Upper(storage) != ""
    ensures var base := Upper(storage);
            HoldsRename(c, base, tickers) && Resolved(c, storage, tickers, maxRoots) == base
            <==> FirstIsLate(c, base, ForeignRoots(tickers, base), Bound(maxRoots))
  {
    UpperAgain(storage);
    LabelMovesIff(c, storage, tickers, maxRoots);
    HoldsIsAmong(c, Upper(storage), tickers);
    LateIff(c, Upper(storage), ForeignRoots(tickers, Upper(storage)), Bound(maxRoots));
  }

  /** A chain with fewer foreign roots than the bound moves whenever it holds a rename. */
  lemma ShortChainsAreResolved(c: Catalogue, storage: string, tickers: seq<string>, maxRoots: int)
    requires Upper(storage) != "" && |ForeignRoots(tickers, Upper(storage))| <= Bound(maxRoots)
    ensures Resolved(c, storage, tickers, maxRoots) != Upper(storage) <==> HoldsRename(c, Upper(storage), tickers)
  {
    UpperAgain(storage);
    LabelMovesIff(c, storage, tickers, maxRoots);
    HoldsRenameIff(c, Upper(storage), tickers);
  }

  /** At the bound nothing after it counts. */
  lemma BoundHidesTheRest(c: Catalogue, storage: string, tickers: seq<string>, more: seq<string>, maxRoots: int)
    requires |Roots(tickers, Upper(storage), Bound(maxRoots))| == Bound(maxRoots)
    ensures Resolved(c, storage, tickers + more, maxRoots) == Resolved(c, storage, tickers, maxRoots)
  {
    assert (tickers + more)[..|tickers|] == tickers;
    FullRootsStand(tickers + more, |tickers|, Upper(storage), Bound(maxRoots));
  }

  /** A contract of a one-letter root. */
  function ContractOf(root: char): string {
    "O:" + [root] + "250620C00150000"
  }

  lemma RootOfContract(root: char)
    requires 'A' <= root <= 'Z'
    ensures OptionRoot(ContractOf(root)) == Some([root])
  {
    var raw := Upper(ContractOf(root));
    assert raw[..PREFIX] == "O:" && raw[PREFIX..|raw| - TAIL] == [root];
  }

  function FiveRoots(): seq<string> {
    [ContractOf('B'), ContractOf('C'), ContractOf('D'), ContractOf('E'), ContractOf('N')]
  }

  lemma FiveRootsAre()
    ensures ForeignRoots(FiveRoots(), "A") == ["B", "C", "D", "E", "N"]
  {
    var all := FiveRoots();
    RootOfContract('B'); RootOfContract('C'); RootOfContract('D'); RootOfContract('E'); RootOfContract('N');
    assert ForeignRoots(all[..0], "A") == [];
    assert all[..1][..0] == all[..0] && ForeignRoots(all[..1], "A") == ["B"];
    assert all[..2][..1] == all[..1] && ForeignRoots(all[..2], "A") == ["B", "C"];
    assert all[..3][..2] == all[..2] && ForeignRoots(all[..3], "A") == ["B", "C", "D"];
    assert all[..4][..3] == all[..3] && ForeignRoots(all[..4], "A") == ["B", "C", "D", "E"];
    assert all[..5] == all && all[..5][..4] == all[..4];
  }

  /** A catalogue that lists N alone, as live. */
  function OnlyN(): Catalogue {
    Some(map["N" := Listing(Some(true), "", "")])
  }

  lemma OnlyNRenames(root: char)
    requires 'A' <= root <= 'Z'
    ensures Upper("A") == "A" && (IsRename(OnlyN(), "A", [root]) <==> root == 'N')
  {
    assert Upper("A") == "A" && Upper([root]) == [root];
    assert [root] == "N" <==> root == 'N' by { assert "N"[0] == 'N'; }
  }

  /** With the default of four roots, a successor that comes fifth is not found. */
  lemma FifthRootIsMissed()
    ensures HoldsRename(OnlyN(), "A", FiveRoots()) && Resolved(OnlyN(), "A", FiveRoots(), 4) == "A"
  {
    FiveRootsAre();
    OnlyNRenames('B'); OnlyNRenames('C'); OnlyNRenames('D'); OnlyNRenames('E'); OnlyNRenames('N');
    HoldsRenameIff(OnlyN(), "A", FiveRoots());
    assert ForeignRoots(FiveRoots(), "A")[4] == "N";
    NotInReach();
    LabelMovesIff(OnlyN(), "A", FiveRoots(), 4);
  }

  lemma NotInReach()
    ensures !RenameInReach(OnlyN(), "A", FiveRoots(), 4)
  {
    FiveRootsAre();
    OnlyNRenames('B'); OnlyNRenames('C'); OnlyNRenames('D'); OnlyNRenames('E');
    forall i | 0 <= i < 4 ensures !IsRename(OnlyN(), "A", ForeignRoots(FiveRoots(), "A")[i]) {
      assert i == 0 || i == 1 || i == 2 || i == 3;
    }
  }

  /** Filing twice changes nothing: the resolved label resolves to itself. */
  lemma ResolvingTwice(c: Catalogue, storage: string, tickers: seq<string>, maxRoots: int)
    ensures var filed := Resolved(c, storage, tickers, maxRoots);
            Resolved(c, filed, tickers, maxRoots) == filed
  {
    var base, filed := Upper(storage), Resolved(c, storage, tickers, maxRoots);
    LabelIsLive(c, storage, tickers, maxRoots);
    UpperAgain(storage);
    if filed != base {
      FirstRenameIs(c, filed, SortTexts(Roots(tickers, filed, Bound(maxRoots))));
    }
  }
}
