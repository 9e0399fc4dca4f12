/**
 Financial statements: one company's rows per symbol, rebuilt from the vendor's answer.

 Vendor dates are day numbers and a missing text is None, which sorts before every date as
 the empty string does.
 */
module FinancialStatements {
  import opened Wrappers
  import opened Ordering

  datatype PeriodType = Annual | Quarterly | Ttm
  datatype Period = Period(date: int, kind: PeriodType)

  /** One vendor record; `figures` stands for everything else it carries. */
  datatype Record = Record(cik: Option<int>, periodEnd: Option<int>, timeframe: Option<PeriodType>,
      filing: Option<int>, figures: int)

  /** One row to write, and one row of a table. */
  datatype Row = Row(period: Period, data: Record, filing: Option<int>)
  datatype Key = Key(report: int, symbol: int, period: Period)
  datatype Stored = Stored(data: Record, filing: Option<int>, fetchedAt: int)
  type Table = map<Key, Stored>

  // ----------------------------------------------------------- the current company

  predicate Before(a: Option<int>, b: Option<int>) {
    b.Some? && (a.None? || a.value < b.value)
  }

  /** The order of `(period_end, filing_date, cik)`. */
  predicate Outranks(a: Record, b: Record)
    requires a.cik.Some? && b.cik.Some?
  {
    || Before(b.periodEnd, a.periodEnd)
    || (a.periodEnd == b.periodEnd && Before(b.filing, a.filing))
    || (a.periodEnd == b.periodEnd && a.filing == b.filing && Before(b.cik, a.cik))
  }

  /** The company that holds the ticker now: the one with the latest period. */
  method CurrentCik(records: seq<Record>) returns (cik: Option<int>)
    ensures IsCurrent(records, cik)
    ensures cik.None? <==> forall r :: r in records ==> r.cik.None?
    ensures cik.Some? ==>
      exists b :: b in records && b.cik == cik && forall r :: r in records && r.cik.Some? ==> NoLater(r, b)
  {
    var best: Option<Record> := None;
    for i := 0 to |records|
      invariant best.None? <==> forall r :: r in records[..i] ==> r.cik.None?
      invariant best.Some? ==> best.value in records[..i] && best.value.cik.Some?
      invariant best.Some? ==> forall r :: r in records[..i] && r.cik.Some? ==> !Outranks(r, best.value)
    {
      var r := records[i];
      assert records[..i + 1] == records[..i] + [r];
      if r.cik.Some? && (best.None? || Outranks(r, best.value)) {
        best := Some(r);
      }
    }
    assert records[..|records|] == records;
    cik := if best.None? then None else best.value.cik;
    if best.Some? { NoneIsLater(records, best.value); }
  }

  /** By period, for one period by filing, and for one filing by cik. */
  predicate NoLater(r: Record, b: Record)
    requires r.cik.Some? && b.cik.Some?
  {
    && (r.periodEnd.Some? ==> b.periodEnd.Some? && r.periodEnd.value <= b.periodEnd.value)
    && (r.periodEnd == b.periodEnd && r.filing.Some? ==> b.filing.Some? && r.filing.value <= b.filing.value)
    && (r.periodEnd == b.periodEnd && r.filing == b.filing ==> r.cik.value <= b.cik.value)
  }

  /** A record none outranks has the latest period, of those the latest filing, of those the greatest cik. */
  lemma NoneIsLater(records: seq<Record>, b: Record)
    requires b in records && b.cik.Some? && forall r :: r in records && r.cik.Some? ==> !Outranks(r, b)
    ensures forall r :: r in records && r.cik.Some? ==> NoLater(r, b)
  {
  }

  // -------------------------------------------------------------- one row a period

  predicate OtherCompany(r: Record, cik: Option<int>) {
    cik.Some? && r.cik.Some? && r.cik != cik
  }

  predicate Usable(r: Record, cik: Option<int>) {
    !OtherCompany(r, cik) && r.periodEnd.Some? && r.timeframe.Some?
  }

  function PeriodOf(r: Record): Period
    requires r.periodEnd.Some? && r.timeframe.Some?
  {
    Period(r.periodEnd.value, r.timeframe.value)
  }

  predicate Reports(r: Record, cik: Option<int>, p: Period) {
    Usable(r, cik) && PeriodOf(r) == p
  }

  function KeepOne(kept: map<Period, Record>, r: Record, cik: Option<int>): map<Period, Record> {
    if !Usable(r, cik) then kept
    else if PeriodOf(r) !in kept || Before(kept[PeriodOf(r)].filing, r.filing) then kept[PeriodOf(r) := r]
    else kept
  }

  function Keep(records: seq<Record>, cik: Option<int>): map<Period, Record> {
    if records == [] then map[]
    else KeepOne(Keep(records[..|records| - 1], cik), records[|records| - 1], cik)
  }

  function Others(records: seq<Record>, cik: Option<int>): nat {
    if records == [] then 0
    else Others(records[..|records| - 1], cik) + if OtherCompany(records[|records| - 1], cik) then 1 else 0
  }

  /** The records that name another company than the current one. */
  lemma {:induction false} OthersAre(records: seq<Record>, cik: Option<int>)
    ensures Others(records, cik) == if cik.None? then 0
              else |set i | 0 <= i < |records| && records[i].cik.Some? && records[i].cik.value != cik.value|
  {
    if records != [] {
      var n := |records| - 1;
      OthersAre(records[..n], cik);
      if cik.Some? {
        var before := set i | 0 <= i < n && records[..n][i].cik.Some? && records[..n][i].cik.value != cik.value;
        var all := set i | 0 <= i <= n && records[i].cik.Some? && records[i].cik.value != cik.value;
        assert all == before + if OtherCompany(records[n], cik) then {n} else {};
        assert all == set i | 0 <= i < |records| && records[i].cik.Some? && records[i].cik.value != cik.value;
      }
    }
  }

  /** The period's latest filing; of several filed the same day, the first listed. */
  ghost predicate LatestAt(records: seq<Record>, cik: Option<int>, p: Period, i: int) {
    && 0 <= i < |records| && Reports(records[i], cik, p)
    && forall j :: 0 <= j < |records| && Reports(records[j], cik, p) ==>
         !Before(records[i].filing, records[j].filing) && (j < i ==> Before(records[j].filing, records[i].filing))
  }

  /** One more record leaves the latest one what it is, unless it reports the period and was filed later. */
  lemma LatestAfterOne(records: seq<Record>, cik: Option<int>, p: Period, i: nat)
    requires records != [] && LatestAt(records[..|records| - 1], cik, p, i)
    ensures var n := |records| - 1;
            if Reports(records[n], cik, p) && Before(records[i].filing, records[n].filing)
            then LatestAt(records, cik, p, n) else LatestAt(records, cik, p, i)
  {
    var n := |records| - 1;
    assert forall j :: 0 <= j < n ==> records[..n][j] == records[j];
  }

  lemma FirstIsLatest(records: seq<Record>, cik: Option<int>, p: Period)
    requires records != [] && Reports(records[|records| - 1], cik, p)
    requires forall j :: 0 <= j < |records| - 1 ==> !Reports(records[j], cik, p)
    ensures LatestAt(records, cik, p, |records| - 1)
  {
  }

  lemma {:induction false} KeepIsLatest(records: seq<Record>, cik: Option<int>, p: Period)
    ensures p in Keep(records, cik) <==> exists j :: 0 <= j < |records| && Reports(records[j], cik, p)
    ensures p in Keep(records, cik) ==> exists i :: LatestAt(records, cik, p, i) && Keep(records, cik)[p] == records[i]
  {
    if records != [] {
      var n := |records| - 1;
      var before := records[..n];
      KeepIsLatest(before, cik, p);
      assert forall j :: 0 <= j < n ==> before[j] == records[j];
      if p in Keep(before, cik) {
        var i :| LatestAt(before, cik, p, i) && Keep(before, cik)[p] == before[i];
        LatestAfterOne(records, cik, p, i);
      } else if Reports(records[n], cik, p) {
        FirstIsLatest(records, cik, p);
      }
    }
  }

  /** The record may stand for the period: it reports it, and names no other company than the current one. */
  predicate IsFor(r: Record, cik: Option<int>, p: Period) {
    && r.periodEnd == Some(p.date) && r.timeframe == Some(p.kind)
    && (cik.None? || r.cik.None? || r.cik.value == cik.value)
  }

  /** What is kept of a period is the first listed of its latest filings. */
  lemma KeptWasFiledLast(records: seq<Record>, cik: Option<int>, p: Period)
    ensures p in Keep(records, cik) <==> exists r :: r in records && IsFor(r, cik, p)
    ensures p in Keep(records, cik) ==>
              var kept := Keep(records, cik)[p];
              && kept in records && IsFor(kept, cik, p)
              && (forall r :: r in records && IsFor(r, cik, p) && r.filing.Some? ==>
                    kept.filing.Some? && r.filing.value <= kept.filing.value)
              && exists i :: 0 <= i < |records| && records[i] == kept &&
                   forall j :: 0 <= j < i && IsFor(records[j], cik, p) ==> records[j].filing != kept.filing
  {
    KeepIsLatest(records, cik, p);
    assert forall r :: Reports(r, cik, p) <==> IsFor(r, cik, p);
    if p in Keep(records, cik) {
      var i :| LatestAt(records, cik, p, i) && Keep(records, cik)[p] == records[i];
      forall r | r in records && IsFor(r, cik, p) && r.filing.Some?
        ensures records[i].filing.Some? && r.filing.value <= records[i].filing.value
      {
        var j :| 0 <= j < |records| && records[j] == r;
        assert Reports(records[j], cik, p);
      }
      forall j | 0 <= j < i && IsFor(records[j], cik, p) ensures records[j].filing != records[i].filing {
        assert Reports(records[j], cik, p);
      }
    }
  }

  /** A record kept under the current company is that company's or names none. */
  lemma KeptIsOurs(records: seq<Record>, cik: Option<int>, p: Period)
    requires p in Keep(records, cik) && cik.Some?
    ensures Keep(records, cik)[p].cik.None? || Keep(records, cik)[p].cik == cik
  {
    KeepIsLatest(records, cik, p);
  }

  /** Rows are written in the order of (period_date, period_type). */
  function Code(p: Period): int {
    3 * p.date + match p.kind case Annual => 0 case Quarterly => 1 case Ttm => 2
  }

  function PeriodAt(code: int): Period {
    Period(code / 3, if code % 3 == 0 then Annual else if code % 3 == 1 then Quarterly else Ttm)
  }

  function Codes(kept: map<Period, Record>): set<int> {
    set p | p in kept :: Code(p)
  }

  function RowOf(kept: map<Period, Record>, code: int): Row
    requires PeriodAt(code) in kept
  {
    Row(PeriodAt(code), kept[PeriodAt(code)], kept[PeriodAt(code)].filing)
  }

  /** `rows` lists the kept records, each period once. */
  ghost predicate ListsRows(rows: seq<Row>, kept: map<Period, Record>) {
    && (forall r :: r in rows ==> r.period in kept && r.data == kept[r.period] && r.filing == r.data.filing)
    && (forall p :: p in kept ==> exists r :: r in rows && r.period == p)
    && (forall i, j :: 0 <= i < j < |rows| ==> rows[i].period != rows[j].period)
  }

  method StatementRows(records: seq<Record>, cik: Option<int>) returns (rows: seq<Row>, other: nat)
    ensures ListsRows(rows, Keep(records, cik))
    ensures forall i, j :: 0 <= i < j < |rows| ==> Code(rows[i].period) < Code(rows[j].period)
    ensures other == Others(records, cik)
    ensures other == if cik.None? then 0
                     else |set i | 0 <= i < |records| && records[i].cik.Some? && records[i].cik.value != cik.value|
  {
    OthersAre(records, cik);
    var kept: map<Period, Record> := map[];
    other := 0;
    for i := 0 to |records|
      invariant kept == Keep(records[..i], cik) && other == Others(records[..i], cik)
    {
      assert records[..i + 1][..i] == records[..i];
      var r := records[i];
      if OtherCompany(r, cik) {
        other := other + 1;
      } else if r.periodEnd.Some? && r.timeframe.Some? {
        if PeriodOf(r) !in kept || Before(kept[PeriodOf(r)].filing, r.filing) {
          kept := kept[PeriodOf(r) := r];
        }
      }
    }
    assert records[..|records|] == records;
    rows := SortedRows(kept);
  }

  lemma CodeDecodes(p: Period)
    ensures PeriodAt(Code(p)) == p
  {
  }

  lemma CodesDecode(kept: map<Period, Record>, code: int)
    requires code in Codes(kept)
    ensures PeriodAt(code) in kept && Code(PeriodAt(code)) == code
  {
    var p :| p in kept && Code(p) == code;
    CodeDecodes(p);
  }

  ghost predicate RowsAt(rows: seq<Row>, kept: map<Period, Record>, codes: seq<int>) {
    |rows| == |codes| && forall j :: 0 <= j < |rows| ==> PeriodAt(codes[j]) in kept && rows[j] == RowOf(kept, codes[j])
  }

  method RowsOf(kept: map<Period, Record>, codes: seq<int>) returns (rows: seq<Row>)
    requires forall c :: c in codes ==> PeriodAt(c) in kept
    ensures RowsAt(rows, kept, codes)
  {
    rows := [];
    for i := 0 to |codes|
      invariant RowsAt(rows, kept, codes[..i])
    {
      rows := rows + [RowOf(kept, codes[i])];
    }
    assert codes[..|codes|] == codes;
  }

  lemma RowsAtLists(rows: seq<Row>, kept: map<Period, Record>, codes: seq<int>)
    requires RowsAt(rows, kept, codes) && Lists(codes, Codes(kept))
    ensures ListsRows(rows, kept)
    ensures forall i, j :: 0 <= i < j < |rows| ==> Code(rows[i].period) < Code(rows[j].period)
  {
    forall i | 0 <= i < |rows| ensures Code(rows[i].period) == codes[i] {
      assert codes[i] in Members(codes);
      CodesDecode(kept, codes[i]);
    }
    forall p | p in kept ensures exists r :: r in rows && r.period == p {
      assert Code(p) in Members(codes);
      CodeDecodes(p);
      var j :| 0 <= j < |codes| && codes[j] == Code(p);
      assert rows[j] in rows;
    }
  }

  method SortedRows(kept: map<Period, Record>) returns (rows: seq<Row>)
    ensures ListsRows(rows, kept)
    ensures forall i, j :: 0 <= i < j < |rows| ==> Code(rows[i].period) < Code(rows[j].period)
  {
    var codes := SortedSet(Codes(kept));
    SortedSetLists(Codes(kept));
    forall c | c in codes ensures PeriodAt(c) in kept {
      CodesDecode(kept, c);
    }
    rows := RowsOf(kept, codes);
    RowsAtLists(rows, kept, codes);
  }

  // ------------------------------------------------------------ replace and upsert

  function Covered(rows: seq<Row>): set<PeriodType> {
    set r | r in rows :: r.period.kind
  }

  function Periods(rows: seq<Row>): set<Period> {
    set r | r in rows :: r.period
  }

  /** The DELETE: this series' rows, of a period type the answer covers, for a period it does not list. */
  predicate Dropped(k: Key, report: int, symbol: int, rows: seq<Row>) {
    k.report == report && k.symbol == symbol && k.period.kind in Covered(rows) && k.period !in Periods(rows)
  }

  function Swept(table: Table, report: int, symbol: int, rows: seq<Row>): Table {
    map k | k in table && !Dropped(k, report, symbol, rows) :: table[k]
  }

  function Coalesce(a: Option<int>, b: Option<int>): Option<int> {
    if a.Some? then a else b
  }

  function FilingAt(table: Table, k: Key): Option<int> {
    if k in table then table[k].filing else None
  }

  function Upsert(table: Table, report: int, symbol: int, row: Row, now: int): Table {
    var k := Key(report, symbol, row.period);
    table[k := Stored(row.data, Coalesce(row.filing, FilingAt(table, k)), now)]
  }

  function UpsertAll(table: Table, report: int, symbol: int, rows: seq<Row>, now: int): Table {
    if rows == [] then table
    else Upsert(UpsertAll(table, report, symbol, rows[..|rows| - 1], now), report, symbol, rows[|rows| - 1], now)
  }

  function Replaced(table: Table, report: int, symbol: int, rows: seq<Row>, now: int): Table {
    if rows == [] then table else UpsertAll(Swept(table, report, symbol, rows), report, symbol, rows, now)
  }

  // ------------------------------------------------------- what one answer does to a key

  /**
   What is at `k` after an answer whose kept records are `kept`: a listed period holds the
   kept record, a period of a covered type that is not listed is gone if the answer
   replaces, and everything else is as it was.
   */
  ghost predicate RebuiltAt(t: Table, t': Table, k: Key, report: int, symbol: int, kept: map<Period, Record>,
      drops: bool, now: int)
  {
    if k.report == report && k.symbol == symbol && k.period in kept then
      k in t' && t'[k] == Stored(kept[k.period], Coalesce(kept[k.period].filing, FilingAt(t, k)), now)
    else if drops && k.report == report && k.symbol == symbol && exists p :: p in kept && p.kind == k.period.kind then
      k !in t'
    else
      SameAt(t, t', k)
  }

  ghost predicate SameAt(t: Table, t': Table, k: Key) {
    (k in t' <==> k in t) && (k in t ==> t'[k] == t[k])
  }

  predicate Own(k: Key, report: int, symbol: int) {
    k.report == report && k.symbol == symbol
  }

  predicate Touches(rows: seq<Row>, report: int, symbol: int, k: Key) {
    Own(k, report, symbol) && exists i :: 0 <= i < |rows| && rows[i].period == k.period
  }

  lemma {:induction false} UpsertAllElsewhere(t: Table, report: int, symbol: int, rows: seq<Row>, now: int, k: Key)
    requires !Touches(rows, report, symbol, k)
    ensures SameAt(t, UpsertAll(t, report, symbol, rows, now), k)
  {
    if rows != [] {
      var n := |rows| - 1;
      assert forall i :: 0 <= i < n ==> rows[..n][i] == rows[i];
      UpsertAllElsewhere(t, report, symbol, rows[..n], now, k);
      assert Key(report, symbol, rows[n].period) != k;
    }
  }

  lemma {:induction false} UpsertAllAt(t: Table, report: int, symbol: int, rows: seq<Row>, now: int, i: nat)
    requires forall a, b :: 0 <= a < b < |rows| ==> rows[a].period != rows[b].period
    requires i < |rows|
    ensures var t', k := UpsertAll(t, report, symbol, rows, now), Key(report, symbol, rows[i].period);
            k in t' && t'[k] == Stored(rows[i].data, Coalesce(rows[i].filing, FilingAt(t, k)), now)
  {
    var n, k := |rows| - 1, Key(report, symbol, rows[i].period);
    assert forall a :: 0 <= a < n ==> rows[..n][a] == rows[a];
    if i == n {
      UpsertAllElsewhere(t, report, symbol, rows[..n], now, k);
    } else {
      UpsertAllAt(t, report, symbol, rows[..n], now, i);
      assert k != Key(report, symbol, rows[n].period);
    }
  }

  lemma UpsertRebuilds(t: Table, report: int, symbol: int, rows: seq<Row>, kept: map<Period, Record>, now: int, k: Key)
    requires ListsRows(rows, kept)
    ensures RebuiltAt(t, UpsertAll(t, report, symbol, rows, now), k, report, symbol, kept, false, now)
  {
    if Own(k, report, symbol) && k.period in kept {
      var r :| r in rows && r.period == k.period;
      var i :| 0 <= i < |rows| && rows[i] == r;
      UpsertAllAt(t, report, symbol, rows, now, i);
    } else {
      UpsertAllElsewhere(t, report, symbol, rows, now, k);
    }
  }

  lemma ReplaceRebuilds(t: Table, report: int, symbol: int, rows: seq<Row>, kept: map<Period, Record>, now: int, k: Key)
    requires ListsRows(rows, kept)
    ensures RebuiltAt(t, Replaced(t, report, symbol, rows, now), k, report, symbol, kept, true, now)
  {
    if rows != [] {
      var swept := Swept(t, report, symbol, rows);
      UpsertRebuilds(swept, report, symbol, rows, kept, now, k);
      ListedPeriods(rows, kept);
    }
  }

  lemma ListedPeriods(rows: seq<Row>, kept: map<Period, Record>)
    requires ListsRows(rows, kept)
    ensures Periods(rows) == kept.Keys
    ensures forall kind :: kind in Covered(rows) <==> exists p :: p in kept && p.kind == kind
  {
    forall p | p in kept ensures p in Periods(rows) && p.kind in Covered(rows) {
      var r :| r in rows && r.period == p;
    }
  }

  lemma EmptyListsNothing(rows: seq<Row>, kept: map<Period, Record>)
    requires ListsRows(rows, kept)
    ensures rows == [] <==> kept == map[]
  {
    ListedPeriods(rows, kept);
    assert rows != [] ==> rows[0] in rows;
    assert kept.Keys == {} ==> kept == map[];
  }

  // -------------------------------------------------------------------- the tables

  class StatementTables {
    var table: Table

    /** `executemany(_upsert_sql)`, rolled back when a statement raises. */
    method UpsertRows(report: int, symbol: int, rows: seq<Row>, now: int, fails: bool) returns (raised: bool)
      modifies this
      ensures raised == (fails && rows != [])
      ensures table == if raised then old(table) else UpsertAll(old(table), report, symbol, rows, now)
    {
      var before := table;
      for i := 0 to |rows|
        invariant table == UpsertAll(before, report, symbol, rows[..i], now)
      {
        assert rows[..i + 1][..i] == rows[..i];
        table := Upsert(table, report, symbol, rows[i], now);
      }
      assert rows[..|rows|] == rows;
      raised := fails && rows != [];
      if raised { table := before; }
    }

    /** Make one statement's rows for the symbol exactly `rows`, in one transaction. */
    method ReplaceSymbolStatement(report: int, symbol: int, rows: seq<Row>, now: int, fails: bool)
      returns (upserted: nat, deleted: nat, raised: bool)
      modifies this
      ensures raised == (fails && rows != [])
      ensures table == if raised then old(table) else Replaced(old(table), report, symbol, rows, now)
      ensures !raised && rows != []
              ==> upserted == |rows| && deleted == |old(table)| - |Swept(old(table), report, symbol, rows)|
      ensures rows == [] ==> upserted == 0 && deleted == 0
    {
      upserted, deleted, raised := 0, 0, false;
      if rows == [] { return; }
      var before := table;
      var swept := Swept(table, report, symbol, rows);
      SubsetSize(swept.Keys, table.Keys);
      SizeOfKeys(swept);
      SizeOfKeys(table);
      deleted := |table| - |swept|;
      table := swept;
      raised := UpsertRows(report, symbol, rows, now, fails);
      if raised { table := before; }
      upserted := |rows|;
    }

    /** One statement of the job: the whole history replaces, a part of it only upserts. */
    method WriteStatement(symbol: int, a: Answer, cik: Option<int>, whole: bool, now: int, fails: bool)
        returns (raised: bool)
      modifies this
      ensures raised == (fails && Keep(a.records, cik) != map[])
      ensures raised ==> table == old(table)
      ensures !raised ==> StatementRebuilt(old(table), table, a, symbol, cik, whole, now)
      ensures !raised ==> forall k: Key :: k.report != a.report ==> SameAt(old(table), table, k)
    {
      var rows, _ := StatementRows(a.records, cik);
      ghost var before, kept := table, Keep(a.records, cik);
      assert rows == [] <==> kept == map[] by { EmptyListsNothing(rows, kept); }
      if whole && !a.truncated {
        var _, _, r := ReplaceSymbolStatement(a.report, symbol, rows, now, fails);
        raised := r;
      } else {
        raised := UpsertRows(a.report, symbol, rows, now, fails);
      }
      if !raised {
        forall k: Key ensures RebuiltAt(before, table, k, a.report, symbol, kept, whole && !a.truncated, now)
                           && (k.report != a.report ==> SameAt(before, table, k))
        {
          UpsertRebuilds(before, a.report, symbol, rows, kept, now, k);
          ReplaceRebuilds(before, a.report, symbol, rows, kept, now, k);
        }
      }
    }

    /**
     The job: the statements one after another, each in its own transaction, all under the
     company the answers together name. The statement that raises stops the job; those before
     it stand.
     */
    method HandleFinancials(symbol: int, answers: seq<Answer>, whole: bool, now: int, fails: seq<bool>)
      returns (cik: Option<int>, done: nat)
      requires |fails| == |answers|
      requires forall i, j :: 0 <= i < j < |answers| ==> answers[i].report != answers[j].report
      modifies this
      ensures IsCurrent(EveryRecord(answers), cik)
      // One company for all the statements: the one with the latest period in any of the answers.
      ensures cik.None? <==> forall a, r :: a in answers && r in a.records ==> r.cik.None?
      ensures cik.Some? ==>
        exists a, b :: a in answers && b in a.records && b.cik == cik &&
          forall a', r :: a' in answers && r in a'.records && r.cik.Some? ==> NoLater(r, b)
      ensures done <= |answers| && (done < |answers| ==> fails[done] && Keep(answers[done].records, cik) != map[])
      ensures forall i :: 0 <= i < done ==> StatementRebuilt(old(table), table, answers[i], symbol, cik, whole, now)
      ensures RestSame(old(table), table, answers, done)
    {
      var every := EveryRecord(answers);
      cik := CurrentCik(every);
      CurrentOfAll(answers, cik);
      ghost var before := table;
      done := 0;
      while done < |answers|
        invariant done <= |answers|
        invariant forall i :: 0 <= i < done ==> StatementRebuilt(before, table, answers[i], symbol, cik, whole, now)
        invariant RestSame(before, table, answers, done)
      {
        ghost var mid := table;
        var raised := WriteStatement(symbol, answers[done], cik, whole, now, fails[done]);
        if raised { return; }
        StatementsCompose(before, mid, table, answers, done, symbol, cik, whole, now);
        done := done + 1;
      }
    }
  }

  datatype Answer = Answer(report: int, records: seq<Record>, truncated: bool)

  function EveryRecord(answers: seq<Answer>): seq<Record> {
    if answers == [] then [] else EveryRecord(answers[..|answers| - 1]) + answers[|answers| - 1].records
  }

  lemma {:induction false} EveryRecordIs(answers: seq<Answer>, r: Record)
    ensures r in EveryRecord(answers) <==> exists a :: a in answers && r in a.records
  {
    if answers != [] {
      var n := |answers| - 1;
      EveryRecordIs(answers[..n], r);
      assert answers == answers[..n] + [answers[n]];
    }
  }

  lemma CurrentOfAll(answers: seq<Answer>, cik: Option<int>)
    requires var all := EveryRecord(answers);
             && (cik.None? <==> forall r :: r in all ==> r.cik.None?)
             && (cik.Some? ==> exists b ::
                   b in all && b.cik == cik && forall r :: r in all && r.cik.Some? ==> NoLater(r, b))
    ensures cik.None? <==> forall a, r :: a in answers && r in a.records ==> r.cik.None?
    ensures cik.Some? ==>
      exists a, b :: a in answers && b in a.records && b.cik == cik &&
        forall a', r :: a' in answers && r in a'.records && r.cik.Some? ==> NoLater(r, b)
  {
    forall r ensures r in EveryRecord(answers) <==> exists a :: a in answers && r in a.records {
      EveryRecordIs(answers, r);
    }
  }

  ghost predicate IsCurrent(records: seq<Record>, cik: Option<int>) {
    && (cik.None? <==> forall r :: r in records ==> r.cik.None?)
    && (cik.Some? ==> exists b ::
        b in records && b.cik == cik && forall r :: r in records && r.cik.Some? ==> !Outranks(r, b))
  }

  /** Every key of the answer's statement is as the answer leaves it. */
  ghost predicate StatementRebuilt(t: Table, t': Table, a: Answer, symbol: int, cik: Option<int>, whole: bool, now: int)
  {
    forall k: Key :: k.report == a.report
        ==> RebuiltAt(t, t', k, a.report, symbol, Keep(a.records, cik), whole && !a.truncated, now)
  }

  /** The statements not written yet are as they were. */
  ghost predicate RestSame(t: Table, t': Table, answers: seq<Answer>, n: nat)
    requires n <= |answers|
  {
    forall k: Key :: (forall i :: 0 <= i < n ==> answers[i].report != k.report) ==> SameAt(t, t', k)
  }

  /** A statement's write leaves the statements before it as they were, and finds its own untouched. */
  lemma StatementsCompose(t0: Table, t1: Table, t2: Table, answers: seq<Answer>, n: nat, symbol: int,
      cik: Option<int>, whole: bool, now: int)
    requires n < |answers| && forall i, j :: 0 <= i < j < |answers| ==> answers[i].report != answers[j].report
    requires forall i :: 0 <= i < n ==> StatementRebuilt(t0, t1, answers[i], symbol, cik, whole, now)
    requires RestSame(t0, t1, answers, n)
    requires StatementRebuilt(t1, t2, answers[n], symbol, cik, whole, now)
    requires forall k: Key :: k.report != answers[n].report ==> SameAt(t1, t2, k)
    ensures forall i :: 0 <= i <= n ==> StatementRebuilt(t0, t2, answers[i], symbol, cik, whole, now)
    ensures RestSame(t0, t2, answers, n + 1)
  {
    forall i | 0 <= i <= n ensures StatementRebuilt(t0, t2, answers[i], symbol, cik, whole, now) {
      forall k: Key | k.report == answers[i].report
        ensures RebuiltAt(t0, t2, k, answers[i].report, symbol, Keep(answers[i].records, cik), whole
                && !answers[i].truncated, now)
      {
        KeyComposes(t0, t1, t2, answers, n, i, symbol, cik, whole, now, k);
      }
    }
    forall k: Key | forall i :: 0 <= i <= n ==> answers[i].report != k.report ensures SameAt(t0, t2, k) {
      assert answers[n].report != k.report;
    }
  }

  lemma KeyComposes(t0: Table, t1: Table, t2: Table, answers: seq<Answer>, n: nat, i: nat, symbol: int,
      cik: Option<int>, whole: bool, now: int, k: Key)
    requires i <= n < |answers| && k.report == answers[i].report
    requires forall i, j :: 0 <= i < j < |answers| ==> answers[i].report != answers[j].report
    requires i < n ==> StatementRebuilt(t0, t1, answers[i], symbol, cik, whole, now)
    requires i == n ==> SameAt(t0, t1, k)
    requires i < n ==> SameAt(t1, t2, k)
    requires i == n ==> StatementRebuilt(t1, t2, answers[n], symbol, cik, whole, now)
    ensures RebuiltAt(t0, t2, k, answers[i].report, symbol, Keep(answers[i].records, cik), whole
            && !answers[i].truncated, now)
  {
    if i < n {
      assert answers[i].report != answers[n].report;
      assert RebuiltAt(t0, t1, k, answers[i].report, symbol, Keep(answers[i].records, cik), whole
             && !answers[i].truncated, now);
    } else {
      assert RebuiltAt(t1, t2, k, answers[i].report, symbol, Keep(answers[i].records, cik), whole
             && !answers[i].truncated, now);
    }
  }

  /** What is written of a listed period: the kept record, its filing date or, when it has none, the one on file. */
  lemma WrittenAt(t: Table, t': Table, a: Answer, symbol: int, cik: Option<int>, whole: bool, now: int, p: Period)
    requires StatementRebuilt(t, t', a, symbol, cik, whole, now) && p in Keep(a.records, cik)
    ensures var k, kept := Key(a.report, symbol, p), Keep(a.records, cik)[p];
            && k in t' && t'[k].data == kept && t'[k].fetchedAt == now
            && t'[k].filing == if kept.filing.Some? then kept.filing else if k in t then t[k].filing else None
  {
    assert RebuiltAt(t, t', Key(a.report, symbol, p), a.report, symbol, Keep(a.records, cik),
        whole && !a.truncated, now);
  }

  // ---------------------------------------------------------------- what it is for

  /**
   After a whole answer, every period type it covers holds exactly the vendor's periods, one
   row each from the latest filing, and nothing of another company.
   */
  lemma CoveredSeriesIsTheVendors(t: Table, t': Table, a: Answer, symbol: int, cik: Option<int>, now: int, p: Period)
    requires StatementRebuilt(t, t', a, symbol, cik, true, now) && !a.truncated
    requires exists r :: r in a.records && Usable(r, cik) && r.timeframe == Some(p.kind)
    ensures var k := Key(a.report, symbol, p);
            && (k in t' <==> exists j :: 0 <= j < |a.records| && Reports(a.records[j], cik, p))
            && (k in t' ==> exists i :: LatestAt(a.records, cik, p, i) && t'[k].data == a.records[i])
            && (k in t' && cik.Some? ==> t'[k].data.cik.None? || t'[k].data.cik == cik)
  {
    var k, kept := Key(a.report, symbol, p), Keep(a.records, cik);
    assert RebuiltAt(t, t', k, a.report, symbol, kept, true, now);
    KeepIsLatest(a.records, cik, p);
    var r :| r in a.records && Usable(r, cik) && r.timeframe == Some(p.kind);
    var j :| 0 <= j < |a.records| && a.records[j] == r;
    KeepIsLatest(a.records, cik, PeriodOf(r));
    assert Reports(a.records[j], cik, PeriodOf(r)) && PeriodOf(r) in kept;
    if p in kept && cik.Some? { KeptIsOurs(a.records, cik, p); }
  }

  /** A period type the answer has nothing for, and every other symbol, is untouched. */
  lemma UncoveredSeriesStands(t: Table, t': Table, a: Answer, symbol: int, cik: Option<int>, whole: bool, now: int,
      k: Key)
    requires StatementRebuilt(t, t', a, symbol, cik, whole, now) && k.report == a.report
    requires k.symbol != symbol || forall r :: r in a.records && Usable(r, cik) ==> r.timeframe != Some(k.period.kind)
    ensures SameAt(t, t', k)
  {
    assert RebuiltAt(t, t', k, a.report, symbol, Keep(a.records, cik), whole && !a.truncated, now);
    forall p | p in Keep(a.records, cik) && k.symbol == symbol ensures p.kind != k.period.kind {
      KeepIsLatest(a.records, cik, p);
      var j :| 0 <= j < |a.records| && Reports(a.records[j], cik, p);
      assert a.records[j] in a.records;
    }
  }

  /** A part of the history deletes nothing, and no answer blanks a filing date. */
  lemma NothingIsLost(t: Table, t': Table, a: Answer, symbol: int, cik: Option<int>, whole: bool, now: int)
    requires StatementRebuilt(t, t', a, symbol, cik, whole, now)
    ensures !whole || a.truncated ==> forall k :: k in t && k.report == a.report ==> k in t'
    ensures forall k :: k in t && k in t' && k.report == a.report && t[k].filing.Some? ==> t'[k].filing.Some?
  {
    forall k | k in t && k.report == a.report
      ensures (!whole || a.truncated ==> k in t') && (k in t' && t[k].filing.Some? ==> t'[k].filing.Some?)
    {
      assert RebuiltAt(t, t', k, a.report, symbol, Keep(a.records, cik), whole && !a.truncated, now);
    }
  }

  /** The same answer again deletes nothing, adds nothing, and changes no data and no filing date. */
  lemma SecondRunChangesNothing(t: Table, t': Table, t'': Table, a: Answer, symbol: int, cik: Option<int>,
      whole: bool, now: int, later: int)
    requires StatementRebuilt(t, t', a, symbol, cik, whole, now)
    requires StatementRebuilt(t', t'', a, symbol, cik, whole, later)
    ensures forall k: Key :: k.report == a.report ==> (k in t'' <==> k in t')
    ensures forall k :: k in t' && k.report == a.report ==> t''[k].data == t'[k].data && t''[k].filing == t'[k].filing
  {
    forall k: Key | k.report == a.report
      ensures (k in t'' <==> k in t') && (k in t' ==> t''[k].data == t'[k].data && t''[k].filing == t'[k].filing)
    {
      var kept, drops := Keep(a.records, cik), whole && !a.truncated;
      assert RebuiltAt(t, t', k, a.report, symbol, kept, drops, now);
      assert RebuiltAt(t', t'', k, a.report, symbol, kept, drops, later);
    }
  }

  /** Its DELETE matches no row. */
  lemma SecondSweepDeletesNothing(t: Table, report: int, symbol: int, rows: seq<Row>, kept: map<Period, Record>,
      now: int)
    requires ListsRows(rows, kept)
    ensures var t' := Replaced(t, report, symbol, rows, now); Swept(t', report, symbol, rows) == t'
  {
    var t' := Replaced(t, report, symbol, rows, now);
    ListedPeriods(rows, kept);
    forall k | k in t' ensures !Dropped(k, report, symbol, rows) {
      ReplaceRebuilds(t, report, symbol, rows, kept, now, k);
      assert RebuiltAt(t, t', k, report, symbol, kept, true, now);
    }
  }

  lemma SizeOfKeys(t: Table)
    ensures |t| == |t.Keys|
  {
  }
}
