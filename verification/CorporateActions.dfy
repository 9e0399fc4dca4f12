/**
 Corporate actions: dividends and splits, one row per distribution as the vendor classifies it.
 Dates and stamps are numbers, and texts and amounts are tokens compared for equality only.
 */
module CorporateActions {
  import opened Wrappers

  datatype Kind = Split | Dividend

  /** The unique key, NULLS NOT DISTINCT. */
  datatype Identity = Identity(symbol: int, kind: Kind, exDate: Option<int>, distribution: Option<int>,
                               frequency: Option<int>, currency: Option<int>, amount: Option<int>)
  datatype Row = Row(key: Identity, rest: int)
  datatype Stored = Stored(rest: int, fetchedAt: Option<int>)
  type Table = map<Identity, Stored>

  /** A vendor record; a blank text is None. */
  datatype Item = Item(symbol: Option<int>, exDate: Option<int>, distribution: Option<int>, frequency: Option<int>,
                       currency: Option<int>, amount: Option<int>, rest: int)

  /** What a fetch answers for: one symbol's dividends, or the market's in a window of ex-dates. */
  datatype Scope = OfSymbol(symbol: int) | InWindow(start: int, end: int)

  /** `_dividend_row` and `_split_row`: a record without an ex-date makes no row; a split leaves four parts NULL. */
  function RowOf(kind: Kind, symbol: int, item: Item): Option<Row> {
    if item.exDate.None? then None
    else if kind.Split? then Some(Row(Identity(symbol, Split, item.exDate, None, None, None, None), item.rest))
    else Some(Row(Identity(symbol, Dividend, item.exDate, item.distribution, item.frequency, item.currency,
        item.amount), item.rest))
  }

  /** A per-symbol answer is filed under the symbol asked for, a market one under the record's own, if it has one. */
  function RowFor(kind: Kind, asked: Option<int>, item: Item): Option<Row> {
    if asked.Some? then RowOf(kind, asked.value, item)
    else if item.symbol.Some? then RowOf(kind, item.symbol.value, item)
    else None
  }

  ghost predicate IsListed(items: seq<Item>, kind: Kind, asked: Option<int>, row: Row) {
    exists i :: 0 <= i < |items| && RowFor(kind, asked, items[i]) == Some(row)
  }

  method Rows(items: seq<Item>, kind: Kind, asked: Option<int>) returns (rows: seq<Row>)
    ensures forall row :: row in rows <==> IsListed(items, kind, asked, row)
  {
    rows := [];
    for i := 0 to |items|
      invariant forall row :: row in rows <==> IsListed(items[..i], kind, asked, row)
    {
      assert items[..i + 1] == items[..i] + [items[i]];
      assert forall row ::
        IsListed(items[..i + 1], kind, asked, row)
        <==> IsListed(items[..i], kind, asked, row) || RowFor(kind, asked, items[i]) == Some(row) by {
        assert items[..i + 1][i] == items[i];
        assert forall j :: 0 <= j < i ==> items[..i + 1][j] == items[..i][j];
      }
      var row := RowFor(kind, asked, items[i]);
      if row.Some? { rows := rows + [row.value]; }
    }
    assert items[..|items|] == items;
  }

  // -------------------------------------------------------------- upsert and delete

  function Upserted(table: Table, rows: seq<Row>, now: int): Table {
    if rows == [] then table
    else
      var row := rows[|rows| - 1];
      Upserted(table, rows[..|rows| - 1], now)[row.key := Stored(row.rest, Some(now))]
  }

  predicate InScope(k: Identity, scope: Scope) {
    k.kind == Dividend
    && match scope
       case OfSymbol(symbol) => k.symbol == symbol
       case InWindow(start, end) => k.exDate.Some? && start <= k.exDate.value <= end
  }

  /** `fetched_at IS NULL OR fetched_at < now()`. */
  predicate Stale(s: Stored, now: int) {
    s.fetchedAt.None? || s.fetchedAt.value < now
  }

  function Purged(table: Table, scope: Scope, now: int): Table {
    map k | k in table && !(InScope(k, scope) && Stale(table[k], now)) :: table[k]
  }

  function Replaced(table: Table, rows: seq<Row>, truncated: bool, scope: Scope, now: int): Table {
    if rows == [] then table
    else if truncated then Upserted(table, rows, now)
    else Purged(Upserted(table, rows, now), scope, now)
  }

  ghost predicate Lists(rows: seq<Row>, k: Identity) {
    exists r :: r in rows && r.key == k
  }

  /** What is stored for `k` is what the answer says of it, stamped with the transaction. */
  ghost predicate IsFrom(rows: seq<Row>, k: Identity, s: Stored, now: int) {
    s.fetchedAt == Some(now) && exists r :: r in rows && r.key == k && r.rest == s.rest
  }

  lemma {:induction false} UpsertedAt(table: Table, rows: seq<Row>, now: int, k: Identity)
    ensures Lists(rows, k) ==> k in Upserted(table, rows, now) && IsFrom(rows, k, Upserted(table, rows, now)[k], now)
    ensures !Lists(rows, k) ==> (k in Upserted(table, rows, now) <==> k in table)
    ensures !Lists(rows, k) && k in table ==> Upserted(table, rows, now)[k] == table[k]
  {
    if rows != [] {
      var n := |rows| - 1;
      UpsertedAt(table, rows[..n], now, k);
      assert rows == rows[..n] + [rows[n]];
      assert Lists(rows, k) <==> Lists(rows[..n], k) || rows[n].key == k;
    }
  }

  /** The record is a dividend of the symbol, under this key. */
  predicate IsDividend(x: Item, symbol: int, k: Identity) {
    x.exDate.Some?
    && k == Identity(symbol, Dividend, x.exDate, x.distribution, x.frequency, x.currency, x.amount)
  }

  lemma ListsOfSymbol(items: seq<Item>, rows: seq<Row>, symbol: int, k: Identity)
    requires forall row :: row in rows <==> IsListed(items, Dividend, Some(symbol), row)
    ensures Lists(rows, k) <==> exists x :: x in items && IsDividend(x, symbol, k)
    ensures rows == [] <==> forall x :: x in items ==> x.exDate.None?
  {
    forall i | 0 <= i < |items| && items[i].exDate.Some? ensures RowOf(Dividend, symbol, items[i]).value in rows {
      assert RowFor(Dividend, Some(symbol), items[i]) == Some(RowOf(Dividend, symbol, items[i]).value);
    }
    forall x | x in items && x.exDate.Some? ensures rows != [] {
      var i :| 0 <= i < |items| && items[i] == x;
      assert RowOf(Dividend, symbol, items[i]).value in rows;
    }
    if x :| x in items && IsDividend(x, symbol, k) {
      var i :| 0 <= i < |items| && items[i] == x;
      assert RowOf(Dividend, symbol, items[i]).value.key == k;
    }
    if rows != [] {
      assert rows[0] in rows;
      var i :| 0 <= i < |items| && RowFor(Dividend, Some(symbol), items[i]) == Some(rows[0]);
      assert items[i] in items && items[i].exDate.Some?;
    }
    if r :| r in rows && r.key == k {
      var i :| 0 <= i < |items| && RowFor(Dividend, Some(symbol), items[i]) == Some(r);
      assert items[i] in items && IsDividend(items[i], symbol, k);
    }
  }

  lemma ListsOfMarket(items: seq<Item>, rows: seq<Row>, k: Identity)
    requires forall row :: row in rows <==> IsListed(items, Dividend, None, row)
    ensures Lists(rows, k) <==> exists x :: x in items && x.symbol.Some? && IsDividend(x, x.symbol.value, k)
    ensures rows == [] <==> forall x :: x in items ==> x.exDate.None? || x.symbol.None?
  {
    forall i | 0 <= i < |items| && items[i].exDate.Some? && items[i].symbol.Some?
      ensures RowOf(Dividend, items[i].symbol.value, items[i]).value in rows
    {
      assert RowFor(Dividend, None, items[i]) == Some(RowOf(Dividend, items[i].symbol.value, items[i]).value);
    }
    forall x | x in items && x.exDate.Some? && x.symbol.Some? ensures rows != [] {
      var i :| 0 <= i < |items| && items[i] == x;
      assert RowOf(Dividend, items[i].symbol.value, items[i]).value in rows;
    }
    if x :| x in items && x.symbol.Some? && IsDividend(x, x.symbol.value, k) {
      var i :| 0 <= i < |items| && items[i] == x;
      assert RowOf(Dividend, items[i].symbol.value, items[i]).value.key == k;
    }
    if rows != [] {
      assert rows[0] in rows;
      var i :| 0 <= i < |items| && RowFor(Dividend, None, items[i]) == Some(rows[0]);
      assert items[i] in items && items[i].exDate.Some? && items[i].symbol.Some?;
    }
    if r :| r in rows && r.key == k {
      var i :| 0 <= i < |items| && RowFor(Dividend, None, items[i]) == Some(r);
      assert items[i] in items && IsDividend(items[i], items[i].symbol.value, k);
    }
  }

  lemma SymbolRowsAfter(before: Table, items: seq<Item>, rows: seq<Row>, symbol: int, truncated: bool, now: int,
      k: Identity)
    requires forall row :: row in rows <==> IsListed(items, Dividend, Some(symbol), row)
    ensures k in Replaced(before, rows, truncated, OfSymbol(symbol), now) <==>
              || (exists x :: x in items && x.exDate.Some? && k == Identity(symbol, Dividend, x.exDate, x.distribution,
                                                                            x.frequency, x.currency, x.amount))
              || (k in before &&
                    (truncated || (forall x :: x in items ==> x.exDate.None?) || k.kind.Split? || k.symbol != symbol
                     || (before[k].fetchedAt.Some? && now <= before[k].fetchedAt.value)))
  {
    ListsOfSymbol(items, rows, symbol, k);
    UpsertedAt(before, rows, now, k);
    assert (exists x :: x in items && IsDividend(x, symbol, k)) <==>
      exists x :: x in items && x.exDate.Some? && k == Identity(symbol, Dividend, x.exDate, x.distribution,
                                                                x.frequency, x.currency, x.amount);
  }

  lemma MarketRowsAfter(before: Table, items: seq<Item>, rows: seq<Row>, start: int, end: int, truncated: bool,
      now: int, k: Identity)
    requires forall row :: row in rows <==> IsListed(items, Dividend, None, row)
    ensures k in Replaced(before, rows, truncated, InWindow(start, end), now) <==>
              || (exists x :: x in items && x.exDate.Some? && x.symbol.Some? &&
                              k == Identity(x.symbol.value, Dividend, x.exDate, x.distribution, x.frequency, x.currency,
                                            x.amount))
              || (k in before &&
                    (truncated || (forall x :: x in items ==> x.exDate.None? || x.symbol.None?) || k.kind.Split?
                     || k.exDate.None? || k.exDate.value < start || end < k.exDate.value
                     || (before[k].fetchedAt.Some? && now <= before[k].fetchedAt.value)))
  {
    ListsOfMarket(items, rows, k);
    UpsertedAt(before, rows, now, k);
    assert (exists x :: x in items && x.symbol.Some? && IsDividend(x, x.symbol.value, k)) <==>
      exists x :: x in items && x.exDate.Some? && x.symbol.Some? &&
                  k == Identity(x.symbol.value, Dividend, x.exDate, x.distribution, x.frequency, x.currency, x.amount);
  }

  predicate IsSplit(x: Item, symbol: int, k: Identity) {
    x.exDate.Some? && k == Identity(symbol, Split, x.exDate, None, None, None, None)
  }

  /** A split is filed under its date and symbol alone: the symbol asked for, or its own in a market answer. */
  ghost predicate ListsSplit(items: seq<Item>, asked: Option<int>, k: Identity, rest: int) {
    exists x :: x in items && (asked.Some? || x.symbol.Some?) && x.rest == rest
                && IsSplit(x, if asked.Some? then asked.value else x.symbol.value, k)
  }

  lemma SplitRowsAre(items: seq<Item>, asked: Option<int>, row: Row)
    ensures IsListed(items, Split, asked, row) <==> ListsSplit(items, asked, row.key, row.rest)
  {
    if ListsSplit(items, asked, row.key, row.rest) {
      var x :| x in items && (asked.Some? || x.symbol.Some?) && x.rest == row.rest
               && IsSplit(x, if asked.Some? then asked.value else x.symbol.value, row.key);
      var i :| 0 <= i < |items| && items[i] == x;
      assert RowFor(Split, asked, items[i]) == Some(row);
    }
  }

  class ActionTable {
    var table: Table

    /** `batch_upsert`, part of the caller's transaction. */
    method Upsert(rows: seq<Row>, now: int)
      modifies this
      ensures table == Upserted(old(table), rows, now)
    {
      ghost var before := table;
      for i := 0 to |rows|
        invariant table == Upserted(before, rows[..i], now)
      {
        assert rows[..i + 1][..i] == rows[..i];
        table := table[rows[i].key := Stored(rows[i].rest, Some(now))];
      }
      assert rows[..|rows|] == rows;
    }

    /** Upsert, then delete what the fetch did not list: one transaction, rolled back if any part of it raises. */
    method ReplaceDividends(rows: seq<Row>, truncated: bool, scope: Scope, now: int, fails: bool)
      returns (written: nat, removed: nat, raised: bool)
      modifies this
      ensures raised == (fails && rows != [])
      ensures table == if raised then old(table) else Replaced(old(table), rows, truncated, scope, now)
      ensures !raised ==> written == |rows|
      ensures !raised ==> removed == if truncated then 0 else |Upserted(old(table), rows, now).Keys - table.Keys|
    {
      written, removed, raised := 0, 0, false;
      if rows == [] {
        assert table.Keys - table.Keys == {};
        return;
      }
      var before := table;
      Upsert(rows, now);
      written := |rows|;
      if !truncated {
        var kept := Purged(table, scope, now);
        removed := |table.Keys - kept.Keys|;
        table := kept;
      }
      if fails {
        raised, table := true, before;
      }
    }

    /** The splits of one symbol, or of the market: nothing is deleted, and a later record of a key wins. */
    method HandleSplits(asked: Option<int>, items: seq<Item>, now: int, fails: bool) returns (raised: bool)
      modifies this
      ensures raised ==> fails && table == old(table)
      ensures !raised ==> forall k :: k in table <==> k in old(table) || exists n :: ListsSplit(items, asked, k, n)
      ensures !raised ==> forall k ::
        k in table && (exists n :: ListsSplit(items, asked, k, n)) ==>
          table[k].fetchedAt == Some(now) && ListsSplit(items, asked, k, table[k].rest)
      ensures !raised ==> forall k ::
        k in old(table) && !(exists n :: ListsSplit(items, asked, k, n)) ==> table[k] == old(table)[k]
    {
      var rows := Rows(items, Split, asked);
      raised := fails && rows != [];
      if raised { return; }
      ghost var before := table;
      Upsert(rows, now);
      forall k
        ensures Lists(rows, k) <==> exists n :: ListsSplit(items, asked, k, n)
        ensures k in table <==> k in before || Lists(rows, k)
        ensures k in table && Lists(rows, k) ==>
                  table[k].fetchedAt == Some(now) && ListsSplit(items, asked, k, table[k].rest)
        ensures k in before && !Lists(rows, k) ==> table[k] == before[k]
      {
        forall row { SplitRowsAre(items, asked, row); }
        UpsertedAt(before, rows, now, k);
        if n :| ListsSplit(items, asked, k, n) { assert Row(k, n) in rows; }
      }
    }

    method HandleDividends(symbol: int, items: seq<Item>, truncated: bool, now: int, fails: bool) returns (raised: bool)
      modifies this
      ensures raised ==> fails && table == old(table)
      ensures !raised ==> exists rows :: (forall row :: row in rows <==> IsListed(items, Dividend, Some(symbol), row))
                                      && table == Replaced(old(table), rows, truncated, OfSymbol(symbol), now)
      // One row for each distribution listed; others of the symbol go when the answer is complete and not empty.
      ensures !raised ==> forall k ::
        k in table <==>
          || (exists x :: x in items && x.exDate.Some? && k == Identity(symbol, Dividend, x.exDate, x.distribution,
                                                                        x.frequency, x.currency, x.amount))
          || (k in old(table) &&
                (truncated || (forall x :: x in items ==> x.exDate.None?) || k.kind.Split? || k.symbol != symbol
                 || (old(table)[k].fetchedAt.Some? && now <= old(table)[k].fetchedAt.value)))
    {
      var rows := Rows(items, Dividend, Some(symbol));
      ghost var before := table;
      var _, _, r := ReplaceDividends(rows, truncated, OfSymbol(symbol), now, fails);
      raised := r;
      if !raised {
        forall k { SymbolRowsAfter(before, items, rows, symbol, truncated, now, k); }
      }
    }

    method HandleDividendsMarket(start: int, end: int, items: seq<Item>, truncated: bool, now: int, fails: bool)
        returns (raised: bool)
      modifies this
      ensures raised ==> fails && table == old(table)
      ensures !raised ==> exists rows :: (forall row :: row in rows <==> IsListed(items, Dividend, None, row))
                                      && table == Replaced(old(table), rows, truncated, InWindow(start, end), now)
      ensures !raised ==> forall k ::
        k in table <==>
          || (exists x :: x in items && x.exDate.Some? && x.symbol.Some? &&
                          k == Identity(x.symbol.value, Dividend, x.exDate, x.distribution, x.frequency, x.currency,
                                        x.amount))
          || (k in old(table) &&
                (truncated || (forall x :: x in items ==> x.exDate.None? || x.symbol.None?) || k.kind.Split?
                 || k.exDate.None? || k.exDate.value < start || end < k.exDate.value
                 || (old(table)[k].fetchedAt.Some? && now <= old(table)[k].fetchedAt.value)))
    {
      var rows := Rows(items, Dividend, None);
      ghost var before := table;
      var _, _, r := ReplaceDividends(rows, truncated, InWindow(start, end), now, fails);
      raised := r;
      if !raised {
        forall k { MarketRowsAfter(before, items, rows, start, end, truncated, now, k); }
      }
    }
  }

  // ------------------------------------------------------- what an answer leaves behind

  /**
   After a complete, non-empty answer a dividend in its scope is in the table exactly when the
   answer lists it or its stamp is not older than the transaction.
   */
  lemma ScopeAfterIff(table: Table, rows: seq<Row>, scope: Scope, now: int, k: Identity)
    requires rows != [] && InScope(k, scope)
    ensures k in Replaced(table, rows, false, scope, now) <==> Lists(rows, k) || (k in table && !Stale(table[k], now))
    ensures Lists(rows, k) ==> IsFrom(rows, k, Replaced(table, rows, false, scope, now)[k], now)
  {
    UpsertedAt(table, rows, now, k);
  }

  /** Outside the scope, and in a truncated or empty answer, nothing is deleted and only listed rows change. */
  lemma OutsideTheScope(table: Table, rows: seq<Row>, truncated: bool, scope: Scope, now: int, k: Identity)
    requires truncated || rows == [] || !InScope(k, scope)
    ensures var after := Replaced(table, rows, truncated, scope, now);
            && (k in after <==> k in table || Lists(rows, k))
            && (k in table && !Lists(rows, k) ==> after[k] == table[k])
            && (Lists(rows, k) ==> IsFrom(rows, k, after[k], now))
  {
    UpsertedAt(table, rows, now, k);
  }

  /** Every stamp is older than the transaction. */
  ghost predicate StampsBefore(table: Table, now: int) {
    forall k :: k in table ==> Stale(table[k], now)
  }

  /** One transaction of a run. */
  datatype Fetch = Fetch(rows: seq<Row>, truncated: bool, scope: Scope, now: int)

  function Run(table: Table, fetches: seq<Fetch>): Table {
    if fetches == [] then table
    else
      var f := fetches[|fetches| - 1];
      Replaced(Run(table, fetches[..|fetches| - 1]), f.rows, f.truncated, f.scope, f.now)
  }

  lemma ReplacedStamps(table: Table, rows: seq<Row>, truncated: bool, scope: Scope, now: int, later: int)
    requires StampsBefore(table, now) && now < later
    ensures StampsBefore(Replaced(table, rows, truncated, scope, now), later)
  {
    forall k | k in Replaced(table, rows, truncated, scope, now)
        ensures Stale(Replaced(table, rows, truncated, scope, now)[k], later) {
      UpsertedAt(table, rows, now, k);
    }
  }

  predicate Serial(fetches: seq<Fetch>) {
    forall i, j :: 0 <= i < j < |fetches| ==> fetches[i].now < fetches[j].now
  }

  lemma {:induction false} RunStamps(table: Table, fetches: seq<Fetch>, later: int)
    requires Serial(fetches) && (forall f :: f in fetches ==> f.now < later)
    requires fetches == [] ==> StampsBefore(table, later)
    requires fetches != [] ==> StampsBefore(table, fetches[0].now)
    ensures StampsBefore(Run(table, fetches), later)
  {
    if fetches != [] {
      var n := |fetches| - 1;
      assert fetches[n] in fetches;
      forall f | f in fetches[..n] ensures f.now < fetches[n].now {
        var i :| 0 <= i < n && fetches[..n][i] == f;
        assert fetches[i] == f;
      }
      RunStamps(table, fetches[..n], fetches[n].now);
      ReplacedStamps(Run(table, fetches[..n]), fetches[n].rows, fetches[n].truncated, fetches[n].scope,
          fetches[n].now, later);
    }
  }

  /**
   When the transactions of a run follow one another in time, whatever came before, a complete
   non-empty answer leaves its scope with exactly the distributions it lists.
   */
  lemma CompleteAnswerIsExact(table: Table, fetches: seq<Fetch>, k: Identity)
    requires fetches != [] && Serial(fetches) && StampsBefore(table, fetches[0].now)
    requires var f := fetches[|fetches| - 1]; f.rows != [] && !f.truncated && InScope(k, f.scope)
    ensures var f := fetches[|fetches| - 1];
            && (k in Run(table, fetches) <==> Lists(f.rows, k))
            && (k in Run(table, fetches) ==> IsFrom(f.rows, k, Run(table, fetches)[k], f.now))
  {
    var n := |fetches| - 1;
    forall f | f in fetches[..n] ensures f.now < fetches[n].now {
      var i :| 0 <= i < n && fetches[..n][i] == f;
      assert fetches[i] == f;
    }
    RunStamps(table, fetches[..n], fetches[n].now);
    ScopeAfterIff(Run(table, fetches[..n]), fetches[n].rows, fetches[n].scope, fetches[n].now, k);
  }

  /** A split is never deleted by a run of dividend fetches, and never changed by one that lists dividends only. */
  lemma {:induction false} SplitsStand(table: Table, fetches: seq<Fetch>, k: Identity)
    requires k.kind == Split && k in table
    requires forall f, r :: f in fetches && r in f.rows ==> r.key.kind == Dividend
    ensures k in Run(table, fetches) && Run(table, fetches)[k] == table[k]
  {
    if fetches != [] {
      var n := |fetches| - 1;
      var f := fetches[n];
      assert f in fetches && forall x :: x in fetches[..n] ==> x in fetches;
      SplitsStand(table, fetches[..n], k);
      OutsideTheScope(Run(table, fetches[..n]), f.rows, f.truncated, f.scope, f.now, k);
      assert Lists(f.rows, k) ==> exists r :: r in f.rows && r.key == k;
    }
  }
}
