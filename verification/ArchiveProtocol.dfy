/**
 The archive-before-delete protocol of `archive_range`, one range at a time, as a
 machine whose steps other sessions and crashes may interleave with.

 The database follows the Repeatable Read rules of section 13.2.2 of the PostgreSQL
 documentation: the transaction sees the table as it was at its first statement, and a
 DELETE that reaches a row changed since then fails.
 */
module ArchiveProtocol {
  import opened Wrappers
  import opened CivilMonths

  /** Which rows a pass takes: everything, or snapshots that are not the 16:00 anchor. */
  datatype Kind = All | IntradayOnly

  /** The primary key of all three archived tables holds the row's day. */
  datatype Key = Key(series: nat, day: Day, eod: bool)
  datatype Row = Row(key: Key, data: int)

  /** `<start>_<last>__<stamp>.parquet` in the folder of the kind. */
  datatype Name = Name(kind: Kind, start: int, last: int, stamp: int)

  datatype Phase = Reading | Counted | Deleted | Renamed

  datatype Txn = Txn(
    name: Name,
    kind: Kind,
    start: int,
    end: int,
    snapshot: map<Key, int>,
    pending: seq<Row>,    // rows the cursor has not delivered yet
    read: seq<Row>,       // rows fetched and handed to the writer
    touched: set<Key>,    // keys other sessions committed to since the snapshot
    phase: Phase)

  datatype State = State(
    table: map<Key, int>,
    latest: map<Key, int>,          // the last value any session committed for a key
    files: map<Name, seq<Row>>,     // final files
    partials: map<Name, seq<Row>>,  // `.partial` files
    txn: Option<Txn>)

  datatype Action =
    | Upsert(key: Key, data: int)   // another session inserts or updates, and commits
    | Begin(kind: Kind, start: int, end: int, stamp: int, order: seq<Row>)
    | Fetch(n: nat, kept: seq<Row>) // `kept` is what of the batch reached the disk
    | Nothing                       // the range was empty: roll back
    | Count                         // close the file, read back its row count
    | Delete
    | Rename
    | CommitOk
    | CommitRaises                  // the commit did not happen; the final file is unlinked
    | Raise                         // any earlier error: the partial is unlinked, roll back
    | Crash                         // the process dies; the server rolls back

  predicate Matches(k: Key, kind: Kind, start: int, end: int) {
    start <= k.day < end && (kind.All? || !k.eod)
  }

  predicate InRange(t: Txn, k: Key) {
    k in t.snapshot && Matches(k, t.kind, t.start, t.end)
  }

  /** `order` lists the rows of `table` the range predicate selects, each once. */
  ghost predicate IsScan(order: seq<Row>, table: map<Key, int>, kind: Kind, start: int, end: int) {
    && (forall r :: r in order <==> r.key in table && Matches(r.key, kind, start, end) && table[r.key] == r.data)
    && (forall i, j :: 0 <= i < j < |order| ==> order[i].key != order[j].key)
  }

  function NameOf(kind: Kind, start: int, end: int, stamp: int): Name {
    Name(kind, start, end - 1, stamp)
  }

  /** A row deleted by the running transaction is locked until it ends. */
  predicate Locked(s: State, k: Key) {
    s.txn.Some? && (s.txn.value.phase.Deleted? || s.txn.value.phase.Renamed?) && InRange(s.txn.value, k)
  }

  /** The number of rows the DELETE removes under the transaction's snapshot. */
  function DeleteCount(t: Txn): nat {
    |set k | k in t.snapshot && Matches(k, t.kind, t.start, t.end)|
  }

  /** What a step of the running transaction needs. */
  ghost predicate TxnEnabled(s: State, t: Txn, a: Action) {
    match a
    case Fetch(n, kept) =>
      t.phase.Reading? && 1 <= n <= |t.pending| && multiset(kept) <= multiset(t.pending[..n])
    case Nothing => t.phase.Reading? && t.pending == [] && t.read == []
    case Count =>
      t.phase.Reading? && t.pending == [] && t.read != [] && t.name in s.partials && |s.partials[t.name]| == |t.read|
    case Delete =>
      t.phase.Counted? && (forall k :: k in t.touched ==> !InRange(t, k)) && DeleteCount(t) == |t.read|
    case Rename => t.phase.Deleted? && t.name in s.partials
    case CommitOk => t.phase.Renamed?
    case CommitRaises => t.phase.Renamed?
    case Raise => !t.phase.Renamed?
    case _ => false
  }

  ghost predicate Enabled(s: State, a: Action) {
    if a.Upsert? then !Locked(s, a.key)
    else if a.Begin? then s.txn.None? && IsScan(a.order, s.table, a.kind, a.start, a.end)
    else a.Crash? || (s.txn.Some? && TxnEnabled(s, s.txn.value, a))
  }

  function TxnStep(s: State, t: Txn, a: Action): State {
    match a
    case Fetch(n, kept) =>
      var m := if n <= |t.pending| then n else |t.pending|;
      // The writer opens the file at the first batch and appends from then on.
      var before := if t.read == [] || t.name !in s.partials then [] else s.partials[t.name];
      s.(partials := s.partials[t.name := before + kept],
         txn := Some(t.(pending := t.pending[m..], read := t.read + t.pending[..m])))
    case Count => s.(txn := Some(t.(phase := Counted)))
    case Delete => s.(txn := Some(t.(phase := Deleted)))
    case Rename =>
      var done := if t.name in s.partials then s.partials[t.name] else [];
      s.(files := s.files[t.name := done], partials := s.partials - {t.name}, txn := Some(t.(phase := Renamed)))
    case CommitOk =>
      s.(table := map k | k in s.table && !InRange(t, k) :: s.table[k], txn := None)
    case CommitRaises => s.(files := s.files - {t.name}, txn := None)
    case Raise => s.(partials := s.partials - {t.name}, txn := None)
    case _ => s.(txn := None)
  }

  function Step(s: State, a: Action): State {
    if a.Upsert? then
      s.(table := s.table[a.key := a.data], latest := s.latest[a.key := a.data],
         txn := if s.txn.None? then None else Some(s.txn.value.(touched := s.txn.value.touched + {a.key})))
    else if a.Begin? then
      s.(txn := Some(Txn(NameOf(a.kind, a.start, a.end, a.stamp), a.kind, a.start, a.end,
                         s.table, a.order, [], {}, Reading)))
    else if s.txn.None? then s
    else TxnStep(s, s.txn.value, a)
  }

  /** The second-resolution stamp gives the range a name no final file has. */
  predicate StampFresh(s: State, a: Action) {
    a.Begin? ==> NameOf(a.kind, a.start, a.end, a.stamp) !in s.files
  }

  ghost predicate Valid(s: State, a: Action) {
    Enabled(s, a) && StampFresh(s, a)
  }

  function Run(s: State, trace: seq<Action>): State
    decreases |trace|
  {
    if trace == [] then s else Run(Step(s, trace[0]), trace[1..])
  }

  ghost predicate ValidRun(s: State, trace: seq<Action>)
    decreases |trace|
  {
    trace == [] || (Valid(s, trace[0]) && ValidRun(Step(s, trace[0]), trace[1..]))
  }

  // ------------------------------------------------------------ what is kept

  ghost predicate InFiles(files: map<Name, seq<Row>>, r: Row) {
    exists n :: n in files && r in files[n]
  }

  /** The row is in the table or in some final file. */
  ghost predicate Covered(s: State, r: Row) {
    (r.key in s.table && s.table[r.key] == r.data) || InFiles(s.files, r)
  }

  /** The archive's claim: the last committed value of every key ever written is held. */
  ghost predicate NothingLost(s: State) {
    forall k :: k in s.latest ==> Covered(s, Row(k, s.latest[k]))
  }

  ghost predicate TxnOk(s: State, t: Txn) {
    && IsScan(t.read + t.pending, t.snapshot, t.kind, t.start, t.end)
    && (forall k :: k in t.snapshot && k !in t.touched ==> k in s.table && s.table[k] == t.snapshot[k])
    && (forall k :: k in t.touched ==> k in s.table)
    && (forall k :: k in s.table && k !in t.snapshot ==> k in t.touched)
    && (!t.phase.Renamed? ==> t.name !in s.files)
    && (!t.phase.Renamed? && t.read != [] ==>
          t.name in s.partials && multiset(s.partials[t.name]) <= multiset(t.read))
    && (!t.phase.Reading? ==> t.pending == [] && t.read != [])
    && (t.phase.Counted? || t.phase.Deleted? ==>
          t.name in s.partials && multiset(s.partials[t.name]) == multiset(t.read))
    && (t.phase.Deleted? || t.phase.Renamed? ==> forall k :: k in t.touched ==> !InRange(t, k))
    && (t.phase.Renamed? ==> t.name in s.files && multiset(s.files[t.name]) == multiset(t.read))
  }

  ghost predicate Inv(s: State) {
    && (forall k :: k in s.table ==> k in s.latest && s.latest[k] == s.table[k])
    && NothingLost(s)
    && (s.txn.Some? ==> TxnOk(s, s.txn.value))
  }

  lemma FullSubMultiset<T>(a: multiset<T>, b: multiset<T>)
    requires a <= b && |a| == |b|
    ensures a == b
  {
    assert b == a + (b - a);
    assert |b - a| == 0;
  }

  lemma SameElements<T>(a: seq<T>, b: seq<T>, x: T)
    requires multiset(a) == multiset(b)
    ensures x in a <==> x in b
  {
    assert x in a <==> x in multiset(a);
    assert x in b <==> x in multiset(b);
  }

  lemma FilesGrow(files: map<Name, seq<Row>>, name: Name, rows: seq<Row>, r: Row)
    requires InFiles(files, r) && name !in files
    ensures InFiles(files[name := rows], r)
  {
    var n :| n in files && r in files[n];
    assert n in files[name := rows];
  }

  /** A transaction that has deleted holds its range in the table, unchanged, until it commits. */
  lemma LockedRowsStand(s: State, k: Key)
    requires Inv(s) && Locked(s, k)
    ensures k in s.table && s.table[k] == s.txn.value.snapshot[k]
    ensures Row(k, s.table[k]) in s.txn.value.read
  {
    var t := s.txn.value;
    assert t.read + t.pending == t.read;
    assert k !in t.touched;
    assert Row(k, t.snapshot[k]) in t.read + t.pending;
  }

  lemma UpsertKeeps(s: State, k: Key, d: int)
    requires Inv(s) && Enabled(s, Upsert(k, d))
    ensures Inv(Step(s, Upsert(k, d)))
  {
    var s' := Step(s, Upsert(k, d));
    forall j | j in s'.latest ensures Covered(s', Row(j, s'.latest[j])) {
      if j != k { assert Covered(s, Row(j, s.latest[j])); }
    }
    if s.txn.Some? {
      var t, t' := s.txn.value, s'.txn.value;
      assert forall j :: InRange(t', j) == InRange(t, j);
    }
  }

  /** Steps that leave table, files and history alone keep every row covered. */
  lemma SameHoldings(s: State, s': State)
    requires NothingLost(s) && s'.table == s.table && s'.files == s.files && s'.latest == s.latest
    ensures NothingLost(s')
  {
    forall j | j in s'.latest ensures Covered(s', Row(j, s'.latest[j])) {
      assert Covered(s, Row(j, s.latest[j]));
    }
  }

  lemma BeginKeeps(s: State, a: Action)
    requires Inv(s) && a.Begin? && Valid(s, a)
    ensures Inv(Step(s, a))
  {
    SameHoldings(s, Step(s, a));
    assert [] + a.order == a.order;
  }

  lemma DeleteKeeps(s: State)
    requires Inv(s) && Enabled(s, Delete)
    ensures Inv(Step(s, Delete))
  {
    SameHoldings(s, Step(s, Delete));
    assert forall j :: InRange(Step(s, Delete).txn.value, j) == InRange(s.txn.value, j);
  }

  lemma EndKeeps(s: State, a: Action)
    requires Inv(s) && Enabled(s, a) && (a.Nothing? || a.Raise? || a.Crash?)
    ensures Inv(Step(s, a))
  {
    SameHoldings(s, Step(s, a));
  }

  /** What is read and what is pending stay one scan, and the partial file holds no more than was read. */
  lemma FetchPartial(s: State, n: nat, kept: seq<Row>)
    requires Inv(s) && Enabled(s, Fetch(n, kept))
    ensures var t, s' := s.txn.value, Step(s, Fetch(n, kept));
            var t' := s'.txn.value;
            && t'.read + t'.pending == t.read + t.pending && t'.read != [] && t.name in s'.partials
            && multiset(s'.partials[t.name]) <= multiset(t'.read)
  {
    var t, s' := s.txn.value, Step(s, Fetch(n, kept));
    assert t.pending == t.pending[..n] + t.pending[n..];
    var before := if t.read == [] then [] else s.partials[t.name];
    assert s'.partials[t.name] == before + kept;
    SubMultisets(before, t.read, kept, t.pending[..n]);
  }

  lemma FetchTxnOk(s: State, n: nat, kept: seq<Row>)
    requires Inv(s) && Enabled(s, Fetch(n, kept))
    ensures var s' := Step(s, Fetch(n, kept)); TxnOk(s', s'.txn.value)
  {
    FetchPartial(s, n, kept);
  }

  lemma FetchKeeps(s: State, n: nat, kept: seq<Row>)
    requires Inv(s) && Enabled(s, Fetch(n, kept))
    ensures Inv(Step(s, Fetch(n, kept)))
  {
    SameHoldings(s, Step(s, Fetch(n, kept)));
    FetchTxnOk(s, n, kept);
  }

  lemma SubMultisets<T>(a: seq<T>, b: seq<T>, c: seq<T>, d: seq<T>)
    requires multiset(a) <= multiset(b) && multiset(c) <= multiset(d)
    ensures multiset(a + c) <= multiset(b + d)
  {
    assert multiset(a + c) == multiset(a) + multiset(c);
    assert multiset(b + d) == multiset(b) + multiset(d);
  }

  lemma CountKeeps(s: State)
    requires Inv(s) && Enabled(s, Count)
    ensures Inv(Step(s, Count))
  {
    var t, s' := s.txn.value, Step(s, Count);
    FullSubMultiset(multiset(s.partials[t.name]), multiset(t.read));
    SameHoldings(s, s');
    assert t.read + t.pending == s'.txn.value.read + s'.txn.value.pending;
  }

  lemma RenameKeeps(s: State)
    requires Inv(s) && Enabled(s, Rename)
    ensures Inv(Step(s, Rename))
  {
    var t, s' := s.txn.value, Step(s, Rename);
    forall j | j in s'.latest ensures Covered(s', Row(j, s'.latest[j])) {
      assert Covered(s, Row(j, s.latest[j]));
      if InFiles(s.files, Row(j, s.latest[j])) {
        FilesGrow(s.files, t.name, s.partials[t.name], Row(j, s.latest[j]));
      }
    }
    assert forall j :: InRange(s'.txn.value, j) == InRange(t, j);
  }

  lemma CommitKeeps(s: State)
    requires Inv(s) && Enabled(s, CommitOk)
    ensures Inv(Step(s, CommitOk))
  {
    var t, s' := s.txn.value, Step(s, CommitOk);
    forall j | j in s'.latest ensures Covered(s', Row(j, s'.latest[j])) {
      assert Covered(s, Row(j, s.latest[j]));
      if j in s.table && InRange(t, j) {
        LockedRowsStand(s, j);
        SameElements(t.read, s.files[t.name], Row(j, s.table[j]));
      }
    }
  }

  lemma CommitRaisesKeeps(s: State)
    requires Inv(s) && Enabled(s, CommitRaises)
    ensures Inv(Step(s, CommitRaises))
  {
    var t, s' := s.txn.value, Step(s, CommitRaises);
    forall j | j in s'.latest ensures Covered(s', Row(j, s'.latest[j])) {
      var r := Row(j, s.latest[j]);
      assert Covered(s, r);
      if InFiles(s.files, r) {
        var n :| n in s.files && r in s.files[n];
        if n == t.name {
          SameElements(t.read, s.files[n], r);
          assert r in t.read + t.pending;
        } else {
          assert n in s'.files;
        }
      }
    }
  }

  /** Every step of the protocol, of other sessions, of an error or of a crash keeps the invariant. */
  lemma StepKeeps(s: State, a: Action)
    requires Inv(s) && Valid(s, a)
    ensures Inv(Step(s, a))
  {
    if a.Upsert? { UpsertKeeps(s, a.key, a.data); }
    else if a.Begin? { BeginKeeps(s, a); }
    else if a.Fetch? { FetchKeeps(s, a.n, a.kept); }
    else if a.Count? { CountKeeps(s); }
    else if a.Delete? { DeleteKeeps(s); }
    else if a.Rename? { RenameKeeps(s); }
    else if a.CommitOk? { CommitKeeps(s); }
    else if a.CommitRaises? { CommitRaisesKeeps(s); }
    else { EndKeeps(s, a); }
  }

  /** Archive safety: after any run at all, no committed row is missing from table and archive both. */
  lemma {:induction false} ArchiveNeverMisses(s: State, trace: seq<Action>)
    requires Inv(s) && ValidRun(s, trace)
    ensures Inv(Run(s, trace)) && NothingLost(Run(s, trace))
    decreases |trace|
  {
    if trace != [] {
      StepKeeps(s, trace[0]);
      ArchiveNeverMisses(Step(s, trace[0]), trace[1..]);
    }
  }

  /** A row once held by the table or a file stays held, unless a session writes another value over it. */
  lemma StepKeepsCoverage(s: State, a: Action, r: Row)
    requires Inv(s) && Valid(s, a) && Covered(s, r)
    requires !(a.Upsert? && a.key == r.key)
    ensures Covered(Step(s, a), r)
  {
    if r.key in s.table && s.table[r.key] == r.data {
      if a.CommitOk? && InRange(s.txn.value, r.key) {
        LockedRowsStand(s, r.key);
        SameElements(s.txn.value.read, s.files[s.txn.value.name], r);
      }
    } else {
      FileRowStaysCovered(s, a, r);
    }
  }

  lemma FileRowStaysCovered(s: State, a: Action, r: Row)
    requires Inv(s) && Valid(s, a) && InFiles(s.files, r)
    requires !(a.Upsert? && a.key == r.key)
    ensures Covered(Step(s, a), r)
  {
    var n :| n in s.files && r in s.files[n];
    if a.CommitRaises? && n == s.txn.value.name {
      SameElements(s.txn.value.read, s.files[n], r);
      assert r in s.txn.value.read + s.txn.value.pending;
      LockedRowsStand(s, r.key);
    } else {
      assert n in Step(s, a).files && r in Step(s, a).files[n];
    }
  }

  lemma {:induction false} RunKeepsCoverage(s: State, trace: seq<Action>, r: Row)
    requires Inv(s) && ValidRun(s, trace) && Covered(s, r)
    requires forall a :: a in trace && a.Upsert? ==> a.key != r.key
    ensures Covered(Run(s, trace), r)
    decreases |trace|
  {
    if trace != [] {
      assert trace[0] in trace;
      StepKeeps(s, trace[0]);
      StepKeepsCoverage(s, trace[0], r);
      assert forall a :: a in trace[1..] ==> a in trace;
      RunKeepsCoverage(Step(s, trace[0]), trace[1..], r);
    }
  }

  /** A final file that the running transaction, if any, is not the one of. */
  ghost predicate Settled(s: State, n: Name) {
    n in s.files && (s.txn.Some? ==> s.txn.value.name != n)
  }

  lemma StepKeepsFile(s: State, a: Action, n: Name)
    requires Inv(s) && Valid(s, a) && Settled(s, n)
    ensures Settled(Step(s, a), n) && Step(s, a).files[n] == s.files[n]
  {
  }

  /** The archive only grows: a settled file stays as it is in every run, whatever anyone writes. */
  lemma {:induction false} RunKeepsFile(s: State, trace: seq<Action>, n: Name)
    requires Inv(s) && ValidRun(s, trace) && Settled(s, n)
    ensures Settled(Run(s, trace), n) && Run(s, trace).files[n] == s.files[n]
    decreases |trace|
  {
    if trace != [] {
      StepKeeps(s, trace[0]);
      StepKeepsFile(s, trace[0], n);
      RunKeepsFile(Step(s, trace[0]), trace[1..], n);
    }
  }

  /** Only a commit removes rows, and each row it removes is in the file that was counted. */
  lemma DeletedRowsWereExported(s: State, a: Action, k: Key)
    requires Inv(s) && Valid(s, a)
    requires k in s.table && k !in Step(s, a).table
    ensures a.CommitOk? && s.txn.value.name in Step(s, a).files
    ensures Row(k, s.table[k]) in Step(s, a).files[s.txn.value.name]
    ensures |Step(s, a).files[s.txn.value.name]| == DeleteCount(s.txn.value)
  {
    var t := s.txn.value;
    LockedRowsStand(s, k);
    SameElements(t.read, s.files[t.name], Row(k, s.table[k]));
    assert t.read + t.pending == t.read;
    SnapshotCount(t);
    assert |multiset(s.files[t.name])| == |multiset(t.read)|;
  }

  /** Under the snapshot the DELETE always matches what the cursor read: the second count never trips. */
  lemma SnapshotCount(t: Txn)
    requires IsScan(t.read, t.snapshot, t.kind, t.start, t.end)
    ensures DeleteCount(t) == |t.read|
  {
    var keys := set k | k in t.snapshot && Matches(k, t.kind, t.start, t.end);
    KeysOfScan(t.read);
    assert keys == set i | 0 <= i < |t.read| :: t.read[i].key by {
      forall k ensures k in keys <==> exists i :: 0 <= i < |t.read| && t.read[i].key == k {
        if k in keys { assert Row(k, t.snapshot[k]) in t.read; }
      }
    }
  }

  lemma {:induction false} KeysOfScan(rows: seq<Row>)
    requires forall i, j :: 0 <= i < j < |rows| ==> rows[i].key != rows[j].key
    ensures |set i | 0 <= i < |rows| :: rows[i].key| == |rows|
  {
    var all := set i | 0 <= i < |rows| :: rows[i].key;
    if rows != [] {
      var n := |rows| - 1;
      KeysOfScan(rows[..n]);
      var less := set i | 0 <= i < n :: rows[..n][i].key;
      assert all == less + {rows[n].key};
      assert rows[n].key !in less;
    }
  }

  // ------------------------------------------- rows that arrive after the snapshot

  predicate Ends(a: Action) {
    a.Begin? || a.Nothing? || a.CommitOk? || a.CommitRaises? || a.Raise? || a.Crash?
  }

  /** While one transaction runs, every key another session commits is remembered as touched. */
  lemma {:induction false} TouchedAccumulates(s: State, trace: seq<Action>, k: Key)
    requires Inv(s) && ValidRun(s, trace) && s.txn.Some?
    requires forall a :: a in trace ==> !Ends(a)
    requires k in s.txn.value.touched || exists a :: a in trace && a.Upsert? && a.key == k
    ensures Run(s, trace).txn.Some? && k in Run(s, trace).txn.value.touched
    decreases |trace|
  {
    if trace != [] {
      var s' := Step(s, trace[0]);
      assert trace[0] in trace && !Ends(trace[0]);
      StepKeeps(s, trace[0]);
      assert s'.txn.Some? && s.txn.value.touched <= s'.txn.value.touched;
      assert forall a :: a in trace[1..] ==> a in trace;
      if k !in s'.txn.value.touched {
        var a :| a in trace && a.Upsert? && a.key == k;
        assert a in trace[1..];
      }
      TouchedAccumulates(s', trace[1..], k);
    }
  }

  /** A row committed into the range after the snapshot survives the delete, with its latest value. */
  lemma LateRowsSurvive(s: State, trace: seq<Action>, k: Key)
    requires Inv(s) && ValidRun(s, trace) && s.txn.Some?
    requires forall a :: a in trace ==> !Ends(a)
    requires exists a :: a in trace && a.Upsert? && a.key == k
    requires Enabled(Run(s, trace), CommitOk)
    ensures var before, after := Run(s, trace), Step(Run(s, trace), CommitOk);
            k in before.latest && k in after.table && after.table[k] == before.latest[k]
  {
    ArchiveNeverMisses(s, trace);
    TouchedAccumulates(s, trace, k);
  }

  // ----------------------------------------------------------- two concrete runs

  function NightTrace(r: Row, stamp: int): seq<Action> {
    [Begin(All, 0, 10, stamp, [r]), Fetch(1, [r]), Count, Delete, Rename]
  }

  /**
   A crash between the rename and the commit leaves a file whose rows stay in the
   table; the next night exports them again. The archive then holds a row twice.
   */
  lemma ArchiveMayHoldTwice(r: Row)
    requires 0 <= r.key.day < 10
    ensures var table := map[r.key := r.data];
            var s := State(table, table, map[], map[], None);
            var trace := NightTrace(r, 1) + ([Crash] + (NightTrace(r, 2) + [CommitOk]));
            && Inv(s) && ValidRun(s, trace)
            && Run(s, trace).table == map[]
            && Run(s, trace).files == map[NameOf(All, 0, 10, 1) := [r], NameOf(All, 0, 10, 2) := [r]]
  {
    var table := map[r.key := r.data];
    Night(table, map[], r, 1);
    NextNight(r);
    SingleRowInv(r);
    RunCompose(NightState(table, map[], r, 1, 0), NightTrace(r, 1), [Crash] + (NightTrace(r, 2) + [CommitOk]));
  }

  /** The process dies after the first rename; the second night runs to its commit. */
  lemma NextNight(r: Row)
    requires 0 <= r.key.day < 10
    ensures var table, n1 := map[r.key := r.data], NameOf(All, 0, 10, 1);
            var dead, trace := NightState(table, map[], r, 1, 5), [Crash] + (NightTrace(r, 2) + [CommitOk]);
            ValidRun(dead, trace) && Run(dead, trace) == NightState(table, map[n1 := [r]], r, 2, 6)
  {
    var table, files := map[r.key := r.data], map[NameOf(All, 0, 10, 1) := [r]];
    var s1, s5 := NightState(table, files, r, 2, 0), NightState(table, files, r, 2, 5);
    Night(table, files, r, 2);
    RunCons(s5, CommitOk, []);
    assert [CommitOk] + [] == [CommitOk];
    RunCompose(s1, NightTrace(r, 2), [CommitOk]);
    AfterCrash(r);
    RunCons(NightState(table, map[], r, 1, 5), Crash, NightTrace(r, 2) + [CommitOk]);
  }

  lemma AfterCrash(r: Row)
    ensures var table, files := map[r.key := r.data], map[NameOf(All, 0, 10, 1) := [r]];
            Step(NightState(table, map[], r, 1, 5), Crash) == NightState(table, files, r, 2, 0)
  {
  }

  lemma SingleRowInv(r: Row)
    ensures Inv(State(map[r.key := r.data], map[r.key := r.data], map[], map[], None))
  {
    assert Covered(State(map[r.key := r.data], map[r.key := r.data], map[], map[], None), r);
  }

  /**
   The stamp has one-second resolution and `os.replace` overwrites. Were a range archived
   again under a name a final file already has, the first file's row would be gone.
   */
  lemma ReusedNameLosesRows(r: Row, late: Row)
    requires 0 <= r.key.day < 10 && 0 <= late.key.day < 10 && r.key != late.key
    ensures var n := NameOf(All, 0, 10, 1);
            var s := State(map[late.key := late.data], map[r.key := r.data, late.key := late.data],
                           map[n := [r]], map[], None);
            Inv(s) && !StampFresh(s, NightTrace(late, 1)[0]) && !NothingLost(Run(s, NightTrace(late, 1)))
  {
    var n := NameOf(All, 0, 10, 1);
    var both := map[r.key := r.data, late.key := late.data];
    var s := State(map[late.key := late.data], both, map[n := [r]], map[], None);
    assert n in s.files && r in s.files[n];
    assert InFiles(s.files, r) && Covered(s, late);
    Night(both, map[n := [r]], late, 1);
    var s' := Run(s, NightTrace(late, 1));
    assert s'.files == map[n := [late]];
    assert r.key in s'.latest && !Covered(s', r);
  }

  lemma RunCons(s: State, a: Action, rest: seq<Action>)
    ensures Run(s, [a] + rest) == Run(Step(s, a), rest)
    ensures ValidRun(s, [a] + rest) <==> Valid(s, a) && ValidRun(Step(s, a), rest)
  {
    assert ([a] + rest)[1..] == rest;
  }

  /** The states of one night over a table that holds a single row in the range. */
  function NightState(latest: map<Key, int>, files: map<Name, seq<Row>>, r: Row, stamp: int, i: nat): State {
    var name, table := NameOf(All, 0, 10, stamp), map[r.key := r.data];
    var txn := (read: seq<Row>, left: seq<Row>, phase: Phase) =>
      Some(Txn(name, All, 0, 10, table, left, read, {}, phase));
    if i == 0 then State(table, latest, files, map[], None)
    else if i == 1 then State(table, latest, files, map[], txn([], [r], Reading))
    else if i == 2 then State(table, latest, files, map[name := [r]], txn([r], [], Reading))
    else if i == 3 then State(table, latest, files, map[name := [r]], txn([r], [], Counted))
    else if i == 4 then State(table, latest, files, map[name := [r]], txn([r], [], Deleted))
    else if i == 5 then State(table, latest, files[name := [r]], map[], txn([r], [], Renamed))
    else State(map[], latest, files[name := [r]], map[], None)
  }

  ghost predicate NightStepOk(latest: map<Key, int>, files: map<Name, seq<Row>>, r: Row, stamp: int, i: nat)
    requires i < 6
  {
    var a := (NightTrace(r, stamp) + [CommitOk])[i];
    && Enabled(NightState(latest, files, r, stamp, i), a)
    && Step(NightState(latest, files, r, stamp, i), a) == NightState(latest, files, r, stamp, i + 1)
  }

  lemma NightReads(latest: map<Key, int>, files: map<Name, seq<Row>>, r: Row, stamp: int)
    requires 0 <= r.key.day < 10
    ensures NightStepOk(latest, files, r, stamp, 0)
  {
    assert IsScan([r], map[r.key := r.data], All, 0, 10);
  }

  lemma NightFetches(latest: map<Key, int>, files: map<Name, seq<Row>>, r: Row, stamp: int)
    requires 0 <= r.key.day < 10
    ensures NightStepOk(latest, files, r, stamp, 1)
  {
    assert [r][..1] == [r] && [r][1..] == [] && [] + [r] == [r];
  }

  lemma NightCounts(latest: map<Key, int>, files: map<Name, seq<Row>>, r: Row, stamp: int)
    requires 0 <= r.key.day < 10
    ensures NightStepOk(latest, files, r, stamp, 2) && NightStepOk(latest, files, r, stamp, 3)
  {
    assert IsScan([r], map[r.key := r.data], All, 0, 10);
    SnapshotCount(NightState(latest, files, r, stamp, 3).txn.value);
  }

  lemma NightEnds(latest: map<Key, int>, files: map<Name, seq<Row>>, r: Row, stamp: int)
    requires 0 <= r.key.day < 10
    ensures NightStepOk(latest, files, r, stamp, 4) && NightStepOk(latest, files, r, stamp, 5)
  {
    var name := NameOf(All, 0, 10, stamp);
    assert map[name := [r]] - {name} == map[];
    assert Step(NightState(latest, files, r, stamp, 5), CommitOk).table == map[];
  }

  lemma Night(latest: map<Key, int>, files: map<Name, seq<Row>>, r: Row, stamp: int)
    requires 0 <= r.key.day < 10
    ensures var s, s5 := NightState(latest, files, r, stamp, 0), NightState(latest, files, r, stamp, 5);
            && Run(s, NightTrace(r, stamp)) == s5
            && (NameOf(All, 0, 10, stamp) !in files ==> ValidRun(s, NightTrace(r, stamp)))
            && Enabled(s5, CommitOk) && Step(s5, CommitOk) == NightState(latest, files, r, stamp, 6)
  {
    NightFrom(latest, files, r, stamp, 0);
    NightEnds(latest, files, r, stamp);
    assert NightTrace(r, stamp)[0..] == NightTrace(r, stamp);
  }

  lemma NightStep(latest: map<Key, int>, files: map<Name, seq<Row>>, r: Row, stamp: int, i: nat)
    requires 0 <= r.key.day < 10 && i < 5
    ensures NightStepOk(latest, files, r, stamp, i)
  {
    if i == 0 { NightReads(latest, files, r, stamp); }
    else if i == 1 { NightFetches(latest, files, r, stamp); }
    else if i < 4 { NightCounts(latest, files, r, stamp); }
    else { NightEnds(latest, files, r, stamp); }
  }

  lemma {:induction false} NightFrom(latest: map<Key, int>, files: map<Name, seq<Row>>, r: Row, stamp: int, i: nat)
    requires 0 <= r.key.day < 10 && i <= 5
    ensures var s, rest := NightState(latest, files, r, stamp, i), NightTrace(r, stamp)[i..];
            && Run(s, rest) == NightState(latest, files, r, stamp, 5)
            && (NameOf(All, 0, 10, stamp) !in files ==> ValidRun(s, rest))
    decreases 5 - i
  {
    if i < 5 {
      NightStep(latest, files, r, stamp, i);
      NightFrom(latest, files, r, stamp, i + 1);
      var trace := NightTrace(r, stamp);
      assert trace[i..] == [trace[i]] + trace[i + 1..];
      RunCons(NightState(latest, files, r, stamp, i), trace[i], trace[i + 1..]);
    }
  }

  lemma {:induction false} RunCompose(s: State, a: seq<Action>, b: seq<Action>)
    ensures Run(s, a + b) == Run(Run(s, a), b)
    ensures ValidRun(s, a + b) <==> ValidRun(s, a) && ValidRun(Run(s, a), b)
    decreases |a|
  {
    if a == [] {
      assert a + b == b;
    } else {
      assert (a + b)[1..] == a[1..] + b;
      RunCompose(Step(s, a[0]), a[1..], b);
    }
  }
}
