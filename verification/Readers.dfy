/** `read_table` as its separate queries. A schedule gives the database state each query sees, so
    other writers' commits may fall between any two of them. */
module Readers {
  import opened CatalogTypes
  import opened Limits
  import opened Statements
  import opened History
  import opened Commits
  import opened Views

  /** The state seen by each query of one reader, in the order the queries run. */
  type Schedule = nat -> Db

  /** The same state at every query. */
  function Still(db: Db): Schedule {
    _ => db
  }

  /** The schedule of a call whose first query is query q. */
  function Shift(obs: Schedule, q: nat): Schedule {
    (k: nat) => obs(q + k)
  }

  datatype WalkEnd = Found | Missing | Cycle | Broken

  /** The parent-chain loop from the head: `path` lists the transactions it visits, the parent of
      path[i] being read by query q + i. */
  ghost predicate HeadWalk(obs: Schedule, q: nat, table: Uuid, target: TxnId, path: seq<TxnId>, end: WalkEnd) {
    && |path| > 0 && Distinct(path[..|path| - 1])
    && (forall i {:trigger WalkStep(obs, q, table, target, path, i)} ::
          0 <= i < |path| - 1 ==> WalkStep(obs, q, table, target, path, i))
    && var last := |path| - 1;
    && var txns := TxnsIn(obs(q + last).txns, table);
    && (end.Cycle? <==> path[last] in path[..last])
    && (end.Found? <==> !end.Cycle? && path[last] == target)
    && (end.Broken? <==> !end.Cycle? && !end.Found? && path[last] !in txns)
    && (end.Missing? ==> txns[path[last]].None?)
  }

  ghost predicate WalkStep(obs: Schedule, q: nat, table: Uuid, target: TxnId, path: seq<TxnId>, i: nat)
    requires i + 1 < |path|
  {
    var txns := TxnsIn(obs(q + i).txns, table);
    path[i] != target && path[i] in txns && txns[path[i]] == Some(path[i + 1])
  }

  /** The schema, column and file queries for transaction t, starting at query q. */
  ghost predicate IsSnapshot(obs: Schedule, q: nat, row: TableRow, t: TxnId, r: Result<View>) {
    var schemas := SchemasIn(obs(q).schemas, row.uuid);
    if !exists x :: x in schemas && Covers(schemas[x], t) then r == Err(NoSchemaAtTransaction)
    else exists x :: x in schemas && Covers(schemas[x], t) && IsSnapshotOf(obs, q, row, t, x, r)
  }

  ghost predicate IsSnapshotOf(obs: Schedule, q: nat, row: TableRow, t: TxnId, x: Uuid, r: Result<View>)
    requires x in SchemasIn(obs(q).schemas, row.uuid)
  {
    var columns := ColumnsFor(obs(q + 1).columns, x);
    if |columns| > MAX_COLUMNS_PER_SCHEMA then r == Err(TooManyColumns)
    else (exists list ::
            Ordered(columns, list) &&
            r == Assemble(row, t, SchemaView(x, SchemasIn(obs(q).schemas, row.uuid)[x], list),
                          VisibleIn(FilesIn(obs(q + 2).files, row.uuid), t)))
  }

  /** The outcomes `read_table` may return under a schedule. */
  ghost predicate IsRead(obs: Schedule, env: Env, ident: TableIdent, at: Option<TxnId>, r: Result<View>) {
    if ident !in obs(0).tables then r == Err(TableNotFound) else
      var row := obs(0).tables[ident];
      if env.reader < row.minReader then r == Err(ProtocolTooOld)
      else if row.head.None? then r == Err(NoCurrentTransaction)
      else exists path, end :: IsReadAlong(obs, row, at.GetOr(row.head.value), path, end, r)
  }

  ghost predicate IsReadAlong(obs: Schedule, row: TableRow, t: TxnId, path: seq<TxnId>, end: WalkEnd, r: Result<View>)
    requires row.head.Some?
  {
    && HeadWalk(obs, 1, row.uuid, t, path, end) && path[0] == row.head.value
    && match end
       case Cycle => r == Err(ParentCycle)
       case Broken => r == Err(BrokenChain)
       case Missing => r == Err(NotInHistory)
       case Found => IsSnapshot(obs, |path|, row, t, r)
  }

  /** What a read returns, defined on the history alone. */
  ghost function ReadAt(env: Env, s: Slice, h: Hist, at: Option<TxnId>): Result<View>
    requires SliceOk(s, h)
  {
    var t := at.GetOr(Last(h.chain));
    if env.reader < s.row.minReader then Err(ProtocolTooOld)
    else if t !in h.chain then Err(NotInHistory)
    else Snapshot(s, h, Index(h.chain, t))
  }

  // ---------- schedules of real runs ----------

  ghost predicate GrowsBetween(obs: Schedule, hs: nat -> map<TableIdent, Hist>, ident: TableIdent, i: nat, j: nat) {
    && TableOk(obs(i), hs(i), ident) && TableOk(obs(j), hs(j), ident)
    && Grows(SliceOf(obs(i), ident), hs(i)[ident], SliceOf(obs(j), ident), hs(j)[ident])
  }

  /** Every query sees a reachable state of the table, each grown from the states before it. */
  ghost predicate Followed(obs: Schedule, hs: nat -> map<TableIdent, Hist>, ident: TableIdent) {
    && (forall k: nat {:trigger obs(k)} {:trigger hs(k)} :: TableOk(obs(k), hs(k), ident))
    && (forall i: nat, j: nat {:trigger GrowsBetween(obs, hs, ident, i, j)} ::
          i <= j ==> GrowsBetween(obs, hs, ident, i, j))
  }

  /** And transaction ids grow along the chain, as the interval filters need. */
  ghost predicate Observed(obs: Schedule, hs: nat -> map<TableIdent, Hist>, ident: TableIdent) {
    Followed(obs, hs, ident) && forall k: nat {:trigger hs(k)} :: Increasing(hs(k)[ident].chain)
  }

  // ---------- the walk ----------

  /** In the table at state s2, grown from s, a transaction of s has the parent it always had. */
  lemma ParentStable(s: Slice, h: Hist, s2: Slice, g: Hist, k: nat)
    requires ChainOk(s2, g) && h.chain <= g.chain && k < |h.chain|
    ensures h.chain[k] in s2.txns && s2.txns[h.chain[k]] == ParentAt(h.chain, k)
  {
    assert g.chain[k] == h.chain[k] && s2.txns[g.chain[k]] == ParentAt(g.chain, k);
  }

  ghost predicate ParentSeen(obs: Schedule, table: Uuid, c: seq<TxnId>, q: nat, k: nat) {
    var txns := TxnsIn(obs(q).txns, table);
    k < |c| && c[k] in txns && txns[c[k]] == ParentAt(c, k)
  }

  lemma ParentsSeen(obs: Schedule, hs: nat -> map<TableIdent, Hist>, ident: TableIdent)
    requires Followed(obs, hs, ident)
    ensures TableOk(obs(0), hs(0), ident)
    ensures var table, c := obs(0).tables[ident].uuid, hs(0)[ident].chain;
            forall q: nat, k: nat :: k < |c| ==> ParentSeen(obs, table, c, q, k)
  {
    assert TableOk(obs(0), hs(0), ident);
    var table, c := obs(0).tables[ident].uuid, hs(0)[ident].chain;
    forall q: nat, k: nat | k < |c| ensures ParentSeen(obs, table, c, q, k) {
      assert GrowsBetween(obs, hs, ident, 0, q);
      ParentStable(SliceOf(obs(0), ident), hs(0)[ident], SliceOf(obs(q), ident), hs(q)[ident], k);
    }
  }

  /** The walk goes down the chain one position at a time. */
  lemma {:induction false} WalkDescends(
    obs: Schedule, q: nat, table: Uuid, c: seq<TxnId>, t: TxnId, path: seq<TxnId>, end: WalkEnd, i: nat)
    requires forall p: nat, k: nat :: k < |c| ==> ParentSeen(obs, table, c, p, k)
    requires |c| > 0 && HeadWalk(obs, q, table, t, path, end) && path[0] == Last(c) && i < |path|
    ensures i < |c| && path[i] == c[|c| - 1 - i]
  {
    if i > 0 {
      WalkDescends(obs, q, table, c, t, path, end, i - 1);
      assert WalkStep(obs, q, table, t, path, i - 1);
      assert ParentSeen(obs, table, c, q + (i - 1), |c| - i);
    }
  }

  /** Where every query sees the parents of the chain c, the cycle and broken-chain errors cannot occur,
      and the walk finds exactly the transactions of the chain. */
  lemma WalkExact(obs: Schedule, q: nat, table: Uuid, c: seq<TxnId>, t: TxnId, path: seq<TxnId>, end: WalkEnd)
    requires forall p: nat, k: nat :: k < |c| ==> ParentSeen(obs, table, c, p, k)
    requires |c| > 0 && Distinct(c) && HeadWalk(obs, q, table, t, path, end) && path[0] == Last(c)
    ensures end == if t in c then Found else Missing
  {
    var last := |path| - 1;
    forall i | 0 <= i <= last ensures i < |c| && path[i] == c[|c| - 1 - i] {
      WalkDescends(obs, q, table, c, t, path, end, i);
    }
    assert ParentSeen(obs, table, c, q + last, |c| - 1 - last);
    assert path[last] !in path[..last];
    forall i | 0 <= i < last ensures path[i] != t { assert WalkStep(obs, q, table, t, path, i); }
    if t in c && |c| - 1 - Index(c, t) <= last { assert path[|c| - 1 - Index(c, t)] == t; }
  }

  // ---------- the snapshot queries ----------

  lemma SliceColumns(db: Db, ident: TableIdent, x: Uuid)
    requires ident in db.tables && x in SliceOf(db, ident).schemas
    ensures ColumnsFor(db.columns, x) == ColumnsFor(SliceOf(db, ident).columns, x)
  {
  }

  /** The schema and column queries return the schema in force. */
  lemma SchemaQueries(
    obs: Schedule, hs: nat -> map<TableIdent, Hist>, ident: TableIdent, q: nat, k: nat, y: Uuid, list: seq<ColumnRow>)
    requires Observed(obs, hs, ident) && TableOk(obs(q), hs(q), ident) && k < |hs(q)[ident].chain|
    requires var schemas := SliceOf(obs(q), ident).schemas;
             y in schemas && Covers(schemas[y], hs(q)[ident].chain[k])
               && Ordered(ColumnsFor(obs(q + 1).columns, y), list)
    ensures SchemaView(y, SliceOf(obs(q), ident).schemas[y], list) == SchemaAt(SliceOf(obs(q), ident), hs(q)[ident], k)
  {
    var s, h := SliceOf(obs(q), ident), hs(q)[ident];
    var v := ActiveVersion(s, h, k);
    SchemaFilterExact(s, h, k, y);
    ColumnsSeen(obs, hs, ident, q, v, k);
    OrderedIsListed(ColumnsFor(s.columns, y), h.specs[v], list);
  }

  lemma SchemaQueryFinds(s: Slice, h: Hist, k: nat) returns (x: Uuid)
    requires SliceOk(s, h) && Increasing(h.chain) && k < |h.chain|
    ensures x in s.schemas && Covers(s.schemas[x], h.chain[k])
  {
    var v := ActiveVersion(s, h, k);
    assert SchemaOk(s, h, v);
    x := h.schemas[v];
    SchemaFilterExact(s, h, k, x);
  }

  lemma SameSliceRow(obs: Schedule, hs: nat -> map<TableIdent, Hist>, ident: TableIdent, q: nat, k: nat)
    requires Observed(obs, hs, ident) && k < |hs(0)[ident].chain|
    ensures TableOk(obs(0), hs(0), ident) && TableOk(obs(q), hs(q), ident) && Increasing(hs(q)[ident].chain)
    ensures obs(q).tables[ident].uuid == obs(0).tables[ident].uuid
    ensures k < |hs(q)[ident].chain| && hs(q)[ident].chain[k] == hs(0)[ident].chain[k]
  {
    assert GrowsBetween(obs, hs, ident, 0, q);
  }

  /** The queries, read as one mixed snapshot: schema from the state of query q, files from that of query q + 2. */
  lemma SnapshotQueries(
    obs: Schedule, hs: nat -> map<TableIdent, Hist>, ident: TableIdent, q: nat, k: nat, r: Result<View>)
    requires Observed(obs, hs, ident) && k < |hs(0)[ident].chain|
    requires IsSnapshot(obs, q, obs(0).tables[ident], hs(0)[ident].chain[k], r)
    ensures TableOk(obs(q), hs(q), ident) && TableOk(obs(q + 2), hs(q + 2), ident) && k < |hs(q)[ident].chain|
    ensures r == Assemble(obs(0).tables[ident], hs(0)[ident].chain[k],
            SchemaAt(SliceOf(obs(q), ident), hs(q)[ident], k),
                          VisibleAt(SliceOf(obs(q + 2), ident).files, hs(q + 2)[ident].chain, k))
  {
    var row, t := obs(0).tables[ident], hs(0)[ident].chain[k];
    SameSliceRow(obs, hs, ident, q, k);
    SameSliceRow(obs, hs, ident, q + 2, k);
    var s, h := SliceOf(obs(q), ident), hs(q)[ident];
    FileFilterExact(SliceOf(obs(q + 2), ident), hs(q + 2)[ident], k);
    var x := SchemaQueryFinds(s, h, k);
    var y :| y in s.schemas && Covers(s.schemas[y], t) && IsSnapshotOf(obs, q, row, t, y, r);
    SchemaQueriesFit(obs, hs, ident, q, k, y);
    var list :| Ordered(ColumnsFor(obs(q + 1).columns, y), list) &&
                r == Assemble(row, t, SchemaView(y, s.schemas[y], list),
                  VisibleIn(SliceOf(obs(q + 2), ident).files, t));
    SchemaQueries(obs, hs, ident, q, k, y, list);
  }

  lemma SchemaQueriesFit(obs: Schedule, hs: nat -> map<TableIdent, Hist>, ident: TableIdent, q: nat, k: nat, y: Uuid)
    requires Observed(obs, hs, ident) && TableOk(obs(q), hs(q), ident) && k < |hs(q)[ident].chain|
    requires var schemas := SliceOf(obs(q), ident).schemas; y in schemas && Covers(schemas[y], hs(q)[ident].chain[k])
    ensures |ColumnsFor(obs(q + 1).columns, y)| <= MAX_COLUMNS_PER_SCHEMA
  {
    var s, h := SliceOf(obs(q), ident), hs(q)[ident];
    var v := ActiveVersion(s, h, k);
    SchemaFilterExact(s, h, k, y);
    ColumnsSeen(obs, hs, ident, q, v, k);
    StoredSize(ColumnsFor(s.columns, y), h.specs[v]);
  }

  lemma ColumnsSeen(obs: Schedule, hs: nat -> map<TableIdent, Hist>, ident: TableIdent, q: nat, v: nat, k: nat)
    requires Followed(obs, hs, ident) && v < |hs(q)[ident].schemas|
    ensures TableOk(obs(q), hs(q), ident)
    ensures var s, h := SliceOf(obs(q), ident), hs(q)[ident];
            && ColumnsFor(obs(q + 1).columns, h.schemas[v]) == ColumnsFor(s.columns, h.schemas[v])
            && Stored(ColumnsFor(s.columns, h.schemas[v]), h.specs[v]) && |h.specs[v]| <= MAX_COLUMNS_PER_SCHEMA
  {
    assert GrowsBetween(obs, hs, ident, q, q + 1);
    var s, h := SliceOf(obs(q), ident), hs(q)[ident];
    assert SchemaOk(s, h, v);
    SliceColumns(obs(q + 1), ident, h.schemas[v]);
  }

  /** … and that mixture is the snapshot of the first state. */
  lemma MixedSnapshot(
    obs: Schedule, hs: nat -> map<TableIdent, Hist>, ident: TableIdent, q: nat, k: nat, r: Result<View>)
    requires Observed(obs, hs, ident) && k < |hs(0)[ident].chain|
    requires IsSnapshot(obs, q, obs(0).tables[ident], hs(0)[ident].chain[k], r)
    ensures TableOk(obs(0), hs(0), ident) && SameResult(r, Snapshot(SliceOf(obs(0), ident), hs(0)[ident], k))
  {
    hide Followed, IsSnapshot, FixedView, SameResult;
    SnapshotQueries(obs, hs, ident, q, k, r);
    SchemaAndFilesStable(obs, hs, ident, q, k);
    var s, h := SliceOf(obs(0), ident), hs(0)[ident];
    var f, g := SliceOf(obs(q + 2), ident), hs(q + 2)[ident];
    SameAssembled(s.row, s.row, h.chain[k], SchemaAt(SliceOf(obs(q), ident), hs(q)[ident], k), SchemaAt(s, h, k),
                  VisibleAt(f.files, g.chain, k), VisibleAt(s.files, h.chain, k));
  }

  lemma SchemaAndFilesStable(obs: Schedule, hs: nat -> map<TableIdent, Hist>, ident: TableIdent, q: nat, k: nat)
    requires Followed(obs, hs, ident) && k < |hs(0)[ident].chain|
    ensures TableOk(obs(0), hs(0), ident) && TableOk(obs(q), hs(q), ident) && TableOk(obs(q + 2), hs(q + 2), ident)
    ensures k < |hs(q)[ident].chain|
    ensures var s, h := SliceOf(obs(0), ident), hs(0)[ident];
            var a, b := SchemaAt(SliceOf(obs(q), ident), hs(q)[ident], k), SchemaAt(s, h, k);
            var v, w := VisibleAt(SliceOf(obs(q + 2), ident).files, hs(q + 2)[ident].chain, k),
              VisibleAt(s.files, h.chain, k);
            && a.uuid == b.uuid && FixedSchema(a.row) == FixedSchema(b.row) && a.columns == b.columns
            && v.Keys == w.Keys && (forall u :: u in v ==> FixedFile(v[u]) == FixedFile(w[u]))
  {
    assert GrowsBetween(obs, hs, ident, 0, q) && GrowsBetween(obs, hs, ident, 0, q + 2);
    var s, h := SliceOf(obs(0), ident), hs(0)[ident];
    var f, g := SliceOf(obs(q + 2), ident), hs(q + 2)[ident];
    SchemaStable(s, h, SliceOf(obs(q), ident), hs(q)[ident], k);
    VisibleStable(s, h, f, g, k);
  }

  lemma FirstState(obs: Schedule, hs: nat -> map<TableIdent, Hist>, ident: TableIdent)
    requires Followed(obs, hs, ident)
    ensures TableOk(obs(0), hs(0), ident)
  {
  }

  lemma ReadAlongIsAtomic(
    obs: Schedule, hs: nat -> map<TableIdent, Hist>, ident: TableIdent, t: TxnId, path: seq<TxnId>, end: WalkEnd,
    r: Result<View>)
    requires Observed(obs, hs, ident) && TableOk(obs(0), hs(0), ident)
    requires IsReadAlong(obs, obs(0).tables[ident], t, path, end, r)
    ensures var s, h := SliceOf(obs(0), ident), hs(0)[ident];
            if t in h.chain then SameResult(r, Snapshot(s, h, Index(h.chain, t))) else r == Err(NotInHistory)
  {
    hide Followed, FilesOk, SchemasOk, ColumnsOk, EvolutionOk, HeadWalk, IsSnapshot, SameResult, Snapshot;
    var s, h := SliceOf(obs(0), ident), hs(0)[ident];
    ParentsSeen(obs, hs, ident);
    WalkExact(obs, 1, s.row.uuid, h.chain, t, path, end);
    if t in h.chain { MixedSnapshot(obs, hs, ident, |path|, Index(h.chain, t), r); }
  }

  /** The head and the properties come from the same first query. */
  lemma ReadProperties(obs: Schedule, env: Env, ident: TableIdent, at: Option<TxnId>, v: View)
    requires IsRead(obs, env, ident, at, Ok(v))
    ensures ident in obs(0).tables && v.properties == obs(0).tables[ident].properties
  {
    hide HeadWalk, SchemasIn, FilesIn, ColumnsFor, Ordered, VisibleIn, Covers;
    var row := obs(0).tables[ident];
    var t := at.GetOr(row.head.value);
    var path, end :| IsReadAlong(obs, row, t, path, end, Ok(v));
  }

  /** Reads are linearizable: whatever commits fall between the queries of one read, its outcome is that of
      an atomic read of the state its first query saw, properties included. */
  lemma InterleavedReadIsAtomic(
    obs: Schedule, hs: nat -> map<TableIdent, Hist>, env: Env, ident: TableIdent, at: Option<TxnId>, r: Result<View>)
    requires Observed(obs, hs, ident) && IsRead(obs, env, ident, at, r)
    ensures TableOk(obs(0), hs(0), ident) && SameResult(r, ReadAt(env, SliceOf(obs(0), ident), hs(0)[ident], at))
    ensures r.Ok? ==> r.value.properties == obs(0).tables[ident].properties
  {
    hide Followed, FilesOk, SchemasOk, ColumnsOk, EvolutionOk, IsReadAlong, FixedView, Snapshot, Spells, Distinct;
    FirstState(obs, hs, ident);
    var row, t := obs(0).tables[ident], at.GetOr(Last(hs(0)[ident].chain));
    if env.reader >= row.minReader {
      var path, end :| IsReadAlong(obs, row, t, path, end, r);
      ReadAlongIsAtomic(obs, hs, ident, t, path, end, r);
    }
    if r.Ok? { ReadProperties(obs, env, ident, at, r.value); }
  }

  /** A read that nothing interleaves with returns exactly what the history says, in every field. */
  lemma AtomicReadExact(
    obs: Schedule, db: Db, hs: map<TableIdent, Hist>, env: Env, ident: TableIdent, at: Option<TxnId>, r: Result<View>)
    requires TableOk(db, hs, ident) && Increasing(hs[ident].chain) && IsRead(obs, env, ident, at, r)
    requires forall k: nat :: obs(k) == db
    ensures r == ReadAt(env, SliceOf(db, ident), hs[ident], at)
  {
    hide FilesOk, ColumnsOk, EvolutionOk, Spells, HeadWalk, IsSnapshot, Grows;
    var hist: nat -> map<TableIdent, Hist> := _ => hs;
    var s, h := SliceOf(db, ident), hs[ident];
    assert Observed(obs, hist, ident) by {
      GrowsReflexive(s, h);
      forall i: nat, j: nat | i <= j ensures GrowsBetween(obs, hist, ident, i, j) {}
    }
    var t := at.GetOr(Last(h.chain));
    if env.reader >= s.row.minReader {
      var path, end :| IsReadAlong(obs, s.row, t, path, end, r);
      ParentsSeen(obs, hist, ident);
      WalkExact(obs, 1, s.row.uuid, h.chain, t, path, end);
      if t in h.chain { SnapshotQueries(obs, hist, ident, |path|, Index(h.chain, t), r); }
    }
  }

  lemma GrowsReflexive(s: Slice, h: Hist)
    ensures Grows(s, h, s, h)
  {
  }

  // ---------- every atomic answer is given ----------

  function Descent(c: seq<TxnId>, k: nat): (path: seq<TxnId>)
    requires k < |c|
    ensures |path| == |c| - k && forall i :: 0 <= i < |path| ==> path[i] == c[|c| - 1 - i]
  {
    seq(|c| - k, i requires 0 <= i < |c| - k => c[|c| - 1 - i])
  }

  /** Where every query sees the parents of the chain c, the walk from its end down to t, or to the root, takes
      place. */
  lemma WalkExists(obs: Schedule, table: Uuid, c: seq<TxnId>, t: TxnId, k: nat)
    requires forall q: nat, i: nat :: i < |c| ==> ParentSeen(obs, table, c, q, i)
    requires Distinct(c) && k < |c| && if t in c then k == Index(c, t) else k == 0
    ensures HeadWalk(obs, 1, table, t, Descent(c, k), if t in c then Found else Missing)
  {
    var path := Descent(c, k);
    var last := |path| - 1;
    forall i, j | 0 <= i < j < |path| ensures path[i] != path[j] {}
    forall i | 0 <= i < last ensures WalkStep(obs, 1, table, t, path, i) {
      assert ParentSeen(obs, table, c, 1 + i, |c| - 1 - i);
    }
    assert ParentSeen(obs, table, c, 1 + last, k);
    assert path[last] !in path[..last];
  }

  lemma ListedOrdered(rows: set<ColumnRow>, spec: seq<ColumnSpec>)
    requires Stored(rows, spec)
    ensures Ordered(rows, Listed(rows, |spec|))
  {
    var list := Listed(rows, |spec|);
    forall r | r in rows ensures r in list { assert list[r.ordinal - 1] == r; }
  }

  lemma SnapshotExists(obs: Schedule, db: Db, hs: map<TableIdent, Hist>, ident: TableIdent, q: nat, k: nat)
    requires (forall q: nat :: obs(q) == db) && TableOk(db, hs, ident) && Increasing(hs[ident].chain)
             && k < |hs[ident].chain|
    ensures IsSnapshot(obs, q, db.tables[ident], hs[ident].chain[k], Snapshot(SliceOf(db, ident), hs[ident], k))
  {
    hide FilesOk, EvolutionOk, ChainOk, VisibleAt, VisibleIn, ActiveVersion, Ordered, Stored;
    var s, h := SliceOf(db, ident), hs[ident];
    var v, r := ActiveVersion(s, h, k), Snapshot(s, h, k);
    var x := SchemaQueryFinds(s, h, k);
    SchemaFilterExact(s, h, k, x);
    FileFilterExact(s, h, k);
    SliceColumns(db, ident, x);
    StoredSize(ColumnsFor(s.columns, x), h.specs[v]);
    ListedOrdered(ColumnsFor(s.columns, x), h.specs[v]);
    assert IsSnapshotOf(obs, q, s.row, h.chain[k], x, r);
  }

  lemma SpelledSeen(obs: Schedule, db: Db, table: Uuid, c: seq<TxnId>)
    requires (forall q: nat :: obs(q) == db) && Spells(TxnsIn(db.txns, table), c)
    ensures forall q: nat, i: nat :: i < |c| ==> ParentSeen(obs, table, c, q, i)
  {
    forall q: nat, i: nat | i < |c| ensures ParentSeen(obs, table, c, q, i) {
      assert TxnsIn(db.txns, table)[c[i]] == ParentAt(c, i);
    }
  }

  /** The answer of the history is an answer of the queries. */
  lemma AtomicReadExists(
    obs: Schedule, db: Db, hs: map<TableIdent, Hist>, env: Env, ident: TableIdent, at: Option<TxnId>)
    requires (forall q: nat :: obs(q) == db) && TableOk(db, hs, ident) && Increasing(hs[ident].chain)
    ensures IsRead(obs, env, ident, at, ReadAt(env, SliceOf(db, ident), hs[ident], at))
  {
    hide FilesOk, SchemasOk, ColumnsOk, EvolutionOk, HeadWalk, IsSnapshot, Snapshot, Spells, Distinct;
    var s, h := SliceOf(db, ident), hs[ident];
    var t, r := at.GetOr(Last(h.chain)), ReadAt(env, s, h, at);
    if env.reader >= s.row.minReader {
      var k := if t in h.chain then Index(h.chain, t) else 0;
      SpelledSeen(obs, db, s.row.uuid, h.chain);
      WalkExists(obs, s.row.uuid, h.chain, t, k);
      if t in h.chain { SnapshotExists(obs, db, hs, ident, |Descent(h.chain, k)|, k); }
      assert IsReadAlong(obs, s.row, t, Descent(h.chain, k), if t in h.chain then Found else Missing, r);
    }
  }
}
