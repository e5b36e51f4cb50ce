/** Event listings on reachable states: which transactions they cover, that interleaved commits do
    not disturb them, and the one way their first query's state can be missed. */
module Listings {
  import opened CatalogTypes
  import opened Limits
  import opened Statements
  import opened History
  import opened Commits
  import opened Views
  import opened Readers
  import opened Events

  // ---------- the walk along a chain ----------

  /** Chain position just after the boundary: 0 unless `from` lies before position j. */
  ghost function LowEnd(c: seq<TxnId>, from: Option<TxnId>, j: nat): (lo: nat)
    requires j < |c|
    ensures lo <= j
  {
    if from.Some? && from.value in c && Index(c, from.value) < j then Index(c, from.value) + 1 else 0
  }

  /** How a walk from position j of a chain must end. */
  ghost function ChainEnd(c: seq<TxnId>, from: Option<TxnId>, j: nat): SegmentEnd
    requires j < |c|
  {
    if j + 1 - LowEnd(c, from, j) > MAX_TRANSACTIONS_PER_SCAN then TooLong
    else if from.None? || LowEnd(c, from, j) > 0 then Reached
    else NoBoundary
  }

  /** From query q on, every query sees the parents recorded in chain c. */
  ghost predicate ParentsSeenFrom(obs: Schedule, table: Uuid, c: seq<TxnId>, q: nat) {
    forall p: nat, k: nat {:trigger ParentSeen(obs, table, c, p, k)} ::
      q <= p && k < |c| ==> ParentSeen(obs, table, c, p, k)
  }

  lemma {:induction false} SegmentDescends(
    obs: Schedule, q: nat, table: Uuid, c: seq<TxnId>, from: Option<TxnId>, path: seq<TxnId>, end: SegmentEnd, j: nat,
    i: nat)
    requires ParentsSeenFrom(obs, table, c, q)
    requires Distinct(c) && j < |c| && SegmentWalk(obs, q, table, from, path, end) && path[0] == c[j] && i < |path|
    ensures i + LowEnd(c, from, j) <= j && path[i] == c[j - i]
  {
    if i > 0 {
      SegmentDescends(obs, q, table, c, from, path, end, j, i - 1);
      assert SegmentStep(obs, q, table, from, path, i - 1);
      assert ParentSeen(obs, table, c, q + (i - 1), j - (i - 1));
    }
  }

  /** Along a chain the walk meets neither cycles nor missing rows; it covers the positions from just after
      the boundary up to j and reports exactly why it stopped. */
  lemma ChainWalkExact(
    obs: Schedule, q: nat, table: Uuid, c: seq<TxnId>, from: Option<TxnId>, path: seq<TxnId>, end: SegmentEnd, j: nat)
    requires ParentsSeenFrom(obs, table, c, q)
    requires Distinct(c) && j < |c| && SegmentWalk(obs, q, table, from, path, end) && path[0] == c[j]
    ensures end == ChainEnd(c, from, j)
    ensures end.Reached? ==> Reverse(path) == c[LowEnd(c, from, j)..j + 1]
  {
    var last, lo := |path| - 1, LowEnd(c, from, j);
    forall i | 0 <= i <= last ensures i + lo <= j && path[i] == c[j - i] {
      SegmentDescends(obs, q, table, c, from, path, end, j, i);
    }
    assert ParentSeen(obs, table, c, q + last, j - last);
    assert path[last] !in path[..last];
    if end.Reached? || end.NoBoundary? {
      assert last == j - lo;
    }
  }

  // ---------- what later commits leave alone ----------

  lemma AddedStable(s: Slice, h: Hist, s2: Slice, g: Hist, k: nat)
    requires SliceOk(s2, g) && h.chain <= g.chain && FilesGrow(s, |h.chain|, s2, g.chain) && k < |h.chain|
    ensures AddedIn(s.files, h.chain[k]).Keys == AddedIn(s2.files, h.chain[k]).Keys
    ensures RemovedIn(s.files, h.chain[k]).Keys == RemovedIn(s2.files, h.chain[k]).Keys
  {
    var t := h.chain[k];
    assert g.chain[k] == t && Index(g.chain, t) == k;
    forall u ensures u in AddedIn(s.files, t) <==> u in AddedIn(s2.files, t) {}
    forall u ensures u in RemovedIn(s.files, t) <==> u in RemovedIn(s2.files, t) {
      if u in s2.files { assert FileOk(s2.files[u], g.chain); }
    }
  }

  lemma ChangedStable(s: Slice, h: Hist, s2: Slice, g: Hist, k: nat)
    requires Distinct(g.chain) && h.chain <= g.chain && SchemasGrow(s, |h.chain|, s2, g.chain) && k < |h.chain|
    ensures ChangedIn(s.schemas, h.chain[k]).Keys == ChangedIn(s2.schemas, h.chain[k]).Keys
  {
    assert g.chain[k] == h.chain[k];
    forall x ensures x in ChangedIn(s.schemas, h.chain[k]) <==> x in ChangedIn(s2.schemas, h.chain[k]) {}
  }

  lemma StillFollowed(db: Db, hs: map<TableIdent, Hist>, ident: TableIdent)
    requires TableOk(db, hs, ident)
    ensures Followed(Still(db), _ => hs, ident)
  {
    GrowsReflexive(SliceOf(db, ident), hs[ident]);
    var hist: nat -> map<TableIdent, Hist> := _ => hs;
    forall i: nat, j: nat | i <= j ensures GrowsBetween(Still(db), hist, ident, i, j) {}
  }

  /** Rows of transaction t: the same ones in both states, with the same fixed fields. */
  ghost predicate SameRows(db: Db, db2: Db, table: Uuid, t: TxnId) {
    var f, g, x, y := FilesIn(db.files, table), FilesIn(db2.files, table), SchemasIn(db.schemas, table),
      SchemasIn(db2.schemas, table);
    && AddedIn(f, t).Keys == AddedIn(g, t).Keys && RemovedIn(f, t).Keys == RemovedIn(g, t).Keys
    && ChangedIn(x, t).Keys == ChangedIn(y, t).Keys
    && (forall u :: u in f && u in g ==> FixedFile(g[u]) == FixedFile(f[u]))
    && (forall z :: z in x && z in y ==> FixedSchema(y[z]) == FixedSchema(x[z]))
  }

  ghost predicate SameColumns(db: Db, db2: Db, table: Uuid) {
    forall x :: x in SchemasIn(db.schemas, table) ==>
      ColumnsFor(db2.columns, x) == ColumnsFor(db.columns, x) && |ColumnsFor(db.columns, x)| <= MAX_COLUMNS_PER_SCHEMA
  }

  /** The four event queries of transaction t, from query p on, see the rows of state db. */
  ghost predicate SeesEvent(db: Db, obs: Schedule, p: nat, table: Uuid, t: TxnId) {
    && SameRows(db, obs(p), table, t) && SameRows(db, obs(p + 1), table, t) && SameRows(db, obs(p + 2), table, t)
    && SameColumns(db, obs(p + 3), table)
  }

  lemma RowsSeen(obs: Schedule, hs: nat -> map<TableIdent, Hist>, ident: TableIdent, a: nat, p: nat, k: nat)
    requires Followed(obs, hs, ident) && a <= p && TableOk(obs(a), hs(a), ident) && k < |hs(a)[ident].chain|
    ensures SameRows(obs(a), obs(p), obs(a).tables[ident].uuid, hs(a)[ident].chain[k])
  {
    assert GrowsBetween(obs, hs, ident, a, p);
    var s, h, s2, g := SliceOf(obs(a), ident), hs(a)[ident], SliceOf(obs(p), ident), hs(p)[ident];
    AddedStable(s, h, s2, g, k);
    ChangedStable(s, h, s2, g, k);
  }

  lemma ColumnsStay(obs: Schedule, hs: nat -> map<TableIdent, Hist>, ident: TableIdent, a: nat, p: nat)
    requires Followed(obs, hs, ident) && a <= p && TableOk(obs(a), hs(a), ident)
    ensures SameColumns(obs(a), obs(p), obs(a).tables[ident].uuid)
  {
    assert GrowsBetween(obs, hs, ident, a, p);
    var s, h := SliceOf(obs(a), ident), hs(a)[ident];
    forall x | x in s.schemas
      ensures ColumnsFor(obs(p).columns, x) == ColumnsFor(obs(a).columns, x)
              && |ColumnsFor(obs(a).columns, x)| <= MAX_COLUMNS_PER_SCHEMA
    {
      SliceColumns(obs(a), ident, x);
      SliceColumns(obs(p), ident, x);
      var i :| 0 <= i < |h.schemas| && h.schemas[i] == x;
      StoredSize(ColumnsFor(s.columns, x), h.specs[i]);
    }
  }

  lemma EventSeen(obs: Schedule, hs: nat -> map<TableIdent, Hist>, ident: TableIdent, a: nat, p: nat, k: nat)
    requires Followed(obs, hs, ident) && a <= p && TableOk(obs(a), hs(a), ident) && k < |hs(a)[ident].chain|
    ensures SeesEvent(obs(a), obs, p, obs(a).tables[ident].uuid, hs(a)[ident].chain[k])
    ensures SeesEvent(obs(a), Still(obs(a)), p, obs(a).tables[ident].uuid, hs(a)[ident].chain[k])
  {
    hide Followed, SliceOk, SameRows, SameColumns;
    RowsSeen(obs, hs, ident, a, p, k);
    RowsSeen(obs, hs, ident, a, p + 1, k);
    RowsSeen(obs, hs, ident, a, p + 2, k);
    RowsSeen(obs, hs, ident, a, a, k);
    ColumnsStay(obs, hs, ident, a, p + 3);
    ColumnsStay(obs, hs, ident, a, a);
  }

  lemma SameFacts(db: Db, obs: Schedule, p: nat, table: Uuid, t: TxnId)
    requires SeesEvent(db, obs, p, table, t)
    ensures FactsAt(obs, p, table, t) ==
              Facts(AddedIn(FilesIn(db.files, table), t).Keys, RemovedIn(FilesIn(db.files, table), t).Keys,
                    ChangedIn(SchemasIn(db.schemas, table), t).Keys, false)
  {
    var changed := ChangedIn(SchemasIn(obs(p + 2).schemas, table), t);
    forall x | x in changed ensures |ColumnsFor(obs(p + 3).columns, x)| <= MAX_COLUMNS_PER_SCHEMA {
      assert x in changed.Keys && x in ChangedIn(SchemasIn(db.schemas, table), t);
    }
  }

  // ---------- refreshing an event ----------

  /** The event with its file and schema rows as they stand in another state. */
  function Refresh(e: TxnEvent, files: map<Uuid, FileRow>, schemas: map<Uuid, SchemaRow>): TxnEvent {
    TxnEvent(e.txn,
             seq(|e.changes|, i requires 0 <= i < |e.changes| =>
               if e.changes[i].uuid in files then e.changes[i].(file := files[e.changes[i].uuid]) else e.changes[i]),
             match e.schema
             case Some(v) => Some(if v.uuid in schemas then v.(row := schemas[v.uuid]) else v)
             case None => None)
  }

  /** The parts of a change and of an event that no later commit touches. */
  predicate SameChange(a: FileChange, b: FileChange) {
    a.txn == b.txn && a.kind == b.kind && a.uuid == b.uuid && FixedFile(a.file) == FixedFile(b.file)
  }

  predicate SameEvent(a: TxnEvent, b: TxnEvent) {
    && a.txn == b.txn && |a.changes| == |b.changes|
    && (forall i :: 0 <= i < |a.changes| ==> SameChange(a.changes[i], b.changes[i]))
    && match (a.schema, b.schema)
       case (Some(v), Some(w)) => v.uuid == w.uuid && FixedSchema(v.row) == FixedSchema(w.row) && v.columns == w.columns
       case (None, None) => true
       case _ => false
  }

  predicate SameListing(a: Result<seq<TxnEvent>>, b: Result<seq<TxnEvent>>) {
    match (a, b)
    case (Ok(xs), Ok(ys)) => |xs| == |ys| && forall i :: 0 <= i < |xs| ==> SameEvent(xs[i], ys[i])
    case (Err(e), Err(f)) => e == f
    case _ => false
  }

  lemma RefreshLists(rows: map<Uuid, FileRow>, now: map<Uuid, FileRow>, all: map<Uuid, FileRow>,
                     kind: ChangeKind, t: TxnId, list: seq<FileChange>, list2: seq<FileChange>)
    requires Lists(rows, kind, t, list) && rows.Keys == now.Keys
    requires forall u :: u in now ==> u in all && all[u] == now[u]
    requires |list2| == |list| && forall i :: 0 <= i < |list| ==>
               list2[i] == if list[i].uuid in all then list[i].(file := all[list[i].uuid]) else list[i]
    ensures Lists(now, kind, t, list2)
  {
    forall u | u in now ensures ListsFile(list2, u) {
      assert ListsFile(list, u);
      var i :| 0 <= i < |list| && list[i].uuid == u;
      assert list2[i].uuid == u;
    }
  }

  lemma RefreshEvent(
    a: map<Uuid, FileRow>, r: map<Uuid, FileRow>, x: map<Uuid, SchemaRow>, columns: set<ColumnRow>,
    s: Slice, columns2: set<ColumnRow>, t: TxnId, e: TxnEvent)
    requires IsEvent(a, r, x, columns, t, e)
    requires AddedIn(a, t).Keys == AddedIn(s.files, t).Keys && RemovedIn(r, t).Keys == RemovedIn(s.files, t).Keys
    requires ChangedIn(x, t).Keys == ChangedIn(s.schemas, t).Keys
    requires forall y :: y in ChangedIn(s.schemas, t) ==> ColumnsFor(columns, y) == ColumnsFor(columns2, y)
    ensures IsEvent(s.files, s.files, s.schemas, columns2, t, Refresh(e, s.files, s.schemas))
  {
    hide Lists, IsSchemaChange;
    var n :| 0 <= n <= |e.changes| && Lists(AddedIn(a, t), Added, t, e.changes[..n])
      && Lists(RemovedIn(r, t), Removed, t, e.changes[n..]);
    var e2 := Refresh(e, s.files, s.schemas);
    RefreshLists(AddedIn(a, t), AddedIn(s.files, t), s.files, Added, t, e.changes[..n], e2.changes[..n]);
    RefreshLists(RemovedIn(r, t), RemovedIn(s.files, t), s.files, Removed, t, e.changes[n..], e2.changes[n..]);
    RefreshSchema(x, columns, s, columns2, t, e);
  }

  lemma RefreshSchema(
    x: map<Uuid, SchemaRow>, columns: set<ColumnRow>, s: Slice, columns2: set<ColumnRow>, t: TxnId, e: TxnEvent)
    requires IsSchemaChange(x, columns, t, e.schema) && ChangedIn(x, t).Keys == ChangedIn(s.schemas, t).Keys
    requires forall y :: y in ChangedIn(s.schemas, t) ==> ColumnsFor(columns, y) == ColumnsFor(columns2, y)
    ensures IsSchemaChange(s.schemas, columns2, t, Refresh(e, s.files, s.schemas).schema)
  {
    if e.schema.Some? {
      assert e.schema.value.uuid in ChangedIn(x, t).Keys;
    } else {
      forall y ensures y !in ChangedIn(s.schemas, t) { assert y !in ChangedIn(x, t).Keys; }
    }
  }

  lemma RefreshKeepsFixed(
    a: map<Uuid, FileRow>, r: map<Uuid, FileRow>, x: map<Uuid, SchemaRow>, columns: set<ColumnRow>,
    s: Slice, t: TxnId, e: TxnEvent)
    requires IsEvent(a, r, x, columns, t, e)
    requires forall u :: u in s.files && u in a ==> FixedFile(a[u]) == FixedFile(s.files[u])
    requires forall u :: u in s.files && u in r ==> FixedFile(r[u]) == FixedFile(s.files[u])
    requires forall y :: y in s.schemas && y in x ==> FixedSchema(x[y]) == FixedSchema(s.schemas[y])
    ensures SameEvent(e, Refresh(e, s.files, s.schemas))
  {
    var n :| 0 <= n <= |e.changes| && Lists(AddedIn(a, t), Added, t, e.changes[..n])
      && Lists(RemovedIn(r, t), Removed, t, e.changes[n..]);
    var e2 := Refresh(e, s.files, s.schemas);
    forall i | 0 <= i < |e.changes| ensures SameChange(e.changes[i], e2.changes[i]) {
      if i < n { assert e.changes[..n][i] == e.changes[i]; } else { assert e.changes[n..][i - n] == e.changes[i]; }
    }
  }

  /** An event read from query p on, refreshed, is the event of state db. */
  lemma EventStable(db: Db, obs: Schedule, p: nat, ident: TableIdent, t: TxnId, e: TxnEvent)
    requires ident in db.tables && SeesEvent(db, obs, p, db.tables[ident].uuid, t)
    requires var table := db.tables[ident].uuid;
             IsEvent(FilesIn(obs(p).files, table), FilesIn(obs(p + 1).files, table),
               SchemasIn(obs(p + 2).schemas, table),
                     obs(p + 3).columns, t, e)
    ensures var s := SliceOf(db, ident);
            && IsEvent(s.files, s.files, s.schemas, db.columns, t, Refresh(e, s.files, s.schemas))
            && SameEvent(e, Refresh(e, s.files, s.schemas))
  {
    var s, table := SliceOf(db, ident), db.tables[ident].uuid;
    var x, y, z := FilesIn(obs(p).files, table), FilesIn(obs(p + 1).files, table), SchemasIn(obs(p + 2).schemas, table);
    RefreshEvent(x, y, z, obs(p + 3).columns, s, db.columns, t, e);
    RefreshKeepsFixed(x, y, z, obs(p + 3).columns, s, t, e);
  }

  // ---------- linearization ----------

  /** From query a on, every query sees the parents recorded in the chain of state a. */
  lemma ParentsSeenSince(obs: Schedule, hs: nat -> map<TableIdent, Hist>, ident: TableIdent, a: nat)
    requires Followed(obs, hs, ident) && TableOk(obs(a), hs(a), ident)
    ensures var table, c := obs(a).tables[ident].uuid, hs(a)[ident].chain;
            ParentsSeenFrom(obs, table, c, a) && ParentsSeenFrom(Still(obs(a)), table, c, 0)
  {
    var table, c := obs(a).tables[ident].uuid, hs(a)[ident].chain;
    forall p: nat, k: nat | a <= p && k < |c| ensures ParentSeen(obs, table, c, p, k) {
      assert GrowsBetween(obs, hs, ident, a, p);
      ParentStable(SliceOf(obs(a), ident), hs(a)[ident], SliceOf(obs(p), ident), hs(p)[ident], k);
    }
    forall p: nat, k: nat | k < |c| ensures ParentSeen(Still(obs(a)), table, c, p, k) {
      assert ParentSeen(obs, table, c, a, k);
    }
  }

  /** A walk that always sees the parents of a chain is also a walk of any other schedule that does. */
  lemma SameWalk(
    obs: Schedule, obs2: Schedule, q: nat, table: Uuid, c: seq<TxnId>, from: Option<TxnId>, path: seq<TxnId>,
    end: SegmentEnd, j: nat)
    requires ParentsSeenFrom(obs, table, c, q)
    requires ParentsSeenFrom(obs2, table, c, q)
    requires Distinct(c) && j < |c| && SegmentWalk(obs, q, table, from, path, end) && path[0] == c[j]
    ensures SegmentWalk(obs2, q, table, from, path, end)
  {
    var last := |path| - 1;
    forall i | 0 <= i < last ensures SegmentStep(obs2, q, table, from, path, i) {
      SegmentDescends(obs, q, table, c, from, path, end, j, i);
      assert SegmentStep(obs, q, table, from, path, i);
      assert ParentSeen(obs, table, c, q + i, j - i) && ParentSeen(obs2, table, c, q + i, j - i);
    }
    SegmentDescends(obs, q, table, c, from, path, end, j, last);
    assert ParentSeen(obs, table, c, q + last, j - last) && ParentSeen(obs2, table, c, q + last, j - last);
  }

  /** Event queries that see the rows of state db return that state's events. */
  lemma EventListStable(db: Db, obs: Schedule, q: nat, ident: TableIdent, txns: seq<TxnId>, r: Result<seq<TxnEvent>>)
    returns (r0: Result<seq<TxnEvent>>)
    requires ident in db.tables && IsEventList(obs, q, db.tables[ident].uuid, txns, r)
    requires forall i :: 0 <= i < |txns| ==> SeesEvent(db, obs, q + 4 * i, db.tables[ident].uuid, txns[i])
    requires forall i :: 0 <= i < |txns| ==> SeesEvent(db, Still(db), q + 4 * i, db.tables[ident].uuid, txns[i])
    ensures IsEventList(Still(db), q, db.tables[ident].uuid, txns, r0) && SameListing(r, r0)
  {
    hide SeesEvent, IsEvent, FactsAt, FirstFault;
    var s, table := SliceOf(db, ident), db.tables[ident].uuid;
    forall i | 0 <= i < |txns|
      ensures FactsAt(obs, q + 4 * i, table, txns[i]) == FactsAt(Still(db), q + 4 * i, table, txns[i]) {
      SameFacts(db, obs, q + 4 * i, table, txns[i]);
      SameFacts(db, Still(db), q + 4 * i, table, txns[i]);
    }
    assert AllFacts(obs, q, table, txns) == AllFacts(Still(db), q, table, txns);
    r0 := r;
    if r.Ok? {
      var events := seq(|txns|, i requires 0 <= i < |txns| => Refresh(r.value[i], s.files, s.schemas));
      forall i | 0 <= i < |txns|
        ensures EventAt(Still(db), q, table, txns, events, i) && SameEvent(r.value[i], events[i])
      {
        assert EventAt(obs, q, table, txns, r.value, i);
        EventStable(db, obs, q + 4 * i, ident, txns[i], r.value[i]);
      }
      r0 := Ok(events);
    }
  }

  lemma SegmentSeen(
    obs: Schedule, hs: nat -> map<TableIdent, Hist>, ident: TableIdent, a: nat, q: nat, lo: nat, hi: nat)
    requires Followed(obs, hs, ident) && a <= q && TableOk(obs(a), hs(a), ident) && lo <= hi <= |hs(a)[ident].chain|
    ensures var table, txns := obs(a).tables[ident].uuid, hs(a)[ident].chain[lo..hi];
            && (forall i :: 0 <= i < |txns| ==> SeesEvent(obs(a), obs, q + 4 * i, table, txns[i]))
            && (forall i :: 0 <= i < |txns| ==> SeesEvent(obs(a), Still(obs(a)), q + 4 * i, table, txns[i]))
  {
    hide Followed, SliceOk, SeesEvent;
    var table, txns := obs(a).tables[ident].uuid, hs(a)[ident].chain[lo..hi];
    forall i | 0 <= i < |txns|
      ensures SeesEvent(obs(a), obs, q + 4 * i, table, txns[i])
              && SeesEvent(obs(a), Still(obs(a)), q + 4 * i, table, txns[i])
    {
      EventSeen(obs, hs, ident, a, q + 4 * i, lo + i);
    }
  }

  /** An interleaved listing whose target is in the history of state a, read no later than the walk. */
  lemma ListingStable(
    obs: Schedule, hs: nat -> map<TableIdent, Hist>, ident: TableIdent, a: nat, from: Option<TxnId>, to: TxnId,
    path: seq<TxnId>, end: SegmentEnd, r: Result<seq<TxnEvent>>) returns (r0: Result<seq<TxnEvent>>)
    requires Followed(obs, hs, ident) && a <= 2 && TableOk(obs(a), hs(a), ident) && to in hs(a)[ident].chain
    requires path != [] && path[0] == to && IsListingAlong(obs, obs(a).tables[ident].uuid, from, path, end, r)
    ensures IsListingAlong(Still(obs(a)), obs(a).tables[ident].uuid, from, path, end, r0) && SameListing(r, r0)
    ensures r != Err(UnknownTransaction)
  {
    hide Followed, SeesEvent, IsEventList, FilesOk, SchemasOk, ColumnsOk, EvolutionOk, ParentsSeenFrom, SegmentWalk,
      SameEvent, Spells, Distinct, LowEnd, ChainEnd;
    var c, table := hs(a)[ident].chain, obs(a).tables[ident].uuid;
    var j := Index(c, to);
    ParentsSeenSince(obs, hs, ident, a);
    ListingFollows(obs(a), obs, table, c, from, path, end, j, r);
    r0 := r;
    if end.Reached? {
      SegmentSeen(obs, hs, ident, a, 2 + |path|, LowEnd(c, from, j), j + 1);
      r0 := EventListStable(obs(a), obs, 2 + |path|, ident, Reverse(path), r);
    }
  }

  lemma ListingFollows(
    db: Db, obs: Schedule, table: Uuid, c: seq<TxnId>, from: Option<TxnId>, path: seq<TxnId>, end: SegmentEnd, j: nat,
    r: Result<seq<TxnEvent>>)
    requires Distinct(c) && j < |c| && ParentsSeenFrom(obs, table, c, 2) && ParentsSeenFrom(Still(db), table, c, 0)
    requires path != [] && path[0] == c[j] && IsListingAlong(obs, table, from, path, end, r)
    ensures SegmentWalk(Still(db), 2, table, from, path, end) && end == ChainEnd(c, from, j)
    ensures end.Reached? ==> Reverse(path) == c[LowEnd(c, from, j)..j + 1]
    ensures r != Err(UnknownTransaction)
  {
    ChainWalkExact(obs, 2, table, c, from, path, end, j);
    SameWalk(obs, Still(db), 2, table, c, from, path, end, j);
    if end.Reached? { FaultsAreLimits(AllFacts(obs, 2 + |path|, table, Reverse(path)), |path|); }
  }

  lemma {:induction false} FaultsAreLimits(facts: seq<Facts>, n: nat)
    requires n <= |facts|
    ensures FirstFault(facts, n) != Some(UnknownTransaction)
  {
    if n > 0 { FaultsAreLimits(facts, n - 1); }
  }

  /** State a can stand for the whole listing: an atomic listing of a has the same outcome. */
  ghost predicate Linearizes(
    obs: Schedule, ident: TableIdent, a: nat, from: Option<TxnId>, to: TxnId, r: Result<seq<TxnEvent>>)
  {
    exists r0 :: IsListing(Still(obs(a)), ident, from, to, r0) && SameListing(r, r0)
  }

  /** What every state between query 0 and query b says about the table's row and transactions. */
  lemma TableSeen(obs: Schedule, hs: nat -> map<TableIdent, Hist>, ident: TableIdent, a: nat, b: nat)
    requires Followed(obs, hs, ident) && a <= b
    ensures TableOk(obs(0), hs(0), ident) && TableOk(obs(a), hs(a), ident) && TableOk(obs(b), hs(b), ident)
    ensures obs(a).tables[ident].uuid == obs(b).tables[ident].uuid == obs(0).tables[ident].uuid
    ensures hs(0)[ident].chain <= hs(a)[ident].chain <= hs(b)[ident].chain
    ensures forall t :: t in TxnsIn(obs(a).txns, obs(0).tables[ident].uuid) <==> t in hs(a)[ident].chain
    ensures forall t :: t in TxnsIn(obs(b).txns, obs(0).tables[ident].uuid) <==> t in hs(b)[ident].chain
  {
    assert GrowsBetween(obs, hs, ident, 0, a) && GrowsBetween(obs, hs, ident, a, b);
    assert SliceOf(obs(a), ident).txns == TxnsIn(obs(a).txns, obs(0).tables[ident].uuid);
    assert SliceOf(obs(b), ident).txns == TxnsIn(obs(b).txns, obs(0).tables[ident].uuid);
  }

  lemma KnownTarget(
    obs: Schedule, hs: nat -> map<TableIdent, Hist>, ident: TableIdent, a: nat, from: Option<TxnId>, to: TxnId,
    r: Result<seq<TxnEvent>>)
    requires Followed(obs, hs, ident) && IsListing(obs, ident, from, to, r) && a <= 1
    requires TableOk(obs(a), hs(a), ident) && to in hs(a)[ident].chain
    ensures Linearizes(obs, ident, a, from, to, r) && r != Err(UnknownTransaction)
  {
    hide Followed, Grows, FilesOk, SchemasOk, ColumnsOk, EvolutionOk;
    TableSeen(obs, hs, ident, a, 1);
    var path, end :| path != [] && path[0] == to && IsListingAlong(obs, obs(a).tables[ident].uuid, from, path, end, r);
    var r0 := ListingStable(obs, hs, ident, a, from, to, path, end, r);
    assert IsListing(Still(obs(a)), ident, from, to, r0);
  }

  lemma UnknownTarget(
    obs: Schedule, hs: nat -> map<TableIdent, Hist>, ident: TableIdent, a: nat, from: Option<TxnId>, to: TxnId,
    r: Result<seq<TxnEvent>>)
    requires Followed(obs, hs, ident) && IsListing(obs, ident, from, to, r) && a <= 1
    requires TableOk(obs(1), hs(1), ident) && to !in hs(1)[ident].chain
    ensures Linearizes(obs, ident, a, from, to, r) && r == Err(UnknownTransaction)
  {
    hide Followed, Grows, FilesOk, SchemasOk, ColumnsOk, EvolutionOk;
    TableSeen(obs, hs, ident, a, 1);
    assert Last(hs(0)[ident].chain) in hs(1)[ident].chain && Last(hs(a)[ident].chain) in hs(1)[ident].chain;
    assert IsListing(Still(obs(a)), ident, from, to, r);
  }

  /** Listings are linearizable: whatever commits fall between the queries of one listing, its outcome is
      that of an atomic listing of the state its second query, the existence check, sees. */
  lemma InterleavedListingIsAtomic(
    obs: Schedule, hs: nat -> map<TableIdent, Hist>, ident: TableIdent, from: Option<TxnId>, to: TxnId,
    r: Result<seq<TxnEvent>>)
    requires Followed(obs, hs, ident) && IsListing(obs, ident, from, to, r)
    ensures Linearizes(obs, ident, 1, from, to, r)
  {
    TableSeen(obs, hs, ident, 0, 1);
    if to in hs(1)[ident].chain {
      KnownTarget(obs, hs, ident, 1, from, to, r);
    } else {
      UnknownTarget(obs, hs, ident, 1, from, to, r);
    }
  }

  /** The state of the first query can stand for the listing exactly when the target was not published
      between the first query and the existence check. */
  lemma FirstQueryLinearizesIff(
    obs: Schedule, hs: nat -> map<TableIdent, Hist>, ident: TableIdent, from: Option<TxnId>, to: TxnId,
    r: Result<seq<TxnEvent>>)
    requires Followed(obs, hs, ident) && IsListing(obs, ident, from, to, r) && ident in obs(0).tables
    ensures var table := obs(0).tables[ident].uuid;
            Linearizes(obs, ident, 0, from, to, r) <==>
              to in TxnsIn(obs(0).txns, table) || to !in TxnsIn(obs(1).txns, table)
  {
    hide Followed, Grows, FilesOk, SchemasOk, ColumnsOk, EvolutionOk, IsListingAlong;
    TableSeen(obs, hs, ident, 0, 1);
    if to !in hs(1)[ident].chain {
      UnknownTarget(obs, hs, ident, 0, from, to, r);
    } else if to in hs(0)[ident].chain {
      KnownTarget(obs, hs, ident, 0, from, to, r);
    } else {
      KnownTarget(obs, hs, ident, 1, from, to, r);
      assert obs(0).tables[ident].head != Some(to);
    }
  }

  // ---------- what a listing covers ----------

  /** An atomic listing in terms of the history alone: the target must be in it, the boundary must lie
      before the target, and the events are those of the positions in between, oldest first. The cycle
      and missing-row errors do not occur. */
  lemma ListingCovers(
    db: Db, hs: map<TableIdent, Hist>, ident: TableIdent, from: Option<TxnId>, to: TxnId, r: Result<seq<TxnEvent>>)
    requires TableOk(db, hs, ident) && IsListing(Still(db), ident, from, to, r)
    ensures var c := hs[ident].chain;
            if to !in c then r == Err(UnknownTransaction)
            else match ChainEnd(c, from, Index(c, to))
                 case TooLong => r == Err(TooManyTransactions)
                 case NoBoundary => r == Err(NotAncestor)
                 case _ => IsEventList(Still(db), 0, db.tables[ident].uuid,
                   c[LowEnd(c, from, Index(c, to))..Index(c, to) + 1], r)
  {
    hide Followed, SliceOk, IsListingAlong, ChainEnd, LowEnd, Index, IsEventList;
    var obs: Schedule, hist: nat -> map<TableIdent, Hist> := Still(db), _ => hs;
    StillFollowed(db, hs, ident);
    TableSeen(obs, hist, ident, 0, 0);
    HeadListed(db, hs, ident);
    if to in hs[ident].chain {
      var path, end :| path != [] && path[0] == to && IsListingAlong(obs, db.tables[ident].uuid, from, path, end, r);
      ListingCoversAlong(db, hs, ident, from, to, path, end, r);
    }
  }

  lemma HeadListed(db: Db, hs: map<TableIdent, Hist>, ident: TableIdent)
    requires TableOk(db, hs, ident)
    ensures db.tables[ident].head.Some? && db.tables[ident].head.value in hs[ident].chain
  {
  }

  lemma ListingCoversAlong(
    db: Db, hs: map<TableIdent, Hist>, ident: TableIdent, from: Option<TxnId>, to: TxnId, path: seq<TxnId>,
    end: SegmentEnd,
    r: Result<seq<TxnEvent>>)
    requires TableOk(db, hs, ident) && to in hs[ident].chain
    requires path != [] && path[0] == to && IsListingAlong(Still(db), db.tables[ident].uuid, from, path, end, r)
    ensures var c := hs[ident].chain;
            match ChainEnd(c, from, Index(c, to))
            case TooLong => r == Err(TooManyTransactions)
            case NoBoundary => r == Err(NotAncestor)
            case _ => IsEventList(Still(db), 0, db.tables[ident].uuid,
              c[LowEnd(c, from, Index(c, to))..Index(c, to) + 1], r)
  {
    hide Followed, FilesOk, SchemasOk, ColumnsOk, EvolutionOk, SegmentWalk, IsEventList, ParentsSeenFrom, Spells;
    var obs: Schedule, hist: nat -> map<TableIdent, Hist>, c, table := Still(db), _ => hs, hs[ident].chain,
      db.tables[ident].uuid;
    StillFollowed(db, hs, ident);
    ParentsSeenSince(obs, hist, ident, 0);
    ChainWalkExact(obs, 2, table, c, from, path, end, Index(c, to));
    if end.Reached? { StillEventList(db, 2 + |path|, table, Reverse(path), r); }
  }

  lemma StillEventList(db: Db, q: nat, table: Uuid, txns: seq<TxnId>, r: Result<seq<TxnEvent>>)
    requires IsEventList(Still(db), q, table, txns, r)
    ensures IsEventList(Still(db), 0, table, txns, r)
  {
    assert AllFacts(Still(db), 0, table, txns) == AllFacts(Still(db), q, table, txns);
    if r.Ok? {
      forall i | 0 <= i < |txns| ensures EventAt(Still(db), 0, table, txns, r.value, i) {
        assert EventAt(Still(db), q, table, txns, r.value, i);
      }
    }
  }
}
