/** What a table's readers see depends on its own slice only, so commits on other tables never show. */
module Framing {
  import opened CatalogTypes
  import opened Statements
  import opened History
  import opened Commits
  import opened Views
  import opened Readers
  import opened Events
  import opened Diff

  ghost predicate Constant(obs: Schedule, db: Db) {
    forall k: nat :: obs(k) == db
  }

  ghost predicate SameTable(db: Db, db2: Db, ident: TableIdent) {
    ident in db.tables && ident in db2.tables && SliceOf(db, ident) == SliceOf(db2, ident)
  }

  /** Two unchanging schedules that agree on the table. */
  ghost predicate Alike(obs: Schedule, db: Db, obs2: Schedule, db2: Db, ident: TableIdent) {
    Constant(obs, db) && Constant(obs2, db2) && SameTable(db, db2, ident)
  }

  lemma AlikeRows(obs: Schedule, db: Db, obs2: Schedule, db2: Db, ident: TableIdent, k: nat, table: Uuid)
    requires Alike(obs, db, obs2, db2, ident) && table == db.tables[ident].uuid
    ensures TxnsIn(obs(k).txns, table) == TxnsIn(obs2(k).txns, table)
    ensures SchemasIn(obs(k).schemas, table) == SchemasIn(obs2(k).schemas, table)
    ensures FilesIn(obs(k).files, table) == FilesIn(obs2(k).files, table)
    ensures obs(k).tables[ident] == obs2(k).tables[ident]
  {
    var s, s2 := SliceOf(db, ident), SliceOf(db2, ident);
    assert s.row == s2.row && s.txns == s2.txns && s.schemas == s2.schemas && s.files == s2.files;
  }

  lemma AlikeColumns(obs: Schedule, db: Db, obs2: Schedule, db2: Db, ident: TableIdent, k: nat, x: Uuid)
    requires Alike(obs, db, obs2, db2, ident) && x in SliceOf(db, ident).schemas
    ensures ColumnsFor(obs(k).columns, x) == ColumnsFor(obs2(k).columns, x)
  {
    SliceColumns(db, ident, x);
    SliceColumns(db2, ident, x);
  }

  // ---------- reads ----------

  lemma WalkAlike(
    obs: Schedule, db: Db, obs2: Schedule, db2: Db, ident: TableIdent, q: nat, t: TxnId, path: seq<TxnId>, end: WalkEnd)
    requires Alike(obs, db, obs2, db2, ident) && HeadWalk(obs, q, db.tables[ident].uuid, t, path, end)
    ensures HeadWalk(obs2, q, db.tables[ident].uuid, t, path, end)
  {
    var table := db.tables[ident].uuid;
    forall i | 0 <= i < |path| - 1 ensures WalkStep(obs2, q, table, t, path, i) {
      assert WalkStep(obs, q, table, t, path, i);
      AlikeRows(obs, db, obs2, db2, ident, q + i, table);
    }
    AlikeRows(obs, db, obs2, db2, ident, q + (|path| - 1), table);
  }

  lemma SnapshotAlike(
    obs: Schedule, db: Db, obs2: Schedule, db2: Db, ident: TableIdent, q: nat, t: TxnId, r: Result<View>)
    requires Alike(obs, db, obs2, db2, ident) && IsSnapshot(obs, q, db.tables[ident], t, r)
    ensures IsSnapshot(obs2, q, db.tables[ident], t, r)
  {
    var row := db.tables[ident];
    AlikeRows(obs, db, obs2, db2, ident, q, row.uuid);
    AlikeRows(obs, db, obs2, db2, ident, q + 2, row.uuid);
    var schemas := SchemasIn(obs(q).schemas, row.uuid);
    if exists x :: x in schemas && Covers(schemas[x], t) {
      var x :| x in schemas && Covers(schemas[x], t) && IsSnapshotOf(obs, q, row, t, x, r);
      AlikeColumns(obs, db, obs2, db2, ident, q + 1, x);
      assert IsSnapshotOf(obs2, q, row, t, x, r);
    }
  }

  lemma ReadAlike(
    obs: Schedule, db: Db, obs2: Schedule, db2: Db, env: Env, ident: TableIdent, at: Option<TxnId>, r: Result<View>)
    requires Alike(obs, db, obs2, db2, ident) && IsRead(obs, env, ident, at, r)
    ensures IsRead(obs2, env, ident, at, r)
  {
    hide HeadWalk, IsSnapshot, SliceOf;
    var row := db.tables[ident];
    AlikeRows(obs, db, obs2, db2, ident, 0, row.uuid);
    if env.reader >= row.minReader && row.head.Some? {
      var t := at.GetOr(row.head.value);
      var path, end :| IsReadAlong(obs, row, t, path, end, r);
      WalkAlike(obs, db, obs2, db2, ident, 1, t, path, end);
      if end.Found? { SnapshotAlike(obs, db, obs2, db2, ident, |path|, t, r); }
      assert IsReadAlong(obs2, row, t, path, end, r);
    }
  }

  // ---------- listings ----------

  lemma SegmentAlike(
    obs: Schedule, db: Db, obs2: Schedule, db2: Db, ident: TableIdent, q: nat, from: Option<TxnId>, path: seq<TxnId>,
    end: SegmentEnd)
    requires Alike(obs, db, obs2, db2, ident) && SegmentWalk(obs, q, db.tables[ident].uuid, from, path, end)
    ensures SegmentWalk(obs2, q, db.tables[ident].uuid, from, path, end)
  {
    var table := db.tables[ident].uuid;
    forall i | 0 <= i < |path| - 1 ensures SegmentStep(obs2, q, table, from, path, i) {
      assert SegmentStep(obs, q, table, from, path, i);
      AlikeRows(obs, db, obs2, db2, ident, q + i, table);
    }
    AlikeRows(obs, db, obs2, db2, ident, q + (|path| - 1), table);
  }

  lemma FactsAlike(obs: Schedule, db: Db, obs2: Schedule, db2: Db, ident: TableIdent, p: nat, t: TxnId)
    requires Alike(obs, db, obs2, db2, ident)
    ensures FactsAt(obs, p, db.tables[ident].uuid, t) == FactsAt(obs2, p, db.tables[ident].uuid, t)
  {
    var table := db.tables[ident].uuid;
    AlikeRows(obs, db, obs2, db2, ident, p, table);
    AlikeRows(obs, db, obs2, db2, ident, p + 1, table);
    AlikeRows(obs, db, obs2, db2, ident, p + 2, table);
    forall x | x in SliceOf(db, ident).schemas
      ensures ColumnsFor(obs(p + 3).columns, x) == ColumnsFor(obs2(p + 3).columns, x) {
      AlikeColumns(obs, db, obs2, db2, ident, p + 3, x);
    }
  }

  lemma EventAlike(
    obs: Schedule, db: Db, obs2: Schedule, db2: Db, ident: TableIdent, q: nat, txns: seq<TxnId>, events: seq<TxnEvent>,
    i: nat)
    requires Alike(obs, db, obs2, db2, ident) && i < |txns| == |events|
    requires EventAt(obs, q, db.tables[ident].uuid, txns, events, i)
    ensures EventAt(obs2, q, db.tables[ident].uuid, txns, events, i)
  {
    hide Lists;
    var table, p := db.tables[ident].uuid, q + 4 * i;
    AlikeRows(obs, db, obs2, db2, ident, p, table);
    AlikeRows(obs, db, obs2, db2, ident, p + 1, table);
    AlikeRows(obs, db, obs2, db2, ident, p + 2, table);
    var f, x := FilesIn(db.files, table), SchemasIn(db.schemas, table);
    assert IsEvent(f, f, x, obs(p + 3).columns, txns[i], events[i]);
    if events[i].schema.Some? { AlikeColumns(obs, db, obs2, db2, ident, p + 3, events[i].schema.value.uuid); }
    assert IsEvent(f, f, x, obs2(p + 3).columns, txns[i], events[i]);
  }

  lemma EventListAlike(
    obs: Schedule, db: Db, obs2: Schedule, db2: Db, ident: TableIdent, q: nat, txns: seq<TxnId>,
    r: Result<seq<TxnEvent>>)
    requires Alike(obs, db, obs2, db2, ident) && IsEventList(obs, q, db.tables[ident].uuid, txns, r)
    ensures IsEventList(obs2, q, db.tables[ident].uuid, txns, r)
  {
    hide Constant, SliceOf, EventAt, FactsAt, FirstFault;
    var table := db.tables[ident].uuid;
    forall i: nat | i < |txns|
      ensures FactsAt(obs, q + 4 * i, table, txns[i]) == FactsAt(obs2, q + 4 * i, table, txns[i]) {
      FactsAlike(obs, db, obs2, db2, ident, q + 4 * i, txns[i]);
    }
    assert AllFacts(obs, q, table, txns) == AllFacts(obs2, q, table, txns);
    if r.Ok? {
      forall i | 0 <= i < |txns| ensures EventAt(obs2, q, table, txns, r.value, i) {
        EventAlike(obs, db, obs2, db2, ident, q, txns, r.value, i);
      }
    }
  }

  lemma ListingAlike(
    obs: Schedule, db: Db, obs2: Schedule, db2: Db, ident: TableIdent, from: Option<TxnId>, to: TxnId,
    r: Result<seq<TxnEvent>>)
    requires Alike(obs, db, obs2, db2, ident) && IsListing(obs, ident, from, to, r)
    ensures IsListing(obs2, ident, from, to, r)
  {
    hide SegmentWalk, IsEventList, SliceOf;
    var row := db.tables[ident];
    AlikeRows(obs, db, obs2, db2, ident, 0, row.uuid);
    AlikeRows(obs, db, obs2, db2, ident, 1, row.uuid);
    if row.head.Some? && (row.head.value == to || to in TxnsIn(obs(1).txns, row.uuid)) {
      var path, end :| path != [] && path[0] == to && IsListingAlong(obs, row.uuid, from, path, end, r);
      SegmentAlike(obs, db, obs2, db2, ident, 2, from, path, end);
      if end.Reached? { EventListAlike(obs, db, obs2, db2, ident, 2 + |path|, Reverse(path), r); }
      assert IsListingAlong(obs2, row.uuid, from, path, end, r);
    }
  }

  // ---------- diffs ----------

  lemma DiffAlike(
    obs: Schedule, db: Db, obs2: Schedule, db2: Db, env: Env, ident: TableIdent, from: TxnId, to: TxnId,
    r: Result<TableDelta>)
    requires Alike(obs, db, obs2, db2, ident) && IsDiff(obs, env, ident, from, to, r)
    ensures IsDiff(obs2, env, ident, from, to, r)
  {
    hide IsListing, IsRead, SameTable;
    var listing :| IsListing(obs, ident, Some(from), to, listing) && IsDiffAfter(obs, env, ident, from, to, listing, r);
    ListingAlike(obs, db, obs2, db2, ident, Some(from), to, listing);
    if listing.Ok? {
      var q: nat, a :| 2 <= q && IsRead(Shift(obs, q), env, ident, Some(from), a)
                       && IsDiffRead(obs, env, ident, from, to, listing.value, q, a, r);
      ReadAlike(Shift(obs, q), db, Shift(obs2, q), db2, env, ident, Some(from), a);
      if a.Ok? {
        var p: nat, b :| q <= p && IsRead(Shift(obs, p), env, ident, Some(to), b)
                         && r == if b.Err? then Err(b.error)
                            else Ok(Project(from, to, listing.value, a.value, b.value));
        ReadAlike(Shift(obs, p), db, Shift(obs2, p), db2, env, ident, Some(to), b);
      }
      assert IsDiffRead(obs2, env, ident, from, to, listing.value, q, a, r);
    }
    assert IsDiffAfter(obs2, env, ident, from, to, listing, r);
  }

  /** Table framing: a commit on one table, even one whose deletes name another table's files, changes no view,
      event list or diff of any other table. */
  lemma CommitFramesOtherTables(
    env: Env, db: Db, hs: map<TableIdent, Hist>, req: Request, reader: Env, ident: TableIdent, at: Option<TxnId>,
    from: Option<TxnId>, a: TxnId, b: TxnId, view: Result<View>, events: Result<seq<TxnEvent>>,
    delta: Result<TableDelta>)
    requires Inv(db, hs) && CommitWrites(env, db, req).Ok? && ident in db.tables && ident != req.ident
    ensures var db2 := Over(db, CommitWrites(env, db, req).value);
            && (IsRead(Still(db), reader, ident, at, view) <==> IsRead(Still(db2), reader, ident, at, view))
            && (IsListing(Still(db), ident, from, b, events) <==> IsListing(Still(db2), ident, from, b, events))
            && (IsDiff(Still(db), reader, ident, a, b, delta) <==> IsDiff(Still(db2), reader, ident, a, b, delta))
  {
    hide Inv, IsRead, IsListing, IsDiff, CommitWrites, SliceOf;
    CommitSteps(env, db, hs, req);
    var db2 := Over(db, CommitWrites(env, db, req).value);
    assert Alike(Still(db), db, Still(db2), db2, ident) && Alike(Still(db2), db2, Still(db), db, ident);
    if IsRead(Still(db), reader, ident, at, view) {
      ReadAlike(Still(db), db, Still(db2), db2, reader, ident, at, view);
    }
    if IsRead(Still(db2), reader, ident, at, view) {
      ReadAlike(Still(db2), db2, Still(db), db, reader, ident, at, view);
    }
    if IsListing(Still(db), ident, from, b, events) {
      ListingAlike(Still(db), db, Still(db2), db2, ident, from, b, events);
    }
    if IsListing(Still(db2), ident, from, b, events) {
      ListingAlike(Still(db2), db2, Still(db), db, ident, from, b, events);
    }
    if IsDiff(Still(db), reader, ident, a, b, delta) {
      DiffAlike(Still(db), db, Still(db2), db2, reader, ident, a, b, delta);
    }
    if IsDiff(Still(db2), reader, ident, a, b, delta) {
      DiffAlike(Still(db2), db2, Still(db), db, reader, ident, a, b, delta);
    }
  }
}
