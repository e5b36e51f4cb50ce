/** The catalog itself: one database, its five operations as methods, and the history behind them. */
module Catalogs {
  import opened CatalogTypes
  import opened Limits
  import opened Validation
  import opened Statements
  import opened History
  import opened Commits
  import opened Mutations
  import opened Views
  import opened Readers
  import opened Events
  import opened Listings
  import opened Diff
  import opened Meaning
  import opened Acceptance
  import opened Answers
  import opened Effects
  import opened Queries

  lemma CurrentNamesUnique(s: Slice, h: Hist)
    requires SliceOk(s, h)
    ensures s.row.schema.Some? && UniqueNames(ColumnsFor(s.columns, s.row.schema.value))
  {
    hide FilesOk, ChainOk, EvolutionOk, SchemaOk;
    var n := |h.schemas| - 1;
    StoredNamesUnique(ColumnsFor(s.columns, h.schemas[n]), h.specs[n]);
  }

  lemma StoredNamesUnique(rows: set<ColumnRow>, spec: seq<ColumnSpec>)
    requires Stored(rows, spec) && ValidSchema(spec)
    ensures UniqueNames(rows)
  {
    forall a, b | a in rows && b in rows && a.name == b.name ensures a == b {
      assert spec[a.ordinal - 1].name == spec[b.ordinal - 1].name;
    }
  }

  /** Inside a commit, the columns of the current schema are those of the published state. */
  lemma BufferKeepsCurrent(env: Env, db: Db, h: Hist, req: Request, n: nat, w: Work)
    requires req.ident in db.tables && SliceOk(SliceOf(db, req.ident), h)
             && (forall c :: c in db.columns ==> c.schema in db.schemas)
    requires CheckMutation(req.ops).Ok? && Begin(env, db, req).Ok? && n <= |req.ops|
    requires var s := Begin(env, db, req).value; ExecOps(db, s.ctx, req.ops, n, s.work) == Ok(w)
    ensures var ctx := Begin(env, db, req).value.ctx;
            ctx.schema.Some? && UniqueNames(ColumnsFor(Over(db, w.ws).columns, ctx.schema.value))
  {
    hide SliceOk, ExecOps, UniqueNames, ValidSchema, CheckEvolution;
    var s := SliceOf(db, req.ident);
    HeadAndSchema(s, h);
    CurrentNamesUnique(s, h);
    var ctx, w0 := Begin(env, db, req).value.ctx, Begin(env, db, req).value.work;
    ScanOpsAccepts(req.ops, |req.ops|);
    assert req.ops[..|req.ops|] == req.ops;
    assert FoldOk(db, s, ctx, req.ops, 0, w0);
    FoldInstallsChange(db, s, ctx, req.ops, n, w0, w);
    BufferColumns(db, s, ctx, ChangeOf(ctx, req.ops, n, w), w.ws);
  }

  lemma BufferColumns(db: Db, s: Slice, ctx: Context, c: Change, ws: Db)
    requires ContextOk(s, ctx) && s.schemas == SchemasIn(db.schemas, ctx.table)
             && s.columns == ColumnsIn(db.columns, db.schemas, ctx.table)
    requires ws == Buffer(s, c) && c.ids == ctx.ids && SpecOk(db, s, ctx, c.spec)
    ensures ColumnsFor(Over(db, ws).columns, ctx.schema.value) == ColumnsFor(s.columns, ctx.schema.value)
  {
    if c.spec.Some? { ColumnRowsStored(c.ids.schema, c.ids, c.spec.value); }
    OwnColumns(db, ctx.table, ctx.schema.value);
  }

  class Catalog {
    const env: Env
    var db: Db
    ghost var hist: map<TableIdent, Hist>

    ghost predicate Valid()
      reads this
    {
      Inv(db, hist)
    }

    constructor (env: Env)
      ensures Valid() && db == EMPTY && this.env == env
    {
      this.env := env;
      db := EMPTY;
      hist := map[];
    }

    /** Creates a table with its first transaction and schema; an error leaves the database as it was. */
    method CreateTable(
      ident: TableIdent, columns: seq<ColumnSpec>, properties: Option<Properties>, ids: Ids)
      returns (r: Result<TxnId>)
      requires Valid()
      modifies this
      ensures Valid()
      ensures var w := CreateWrites(env, old(db), ident, columns, properties, ids);
              if w.Ok? then
                && r == Ok(ids.txn) && db == Over(old(db), w.value) && hist == old(hist)[ident := Genesis(ids, columns)]
                && ident in db.tables && SliceOf(db, ident) == NewSlice(env, columns, properties, ids)
                && OthersKept(old(db), db)
              else r == Err(w.error) && db == old(db) && hist == old(hist)
      ensures r.Ok? <==> CreateAcceptable(env, old(db), ident, columns, properties, ids)
      ensures ValidSchema(columns) && ident in old(db).tables ==> r == Err(TableExists)
    {
      hide Inv, SliceOf, NewSlice, CreateWrites, CreateAcceptable, ValidSchema;
      ColumnsOwned(db, hist);
      CreateOkIff(env, db, ident, columns, properties, ids);
      CreateReports(env, db, ident, columns, properties, ids);
      var prepared := PrepareTable(ident, columns, properties, ids);
      if prepared.Err? { return Err(prepared.error); }
      CreateSteps(env, db, hist, ident, columns, properties, ids);
      db := Over(db, prepared.value);
      hist := hist[ident := Genesis(ids, columns)];
      return Ok(ids.txn);
    }

    /** The rows of a new table, once its schema, its name and its keys are accepted. */
    method PrepareTable(
      ident: TableIdent, columns: seq<ColumnSpec>, properties: Option<Properties>, ids: Ids)
      returns (r: Result<Db>)
      ensures r == CreateWrites(env, db, ident, columns, properties, ids)
      ensures r.Ok? ==>
                && ValidSchema(columns) && ident !in db.tables && ids.txn !in db.txns
                && Stored(r.value.columns, columns)
    {
      var valid := ValidateSchema(columns);
      if valid.Err? { return Err(valid.error); }
      if ident in db.tables { return Err(TableExists); }
      var props := properties.GetOr(map[]);
      if !env.fits(props) { return Err(PropertiesTooLarge); }
      if exists other :: other in db.tables && db.tables[other].uuid == ids.table { return Err(UniqueViolation); }
      if ids.txn in db.txns || ids.schema in db.schemas { return Err(UniqueViolation); }
      var inserted := InsertSchemaColumns(db.columns, env.kind, ids.schema, ids, columns);
      if inserted.Err? { return Err(inserted.error); }
      return Ok(Db(map[ident := TableRow(ids.table, Some(ids.txn), Some(ids.schema), props, env.reader, env.writer)],
                   map[ids.txn := TxnRow(ids.table, None)],
                   map[ids.schema := SchemaRow(ids.table, 1, ids.txn, None)],
                   inserted.value, map[]));
    }

    /** Applies a mutation in order to a private buffer and publishes it under one new transaction; an error at
        any point, however many operations have been applied, leaves the database as it was. */
    method Commit(req: Request) returns (r: Result<TxnId>)
      requires Valid()
      modifies this
      ensures Valid()
      ensures var w := CommitWrites(env, old(db), req);
              if w.Ok? then
                && r == Ok(req.ids.txn) && db == Over(old(db), w.value)
                && req.ident in old(hist) && hist == Advance(old(hist), req.ident, Committed(env, old(db), req))
              else r == Err(w.error) && db == old(db) && hist == old(hist)
      ensures r.Ok? <==> CommitAcceptable(env, old(db), old(hist), req)
      ensures r.Ok? ==>
                && req.ident in old(db).tables && req.ident in db.tables
                && Live(SliceOf(db, req.ident).files)
                   == LiveAfter(req.ids, req.ops, |req.ops|, Live(SliceOf(old(db), req.ident).files))
                && db.tables[req.ident].properties
                   == PropertiesAfter(req.ops, |req.ops|, old(db).tables[req.ident].properties)
    {
      hide CommitAcceptable, Live, LiveAfter, PropertiesAfter, Inv, ExecOp, UniqueNames, Begin, SliceOf, SliceOk,
        ScanOps, ValidMutation, Committed, ApplyChange, Legal;
      CommitMeans(env, db, hist, req);
      if |req.ops| == 0 { return Err(EmptyMutation); }
      if |req.ops| > MAX_OPERATIONS_PER_MUTATION { return Err(TooManyOperations); }
      var valid := ValidateMutation(req.ops);
      if valid.Err? { return Err(valid.error); }
      var begun := BeginCommit(req);
      if begun.Err? { return Err(begun.error); }
      var ctx, w := begun.value.ctx, begun.value.work;
      BegunTable(env, db, hist, req);
      for k := 0 to |req.ops|
        invariant db == old(db) && hist == old(hist)
        invariant ExecOps(db, ctx, req.ops, k, begun.value.work) == Ok(w)
      {
        BufferKeepsCurrent(env, db, hist[req.ident], req, k, w);
        var next := Execute(db, ctx, k, req.ops[k], w);
        if next.Err? {
          ExecOpsStays(db, ctx, req.ops, k + 1, |req.ops|, begun.value.work);
          return Err(next.error);
        }
        w := next.value;
      }
      if !env.fits(w.properties) { return Err(PropertiesTooLarge); }
      CommitSteps(env, db, hist, req);
      hist := Advance(hist, req.ident, Committed(env, db, req));
      var row := db.tables[req.ident].(head := Some(ctx.txn), schema := if w.schema.Some? then w.schema else ctx.schema,
                                       properties := w.properties);
      db := Over(db, w.ws.(tables := map[req.ident := row]));
      return Ok(ctx.txn);
    }

    /** Takes the lock: the base must be the table's head. */
    method BeginCommit(req: Request) returns (r: Result<Session>)
      ensures r == Begin(env, db, req)
      ensures r.Ok? <==>
                && req.ident in db.tables && env.writer >= db.tables[req.ident].minWriter
                && db.tables[req.ident].head == Some(req.base) && req.ids.txn !in db.txns
    {
      if req.ident !in db.tables { return Err(TableNotFound); }
      var row := db.tables[req.ident];
      if env.writer < row.minWriter { return Err(ProtocolTooOld); }
      if row.head.None? { return Err(NoCurrentTransaction); }
      if row.head.value != req.base { return Err(BaseMismatch); }
      if req.ids.txn in db.txns { return Err(UniqueViolation); }
      var ctx := Context(env.kind, row.uuid, req.ids.txn, row.schema, req.ids);
      return Ok(Session(ctx,
        Work(EMPTY.(txns := map[req.ids.txn := TxnRow(row.uuid, Some(req.base))]), row.properties, row.schema)));
    }

    method Read(ident: TableIdent, at: Option<TxnId>) returns (r: Result<View>)
      requires Valid()
      ensures IsRead(Still(db), env, ident, at, r)
      ensures ident !in db.tables ==> r == Err(TableNotFound)
      ensures r.Ok? ==> ident in db.tables && r.value.properties == db.tables[ident].properties
      ensures ident in db.tables && Increasing(hist[ident].chain) ==>
                var s, h := SliceOf(db, ident), hist[ident];
                && |h.chain| > 0
                && var t := if at.Some? then at.value else Last(h.chain);
                && (r == Err(ProtocolTooOld) <==> env.reader < s.row.minReader)
                && (r == Err(NotInHistory) <==> env.reader >= s.row.minReader && t !in h.chain)
                && (r.Ok? ==>
                      && t in h.chain && TellsView(s, h, Index(h.chain, t), r.value)
                      && (forall u :: u in r.value.files ==> u in s.files && r.value.files[u] == s.files[u])
                      && r == ReadAt(env, s, h, at))
    {
      hide IsRead, ReadAt, SliceOk, TellsSchema, LiveAt, SameData;
      r := ReadTable(db, env, ident, at);
      if ident in db.tables {
        assert TableOk(db, hist, ident);
        if Increasing(hist[ident].chain) {
          AtomicReadTells(Still(db), db, hist, env, ident, at, r);
          AtomicReadExact(Still(db), db, hist, env, ident, at, r);
        }
      } else {
        NoTableToRead(db, env, ident, at, r);
      }
      if r.Ok? { ReadProperties(Still(db), env, ident, at, r.value); }
    }

    method List(ident: TableIdent, from: Option<TxnId>, to: TxnId) returns (r: Result<seq<TxnEvent>>)
      requires Valid()
      ensures IsListing(Still(db), ident, from, to, r)
      ensures ident !in db.tables ==> r == Err(TableNotFound)
      ensures r.Ok? ==>
                && ident in db.tables
                && exists lo, hi :: ListingTold(SliceOf(db, ident), hist[ident], from, to, lo, hi, r.value)
      ensures ident in db.tables && to !in hist[ident].chain ==> r == Err(UnknownTransaction)
    {
      hide IsListing, SliceOk, TellsEvent, IsRange;
      r := ListTransactionEvents(db, ident, from, to);
      NoTableToList(db, ident, from, to, r);
      if ident in db.tables {
        assert TableOk(db, hist, ident);
        AtomicListingReports(db, hist, ident, from, to, r);
        if r.Ok? {
          ghost var lo, hi := AtomicListingTells(db, hist, ident, from, to, r.value);
          assert ListingTold(SliceOf(db, ident), hist[ident], from, to, lo, hi, r.value);
        }
      }
    }

    method Diff(ident: TableIdent, from: TxnId, to: TxnId) returns (r: Result<TableDelta>)
      requires Valid()
      ensures IsDiff(Still(db), env, ident, from, to, r)
      ensures ident in db.tables && Increasing(hist[ident].chain) ==>
                (r.Ok? <==> DiffSucceeds(db, hist[ident], env, ident, from, to))
      ensures r.Ok? ==>
                && ident in db.tables && TellsDelta(SliceOf(db, ident), hist[ident].chain, from, to, r.value)
                && r.value.newProperties.None?
                && (Increasing(hist[ident].chain) ==>
                      TellsNewSchema(SliceOf(db, ident), hist[ident], Index(hist[ident].chain, from),
                        Index(hist[ident].chain, to),
                                     r.value.newSchema))
      ensures ident in db.tables && to in hist[ident].chain && from == to ==>
                r == Err(NotAncestor) || r == Err(TooManyTransactions)
    {
      hide IsDiff, DiffSucceeds, SliceOk, TellsDelta, TellsNewSchema;
      r := DiffTable(db, env, ident, from, to);
      if r.Ok? { DiffToldHere(db, hist, env, ident, from, to, r.value); }
      if ident in db.tables {
        assert TableOk(db, hist, ident);
        AtomicDiffOutcome(db, hist, env, ident, from, to, r);
      }
      if r.Ok? { ghost var events, q, a, p, b := DiffComparesTwoMoments(Still(db), env, ident, from, to, r.value); }
    }
  }

  lemma DiffToldHere(
    db: Db, hs: map<TableIdent, Hist>, env: Env, ident: TableIdent, from: TxnId, to: TxnId, d: TableDelta)
    requires Inv(db, hs) && IsDiff(Still(db), env, ident, from, to, Ok(d))
    ensures ident in db.tables && ident in hs && TellsDelta(SliceOf(db, ident), hs[ident].chain, from, to, d)
    ensures Increasing(hs[ident].chain) ==>
              var c := hs[ident].chain;
              TellsNewSchema(SliceOf(db, ident), hs[ident], Index(c, from), Index(c, to), d.newSchema)
  {
    hide IsDiff, SliceOk, TellsOnly, TellsNewSchema, GlobalOk, Followed, Index;
    NoTableToDiff(db, env, ident, from, to, d);
    assert TableOk(db, hs, ident);
    StillFollowed(db, hs, ident);
    DiffTells(Still(db), _ => hs, env, ident, from, to, d);
    if Increasing(hs[ident].chain) { DiffTellsSchema(Still(db), _ => hs, env, ident, from, to, d); }
  }

  lemma NoTableToDiff(db: Db, env: Env, ident: TableIdent, from: TxnId, to: TxnId, d: TableDelta)
    requires IsDiff(Still(db), env, ident, from, to, Ok(d))
    ensures ident in db.tables
  {
    hide IsListingAlong, IsDiffRead, IsRead;
  }

  /** Every table there was is there still, with the same rows. */
  ghost predicate OthersKept(db: Db, db2: Db) {
    forall t :: t in db.tables ==> t in db2.tables && SliceOf(db2, t) == SliceOf(db, t)
  }

  /** The events of positions lo..hi of the history. */
  ghost predicate ListingTold(
    s: Slice, h: Hist, from: Option<TxnId>, to: TxnId, lo: nat, hi: nat, events: seq<TxnEvent>) {
    IsRange(h.chain, from, to, lo, hi) && |events| == hi - lo && forall k :: 0 <= k < |events| ==>
                                                                               TellsEvent(s, h, lo + k, events[k])
  }

  lemma NoTableToRead(db: Db, env: Env, ident: TableIdent, at: Option<TxnId>, r: Result<View>)
    requires IsRead(Still(db), env, ident, at, r) && ident !in db.tables
    ensures r == Err(TableNotFound)
  {
  }

  lemma NoTableToList(db: Db, ident: TableIdent, from: Option<TxnId>, to: TxnId, r: Result<seq<TxnEvent>>)
    requires IsListing(Still(db), ident, from, to, r)
    ensures ident in db.tables || r == Err(TableNotFound)
  {
  }

  lemma CommitMeans(env: Env, db: Db, hs: map<TableIdent, Hist>, req: Request)
    requires Inv(db, hs)
    ensures CommitWrites(env, db, req).Ok? <==> CommitAcceptable(env, db, hs, req)
    ensures CommitWrites(env, db, req).Ok? ==>
              var db2 := Over(db, CommitWrites(env, db, req).value);
              && req.ident in db.tables && req.ident in db2.tables
              && Live(SliceOf(db2, req.ident).files)
                 == LiveAfter(req.ids, req.ops, |req.ops|, Live(SliceOf(db, req.ident).files))
              && db2.tables[req.ident].properties
                 == PropertiesAfter(req.ops, |req.ops|, db.tables[req.ident].properties)
  {
    hide CommitWrites, CommitAcceptable, Inv, Live, LiveAfter, PropertiesAfter;
    CommitOkIff(env, db, hs, req);
    if CommitWrites(env, db, req).Ok? {
      CommitMeaning(env, db, hs, req);
      RowsAre(db, Over(db, CommitWrites(env, db, req).value), req.ident);
    }
  }

  lemma BegunTable(env: Env, db: Db, hs: map<TableIdent, Hist>, req: Request)
    requires Inv(db, hs) && Begin(env, db, req).Ok?
    ensures req.ident in db.tables && req.ident in hs && SliceOk(SliceOf(db, req.ident), hs[req.ident])
    ensures forall c :: c in db.columns ==> c.schema in db.schemas
    ensures Begin(env, db, req).value.ctx.txn == req.ids.txn
  {
    hide SliceOk, RowsOwned;
    assert TableOk(db, hs, req.ident);
  }
}
