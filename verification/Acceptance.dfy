/** When a commit succeeds: one condition on the request and the published state, for all operations at once. */
module Acceptance {
  import opened CatalogTypes
  import opened Limits
  import opened Validation
  import opened Statements
  import opened History
  import opened Commits
  import opened Meaning

  /** The files the first n operations append, in order. */
  function AllAppended(ids: Ids, ops: seq<MutationOp>, n: nat): seq<FileEntry>
    requires n <= |ops|
  {
    if n == 0 then []
    else AllAppended(ids, ops, n - 1) +
         if ops[n - 1].AppendFiles? then Entries(ids, n - 1, ops[n - 1].files) else []
  }

  predicate Sized(op: MutationOp) {
    match op
    case AppendFiles(files) => |files| <= MAX_FILES_PER_APPEND
    case DeleteFiles(uuids) => |uuids| <= MAX_FILES_PER_DELETE
    case RemoveProperties(keys) => |keys| <= MAX_PROPERTY_KEYS_TO_REMOVE
    case _ => true
  }

  /** File i of operation k, if it appends one, goes under the UUID u. */
  predicate AppendsAs(ids: Ids, ops: seq<MutationOp>, k: nat, i: nat, u: Uuid) {
    && k < |ops| && ops[k].AppendFiles? && i < |ops[k].files|
    && var given := ops[k].files[i].fileUuid;
    u == if given.Some? then given.value else ids.file(k, i)
  }

  predicate Precedes(k: nat, i: nat, l: nat, j: nat) {
    k < l || (k == l && i < j)
  }

  /** Every file the first n operations append is valid and its UUID new, both in the database and in the mutation. */
  ghost predicate FilesAcceptable(db: Db, ids: Ids, ops: seq<MutationOp>, n: nat)
    requires n <= |ops|
  {
    && (forall k, i :: 0 <= k < n && ops[k].AppendFiles? && 0 <= i < |ops[k].files| ==> ValidFile(ops[k].files[i]))
    && (forall k: nat, i: nat, u :: k < n && AppendsAs(ids, ops, k, i, u) ==> u !in db.files)
    && (forall k: nat, i: nat, l: nat, j: nat, u, v ::
          Precedes(k, i, l, j) && l < n && AppendsAs(ids, ops, k, i, u) && AppendsAs(ids, ops, l, j, v) ==> u != v)
  }

  /** The new specification is valid, keeps every column of the current one, and comes with new ids. */
  ghost predicate SchemaAcceptable(db: Db, current: seq<ColumnSpec>, ids: Ids, spec: seq<ColumnSpec>) {
    && ValidSchema(spec) && SpecEvolves(current, spec) && ids.schema !in db.schemas && ColumnIdsNew(db, ids, |spec|)
  }

  ghost predicate ColumnIdsNew(db: Db, ids: Ids, n: nat) {
    && (forall p, c :: 0 <= p < n && c in db.columns ==> c.uuid != ids.column(p))
    && (forall p, q :: 0 <= p < q < n ==> ids.column(p) != ids.column(q))
  }

  /** The condition of a whole commit. */
  ghost predicate CommitAcceptable(env: Env, db: Db, hs: map<TableIdent, Hist>, req: Request) {
    && 0 < |req.ops| <= MAX_OPERATIONS_PER_MUTATION && ValidMutation(req.ops)
    && req.ident in db.tables && env.writer >= db.tables[req.ident].minWriter
    && db.tables[req.ident].head == Some(req.base) && req.ids.txn !in db.txns
    && (forall k :: 0 <= k < |req.ops| ==> Sized(req.ops[k]))
    && FilesAcceptable(db, req.ids, req.ops, |req.ops|)
    && req.ident in hs && |hs[req.ident].specs| > 0
    && (forall k :: 0 <= k < |req.ops| && req.ops[k].UpdateSchema? ==>
                      SchemaAcceptable(db, Last(hs[req.ident].specs), req.ids, req.ops[k].columns))
    && env.fits(PropertiesAfter(req.ops, |req.ops|, db.tables[req.ident].properties))
  }

  /** The same for the first n operations, on the concatenated lists the statements work on. */
  ghost predicate Acceptable(db: Db, current: seq<ColumnSpec>, ids: Ids, ops: seq<MutationOp>, n: nat)
    requires n <= |ops|
  {
    && (forall k :: 0 <= k < n ==> Sized(ops[k]))
    && AllValid(AllAppended(ids, ops, n)) && FreshFiles(db.files, AllAppended(ids, ops, n))
    && (SpecIn(ops, n).Some? ==> SchemaAcceptable(db, current, ids, SpecIn(ops, n).value))
  }

  // ---------- files ----------

  predicate Holds(entries: seq<FileEntry>, u: Uuid) {
    exists i :: 0 <= i < |entries| && entries[i].uuid == u
  }

  /** The files a transaction sees: the published ones and those it has appended. */
  ghost predicate SeesFiles(files: map<Uuid, FileRow>, written: map<Uuid, FileRow>, entries: seq<FileEntry>) {
    forall u :: u in files + written <==> u in files || Holds(entries, u)
  }

  lemma FreshByKeys(files: map<Uuid, FileRow>, other: map<Uuid, FileRow>, entries: seq<FileEntry>)
    requires forall u :: u in files <==> u in other
    ensures FreshFiles(files, entries) <==> FreshFiles(other, entries)
  {
  }

  lemma HoldsConcat(a: seq<FileEntry>, b: seq<FileEntry>, u: Uuid)
    ensures Holds(a + b, u) <==> Holds(a, u) || Holds(b, u)
  {
    if Holds(a, u) {
      var i :| 0 <= i < |a| && a[i].uuid == u;
      assert (a + b)[i].uuid == u;
    }
    if Holds(b, u) {
      var i :| 0 <= i < |b| && b[i].uuid == u;
      assert (a + b)[|a| + i].uuid == u;
    }
  }

  lemma AppendAcceptable(
    files: map<Uuid, FileRow>, written: map<Uuid, FileRow>, ctx: Context, before: seq<FileEntry>,
    entries: seq<FileEntry>)
    requires SeesFiles(files, written, before) && AllValid(before) && FreshFiles(files, before)
    ensures AllValid(entries) && FreshFiles(files + written, entries) <==>
              AllValid(before + entries) && FreshFiles(files, before + entries)
    ensures SeesFiles(files, written + FileRows(ctx, entries), before + entries)
  {
    hide AllValid, FreshFiles;
    FreshConcat(files, ctx, before, entries);
    forall u ensures u in FileRows(ctx, before) <==> Holds(before, u) { FileRowsKeys(ctx, before, u); }
    FreshByKeys(files + written, files + FileRows(ctx, before), entries);
    forall u ensures u in files + (written + FileRows(ctx, entries)) <==> u in files || Holds(before + entries, u) {
      FileRowsKeys(ctx, entries, u);
      HoldsConcat(before, entries, u);
      assert u in files + written <==> u in files || Holds(before, u);
    }
  }

  lemma MarkedAreSeen(
    files: map<Uuid, FileRow>, written: map<Uuid, FileRow>, ctx: Context, uuids: seq<Uuid>, entries: seq<FileEntry>)
    requires SeesFiles(files, written, entries)
    ensures SeesFiles(files, written + MarkRemoved(files + written, ctx, uuids), entries)
  {
  }

  // ---------- the schema ----------

  /** Under a new schema, column rows clash with nothing if and only if their ids are new. */
  lemma FreshByIds(db: Db, ids: Ids, spec: seq<ColumnSpec>)
    requires ValidSchema(spec) && ids.schema !in db.schemas && forall c :: c in db.columns ==> c.schema in db.schemas
    ensures FreshColumns(db.columns, ColumnRows(ids.schema, ids, spec)) <==> ColumnIdsNew(db, ids, |spec|)
  {
    var rows := ColumnRows(ids.schema, ids, spec);
    if FreshColumns(db.columns, rows) {
      forall p, c | 0 <= p < |spec| && c in db.columns ensures c.uuid != ids.column(p) { assert !Clash(c, rows[p]); }
      forall p, q | 0 <= p < q < |spec| ensures ids.column(p) != ids.column(q) { assert !Clash(rows[p], rows[q]); }
    }
  }

  lemma SchemaOpAcceptable(db: Db, s: Slice, h: Hist, ctx: Context, view: Db, columns: seq<ColumnSpec>)
    requires ContextOk(s, ctx) && SchemasOk(s, h) && ColumnsOk(s, h) && forall c :: c in db.columns ==>
                                                                                      c.schema in db.schemas
    requires s.schemas == SchemasIn(db.schemas, ctx.table) && s.columns == ColumnsIn(db.columns, db.schemas, ctx.table)
    requires view.schemas == db.schemas && view.columns == db.columns
    ensures ReplaceSchema(view, ctx, columns).Ok? <==> SchemaAcceptable(db, Last(h.specs), ctx.ids, columns)
  {
    hide SchemasIn, ColumnsIn, SchemaOk, Stored, FreshColumns, CheckSchema, CheckEvolution, SpecEvolves, ValidSchema,
      ColumnRows;
    var current := ctx.schema.value;
    CheckSchemaAccepts(columns);
    ColumnsAtOnce(view.columns, ctx.kind, ColumnRows(ctx.ids.schema, ctx.ids, columns));
    CurrentIsOwn(db, s, ctx);
    OwnColumns(db, ctx.table, current);
    if ValidSchema(columns) {
      EvolutionCheckExact(ColumnsFor(s.columns, current), Last(h.specs), columns);
      if ctx.ids.schema !in db.schemas { FreshByIds(db, ctx.ids, columns); }
    }
  }

  lemma CurrentIsOwn(db: Db, s: Slice, ctx: Context)
    requires ContextOk(s, ctx) && s.schemas == SchemasIn(db.schemas, ctx.table)
    ensures ctx.schema.value in db.schemas && db.schemas[ctx.schema.value].table == ctx.table
  {
  }

  // ---------- the fold ----------

  lemma {:induction false} AcceptablePrefix(db: Db, current: seq<ColumnSpec>, ids: Ids, ops: seq<MutationOp>, n: nat)
    requires 0 < n <= |ops| && CountUpdates(ops) <= 1 && Acceptable(db, current, ids, ops, n)
    ensures Acceptable(db, current, ids, ops, n - 1)
  {
    hide AllValid, FreshFiles, SchemaAcceptable;
    var ctx := Context(Sqlite, 0, 0, None, ids);
    var entries := if ops[n - 1].AppendFiles? then Entries(ids, n - 1, ops[n - 1].files) else [];
    FreshConcat(db.files, ctx, AllAppended(ids, ops, n - 1), entries);
    OneUpdate(ops, n);
  }

  lemma OneUpdate(ops: seq<MutationOp>, n: nat)
    requires 0 < n <= |ops| && CountUpdates(ops) <= 1
    ensures ops[n - 1].UpdateSchema? ==> SpecIn(ops, n - 1).None?
  {
    CountsGrow(ops, n);
    UpdatesMonotone(ops, n);
    SpecCounts(ops, n - 1);
  }

  /** One more operation, after acceptable ones. */
  lemma OpAcceptable(
    db: Db, s: Slice, h: Hist, ctx: Context, ops: seq<MutationOp>, n: nat, w: Work)
    requires ContextOk(s, ctx) && SchemasOk(s, h) && ColumnsOk(s, h) && forall c :: c in db.columns ==>
                                                                                      c.schema in db.schemas
    requires s.schemas == SchemasIn(db.schemas, ctx.table) && s.columns == ColumnsIn(db.columns, db.schemas, ctx.table)
    requires n < |ops| && (ops[n].UpdateSchema? ==> SpecIn(ops, n).None?)
    requires FoldOk(db, s, ctx, ops, n, w) && Acceptable(db, Last(h.specs), ctx.ids, ops, n)
    requires SeesFiles(db.files, w.ws.files, AllAppended(ctx.ids, ops, n))
    ensures ExecOp(db, ctx, n, ops[n], w).Ok? <==> Acceptable(db, Last(h.specs), ctx.ids, ops, n + 1)
    ensures ExecOp(db, ctx, n, ops[n], w).Ok? ==>
              SeesFiles(db.files, ExecOp(db, ctx, n, ops[n], w).value.ws.files, AllAppended(ctx.ids, ops, n + 1))
  {
    hide SchemaOk, Stored, ValidSchema, OwnFiles, SpecOk, SchemasIn, ColumnsIn, SchemaAcceptable, AllValid, FreshFiles,
      AppendChunks, MarkChunks, MarkRemoved, ReplaceSchema, RemoveKeys, Chunks, SeesFiles, Entries, ColumnsFor;
    var before := AllAppended(ctx.ids, ops, n);
    match ops[n]
    case AppendFiles(files) =>
      var entries := Entries(ctx.ids, n, files);
      ChunkedOperationsAtOnce(db.files + w.ws.files, ctx, entries, []);
      AppendAcceptable(db.files, w.ws.files, ctx, before, entries);
    case DeleteFiles(uuids) =>
      ChunkedOperationsAtOnce(db.files + w.ws.files, ctx, [], uuids);
      MarkedAreSeen(db.files, w.ws.files, ctx, uuids, before);
      assert before + [] == before;
    case UpdateSchema(columns) =>
      NothingBuffered(db, w.ws);
      SchemaOpAcceptable(db, s, h, ctx, Over(db, w.ws), columns);
      assert before + [] == before;
      if ExecOp(db, ctx, n, ops[n], w).Ok? {
        UpdateKeepsFiles(db, ctx, n, columns, w, ExecOp(db, ctx, n, ops[n], w).value);
      }
    case _ => assert before + [] == before;
  }

  lemma {:induction false} FoldAcceptable(
    db: Db, s: Slice, h: Hist, ctx: Context, ops: seq<MutationOp>, n: nat, w0: Work)
    requires ContextOk(s, ctx) && SchemasOk(s, h) && ColumnsOk(s, h) && s.files == FilesIn(db.files, ctx.table)
    requires s.schemas == SchemasIn(db.schemas, ctx.table) && s.columns == ColumnsIn(db.columns, db.schemas, ctx.table)
    requires forall c :: c in db.columns ==> c.schema in db.schemas
    requires n <= |ops| && CountUpdates(ops) <= 1 && FoldOk(db, s, ctx, ops, 0, w0) && w0.ws.files == map[]
    ensures ExecOps(db, ctx, ops, n, w0).Ok? <==> Acceptable(db, Last(h.specs), ctx.ids, ops, n)
    ensures ExecOps(db, ctx, ops, n, w0).Ok? ==>
              SeesFiles(db.files, ExecOps(db, ctx, ops, n, w0).value.ws.files, AllAppended(ctx.ids, ops, n))
  {
    hide FoldOk, ContextOk, SeesFiles, ExecOp, Acceptable, FilesIn, SchemasIn, ColumnsIn, SchemaOk, Stored, ValidSchema;
    if n == 0 {
      NothingAppended(db, Last(h.specs), ctx.ids, ops);
    } else {
      FoldAcceptable(db, s, h, ctx, ops, n - 1, w0);
      var before := ExecOps(db, ctx, ops, n - 1, w0);
      if before.Err? {
        if Acceptable(db, Last(h.specs), ctx.ids, ops, n) { AcceptablePrefix(db, Last(h.specs), ctx.ids, ops, n); }
      } else {
        OneUpdate(ops, n);
        FoldInstallsChange(db, s, ctx, ops, n - 1, w0, before.value);
        OpAcceptable(db, s, h, ctx, ops, n - 1, before.value);
      }
    }
  }

  lemma NothingAppended(db: Db, current: seq<ColumnSpec>, ids: Ids, ops: seq<MutationOp>)
    ensures Acceptable(db, current, ids, ops, 0) && SeesFiles(db.files, map[], AllAppended(ids, ops, 0))
  {
  }

  // ---------- the lists and the positions ----------

  /** A file goes under the UUID it was given, or else under a generated one. */
  lemma EntryUuid(ids: Ids, k: nat, files: seq<FileSpec>, i: nat)
    requires i < |files|
    ensures Entries(ids, k, files)[i].uuid == if files[i].fileUuid.Some? then files[i].fileUuid.value
            else ids.file(k, i)
    ensures Entries(ids, k, files)[i].spec == files[i]
  {
    var given := files[i].fileUuid;
    assert given.GetOr(ids.file(k, i)) == if given.Some? then given.value else ids.file(k, i);
  }

  lemma EntryIs(ids: Ids, ops: seq<MutationOp>, k: nat, u: Uuid)
    requires k < |ops| && ops[k].AppendFiles?
    ensures Holds(Entries(ids, k, ops[k].files), u) <==> exists i: nat :: AppendsAs(ids, ops, k, i, u)
  {
    var entries := Entries(ids, k, ops[k].files);
    if i: nat :| AppendsAs(ids, ops, k, i, u) {
      EntryUuid(ids, k, ops[k].files, i);
      assert entries[i].uuid == u;
    }
    if Holds(entries, u) {
      var i :| 0 <= i < |entries| && entries[i].uuid == u;
      EntryUuid(ids, k, ops[k].files, i);
      assert AppendsAs(ids, ops, k, i, u);
    }
  }

  lemma {:induction false} AllAppendedHolds(ids: Ids, ops: seq<MutationOp>, n: nat, u: Uuid)
    requires n <= |ops|
    ensures Holds(AllAppended(ids, ops, n), u) <==> exists k: nat, i: nat :: k < n && AppendsAs(ids, ops, k, i, u)
  {
    if n > 0 {
      AllAppendedHolds(ids, ops, n - 1, u);
      if ops[n - 1].AppendFiles? {
        EntryIs(ids, ops, n - 1, u);
        HoldsConcat(AllAppended(ids, ops, n - 1), Entries(ids, n - 1, ops[n - 1].files), u);
      } else {
        assert AllAppended(ids, ops, n - 1) + [] == AllAppended(ids, ops, n - 1);
      }
    }
  }

  lemma FreshPair(files: map<Uuid, FileRow>, a: seq<FileEntry>, b: seq<FileEntry>)
    ensures FreshFiles(files, a + b) <==>
              FreshFiles(files, a) && FreshFiles(files, b) && forall i :: 0 <= i < |b| ==> !Holds(a, b[i].uuid)
    ensures AllValid(a + b) <==> AllValid(a) && AllValid(b)
  {
    var ab := a + b;
    assert forall i :: 0 <= i < |a| ==> ab[i] == a[i];
    assert forall i :: 0 <= i < |b| ==> ab[|a| + i] == b[i];
    if FreshFiles(files, ab) {
      forall i | 0 <= i < |b| ensures b[i].uuid !in files && !Holds(a, b[i].uuid) { assert ab[|a| + i] == b[i]; }
      forall i, j | 0 <= i < j < |b| ensures b[i].uuid != b[j].uuid {
        assert ab[|a| + i] == b[i] && ab[|a| + j] == b[j];
      }
    }
    if FreshFiles(files, a) && FreshFiles(files, b) && forall i :: 0 <= i < |b| ==> !Holds(a, b[i].uuid) {
      forall i | 0 <= i < |ab| ensures ab[i].uuid !in files { if i >= |a| { assert ab[i] == b[i - |a|]; } }
      forall i, j | 0 <= i < j < |ab| ensures ab[i].uuid != ab[j].uuid {
        if |a| <= i { assert ab[i] == b[i - |a|] && ab[j] == b[j - |a|]; }
        if i < |a| <= j { assert ab[j] == b[j - |a|] && !Holds(a, b[j - |a|].uuid); }
      }
    }
  }

  /** What one append operation adds to the condition. */
  lemma AppendStepAcceptable(db: Db, ids: Ids, ops: seq<MutationOp>, n: nat)
    requires n < |ops| && ops[n].AppendFiles?
    ensures var before, entries := AllAppended(ids, ops, n), Entries(ids, n, ops[n].files);
            FilesAcceptable(db, ids, ops, n + 1) <==>
              && FilesAcceptable(db, ids, ops, n) && AllValid(entries) && FreshFiles(db.files, entries)
              && forall i :: 0 <= i < |entries| ==> !Holds(before, entries[i].uuid)
  {
    hide ValidFile;
    var before, entries := AllAppended(ids, ops, n), Entries(ids, n, ops[n].files);
    forall u ensures Holds(before, u) <==> exists k: nat, i: nat :: k < n && AppendsAs(ids, ops, k, i, u) {
      AllAppendedHolds(ids, ops, n, u);
    }
    forall i: nat | i < |entries| ensures AppendsAs(ids, ops, n, i, entries[i].uuid)
      && entries[i].spec == ops[n].files[i] {
      EntryUuid(ids, n, ops[n].files, i);
    }
    if FilesAcceptable(db, ids, ops, n + 1) {
      forall i: nat | i < |entries| ensures !Holds(before, entries[i].uuid) {
        forall k: nat, j: nat, v | k < n && AppendsAs(ids, ops, k, j, v) ensures v != entries[i].uuid {
          assert Precedes(k, j, n, i);
        }
      }
      forall i: nat, j: nat | i < j < |entries| ensures entries[i].uuid != entries[j].uuid {
        assert Precedes(n, i, n, j);
      }
      forall i: nat | i < |entries| ensures ValidFile(entries[i].spec) { assert entries[i].spec == ops[n].files[i]; }
    }
    if FilesAcceptable(db, ids, ops, n) && AllValid(entries) && FreshFiles(db.files, entries)
       && (forall i :: 0 <= i < |entries| ==> !Holds(before, entries[i].uuid))
    {
      forall i: nat | i < |ops[n].files| ensures ValidFile(ops[n].files[i]) {
        assert entries[i].spec == ops[n].files[i];
      }
      forall k: nat, i: nat, u | k < n + 1 && AppendsAs(ids, ops, k, i, u) ensures u !in db.files {
        if k == n { assert entries[i].uuid == u; }
      }
      forall k: nat, i: nat, l: nat, j: nat, u, v |
        Precedes(k, i, l, j) && l < n + 1 && AppendsAs(ids, ops, k, i, u) && AppendsAs(ids, ops, l, j, v)
        ensures u != v
      {
        if l == n {
          assert entries[j].uuid == v;
          if k == n { assert entries[i].uuid == u; }
        }
      }
    }
  }

  lemma {:induction false} FilesByPosition(db: Db, ids: Ids, ops: seq<MutationOp>, n: nat)
    requires n <= |ops|
    ensures AllValid(AllAppended(ids, ops, n)) && FreshFiles(db.files, AllAppended(ids, ops, n)) <==>
              FilesAcceptable(db, ids, ops, n)
  {
    hide FilesAcceptable, AllValid, FreshFiles;
    if n == 0 {
      NoFilesAcceptable(db, ids, ops);
    } else {
      FilesByPosition(db, ids, ops, n - 1);
      var before := AllAppended(ids, ops, n - 1);
      if ops[n - 1].AppendFiles? {
        AppendStepAcceptable(db, ids, ops, n - 1);
        FreshPair(db.files, before, Entries(ids, n - 1, ops[n - 1].files));
      } else {
        assert before + [] == before;
        NoAppendAcceptable(db, ids, ops, n - 1);
      }
    }
  }

  lemma NoFilesAcceptable(db: Db, ids: Ids, ops: seq<MutationOp>)
    ensures FilesAcceptable(db, ids, ops, 0) && AllValid([]) && FreshFiles(db.files, [])
  {
  }

  lemma NoAppendAcceptable(db: Db, ids: Ids, ops: seq<MutationOp>, n: nat)
    requires n < |ops| && !ops[n].AppendFiles?
    ensures FilesAcceptable(db, ids, ops, n + 1) <==> FilesAcceptable(db, ids, ops, n)
  {
  }

  lemma {:induction false} SpecInFinds(ops: seq<MutationOp>, n: nat)
    requires n <= |ops| && ValidMutation(ops)
    ensures SpecIn(ops, n).None? ==> forall k :: 0 <= k < n ==> !ops[k].UpdateSchema?
    ensures forall k :: 0 <= k < n && ops[k].UpdateSchema? ==> SpecIn(ops, n) == Some(ops[k].columns)
    ensures SpecIn(ops, n).Some? ==> exists k :: 0 <= k < n && ops[k].UpdateSchema?
  {
    if n > 0 { SpecInFinds(ops, n - 1); }
  }

  lemma AcceptableByPosition(db: Db, current: seq<ColumnSpec>, ids: Ids, ops: seq<MutationOp>)
    requires ValidMutation(ops)
    ensures Acceptable(db, current, ids, ops, |ops|) <==>
              && (forall k :: 0 <= k < |ops| ==> Sized(ops[k])) && FilesAcceptable(db, ids, ops, |ops|)
              && (forall k :: 0 <= k < |ops| && ops[k].UpdateSchema? ==>
                                SchemaAcceptable(db, current, ids, ops[k].columns))
  {
    hide FilesAcceptable, AllValid, FreshFiles, SchemaAcceptable, ValidMutation;
    FilesByPosition(db, ids, ops, |ops|);
    SpecInFinds(ops, |ops|);
  }

  // ---------- the commit ----------

  lemma BegunFold(env: Env, db: Db, h: Hist, req: Request)
    requires req.ident in db.tables && SliceOk(SliceOf(db, req.ident), h)
    requires CheckMutation(req.ops).Ok? && Begin(env, db, req).Ok?
    ensures var s, begun := SliceOf(db, req.ident), Begin(env, db, req).value;
            && ContextOk(s, begun.ctx) && CountUpdates(req.ops) <= 1
            && FoldOk(db, s, begun.ctx, req.ops, 0, begun.work) && begun.work.ws.files == map[]
            && s.files == FilesIn(db.files, begun.ctx.table) && s.schemas == SchemasIn(db.schemas, begun.ctx.table)
            && s.columns == ColumnsIn(db.columns, db.schemas, begun.ctx.table)
            && begun.ctx.ids == req.ids && begun.work.properties == db.tables[req.ident].properties
            && SchemasOk(s, h) && ColumnsOk(s, h) && |h.specs| > 0
  {
    var s := SliceOf(db, req.ident);
    HeadAndSchema(s, h);
    ScanOpsAccepts(req.ops, |req.ops|);
    assert req.ops[..|req.ops|] == req.ops;
    assert FoldOk(db, s, Begin(env, db, req).value.ctx, req.ops, 0, Begin(env, db, req).value.work);
  }

  lemma ColumnsOwned(db: Db, hs: map<TableIdent, Hist>)
    requires Inv(db, hs)
    ensures forall c :: c in db.columns ==> c.schema in db.schemas
  {
  }

  lemma MutationAcceptable(ops: seq<MutationOp>)
    ensures CheckMutation(ops).Ok? <==> 0 < |ops| <= MAX_OPERATIONS_PER_MUTATION && ValidMutation(ops)
  {
    ScanOpsAccepts(ops, |ops|);
    assert ops[..|ops|] == ops;
  }

  /** A commit succeeds if and only if the mutation is valid, its base is the head and its transaction id new, every
      limit holds, all files it appends are valid under new and distinct UUIDs, the schema update, if there is one,
      evolves the current schema under fresh ids, and the resulting properties fit. */
  lemma CommitOkIff(env: Env, db: Db, hs: map<TableIdent, Hist>, req: Request)
    requires Inv(db, hs)
    ensures CommitWrites(env, db, req).Ok? <==> CommitAcceptable(env, db, hs, req)
  {
    hide SliceOk, GlobalOk, RowsOwned, Acceptable, ValidMutation, CheckMutation, ContextOk, FoldOk, FilesIn, SchemasIn,
      ColumnsIn,
      ExecOps,
      SchemasOk, ColumnsOk, SeesFiles, PropertiesAfter, FilesAcceptable, SchemaAcceptable, Sized;
    MutationAcceptable(req.ops);
    ColumnsOwned(db, hs);
    if ValidMutation(req.ops) && req.ident in hs && |hs[req.ident].specs| > 0 {
      AcceptableByPosition(db, Last(hs[req.ident].specs), req.ids, req.ops);
    }
    if req.ident in db.tables && CheckMutation(req.ops).Ok? && Begin(env, db, req).Ok? {
      assert TableOk(db, hs, req.ident);
      var s, h, begun := SliceOf(db, req.ident), hs[req.ident], Begin(env, db, req).value;
      BegunFold(env, db, h, req);
      FoldAcceptable(db, s, h, begun.ctx, req.ops, |req.ops|, begun.work);
      var folded := ExecOps(db, begun.ctx, req.ops, |req.ops|, begun.work);
      if folded.Ok? { FoldMeaning(db, s, begun.ctx, req.ops, |req.ops|, begun.work, folded.value); }
    }
  }

  // ---------- creation ----------

  /** The condition of a creation. */
  ghost predicate CreateAcceptable(
    env: Env, db: Db, ident: TableIdent, columns: seq<ColumnSpec>, properties: Option<Properties>, ids: Ids)
  {
    && ValidSchema(columns) && ident !in db.tables
    && env.fits(if properties.Some? then properties.value else map[])
    && (forall other :: other in db.tables ==> db.tables[other].uuid != ids.table)
    && ids.txn !in db.txns && ids.schema !in db.schemas && ColumnIdsNew(db, ids, |columns|)
  }

  /** A creation succeeds if and only if its schema is valid, its name free in its namespace, its properties fit, and
      all its ids are new. */
  lemma CreateOkIff(
    env: Env, db: Db, ident: TableIdent, columns: seq<ColumnSpec>, properties: Option<Properties>, ids: Ids)
    requires forall c :: c in db.columns ==> c.schema in db.schemas
    ensures CreateWrites(env, db, ident, columns, properties, ids).Ok? <==>
              CreateAcceptable(env, db, ident, columns, properties, ids)
  {
    hide ValidSchema, CheckSchema, FreshColumns, ColumnRows, InsertColumns, ColumnIdsNew;
    CheckSchemaAccepts(columns);
    ColumnsAtOnce(db.columns, env.kind, ColumnRows(ids.schema, ids, columns));
    if ValidSchema(columns) && ids.schema !in db.schemas { FreshByIds(db, ids, columns); }
  }

  /** Which error a refused creation gets: the schema's, then the name, the properties, and last the ids. */
  lemma CreateReports(
    env: Env, db: Db, ident: TableIdent, columns: seq<ColumnSpec>, properties: Option<Properties>, ids: Ids)
    requires forall c :: c in db.columns ==> c.schema in db.schemas
    ensures var r := CreateWrites(env, db, ident, columns, properties, ids);
            var props := if properties.Some? then properties.value else map[];
            && (r == Err(TableExists) <==> ValidSchema(columns) && ident in db.tables)
            && (r == Err(PropertiesTooLarge) <==> ValidSchema(columns) && ident !in db.tables && !env.fits(props))
            && (r == Err(UniqueViolation) <==>
                  && ValidSchema(columns) && ident !in db.tables && env.fits(props)
                  && !CreateAcceptable(env, db, ident, columns, properties, ids))
            && (forall e :: !ValidSchema(columns) ==> (r == Err(e) <==> CheckSchema(columns) == Err(e)))
  {
    hide ValidSchema, FreshColumns, ColumnRows, ColumnIdsNew;
    CreateOkIff(env, db, ident, columns, properties, ids);
    CheckSchemaAccepts(columns);
    SchemaErrorsOnly(columns);
    ColumnsAtOnce(db.columns, env.kind, ColumnRows(ids.schema, ids, columns));
  }

  lemma SchemaErrorsOnly(columns: seq<ColumnSpec>)
    ensures CheckSchema(columns) != Err(TableExists) && CheckSchema(columns) != Err(PropertiesTooLarge)
    ensures CheckSchema(columns) != Err(UniqueViolation)
  {
    CheckSchemaReports(columns, TableExists);
    CheckSchemaReports(columns, PropertiesTooLarge);
    CheckSchemaReports(columns, UniqueViolation);
  }

  // ---------- stored files ----------

  /** A stored file that an append could have written. */
  predicate ValidRow(f: FileRow) {
    && (exists i :: 0 <= i < |f.path| && !IsWhitespace(f.path[i]))
    && f.records >= 0 && f.bytes >= 0
    && (f.partition.Some? ==> f.partition.value.accepted)
    && (f.options.Some? ==> f.options.value.accepted)
  }

  ghost predicate RowsValid(files: map<Uuid, FileRow>) {
    forall u :: u in files ==> ValidRow(files[u])
  }

  lemma {:induction false} AppendedRowsValid(ctx: Context, entries: seq<FileEntry>)
    requires AllValid(entries)
    ensures RowsValid(FileRows(ctx, entries))
    decreases |entries|
  {
    if |entries| > 0 {
      var n := |entries| - 1;
      assert forall i :: 0 <= i < n ==> entries[..n][i] == entries[i];
      AppendedRowsValid(ctx, entries[..n]);
      assert ValidFile(entries[n].spec) && ValidRow(NewFile(ctx, entries[n].spec));
    }
  }

  lemma OpKeepsRowsValid(db: Db, ctx: Context, k: nat, op: MutationOp, w: Work)
    requires ExecOp(db, ctx, k, op, w).Ok? && RowsValid(db.files) && RowsValid(w.ws.files)
    ensures RowsValid(ExecOp(db, ctx, k, op, w).value.ws.files)
  {
    hide AppendChunks, Chunks, MarkChunks, ReplaceSchema, RemoveKeys, AllValid, FreshFiles;
    match op
    case AppendFiles(files) =>
      ChunkedOperationsAtOnce(Over(db, w.ws).files, ctx, Entries(ctx.ids, k, files), []);
      AppendedRowsValid(ctx, Entries(ctx.ids, k, files));
    case DeleteFiles(uuids) => ChunkedOperationsAtOnce(Over(db, w.ws).files, ctx, [], uuids);
    case UpdateSchema(columns) => UpdateKeepsFiles(db, ctx, k, columns, w, ExecOp(db, ctx, k, op, w).value);
    case _ =>
  }

  lemma {:induction false} OpsKeepRowsValid(db: Db, ctx: Context, ops: seq<MutationOp>, n: nat, w: Work)
    requires n <= |ops| && ExecOps(db, ctx, ops, n, w).Ok? && RowsValid(db.files) && RowsValid(w.ws.files)
    ensures RowsValid(ExecOps(db, ctx, ops, n, w).value.ws.files)
  {
    hide RowsValid, ExecOp;
    if n > 0 {
      OpsKeepRowsValid(db, ctx, ops, n - 1, w);
      OpKeepsRowsValid(db, ctx, n - 1, ops[n - 1], ExecOps(db, ctx, ops, n - 1, w).value);
    }
  }

  /** Commits store valid files only. */
  lemma CommitKeepsRowsValid(env: Env, db: Db, req: Request)
    requires CommitWrites(env, db, req).Ok? && RowsValid(db.files)
    ensures RowsValid(Over(db, CommitWrites(env, db, req).value).files)
  {
    hide ExecOps, ValidRow;
    var begun := Begin(env, db, req).value;
    OpsKeepRowsValid(db, begun.ctx, req.ops, |req.ops|, begun.work);
  }
}
