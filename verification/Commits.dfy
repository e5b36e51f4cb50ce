/** What commits do to the whole database: the operation fold installs exactly one legal change
    on its own table, touches no other table, and keeps the invariant of every table. */
module Commits {
  import opened CatalogTypes
  import opened Validation
  import opened Statements
  import opened History

  predicate HasTable(tables: map<TableIdent, TableRow>, uuid: Uuid) {
    exists ident :: ident in tables && tables[ident].uuid == uuid
  }

  /** The foreign keys to tables hold. */
  ghost predicate RowsOwned(db: Db) {
    && (forall t :: t in db.txns ==> HasTable(db.tables, db.txns[t].table))
    && (forall s :: s in db.schemas ==> HasTable(db.tables, db.schemas[s].table))
    && (forall u :: u in db.files ==> HasTable(db.tables, db.files[u].table))
  }

  /** Tables have distinct UUIDs, and every row belongs to an existing table or schema. */
  ghost predicate GlobalOk(db: Db) {
    && (forall a, b :: a in db.tables && b in db.tables && a != b ==> db.tables[a].uuid != db.tables[b].uuid)
    && (forall c :: c in db.columns ==> c.schema in db.schemas)
    && RowsOwned(db)
  }

  /** The invariant of every reachable database state, with one history per table. */
  ghost predicate Inv(db: Db, hs: map<TableIdent, Hist>) {
    && GlobalOk(db)
    && (forall ident :: ident in db.tables ==> TableOk(db, hs, ident))
  }

  ghost predicate TableOk(db: Db, hs: map<TableIdent, Hist>, ident: TableIdent) {
    ident in db.tables && ident in hs && SliceOk(SliceOf(db, ident), hs[ident])
  }

  // ---------- the fold as one change ----------

  function SpecIn(ops: seq<MutationOp>, n: nat): Option<seq<ColumnSpec>>
    requires n <= |ops|
  {
    if n == 0 then None
    else if ops[n - 1].UpdateSchema? then Some(ops[n - 1].columns)
    else SpecIn(ops, n - 1)
  }

  function ChangeOf(ctx: Context, ops: seq<MutationOp>, n: nat, w: Work): Change
    requires n <= |ops|
  {
    Change(ctx.txn, w.ws.files, SpecIn(ops, n), ctx.ids, w.properties)
  }

  /** The write set of a change, before the head update. */
  function Buffer(s: Slice, c: Change): Db
    requires s.row.schema.Some? && s.row.schema.value in s.schemas
  {
    Db(map[], map[c.txn := TxnRow(s.row.uuid, s.row.head)], NewSchemas(s, c), NewColumns(c), c.files)
  }

  ghost predicate ContextOk(s: Slice, ctx: Context) {
    && s.row.schema.Some? && s.row.schema.value in s.schemas
    && ctx.table == s.row.uuid && ctx.schema == s.row.schema
  }

  /** Files a transaction writes are new to the database or live files of its own table. */
  ghost predicate OwnFiles(files: map<Uuid, FileRow>, s: Slice, t: TxnId, written: map<Uuid, FileRow>) {
    forall u :: u in written ==> LegalFile(s, t, u, written[u]) && (u in files ==> u in s.files)
  }

  ghost predicate SpecOk(db: Db, s: Slice, ctx: Context, spec: Option<seq<ColumnSpec>>)
    requires ContextOk(s, ctx)
  {
    spec.Some? ==>
      && ctx.ids.schema !in db.schemas
      && ValidSchema(spec.value)
      && CheckEvolution(ColumnsFor(s.columns, s.row.schema.value), spec.value).Ok?
  }

  /** After n operations the buffer is that of one legal change. */
  ghost predicate FoldOk(db: Db, s: Slice, ctx: Context, ops: seq<MutationOp>, n: nat, w: Work)
    requires ContextOk(s, ctx) && n <= |ops|
  {
    var c := ChangeOf(ctx, ops, n, w);
    && w.ws == Buffer(s, c)
    && w.schema == (if c.spec.Some? then Some(ctx.ids.schema) else s.row.schema)
    && OwnFiles(db.files, s, ctx.txn, c.files)
    && SpecOk(db, s, ctx, c.spec)
  }

  lemma AppendFolds(db: Db, s: Slice, ctx: Context, written: map<Uuid, FileRow>, entries: seq<FileEntry>)
    requires s.files == FilesIn(db.files, ctx.table) && ctx.table == s.row.uuid
    requires OwnFiles(db.files, s, ctx.txn, written) && FreshFiles(db.files + written, entries)
    ensures OwnFiles(db.files, s, ctx.txn, written + FileRows(ctx, entries))
  {
    forall u | u in FileRows(ctx, entries)
      ensures LegalFile(s, ctx.txn, u, FileRows(ctx, entries)[u]) && u !in db.files
    {
      FileRowsKeys(ctx, entries, u);
    }
  }

  lemma DeleteFolds(db: Db, s: Slice, ctx: Context, written: map<Uuid, FileRow>, uuids: seq<Uuid>)
    requires s.files == FilesIn(db.files, ctx.table) && ctx.table == s.row.uuid
    requires OwnFiles(db.files, s, ctx.txn, written)
    ensures OwnFiles(db.files, s, ctx.txn, written + MarkRemoved(db.files + written, ctx, uuids))
  {
    var marked := MarkRemoved(db.files + written, ctx, uuids);
    forall u | u in marked
      ensures LegalFile(s, ctx.txn, u, marked[u]) && (u in db.files ==> u in s.files)
    {
      if u in written { assert LegalFile(s, ctx.txn, u, written[u]); }
    }
  }

  lemma OwnColumns(db: Db, table: Uuid, x: Uuid)
    requires x in db.schemas && db.schemas[x].table == table
    ensures ColumnsFor(ColumnsIn(db.columns, db.schemas, table), x) == ColumnsFor(db.columns, x)
  {
  }

  /** What an accepted schema update writes. */
  lemma ReplacementShape(view: Db, ctx: Context, columns: seq<ColumnSpec>)
    requires ReplaceSchema(view, ctx, columns).Ok?
    ensures ValidSchema(columns) && ctx.schema.Some? && ctx.schema.value in view.schemas
            && ctx.ids.schema !in view.schemas
    ensures CheckEvolution(ColumnsFor(view.columns, ctx.schema.value), columns).Ok?
    ensures var current, written := ctx.schema.value, ReplaceSchema(view, ctx, columns).value;
            && written.schemas ==
               map[ctx.ids.schema := SchemaRow(ctx.table, view.schemas[current].version + 1, ctx.txn, None),
                                      current := view.schemas[current].(validTo := Some(ctx.txn))]
            && written.columns == Elements(ColumnRows(ctx.ids.schema, ctx.ids, columns))
            && written.tables == map[] && written.txns == map[] && written.files == map[]
  {
    hide ValidSchema, FreshColumns, CheckEvolution, CheckSchema, InsertColumns;
    CheckSchemaAccepts(columns);
    ColumnsAtOnce(view.columns, ctx.kind, ColumnRows(ctx.ids.schema, ctx.ids, columns));
  }

  lemma SchemaFolds(db: Db, s: Slice, ctx: Context, w: Work, c: Change, columns: seq<ColumnSpec>)
    requires ContextOk(s, ctx) && s.schemas == SchemasIn(db.schemas, ctx.table)
             && s.columns == ColumnsIn(db.columns, db.schemas, ctx.table)
    requires c.spec.None? && c.ids == ctx.ids && c.txn == ctx.txn && w.ws == Buffer(s, c)
    requires ReplaceSchema(Over(db, w.ws), ctx, columns).Ok?
    ensures Over(w.ws, ReplaceSchema(Over(db, w.ws), ctx, columns).value) == Buffer(s, c.(spec := Some(columns)))
    ensures SpecOk(db, s, ctx, Some(columns))
  {
    hide ReplaceSchema, ValidSchema, CheckEvolution, ColumnRows, ColumnsIn, ColumnsFor, Elements;
    var view := Over(db, w.ws);
    NothingBuffered(db, w.ws);
    ReplacementShape(view, ctx, columns);
    OwnColumns(db, ctx.table, ctx.schema.value);
    BufferWithSchema(s, c, columns, w.ws, ReplaceSchema(view, ctx, columns).value);
  }

  lemma NothingBuffered(db: Db, ws: Db)
    requires ws.schemas == map[] && ws.columns == {}
    ensures Over(db, ws).schemas == db.schemas && Over(db, ws).columns == db.columns
  {
  }

  lemma BufferWithSchema(s: Slice, c: Change, columns: seq<ColumnSpec>, ws: Db, written: Db)
    requires s.row.schema.Some? && s.row.schema.value in s.schemas && c.spec.None? && ws == Buffer(s, c)
    requires var next := c.(spec := Some(columns));
             && written.schemas == NewSchemas(s, next) && written.columns == NewColumns(next)
             && written.tables == map[] && written.txns == map[] && written.files == map[]
    ensures Over(ws, written) == Buffer(s, c.(spec := Some(columns)))
  {
    assert Over(ws, written).files == c.files && Over(ws, written).columns == written.columns;
  }

  lemma UpdatesMonotone(ops: seq<MutationOp>, n: nat)
    requires 0 < n <= |ops|
    ensures CountUpdates(ops[..n]) == CountUpdates(ops[..n - 1]) + if ops[n - 1].UpdateSchema? then 1 else 0
  {
    assert ops[..n][..n - 1] == ops[..n - 1];
  }

  lemma {:induction false} SpecCounts(ops: seq<MutationOp>, n: nat)
    requires n <= |ops|
    ensures SpecIn(ops, n).Some? <==> CountUpdates(ops[..n]) > 0
  {
    if n > 0 { UpdatesMonotone(ops, n); SpecCounts(ops, n - 1); }
  }

  lemma OpFolds(db: Db, s: Slice, ctx: Context, ops: seq<MutationOp>, n: nat, w: Work, w2: Work)
    requires ContextOk(s, ctx) && s.files == FilesIn(db.files, ctx.table)
    requires s.schemas == SchemasIn(db.schemas, ctx.table) && s.columns == ColumnsIn(db.columns, db.schemas, ctx.table)
    requires n < |ops| && FoldOk(db, s, ctx, ops, n, w)
    requires ops[n].UpdateSchema? ==> SpecIn(ops, n).None?
    requires ExecOp(db, ctx, n, ops[n], w) == Ok(w2)
    ensures FoldOk(db, s, ctx, ops, n + 1, w2)
  {
    var c := ChangeOf(ctx, ops, n, w);
    match ops[n]
    case AppendFiles(files) =>
      var entries := Entries(ctx.ids, n, files);
      ChunkedOperationsAtOnce(db.files + w.ws.files, ctx, entries, []);
      AppendFolds(db, s, ctx, w.ws.files, entries);
    case DeleteFiles(uuids) =>
      ChunkedOperationsAtOnce(db.files + w.ws.files, ctx, [], uuids);
      DeleteFolds(db, s, ctx, w.ws.files, uuids);
    case UpdateSchema(columns) =>
      SchemaFolds(db, s, ctx, w, c, columns);
    case SetProperties(_) =>
    case RemoveProperties(_) =>
  }

  lemma {:induction false} FoldInstallsChange(
    db: Db, s: Slice, ctx: Context, ops: seq<MutationOp>, n: nat, w0: Work, w: Work)
    requires ContextOk(s, ctx) && s.files == FilesIn(db.files, ctx.table)
    requires s.schemas == SchemasIn(db.schemas, ctx.table) && s.columns == ColumnsIn(db.columns, db.schemas, ctx.table)
    requires n <= |ops| && CountUpdates(ops) <= 1 && FoldOk(db, s, ctx, ops, 0, w0)
    requires ExecOps(db, ctx, ops, n, w0) == Ok(w)
    ensures FoldOk(db, s, ctx, ops, n, w)
  {
    if n > 0 {
      var before := ExecOps(db, ctx, ops, n - 1, w0).value;
      FoldInstallsChange(db, s, ctx, ops, n - 1, w0, before);
      CountsGrow(ops, n);
      UpdatesMonotone(ops, n);
      SpecCounts(ops, n - 1);
      OpFolds(db, s, ctx, ops, n - 1, before, w);
    }
  }

  lemma {:induction false} CountsGrow(ops: seq<MutationOp>, n: nat)
    requires n <= |ops|
    ensures CountUpdates(ops[..n]) <= CountUpdates(ops)
    decreases |ops| - n
  {
    if n < |ops| { UpdatesMonotone(ops, n + 1); CountsGrow(ops, n + 1); } else { assert ops[..n] == ops; }
  }

  // ---------- the change a commit publishes ----------

  /** The change made by a successful commit. */
  function Committed(env: Env, db: Db, req: Request): Change
    requires CommitWrites(env, db, req).Ok?
  {
    var session := Begin(env, db, req).value;
    ChangeOf(session.ctx, req.ops, |req.ops|, ExecOps(db, session.ctx, req.ops, |req.ops|, session.work).value)
  }

  lemma HeadAndSchema(s: Slice, h: Hist)
    requires SliceOk(s, h)
    ensures s.row.schema.Some? && s.row.schema.value in s.schemas
    ensures s.row.head.Some? && s.row.head.value in s.txns
    ensures forall r :: r in s.columns ==> r.schema in s.schemas
  {
    assert Last(h.schemas) in h.schemas && Last(h.chain) in h.chain;
  }

  /** What the fold guarantees about a change on the table `ident`. */
  ghost predicate Publishable(db: Db, ident: TableIdent, c: Change) {
    && ident in db.tables
    && var s := SliceOf(db, ident);
    && s.row.schema.Some? && s.row.schema.value in s.schemas && c.txn !in db.txns
    && OwnFiles(db.files, s, c.txn, c.files) && (c.spec.Some? ==> c.ids.schema !in db.schemas)
  }

  /** The complete write set of a change. */
  function WritesOf(s: Slice, ident: TableIdent, c: Change): Db
    requires s.row.schema.Some? && s.row.schema.value in s.schemas
  {
    Buffer(s, c).(tables := map[ident := ApplyChange(s, c).row])
  }

  lemma FoldOfCommit(env: Env, db: Db, h: Hist, req: Request)
    requires req.ident in db.tables && SliceOk(SliceOf(db, req.ident), h) && CommitWrites(env, db, req).Ok?
    ensures var s, session := SliceOf(db, req.ident), Begin(env, db, req).value;
            && ContextOk(s, session.ctx)
            && FoldOk(db, s, session.ctx, req.ops, |req.ops|,
                      ExecOps(db, session.ctx, req.ops, |req.ops|, session.work).value)
  {
    hide SliceOk, ExecOps, Finish;
    var s := SliceOf(db, req.ident);
    HeadAndSchema(s, h);
    var ctx, w0 := Begin(env, db, req).value.ctx, Begin(env, db, req).value.work;
    ScanOpsAccepts(req.ops, |req.ops|);
    assert req.ops[..|req.ops|] == req.ops;
    assert FoldOk(db, s, ctx, req.ops, 0, w0);
    FoldInstallsChange(db, s, ctx, req.ops, |req.ops|, w0, ExecOps(db, ctx, req.ops, |req.ops|, w0).value);
  }

  /** A successful commit publishes exactly one legal change, whose parent is the base. */
  lemma CommitIsChange(env: Env, db: Db, h: Hist, req: Request)
    requires req.ident in db.tables && SliceOk(SliceOf(db, req.ident), h) && CommitWrites(env, db, req).Ok?
    ensures var s, c := SliceOf(db, req.ident), Committed(env, db, req);
            && Publishable(db, req.ident, c) && Legal(s, c)
            && s.row.head == Some(req.base) && c.txn == req.ids.txn
            && CommitWrites(env, db, req).value == WritesOf(s, req.ident, c)
  {
    FoldOfCommit(env, db, h, req);
    HeadAndSchema(SliceOf(db, req.ident), h);
  }

  lemma PublishedTxns(txns: map<TxnId, TxnRow>, t: TxnId, row: TxnRow, table: Uuid)
    requires t !in txns
    ensures TxnsIn(txns + map[t := row], table) ==
              if table == row.table then TxnsIn(txns, table)[t := row.parent] else TxnsIn(txns, table)
  {
  }

  lemma PublishedSchemas(schemas: map<Uuid, SchemaRow>, written: map<Uuid, SchemaRow>, own: Uuid, table: Uuid)
    requires forall x :: x in written ==> written[x].table == own && (x in schemas ==> schemas[x].table == own)
    ensures SchemasIn(schemas + written, table) ==
              if table == own then SchemasIn(schemas, own) + written else SchemasIn(schemas, table)
  {
  }

  lemma PublishedFiles(files: map<Uuid, FileRow>, written: map<Uuid, FileRow>, own: Uuid, table: Uuid)
    requires forall u :: u in written ==> written[u].table == own && (u in files ==> files[u].table == own)
    ensures FilesIn(files + written, table) ==
              if table == own then FilesIn(files, own) + written else FilesIn(files, table)
  {
  }

  lemma PublishedColumns(
    columns: set<ColumnRow>, schemas: map<Uuid, SchemaRow>, added: set<ColumnRow>, written: map<Uuid, SchemaRow>,
    own: Uuid, table: Uuid)
    requires forall x :: x in written ==> written[x].table == own && (x in schemas ==> schemas[x].table == own)
    requires forall c :: c in columns ==> c.schema in schemas
    requires forall c :: c in added ==> c.schema in written
    ensures ColumnsIn(columns + added, schemas + written, table) ==
              if table == own then ColumnsIn(columns, schemas, own) + added else ColumnsIn(columns, schemas, table)
  {
  }

  /** The rows of a change belong to its table, old and new. */
  lemma OwnRows(db: Db, ident: TableIdent, c: Change)
    requires Publishable(db, ident, c)
    ensures var s := SliceOf(db, ident);
            var ws := WritesOf(s, ident, c);
            && (forall u :: u in ws.files ==>
                  ws.files[u].table == s.row.uuid && (u in db.files ==> db.files[u].table == s.row.uuid))
            && (forall x :: x in ws.schemas ==>
                  ws.schemas[x].table == s.row.uuid && (x in db.schemas ==> db.schemas[x].table == s.row.uuid))
            && (forall r :: r in ws.columns ==> r.schema in ws.schemas)
  {
    var s := SliceOf(db, ident);
    if c.spec.Some? { ColumnRowsStored(c.ids.schema, c.ids, c.spec.value); }
    forall u | u in c.files ensures c.files[u].table == s.row.uuid {
      assert LegalFile(s, c.txn, u, c.files[u]);
    }
  }

  lemma PublishedGlobal(db: Db, ident: TableIdent, c: Change)
    requires Publishable(db, ident, c) && GlobalOk(db)
    ensures GlobalOk(Over(db, WritesOf(SliceOf(db, ident), ident, c)))
  {
    OwnRows(db, ident, c);
    var db2 := Over(db, WritesOf(SliceOf(db, ident), ident, c));
    forall a | a in db2.tables ensures a in db.tables && db2.tables[a].uuid == db.tables[a].uuid {}
    assert db2.tables[ident].uuid == db.tables[ident].uuid;
    OverOwned(db, WritesOf(SliceOf(db, ident), ident, c), db.tables[ident].uuid);
  }

  lemma OverOwned(db: Db, ws: Db, own: Uuid)
    requires RowsOwned(db) && HasTable(Over(db, ws).tables, own)
    requires forall a :: a in ws.tables && a in db.tables ==> ws.tables[a].uuid == db.tables[a].uuid
    requires forall t :: t in ws.txns ==> ws.txns[t].table == own
    requires forall s :: s in ws.schemas ==> ws.schemas[s].table == own
    requires forall u :: u in ws.files ==> ws.files[u].table == own
    ensures RowsOwned(Over(db, ws))
  {
    var tables := Over(db, ws).tables;
    forall x | HasTable(db.tables, x) ensures HasTable(tables, x) {
      var a :| a in db.tables && db.tables[a].uuid == x;
      assert tables[a].uuid == x;
    }
  }

  /** Publishing a change replaces its own slice by the changed one and no other slice. */
  lemma PublishedSlice(db: Db, ident: TableIdent, c: Change, other: TableIdent)
    requires GlobalOk(db) && Publishable(db, ident, c) && other in db.tables
    ensures var s := SliceOf(db, ident);
            var db2 := Over(db, WritesOf(s, ident, c));
            && other in db2.tables
            && SliceOf(db2, other) == if other == ident then ApplyChange(s, c) else SliceOf(db, other)
  {
    hide TxnsIn, SchemasIn, FilesIn, ColumnsIn, RowsOwned, LegalFile;
    var s := SliceOf(db, ident);
    var ws, own, table := WritesOf(s, ident, c), s.row.uuid, db.tables[other].uuid;
    var db2 := Over(db, ws);
    OwnRows(db, ident, c);
    assert TxnsIn(db2.txns, table) == if table == own then ApplyChange(s, c).txns else TxnsIn(db.txns, table) by {
      PublishedTxns(db.txns, c.txn, TxnRow(own, s.row.head), table);
    }
    assert SchemasIn(db2.schemas, table) ==
           if table == own then ApplyChange(s, c).schemas else SchemasIn(db.schemas, table) by {
      PublishedSchemas(db.schemas, ws.schemas, own, table);
    }
    assert FilesIn(db2.files, table) == if table == own then ApplyChange(s, c).files else FilesIn(db.files, table) by {
      PublishedFiles(db.files, ws.files, own, table);
    }
    PublishedColumns(db.columns, db.schemas, ws.columns, ws.schemas, own, table);
  }

  /** The histories after a commit. */
  function Advance(hs: map<TableIdent, Hist>, ident: TableIdent, c: Change): map<TableIdent, Hist>
    requires ident in hs
  {
    hs[ident := Extend(hs[ident], c)]
  }

  lemma PublishedTableOk(db: Db, hs: map<TableIdent, Hist>, ident: TableIdent, c: Change, other: TableIdent)
    requires GlobalOk(db) && TableOk(db, hs, ident) && TableOk(db, hs, other)
    requires Publishable(db, ident, c) && Legal(SliceOf(db, ident), c)
    ensures TableOk(Over(db, WritesOf(SliceOf(db, ident), ident, c)), Advance(hs, ident, c), other)
  {
    PublishedSlice(db, ident, c, other);
    if other == ident { ChangeKeepsInvariant(SliceOf(db, ident), hs[ident], c); }
  }

  lemma PublishedInv(db: Db, hs: map<TableIdent, Hist>, ident: TableIdent, c: Change)
    requires Inv(db, hs) && Publishable(db, ident, c) && Legal(SliceOf(db, ident), c)
    ensures Inv(Over(db, WritesOf(SliceOf(db, ident), ident, c)), Advance(hs, ident, c))
  {
    var db2 := Over(db, WritesOf(SliceOf(db, ident), ident, c));
    PublishedGlobal(db, ident, c);
    assert TableOk(db, hs, ident);
    forall other | other in db2.tables ensures TableOk(db2, Advance(hs, ident, c), other) {
      assert TableOk(db, hs, other);
      PublishedTableOk(db, hs, ident, c, other);
    }
  }

  /** Commit meaning, framing and invariance in one: a successful commit turns its table's slice into
      the changed one, extends that table's history by one transaction, leaves every other table's
      slice alone, and keeps the invariant. */
  lemma CommitSteps(env: Env, db: Db, hs: map<TableIdent, Hist>, req: Request)
    requires Inv(db, hs) && CommitWrites(env, db, req).Ok?
    ensures req.ident in db.tables
    ensures var c := Committed(env, db, req);
            var db2 := Over(db, CommitWrites(env, db, req).value);
            && (forall other :: other in db2.tables <==> other in db.tables)
            && Legal(SliceOf(db, req.ident), c)
            && SliceOf(db2, req.ident) == ApplyChange(SliceOf(db, req.ident), c)
            && (forall other :: other in db.tables && other != req.ident ==> SliceOf(db2, other) == SliceOf(db, other))
            && Inv(db2, Advance(hs, req.ident, c))
  {
    hide SliceOk, GlobalOk, SliceOf, Committed, OwnFiles;
    assert TableOk(db, hs, req.ident);
    CommitIsChange(env, db, hs[req.ident], req);
    var c := Committed(env, db, req);
    PublishedInv(db, hs, req.ident, c);
    forall other | other in db.tables
      ensures SliceOf(Over(db, CommitWrites(env, db, req).value), other) ==
                if other == req.ident then ApplyChange(SliceOf(db, req.ident), c) else SliceOf(db, other)
    {
      PublishedSlice(db, req.ident, c, other);
    }
  }

  // ---------- table creation ----------

  function Genesis(ids: Ids, columns: seq<ColumnSpec>): Hist {
    Hist([ids.txn], [ids.schema], [columns])
  }

  function NewSlice(env: Env, columns: seq<ColumnSpec>, properties: Option<Properties>, ids: Ids): Slice {
    Slice(TableRow(ids.table, Some(ids.txn), Some(ids.schema), properties.GetOr(map[]), env.reader, env.writer),
          map[ids.txn := None], map[ids.schema := SchemaRow(ids.table, 1, ids.txn, None)],
          Elements(ColumnRows(ids.schema, ids, columns)), map[])
  }

  lemma GenesisOk(env: Env, columns: seq<ColumnSpec>, properties: Option<Properties>, ids: Ids)
    requires ValidSchema(columns)
    ensures SliceOk(NewSlice(env, columns, properties, ids), Genesis(ids, columns))
  {
    var s, h := NewSlice(env, columns, properties, ids), Genesis(ids, columns);
    ColumnRowsStored(ids.schema, ids, columns);
    assert ColumnsFor(s.columns, ids.schema) == s.columns;
    assert SchemaOk(s, h, 0);
  }

  /** What an accepted creation writes. */
  lemma CreateShape(
    env: Env, db: Db, ident: TableIdent, columns: seq<ColumnSpec>, properties: Option<Properties>, ids: Ids)
    requires CreateWrites(env, db, ident, columns, properties, ids).Ok?
    ensures ValidSchema(columns) && ident !in db.tables && !HasTable(db.tables, ids.table)
    ensures ids.txn !in db.txns && ids.schema !in db.schemas
    ensures var s := NewSlice(env, columns, properties, ids);
            CreateWrites(env, db, ident, columns, properties, ids).value ==
              Db(map[ident := s.row], map[ids.txn := TxnRow(ids.table, None)], s.schemas, s.columns, map[])
  {
    CheckSchemaAccepts(columns);
    ColumnsAtOnce(db.columns, env.kind, ColumnRows(ids.schema, ids, columns));
  }

  lemma NoRowsYet(db: Db, own: Uuid)
    requires GlobalOk(db) && !HasTable(db.tables, own)
    ensures TxnsIn(db.txns, own) == map[] && SchemasIn(db.schemas, own) == map[] && FilesIn(db.files, own) == map[]
    ensures ColumnsIn(db.columns, db.schemas, own) == {}
  {
  }

  lemma CreatedSlice(
    env: Env, db: Db, ident: TableIdent, columns: seq<ColumnSpec>, properties: Option<Properties>, ids: Ids)
    requires GlobalOk(db) && CreateWrites(env, db, ident, columns, properties, ids).Ok?
    ensures var db2 := Over(db, CreateWrites(env, db, ident, columns, properties, ids).value);
            ident in db2.tables && SliceOf(db2, ident) == NewSlice(env, columns, properties, ids)
  {
    hide CreateWrites, Stored, ValidSchema, ColumnsIn, RowsOwned, ColumnRows, HasTable;
    CreateShape(env, db, ident, columns, properties, ids);
    ColumnRowsStored(ids.schema, ids, columns);
    var ws, own := CreateWrites(env, db, ident, columns, properties, ids).value, ids.table;
    NoRowsYet(db, own);
    PublishedTxns(db.txns, ids.txn, TxnRow(own, None), own);
    PublishedSchemas(db.schemas, ws.schemas, own, own);
    assert FilesIn(db.files + ws.files, own) == map[];
    PublishedColumns(db.columns, db.schemas, ws.columns, ws.schemas, own, own);
  }

  lemma CreatedOther(
    env: Env, db: Db, ident: TableIdent, columns: seq<ColumnSpec>, properties: Option<Properties>, ids: Ids,
                     other: TableIdent)
    requires GlobalOk(db) && CreateWrites(env, db, ident, columns, properties, ids).Ok? && other in db.tables
    ensures var db2 := Over(db, CreateWrites(env, db, ident, columns, properties, ids).value);
            other in db2.tables && SliceOf(db2, other) == SliceOf(db, other)
  {
    CreateShape(env, db, ident, columns, properties, ids);
    ColumnRowsStored(ids.schema, ids, columns);
    var ws, own := CreateWrites(env, db, ident, columns, properties, ids).value, ids.table;
    var table := db.tables[other].uuid;
    assert table != own;
    PublishedTxns(db.txns, ids.txn, TxnRow(own, None), table);
    PublishedSchemas(db.schemas, ws.schemas, own, table);
    assert db.files + ws.files == db.files;
    PublishedColumns(db.columns, db.schemas, ws.columns, ws.schemas, own, table);
  }

  lemma CreatedGlobal(
    env: Env, db: Db, ident: TableIdent, columns: seq<ColumnSpec>, properties: Option<Properties>, ids: Ids)
    requires GlobalOk(db) && CreateWrites(env, db, ident, columns, properties, ids).Ok?
    ensures GlobalOk(Over(db, CreateWrites(env, db, ident, columns, properties, ids).value))
  {
    CreateShape(env, db, ident, columns, properties, ids);
    ColumnRowsStored(ids.schema, ids, columns);
    var ws := CreateWrites(env, db, ident, columns, properties, ids).value;
    var db2 := Over(db, ws);
    assert db2.tables[ident].uuid == ids.table;
    OverOwned(db, ws, ids.table);
    forall a | a in db.tables ensures db2.tables[a].uuid == db.tables[a].uuid != ids.table {}
  }

  /** Creating a table starts its history and disturbs no other table. */
  lemma CreateSteps(env: Env, db: Db, hs: map<TableIdent, Hist>, ident: TableIdent, columns: seq<ColumnSpec>,
                    properties: Option<Properties>, ids: Ids)
    requires Inv(db, hs) && CreateWrites(env, db, ident, columns, properties, ids).Ok?
    ensures var db2 := Over(db, CreateWrites(env, db, ident, columns, properties, ids).value);
            && ident !in db.tables && (forall other :: other in db2.tables <==> other in db.tables || other == ident)
            && SliceOf(db2, ident) == NewSlice(env, columns, properties, ids)
            && (forall other :: other in db.tables ==> SliceOf(db2, other) == SliceOf(db, other))
            && Inv(db2, hs[ident := Genesis(ids, columns)])
  {
    hide CreateWrites, NewSlice, SliceOk, SliceOf, GlobalOk;
    var db2, hs2 := Over(db, CreateWrites(env, db, ident, columns, properties, ids).value),
      hs[ident := Genesis(ids, columns)];
    CreateShape(env, db, ident, columns, properties, ids);
    CreatedGlobal(env, db, ident, columns, properties, ids);
    CreatedSlice(env, db, ident, columns, properties, ids);
    GenesisOk(env, columns, properties, ids);
    forall other | other in db.tables ensures SliceOf(db2, other) == SliceOf(db, other) && TableOk(db2, hs2, other) {
      CreatedOther(env, db, ident, columns, properties, ids, other);
      assert TableOk(db, hs, other);
    }
    assert TableOk(db2, hs2, ident);
  }
}
