/** What `create_table` and `commit` write: the statements of a database transaction as write
    sets, the in-order fold over a mutation's operations, and the resulting publication. */
module Statements {
  import opened CatalogTypes
  import opened DataTypes
  import opened Limits
  import opened Validation

  // ---------- appended files ----------

  datatype FileEntry = FileEntry(uuid: Uuid, spec: FileSpec)

  function Entries(ids: Ids, k: nat, files: seq<FileSpec>): seq<FileEntry> {
    seq(|files|, i requires 0 <= i < |files| => FileEntry(files[i].fileUuid.GetOr(ids.file(k, i)), files[i]))
  }

  function NewFile(ctx: Context, f: FileSpec): FileRow {
    FileRow(ctx.table, f.format, f.path, f.records, f.bytes, ctx.txn, None, f.partition, f.options)
  }

  function FileRows(ctx: Context, entries: seq<FileEntry>): map<Uuid, FileRow> {
    if |entries| == 0 then map[] else
      var e := entries[|entries| - 1];
      FileRows(ctx, entries[..|entries| - 1])[e.uuid := NewFile(ctx, e.spec)]
  }

  function CheckFiles(entries: seq<FileEntry>, n: nat): Result<()>
    requires n <= |entries|
  {
    if n == 0 then Ok(()) else
      var before := CheckFiles(entries, n - 1);
      if before.Err? then before else CheckFile(entries[n - 1].spec)
  }

  predicate FreshFiles(files: map<Uuid, FileRow>, entries: seq<FileEntry>) {
    && (forall i :: 0 <= i < |entries| ==> entries[i].uuid !in files)
    && (forall i, j :: 0 <= i < j < |entries| ==> entries[i].uuid != entries[j].uuid)
  }

  /** One multi-row INSERT into files: every row is checked, then the primary key is enforced. */
  function InsertFiles(files: map<Uuid, FileRow>, ctx: Context, entries: seq<FileEntry>): Result<map<Uuid, FileRow>> {
    var checked := CheckFiles(entries, |entries|);
    if checked.Err? then Err(checked.error)
    else if !FreshFiles(files, entries) then Err(UniqueViolation)
    else Ok(FileRows(ctx, entries))
  }

  /** The rows written by the first n chunked INSERTs. */
  function AppendChunks(files: map<Uuid, FileRow>, ctx: Context, chunks: seq<seq<FileEntry>>, n: nat)
    : Result<map<Uuid, FileRow>>
    requires n <= |chunks|
  {
    if n == 0 then Ok(map[]) else
      var before := AppendChunks(files, ctx, chunks, n - 1);
      if before.Err? then before else
        var rows := InsertFiles(files + before.value, ctx, chunks[n - 1]);
        if rows.Err? then rows else Ok(before.value + rows.value)
  }

  // ---------- deleted files ----------

  /** One UPDATE … SET removed_in_transaction_id …: live files of this table named in `uuids`. */
  function MarkRemoved(files: map<Uuid, FileRow>, ctx: Context, uuids: seq<Uuid>): map<Uuid, FileRow> {
    map u | u in files && u in uuids && files[u].table == ctx.table && files[u].removed.None?
      :: files[u].(removed := Some(ctx.txn))
  }

  function MarkChunks(files: map<Uuid, FileRow>, ctx: Context, chunks: seq<seq<Uuid>>, n: nat): map<Uuid, FileRow>
    requires n <= |chunks|
  {
    if n == 0 then map[] else
      var before := MarkChunks(files, ctx, chunks, n - 1);
      before + MarkRemoved(files + before, ctx, chunks[n - 1])
  }

  // ---------- columns ----------

  function ColumnRowAt(schema: Uuid, ids: Ids, p: nat, c: ColumnSpec): ColumnRow {
    ColumnRow(ids.column(p), schema, c.name, c.typ, p + 1, c.nullable)
  }

  function ColumnRows(schema: Uuid, ids: Ids, columns: seq<ColumnSpec>): seq<ColumnRow> {
    seq(|columns|, p requires 0 <= p < |columns| => ColumnRowAt(schema, ids, p, columns[p]))
  }

  /** The primary key and UNIQUE(schema_uuid, column_name). */
  predicate Clash(a: ColumnRow, b: ColumnRow) {
    a.uuid == b.uuid || (a.schema == b.schema && a.name == b.name)
  }

  predicate FreshColumns(columns: set<ColumnRow>, rows: seq<ColumnRow>) {
    && (forall i, c :: 0 <= i < |rows| && c in columns ==> !Clash(c, rows[i]))
    && (forall i, j :: 0 <= i < j < |rows| ==> !Clash(rows[i], rows[j]))
  }

  function Elements<T>(s: seq<T>): set<T> {
    set x | x in s
  }

  function InsertColumnChunks(columns: set<ColumnRow>, chunks: seq<seq<ColumnRow>>, n: nat): Result<set<ColumnRow>>
    requires n <= |chunks|
  {
    if n == 0 then Ok({}) else
      var before := InsertColumnChunks(columns, chunks, n - 1);
      if before.Err? then before
      else if !FreshColumns(columns + before.value, chunks[n - 1]) then Err(UniqueViolation)
      else Ok(before.value + Elements(chunks[n - 1]))
  }

  function InsertColumns(columns: set<ColumnRow>, kind: DbKind, rows: seq<ColumnRow>): Result<set<ColumnRow>> {
    var chunks := Chunks(rows, BatchInsertColumnsChunk(kind));
    InsertColumnChunks(columns, chunks, |chunks|)
  }

  // ---------- schema updates ----------

  function ColumnsFor(columns: set<ColumnRow>, s: Uuid): set<ColumnRow> {
    set c | c in columns && c.schema == s
  }

  function CheckColumn(prior: set<ColumnRow>, c: ColumnSpec): Result<()> {
    if exists o :: o in prior && o.name == c.name && !CanEvolveTo(o.typ, c.typ) then Err(IncompatibleType(c.name))
    else if !c.nullable && exists o :: o in prior && o.name == c.name && o.nullable then
      Err(NarrowedNullability(c.name))
    else Ok(())
  }

  function CheckColumns(prior: set<ColumnRow>, columns: seq<ColumnSpec>, n: nat): Result<()>
    requires n <= |columns|
  {
    if n == 0 then Ok(()) else
      var before := CheckColumns(prior, columns, n - 1);
      if before.Err? then before else CheckColumn(prior, columns[n - 1])
  }

  predicate HasName(columns: seq<ColumnSpec>, name: string) {
    exists i :: 0 <= i < |columns| && columns[i].name == name
  }

  function CheckEvolution(prior: set<ColumnRow>, columns: seq<ColumnSpec>): Result<()> {
    if exists o :: o in prior && !HasName(columns, o.name) then Err(DroppedColumn)
    else CheckColumns(prior, columns, |columns|)
  }

  /** The schema and column rows written by one UpdateSchema. */
  function ReplaceSchema(view: Db, ctx: Context, columns: seq<ColumnSpec>): Result<Db> {
    var checked := CheckSchema(columns);
    if checked.Err? then Err(checked.error)
    else if ctx.schema.None? then Err(NoCurrentSchema)
    else
      var current := ctx.schema.value;
      if current !in view.schemas then Err(MissingSchemaRow) else
        var evolves := CheckEvolution(ColumnsFor(view.columns, current), columns);
        if evolves.Err? then Err(evolves.error)
        else if ctx.ids.schema in view.schemas then Err(UniqueViolation)
        else
          var row := view.schemas[current];
          var inserted := InsertColumns(view.columns, ctx.kind, ColumnRows(ctx.ids.schema, ctx.ids, columns));
          if inserted.Err? then Err(inserted.error)
          else Ok(EMPTY.(
                    schemas := map[ctx.ids.schema := SchemaRow(ctx.table, row.version + 1, ctx.txn, None),
                                   current := row.(validTo := Some(ctx.txn))],
                    columns := inserted.value))
  }

  // ---------- the operation fold ----------

  /** What a commit fixes once it holds the lock: its table, its new transaction, and the schema
      that was current when it read the table row. */
  datatype Context = Context(kind: DbKind, table: Uuid, txn: TxnId, schema: Option<Uuid>, ids: Ids)

  /** What it changes while applying operations. */
  datatype Work = Work(ws: Db, properties: Properties, schema: Option<Uuid>)

  function RemoveKeys(properties: Properties, keys: seq<string>, n: nat): Properties
    requires n <= |keys|
  {
    if n == 0 then properties else RemoveKeys(properties, keys, n - 1) - {keys[n - 1]}
  }

  function ExecOp(db: Db, ctx: Context, k: nat, op: MutationOp, w: Work): Result<Work> {
    var view := Over(db, w.ws);
    match op
    case AppendFiles(files) =>
      if |files| > MAX_FILES_PER_APPEND then Err(AppendTooLarge) else
        var chunks := Chunks(Entries(ctx.ids, k, files), BATCH_INSERT_FILES_CHUNK);
        var rows := AppendChunks(view.files, ctx, chunks, |chunks|);
        if rows.Err? then Err(rows.error) else Ok(w.(ws := w.ws.(files := w.ws.files + rows.value)))
    case DeleteFiles(uuids) =>
      if |uuids| > MAX_FILES_PER_DELETE then Err(DeleteTooLarge) else
        var chunks := Chunks(uuids, BATCH_DELETE_FILES_CHUNK);
        Ok(w.(ws := w.ws.(files := w.ws.files + MarkChunks(view.files, ctx, chunks, |chunks|))))
    case UpdateSchema(columns) =>
      var rows := ReplaceSchema(view, ctx, columns);
      if rows.Err? then Err(rows.error) else Ok(w.(ws := Over(w.ws, rows.value), schema := Some(ctx.ids.schema)))
    case SetProperties(properties) => Ok(w.(properties := properties))
    case RemoveProperties(keys) =>
      if |keys| > MAX_PROPERTY_KEYS_TO_REMOVE then Err(RemoveTooLarge)
      else Ok(w.(properties := RemoveKeys(w.properties, keys, |keys|)))
  }

  /** The first n operations, in order. */
  function ExecOps(db: Db, ctx: Context, ops: seq<MutationOp>, n: nat, w: Work): Result<Work>
    requires n <= |ops|
  {
    if n == 0 then Ok(w) else
      var before := ExecOps(db, ctx, ops, n - 1, w);
      if before.Err? then before else ExecOp(db, ctx, n - 1, ops[n - 1], before.value)
  }

  lemma {:induction false} ExecOpsStays(db: Db, ctx: Context, ops: seq<MutationOp>, n: nat, m: nat, w: Work)
    requires n <= m <= |ops| && ExecOps(db, ctx, ops, n, w).Err?
    ensures ExecOps(db, ctx, ops, m, w) == ExecOps(db, ctx, ops, n, w)
    decreases m
  {
    if m > n { ExecOpsStays(db, ctx, ops, n, m - 1, w); }
  }

  // ---------- commit and create ----------

  datatype Session = Session(ctx: Context, work: Work)

  /** Checks before the lock is taken. */
  function CheckMutation(ops: seq<MutationOp>): Result<()> {
    if |ops| == 0 then Err(EmptyMutation)
    else if |ops| > MAX_OPERATIONS_PER_MUTATION then Err(TooManyOperations)
    else ScanOps(ops, |ops|)
  }

  /** Checks under the lock, then the new transaction row. */
  function Begin(env: Env, db: Db, req: Request): Result<Session> {
    if req.ident !in db.tables then Err(TableNotFound) else
      var row := db.tables[req.ident];
      if env.writer < row.minWriter then Err(ProtocolTooOld)
      else if row.head.None? then Err(NoCurrentTransaction)
      else if row.head.value != req.base then Err(BaseMismatch)
      else if req.ids.txn in db.txns then Err(UniqueViolation)
      else Ok(Session(
                Context(env.kind, row.uuid, req.ids.txn, row.schema, req.ids),
                Work(EMPTY.(txns := map[req.ids.txn := TxnRow(row.uuid, Some(req.base))]), row.properties, row.schema)))
  }

  /** The head update that ends the transaction. */
  function Finish(env: Env, db: Db, req: Request, s: Session, w: Work): Result<Db>
    requires req.ident in db.tables
  {
    if !env.fits(w.properties) then Err(PropertiesTooLarge)
    else Ok(w.ws.(tables := map[req.ident := db.tables[req.ident].(
                                               head := Some(s.ctx.txn),
                                               schema := if w.schema.Some? then w.schema else s.ctx.schema,
                                               properties := w.properties)]))
  }

  /** The write set a commit publishes, or why it is rolled back. */
  function CommitWrites(env: Env, db: Db, req: Request): Result<Db> {
    var checked := CheckMutation(req.ops);
    if checked.Err? then Err(checked.error) else
      var s := Begin(env, db, req);
      if s.Err? then Err(s.error) else
        var w := ExecOps(db, s.value.ctx, req.ops, |req.ops|, s.value.work);
        if w.Err? then Err(w.error) else Finish(env, db, req, s.value, w.value)
  }

  function CreateWrites(env: Env, db: Db, ident: TableIdent, columns: seq<ColumnSpec>,
                        properties: Option<Properties>, ids: Ids): Result<Db>
  {
    var checked := CheckSchema(columns);
    var props := properties.GetOr(map[]);
    if checked.Err? then Err(checked.error)
    else if ident in db.tables then Err(TableExists)
    else if !env.fits(props) then Err(PropertiesTooLarge)
    else if exists other :: other in db.tables && db.tables[other].uuid == ids.table then Err(UniqueViolation)
    else if ids.txn in db.txns || ids.schema in db.schemas then Err(UniqueViolation)
    else
      var inserted := InsertColumns(db.columns, env.kind, ColumnRows(ids.schema, ids, columns));
      if inserted.Err? then Err(inserted.error)
      else Ok(Db(
                map[ident := TableRow(ids.table, Some(ids.txn), Some(ids.schema), props, env.reader, env.writer)],
                map[ids.txn := TxnRow(ids.table, None)],
                map[ids.schema := SchemaRow(ids.table, 1, ids.txn, None)],
                inserted.value, map[]))
  }

  // ---------- chunked statements equal single ones ----------

  lemma {:induction false} CheckFilesAccepts(entries: seq<FileEntry>, n: nat)
    requires n <= |entries|
    ensures CheckFiles(entries, n).Ok? <==> forall i :: 0 <= i < n ==> ValidFile(entries[i].spec)
  {
    if n > 0 {
      CheckFilesAccepts(entries, n - 1);
      CheckFileExact(entries[n - 1].spec);
    }
  }

  lemma {:induction false} FileRowsKeys(ctx: Context, entries: seq<FileEntry>, u: Uuid)
    ensures u in FileRows(ctx, entries) <==> exists i :: 0 <= i < |entries| && entries[i].uuid == u
    ensures u in FileRows(ctx, entries) ==>
              var row := FileRows(ctx, entries)[u];
              row.table == ctx.table && row.added == ctx.txn && row.removed == None
    decreases |entries|
  {
    if |entries| > 0 {
      var n := |entries| - 1;
      FileRowsKeys(ctx, entries[..n], u);
      if u in FileRows(ctx, entries[..n]) {
        var i :| 0 <= i < n && entries[..n][i].uuid == u;
        assert entries[i].uuid == u;
      }
      if i :| 0 <= i < n && entries[i].uuid == u { assert entries[..n][i].uuid == u; }
    }
  }

  lemma {:induction false} FileRowsConcat(ctx: Context, a: seq<FileEntry>, b: seq<FileEntry>)
    ensures FileRows(ctx, a + b) == FileRows(ctx, a) + FileRows(ctx, b)
    decreases |b|
  {
    if |b| == 0 {
      assert a + b == a;
    } else {
      var n := |b| - 1;
      assert (a + b)[..|a| + n] == a + b[..n];
      FileRowsConcat(ctx, a, b[..n]);
    }
  }

  predicate AllValid(entries: seq<FileEntry>) {
    forall i :: 0 <= i < |entries| ==> ValidFile(entries[i].spec)
  }

  lemma FreshConcat(files: map<Uuid, FileRow>, ctx: Context, a: seq<FileEntry>, b: seq<FileEntry>)
    ensures FreshFiles(files, a + b) <==> FreshFiles(files, a) && FreshFiles(files + FileRows(ctx, a), b)
    ensures AllValid(a + b) <==> AllValid(a) && AllValid(b)
  {
    var ab := a + b;
    assert forall i :: 0 <= i < |a| ==> ab[i] == a[i];
    assert forall i :: 0 <= i < |b| ==> ab[|a| + i] == b[i];
    forall u ensures u in FileRows(ctx, a) <==> exists i :: 0 <= i < |a| && a[i].uuid == u {
      FileRowsKeys(ctx, a, u);
    }
    if FreshFiles(files, a) && FreshFiles(files + FileRows(ctx, a), b) {
      forall i, j | 0 <= i < j < |ab| ensures ab[i].uuid != ab[j].uuid {
        if i < |a| <= j { assert a[i].uuid in FileRows(ctx, a); assert ab[j] == b[j - |a|]; }
        if |a| <= i { assert ab[i] == b[i - |a|] && ab[j] == b[j - |a|]; }
      }
      forall i | 0 <= i < |ab| ensures ab[i].uuid !in files {
        if i >= |a| { assert ab[i] == b[i - |a|]; }
      }
    }
    if FreshFiles(files, ab) {
      forall i | 0 <= i < |b| ensures b[i].uuid !in files + FileRows(ctx, a) {
        assert ab[|a| + i] == b[i];
      }
    }
  }

  /** Appending in chunks succeeds exactly when one INSERT of all rows would, and writes the same rows. */
  lemma {:induction false} AppendChunksAtOnce(
    files: map<Uuid, FileRow>, ctx: Context, chunks: seq<seq<FileEntry>>, n: nat)
    requires n <= |chunks|
    ensures var all := Flatten(chunks[..n]);
            var r := AppendChunks(files, ctx, chunks, n);
            && (r.Ok? <==> InsertFiles(files, ctx, all).Ok?)
            && (r.Ok? <==> AllValid(all) && FreshFiles(files, all))
            && (r.Ok? ==> r.value == FileRows(ctx, all))
  {
    var all := Flatten(chunks[..n]);
    CheckFilesAccepts(all, |all|);
    if n > 0 {
      AppendChunksAtOnce(files, ctx, chunks, n - 1);
      var before, last := Flatten(chunks[..n - 1]), chunks[n - 1];
      assert chunks[..n][..n - 1] == chunks[..n - 1];
      assert all == before + last;
      CheckFilesAccepts(last, |last|);
      FreshConcat(files, ctx, before, last);
      FileRowsConcat(ctx, before, last);
    }
  }

  /** Deleting in chunks marks exactly the rows one UPDATE would, with the same result. */
  lemma {:induction false} MarkChunksAtOnce(files: map<Uuid, FileRow>, ctx: Context, chunks: seq<seq<Uuid>>, n: nat)
    requires n <= |chunks|
    ensures MarkChunks(files, ctx, chunks, n) == MarkRemoved(files, ctx, Flatten(chunks[..n]))
  {
    if n > 0 {
      MarkChunksAtOnce(files, ctx, chunks, n - 1);
      assert chunks[..n][..n - 1] == chunks[..n - 1];
    }
  }

  lemma FreshColumnsConcat(columns: set<ColumnRow>, a: seq<ColumnRow>, b: seq<ColumnRow>)
    ensures FreshColumns(columns, a + b) <==> FreshColumns(columns, a) && FreshColumns(columns + Elements(a), b)
    ensures Elements(a + b) == Elements(a) + Elements(b)
  {
    var ab := a + b;
    assert forall i :: 0 <= i < |a| ==> ab[i] == a[i];
    assert forall i :: 0 <= i < |b| ==> ab[|a| + i] == b[i];
    if FreshColumns(columns, a) && FreshColumns(columns + Elements(a), b) {
      forall i, j | 0 <= i < j < |ab| ensures !Clash(ab[i], ab[j]) {
        if i < |a| <= j { assert a[i] in Elements(a); assert ab[j] == b[j - |a|]; }
        if |a| <= i { assert ab[i] == b[i - |a|] && ab[j] == b[j - |a|]; }
      }
      forall i, c | 0 <= i < |ab| && c in columns ensures !Clash(c, ab[i]) {
        if i >= |a| { assert ab[i] == b[i - |a|]; }
      }
    }
    if FreshColumns(columns, ab) {
      forall i, c | 0 <= i < |b| && c in columns + Elements(a) ensures !Clash(c, b[i]) {
        assert ab[|a| + i] == b[i];
      }
    }
  }

  lemma {:induction false} ColumnChunksAtOnce(columns: set<ColumnRow>, chunks: seq<seq<ColumnRow>>, n: nat)
    requires n <= |chunks|
    ensures var r := InsertColumnChunks(columns, chunks, n);
            var all := Flatten(chunks[..n]);
            r == if FreshColumns(columns, all) then Ok(Elements(all)) else Err(UniqueViolation)
  {
    if n == 0 {
      assert Elements(Flatten(chunks[..0])) == {};
    } else {
      ColumnChunksAtOnce(columns, chunks, n - 1);
      assert chunks[..n][..n - 1] == chunks[..n - 1] && chunks[..n][n - 1] == chunks[n - 1];
      assert Flatten(chunks[..n]) == Flatten(chunks[..n - 1]) + chunks[n - 1];
      FreshColumnsConcat(columns, Flatten(chunks[..n - 1]), chunks[n - 1]);
    }
  }

  lemma ColumnsAtOnce(columns: set<ColumnRow>, kind: DbKind, rows: seq<ColumnRow>)
    ensures InsertColumns(columns, kind, rows) ==
              if FreshColumns(columns, rows) then Ok(Elements(rows)) else Err(UniqueViolation)
  {
    var chunks := Chunks(rows, BatchInsertColumnsChunk(kind));
    ColumnChunksAtOnce(columns, chunks, |chunks|);
    ChunksCover(rows, BatchInsertColumnsChunk(kind));
    assert chunks[..|chunks|] == chunks;
  }

  /** A whole append or delete operation, whatever its length, equals its single statement. */
  lemma ChunkedOperationsAtOnce(files: map<Uuid, FileRow>, ctx: Context, entries: seq<FileEntry>, uuids: seq<Uuid>)
    ensures var chunks := Chunks(entries, BATCH_INSERT_FILES_CHUNK);
            var r := AppendChunks(files, ctx, chunks, |chunks|);
            && (r.Ok? <==> InsertFiles(files, ctx, entries).Ok?)
            && (r.Ok? <==> AllValid(entries) && FreshFiles(files, entries))
            && (r.Ok? ==> r == InsertFiles(files, ctx, entries) && r.value == FileRows(ctx, entries))
    ensures var chunks := Chunks(uuids, BATCH_DELETE_FILES_CHUNK);
            MarkChunks(files, ctx, chunks, |chunks|) == MarkRemoved(files, ctx, uuids)
  {
    var appends := Chunks(entries, BATCH_INSERT_FILES_CHUNK);
    AppendChunksAtOnce(files, ctx, appends, |appends|);
    ChunksCover(entries, BATCH_INSERT_FILES_CHUNK);
    assert appends[..|appends|] == appends;
    var deletes := Chunks(uuids, BATCH_DELETE_FILES_CHUNK);
    MarkChunksAtOnce(files, ctx, deletes, |deletes|);
    ChunksCover(uuids, BATCH_DELETE_FILES_CHUNK);
    assert deletes[..|deletes|] == deletes;
  }
}
