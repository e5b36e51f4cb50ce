/** Which error a refused commit gets, check by check in the order they are made. */
module Faults {
  import opened CatalogTypes
  import opened DataTypes
  import opened Limits
  import opened Validation
  import opened Statements
  import opened History
  import opened Commits
  import opened Meaning
  import opened Acceptance

  // ---------- the lock ----------

  ghost predicate BeginFails(env: Env, db: Db, req: Request, e: CatalogError) {
    if req.ident !in db.tables then e == TableNotFound
    else if env.writer < db.tables[req.ident].minWriter then e == ProtocolTooOld
    else match db.tables[req.ident].head
         case None => e == NoCurrentTransaction
         case Some(head) =>
           if head != req.base then e == BaseMismatch else e == UniqueViolation && req.ids.txn in db.txns
  }

  /** A commit that cannot start reports the first of: no table, writer too old, no head, another base, a used id. */
  lemma BeginReports(env: Env, db: Db, req: Request, e: CatalogError)
    ensures Begin(env, db, req) == Err(e) <==> BeginFails(env, db, req, e)
  {
  }

  // ---------- appends ----------

  /** What is wrong with a file, first thing first. */
  predicate FileFails(f: FileSpec, e: CatalogError) {
    if forall i :: 0 <= i < |f.path| ==> IsWhitespace(f.path[i]) then e == BlankPath
    else if f.records < 0 then e == NegativeRecordCount
    else if f.bytes < 0 then e == NegativeFileSize
    else e == RejectedDocument
         && ((f.partition.Some? && !f.partition.value.accepted) || (f.options.Some? && !f.options.value.accepted))
  }

  /** A chunk fails on its first invalid file, or, if all are valid, on a UUID that is taken. */
  ghost predicate ChunkFails(files: map<Uuid, FileRow>, chunk: seq<FileEntry>, e: CatalogError) {
    || (exists i :: 0 <= i < |chunk| && FirstInvalid(chunk, i, e))
    || (e == UniqueViolation && AllValid(chunk) && UuidTaken(files, chunk))
  }

  ghost predicate UuidTaken(files: map<Uuid, FileRow>, chunk: seq<FileEntry>) {
    || (exists i :: 0 <= i < |chunk| && chunk[i].uuid in files)
    || (exists i, j :: 0 <= i < j < |chunk| && chunk[i].uuid == chunk[j].uuid)
  }

  ghost predicate FirstInvalid(chunk: seq<FileEntry>, i: nat, e: CatalogError)
    requires i < |chunk|
  {
    (forall j :: 0 <= j < i ==> ValidFile(chunk[j].spec)) && FileFails(chunk[i].spec, e)
  }

  lemma FileReports(f: FileSpec, e: CatalogError)
    ensures CheckFile(f) == Err(e) <==> FileFails(f, e)
    ensures FileFails(f, e) ==> !ValidFile(f)
  {
    CheckFileExact(f);
  }

  lemma {:induction false} ChecksReport(chunk: seq<FileEntry>, n: nat, e: CatalogError)
    requires n <= |chunk|
    ensures CheckFiles(chunk, n) == Err(e) <==> exists i :: 0 <= i < n && FirstInvalid(chunk, i, e)
  {
    hide ValidFile, FileFails, CheckFile;
    if n > 0 {
      ChecksReport(chunk, n - 1, e);
      CheckFilesAccepts(chunk, n - 1);
      FileReports(chunk[n - 1].spec, e);
      assert FirstInvalid(chunk, n - 1, e) <==> CheckFiles(chunk, n - 1).Ok? && FileFails(chunk[n - 1].spec, e);
    }
  }

  lemma ChunkReports(files: map<Uuid, FileRow>, ctx: Context, chunk: seq<FileEntry>, e: CatalogError)
    ensures InsertFiles(files, ctx, chunk) == Err(e) <==> ChunkFails(files, chunk, e)
  {
    hide ValidFile, FirstInvalid;
    ChecksReport(chunk, |chunk|, e);
    CheckFilesAccepts(chunk, |chunk|);
  }

  /** Chunk c of an append is the first to fail, on the files stored before it and those of the earlier chunks. */
  ghost predicate AppendFailsAt(
    files: map<Uuid, FileRow>, ctx: Context, chunks: seq<seq<FileEntry>>, c: nat, e: CatalogError)
    requires c < |chunks|
  {
    var before := Flatten(chunks[..c]);
    AllValid(before) && FreshFiles(files, before) && ChunkFails(files + FileRows(ctx, before), chunks[c], e)
  }

  lemma {:induction false} AppendReports(
    files: map<Uuid, FileRow>, ctx: Context, chunks: seq<seq<FileEntry>>, n: nat, e: CatalogError)
    requires n <= |chunks|
    ensures AppendChunks(files, ctx, chunks, n) == Err(e) <==> exists c :: 0 <= c < n
                                                                           && AppendFailsAt(files, ctx, chunks, c, e)
  {
    hide ChunkFails, AllValid, FreshFiles, InsertFiles, FileRows;
    if n > 0 {
      AppendReports(files, ctx, chunks, n - 1, e);
      AppendChunksAtOnce(files, ctx, chunks, n - 1);
      ChunkReports(files + FileRows(ctx, Flatten(chunks[..n - 1])), ctx, chunks[n - 1], e);
      assert AppendFailsAt(files, ctx, chunks, n - 1, e) <==>
               && AppendChunks(files, ctx, chunks, n - 1).Ok?
               && ChunkFails(files + FileRows(ctx, Flatten(chunks[..n - 1])), chunks[n - 1], e);
    }
  }

  // ---------- schema updates ----------

  ghost predicate ColumnKept(rows: set<ColumnRow>, c: ColumnSpec) {
    forall r :: r in rows && r.name == c.name ==> CanEvolveTo(r.typ, c.typ) && (r.nullable ==> c.nullable)
  }

  ghost predicate ColumnFails(rows: set<ColumnRow>, c: ColumnSpec, e: CatalogError) {
    if exists r :: r in rows && r.name == c.name && !CanEvolveTo(r.typ, c.typ) then e == IncompatibleType(c.name)
    else e == NarrowedNullability(c.name) && exists r :: r in rows && r.name == c.name && r.nullable && !c.nullable
  }

  ghost predicate EvolutionFails(rows: set<ColumnRow>, columns: seq<ColumnSpec>, e: CatalogError) {
    if exists r :: r in rows && forall i :: 0 <= i < |columns| ==> columns[i].name != r.name then e == DroppedColumn
    else exists k :: 0 <= k < |columns| && ColumnFailsAt(rows, columns, k, e)
  }

  ghost predicate ColumnFailsAt(rows: set<ColumnRow>, columns: seq<ColumnSpec>, k: nat, e: CatalogError)
    requires k < |columns|
  {
    (forall j :: 0 <= j < k ==> ColumnKept(rows, columns[j])) && ColumnFails(rows, columns[k], e)
  }

  lemma ColumnReports(rows: set<ColumnRow>, c: ColumnSpec, e: CatalogError)
    ensures CheckColumn(rows, c).Ok? <==> ColumnKept(rows, c)
    ensures CheckColumn(rows, c) == Err(e) <==> ColumnFails(rows, c, e)
  {
  }

  lemma {:induction false} ColumnsReport(rows: set<ColumnRow>, columns: seq<ColumnSpec>, n: nat, e: CatalogError)
    requires n <= |columns|
    ensures CheckColumns(rows, columns, n).Ok? <==> forall j :: 0 <= j < n ==> ColumnKept(rows, columns[j])
    ensures CheckColumns(rows, columns, n) == Err(e) <==> exists k :: 0 <= k < n && ColumnFailsAt(rows, columns, k, e)
  {
    hide ColumnKept, ColumnFails, CheckColumn;
    if n > 0 {
      ColumnsReport(rows, columns, n - 1, e);
      ColumnReports(rows, columns[n - 1], e);
      assert ColumnFailsAt(rows, columns, n - 1, e) <==>
               CheckColumns(rows, columns, n - 1).Ok? && ColumnFails(rows, columns[n - 1], e);
    }
  }

  /** A refused evolution reports a dropped column first, then the first new column whose type does not follow from
      the old one or whose nullability is narrowed, in this order. */
  lemma EvolutionReports(rows: set<ColumnRow>, columns: seq<ColumnSpec>, e: CatalogError)
    ensures CheckEvolution(rows, columns) == Err(e) <==> EvolutionFails(rows, columns, e)
  {
    hide ColumnFailsAt;
    ColumnsReport(rows, columns, |columns|, e);
    forall r ensures HasName(columns, r) <==> !forall i :: 0 <= i < |columns| ==> columns[i].name != r {}
  }

  ghost predicate UpdateFails(db: Db, ctx: Context, columns: seq<ColumnSpec>, e: CatalogError) {
    if !ValidSchema(columns) then SchemaFails(columns, e)
    else match ctx.schema
         case None => e == NoCurrentSchema
         case Some(current) =>
           if current !in db.schemas then e == MissingSchemaRow
           else if EvolutionRefused(ColumnsFor(db.columns, current), columns) then
             EvolutionFails(ColumnsFor(db.columns, current), columns, e)
           else e == UniqueViolation && !(ctx.ids.schema !in db.schemas && ColumnIdsNew(db, ctx.ids, |columns|))
  }

  ghost predicate EvolutionRefused(rows: set<ColumnRow>, columns: seq<ColumnSpec>) {
    exists e :: EvolutionFails(rows, columns, e)
  }

  ghost predicate SchemaFails(columns: seq<ColumnSpec>, e: CatalogError) {
    || (e == EmptySchema && |columns| == 0)
    || (e == TooManyColumns && |columns| > MAX_COLUMNS_PER_SCHEMA)
    || (0 < |columns| <= MAX_COLUMNS_PER_SCHEMA && exists k :: 0 <= k < |columns| && ColumnOffends(columns, k, e))
  }

  lemma RefusedIs(rows: set<ColumnRow>, columns: seq<ColumnSpec>)
    ensures CheckEvolution(rows, columns).Err? <==> EvolutionRefused(rows, columns)
  {
    hide CheckEvolution, EvolutionFails;
    if CheckEvolution(rows, columns).Err? { EvolutionReports(rows, columns, CheckEvolution(rows, columns).error); }
    if e :| EvolutionFails(rows, columns, e) { EvolutionReports(rows, columns, e); }
  }

  /** A refused schema update reports the specification first, then the current schema, the evolution, the ids. */
  lemma UpdateReports(db: Db, view: Db, ctx: Context, columns: seq<ColumnSpec>, e: CatalogError)
    requires view.schemas == db.schemas && view.columns == db.columns && forall c :: c in db.columns ==>
                                                                                       c.schema in db.schemas
    ensures ReplaceSchema(view, ctx, columns) == Err(e) <==> UpdateFails(db, ctx, columns, e)
  {
    hide CheckSchema, CheckEvolution, EvolutionFails, EvolutionRefused, ValidSchema, FreshColumns, ColumnRows,
      ColumnIdsNew,
      InsertColumns, ColumnOffends;
    CheckSchemaAccepts(columns);
    CheckSchemaReports(columns, e);
    ColumnsAtOnce(view.columns, ctx.kind, ColumnRows(ctx.ids.schema, ctx.ids, columns));
    if ValidSchema(columns) && ctx.schema.Some? {
      EvolutionReports(ColumnsFor(db.columns, ctx.schema.value), columns, e);
      RefusedIs(ColumnsFor(db.columns, ctx.schema.value), columns);
      if ctx.ids.schema !in db.schemas { FreshByIds(db, ctx.ids, columns); }
    }
  }

  // ---------- the whole commit ----------

  /** What operation k reports, on the buffer w of the operations before it. */
  ghost predicate OpFails(db: Db, ctx: Context, k: nat, op: MutationOp, w: Work, e: CatalogError) {
    match op
    case AppendFiles(files) =>
      if |files| > MAX_FILES_PER_APPEND then e == AppendTooLarge
      else
        var chunks := Chunks(Entries(ctx.ids, k, files), BATCH_INSERT_FILES_CHUNK);
        exists c :: 0 <= c < |chunks| && AppendFailsAt(db.files + w.ws.files, ctx, chunks, c, e)
    case DeleteFiles(uuids) => |uuids| > MAX_FILES_PER_DELETE && e == DeleteTooLarge
    case UpdateSchema(columns) => UpdateFails(db, ctx, columns, e)
    case SetProperties(_) => false
    case RemoveProperties(keys) => |keys| > MAX_PROPERTY_KEYS_TO_REMOVE && e == RemoveTooLarge
  }

  lemma OpReports(db: Db, ctx: Context, k: nat, op: MutationOp, w: Work, e: CatalogError)
    requires forall c :: c in db.columns ==> c.schema in db.schemas
    requires op.UpdateSchema? ==> w.ws.schemas == map[] && w.ws.columns == {}
    ensures ExecOp(db, ctx, k, op, w) == Err(e) <==> OpFails(db, ctx, k, op, w, e)
  {
    hide AppendChunks, Chunks, MarkChunks, ReplaceSchema, RemoveKeys, AppendFailsAt, UpdateFails;
    match op
    case AppendFiles(files) =>
      var chunks := Chunks(Entries(ctx.ids, k, files), BATCH_INSERT_FILES_CHUNK);
      AppendReports(db.files + w.ws.files, ctx, chunks, |chunks|, e);
    case UpdateSchema(columns) =>
      NothingBuffered(db, w.ws);
      UpdateReports(db, Over(db, w.ws), ctx, columns, e);
    case _ =>
  }

  /** What is wrong with the mutation itself. */
  ghost predicate MutationFails(ops: seq<MutationOp>, e: CatalogError) {
    || (e == EmptyMutation && |ops| == 0)
    || (e == TooManyOperations && |ops| > MAX_OPERATIONS_PER_MUTATION)
    || (0 < |ops| <= MAX_OPERATIONS_PER_MUTATION && exists k :: 0 <= k < |ops| && OpOffends(ops, k, e))
  }

  lemma MutationReports(ops: seq<MutationOp>, e: CatalogError)
    ensures CheckMutation(ops) == Err(e) <==> MutationFails(ops, e)
  {
    hide OpOffends, ScanOps;
    ScanOpsReports(ops, |ops|, e);
  }

  /** Operation k is the first to fail. */
  ghost predicate OpFailsAt(db: Db, begun: Session, ops: seq<MutationOp>, k: nat, e: CatalogError)
    requires k < |ops|
  {
    && ExecOps(db, begun.ctx, ops, k, begun.work).Ok?
    && OpFails(db, begun.ctx, k, ops[k], ExecOps(db, begun.ctx, ops, k, begun.work).value, e)
  }

  lemma {:induction false} OpsReport(db: Db, s: Slice, begun: Session, ops: seq<MutationOp>, n: nat, e: CatalogError)
    requires ContextOk(s, begun.ctx) && s.files == FilesIn(db.files, begun.ctx.table)
    requires s.schemas == SchemasIn(db.schemas, begun.ctx.table)
    requires s.columns == ColumnsIn(db.columns, db.schemas, begun.ctx.table)
    requires forall c :: c in db.columns ==> c.schema in db.schemas
    requires n <= |ops| && CountUpdates(ops) <= 1 && FoldOk(db, s, begun.ctx, ops, 0, begun.work)
    ensures ExecOps(db, begun.ctx, ops, n, begun.work) == Err(e) <==> exists k :: 0 <= k < n
                                                                                  && OpFailsAt(db, begun, ops, k, e)
  {
    hide OpFails, ExecOp, FilesIn, SchemasIn, ColumnsIn, OwnFiles, SpecOk;
    if n > 0 {
      OpsReport(db, s, begun, ops, n - 1, e);
      var before := ExecOps(db, begun.ctx, ops, n - 1, begun.work);
      if before.Ok? {
        FoldInstallsChange(db, s, begun.ctx, ops, n - 1, begun.work, before.value);
        OneUpdate(ops, n);
        OpReports(db, begun.ctx, n - 1, ops[n - 1], before.value, e);
      }
      assert OpFailsAt(db, begun, ops, n - 1, e) <==>
               before.Ok? && OpFails(db, begun.ctx, n - 1, ops[n - 1], before.value, e);
    }
  }

  /** A begun commit fails with e: in its first failing operation, or because the new properties are too large. */
  ghost predicate BegunFails(env: Env, db: Db, req: Request, begun: Session, e: CatalogError)
    requires req.ident in db.tables
  {
    || (exists k :: 0 <= k < |req.ops| && OpFailsAt(db, begun, req.ops, k, e))
    || (e == PropertiesTooLarge && ExecOps(db, begun.ctx, req.ops, |req.ops|, begun.work).Ok?
        && !env.fits(PropertiesAfter(req.ops, |req.ops|, db.tables[req.ident].properties)))
  }

  /** A refused commit reports what is wrong with the mutation, else why it cannot start, else the first operation
      to fail, else that the properties are too large. */
  lemma CommitReports(env: Env, db: Db, hs: map<TableIdent, Hist>, req: Request, e: CatalogError)
    requires Inv(db, hs)
    ensures CommitWrites(env, db, req) == Err(e) <==>
              if exists f :: MutationFails(req.ops, f) then MutationFails(req.ops, e)
              else if exists f :: BeginFails(env, db, req, f) then BeginFails(env, db, req, e)
              else
                && Begin(env, db, req).Ok? && req.ident in db.tables
                && BegunFails(env, db, req, Begin(env, db, req).value, e)
  {
    hide MutationFails, BeginFails, BegunFails, CheckMutation, Begin, SliceOk, FoldOk, ContextOk, FilesIn, SchemasIn,
      ColumnsIn,
      ExecOps, PropertiesAfter, SchemasOk, ColumnsOk;
    forall f ensures CheckMutation(req.ops) == Err(f) <==> MutationFails(req.ops, f) { MutationReports(req.ops, f); }
    forall f ensures Begin(env, db, req) == Err(f) <==> BeginFails(env, db, req, f) { BeginReports(env, db, req, f); }
    if CheckMutation(req.ops).Err? {
      assert MutationFails(req.ops, CheckMutation(req.ops).error);
    } else if Begin(env, db, req).Err? {
      assert BeginFails(env, db, req, Begin(env, db, req).error);
    } else {
      BegunReports(env, db, hs, req, e);
    }
  }

  lemma CommitEnds(env: Env, db: Db, req: Request, e: CatalogError)
    requires CheckMutation(req.ops).Ok? && Begin(env, db, req).Ok?
    ensures req.ident in db.tables
    ensures var begun := Begin(env, db, req).value;
            var folded := ExecOps(db, begun.ctx, req.ops, |req.ops|, begun.work);
            CommitWrites(env, db, req) == Err(e) <==>
              if folded.Err? then folded.error == e else e == PropertiesTooLarge && !env.fits(folded.value.properties)
  {
    hide ExecOps, CheckMutation;
  }

  lemma BegunReports(env: Env, db: Db, hs: map<TableIdent, Hist>, req: Request, e: CatalogError)
    requires Inv(db, hs) && CheckMutation(req.ops).Ok? && Begin(env, db, req).Ok?
    ensures req.ident in db.tables
    ensures var begun := Begin(env, db, req).value;
            CommitWrites(env, db, req) == Err(e) <==> BegunFails(env, db, req, begun, e)
  {
    hide OpFailsAt, CheckMutation, SliceOk, FoldOk, ContextOk, FilesIn, SchemasIn, ColumnsIn, ExecOps, PropertiesAfter,
      SchemasOk, ColumnsOk, RowsOwned, CountUpdates, CommitWrites, Begin;
    CommitEnds(env, db, req, e);
    assert TableOk(db, hs, req.ident);
    var s, begun := SliceOf(db, req.ident), Begin(env, db, req).value;
    BegunFold(env, db, hs[req.ident], req);
    OpsReport(db, s, begun, req.ops, |req.ops|, e);
    var folded := ExecOps(db, begun.ctx, req.ops, |req.ops|, begun.work);
    if folded.Ok? { FoldMeaning(db, s, begun.ctx, req.ops, |req.ops|, begun.work, folded.value); }
  }
}
