/** The commit protocol with any number of writers: take the table's lock and check the base, buffer one
    statement at a time, then publish or roll back. Every run refines a sequence of atomic commits. */
module Protocol {
  import opened CatalogTypes
  import opened Limits
  import opened Validation
  import opened Statements
  import opened History
  import opened Commits
  import opened Views
  import opened Readers

  /** A commit in progress: the catalog instance that runs it, what it fixed when it took the lock, how many
      operations it has applied, how many chunks of the next one and the rows those wrote, and its buffer. */
  datatype Writer = Writer(
    env: Env, req: Request, session: Session, done: nat, chunk: nat, part: map<Uuid, FileRow>, work: Work)

  /** The published state, its history variables, the commits in progress, and the commits published so far. */
  datatype Sys = Sys(db: Db, hist: map<TableIdent, Hist>, writers: map<nat, Writer>, log: seq<Request>)

  datatype Step =
    | Lock(id: nat, env: Env, req: Request)
    | Chunk(id: nat)
    | Apply(id: nat)
    | Publish(id: nat)
    | Drop(id: nat)
    | Create(env: Env, ident: TableIdent, columns: seq<ColumnSpec>, properties: Option<Properties>, ids: Ids)

  // ---------- statements of one operation ----------

  function FileChunks(ctx: Context, k: nat, files: seq<FileSpec>): seq<seq<FileEntry>> {
    Chunks(Entries(ctx.ids, k, files), BATCH_INSERT_FILES_CHUNK)
  }

  function UuidChunks(uuids: seq<Uuid>): seq<seq<Uuid>> {
    Chunks(uuids, BATCH_DELETE_FILES_CHUNK)
  }

  function ChunkCount(ctx: Context, k: nat, op: MutationOp): nat {
    match op
    case AppendFiles(files) => |FileChunks(ctx, k, files)|
    case DeleteFiles(uuids) => |UuidChunks(uuids)|
    case _ => 0
  }

  predicate Oversized(op: MutationOp) {
    match op
    case AppendFiles(files) => |files| > MAX_FILES_PER_APPEND
    case DeleteFiles(uuids) => |uuids| > MAX_FILES_PER_DELETE
    case _ => false
  }

  /** The rows one chunked statement writes, on the files its transaction sees. */
  function ChunkRows(
    files: map<Uuid, FileRow>, ctx: Context, k: nat, op: MutationOp, n: nat): Result<map<Uuid, FileRow>>
    requires n < ChunkCount(ctx, k, op)
  {
    match op
    case AppendFiles(specs) => InsertFiles(files, ctx, FileChunks(ctx, k, specs)[n])
    case DeleteFiles(uuids) => Ok(MarkRemoved(files, ctx, UuidChunks(uuids)[n]))
  }

  /** The rows the first n of them write. */
  function RowsSoFar(
    files: map<Uuid, FileRow>, ctx: Context, k: nat, op: MutationOp, n: nat): Result<map<Uuid, FileRow>>
    requires n <= ChunkCount(ctx, k, op)
  {
    match op
    case AppendFiles(specs) => AppendChunks(files, ctx, FileChunks(ctx, k, specs), n)
    case DeleteFiles(uuids) => Ok(MarkChunks(files, ctx, UuidChunks(uuids), n))
    case _ => Ok(map[])
  }

  /** An operation whose chunks have all run takes their rows into the buffer; the others are one step. */
  function Complete(db: Db, ctx: Context, k: nat, op: MutationOp, w: Work, part: map<Uuid, FileRow>): Result<Work> {
    if op.AppendFiles? || op.DeleteFiles? then Ok(w.(ws := w.ws.(files := w.ws.files + part)))
    else ExecOp(db, ctx, k, op, w)
  }

  /** Everything a writer has written so far. */
  function Pending(w: Writer): Db {
    w.work.ws.(files := w.work.ws.files + w.part)
  }

  // ---------- steps ----------

  /** Two write sets name no common row. A statement inserting a key that another open transaction has
      inserted waits for it, so no step goes through while its rows clash. */
  ghost predicate NoClash(a: Db, b: Db) {
    && a.txns.Keys !! b.txns.Keys && a.schemas.Keys !! b.schemas.Keys && a.files.Keys !! b.files.Keys
    && (forall c, d :: c in a.columns && d in b.columns ==> !Clash(c, d))
  }

  /** `ws` clashes with no writer but i. */
  ghost predicate Free(s: Sys, i: nat, ws: Db) {
    forall j :: j in s.writers && j != i ==> NoClash(Pending(s.writers[j]), ws)
  }

  ghost predicate Unlocked(s: Sys, ident: TableIdent) {
    forall j :: j in s.writers ==> s.writers[j].req.ident != ident
  }

  /** The operation under way. */
  function Current(w: Writer): MutationOp
    requires w.done < |w.req.ops|
  {
    w.req.ops[w.done]
  }

  ghost predicate LockStep(s: Sys, s2: Sys, i: nat, env: Env, req: Request) {
    && i !in s.writers && Unlocked(s, req.ident) && CheckMutation(req.ops).Ok? && Begin(env, s.db, req).Ok?
    && var session := Begin(env, s.db, req).value;
    && Free(s, i, session.work.ws)
    && s2 == s.(writers := s.writers[i := Writer(env, req, session, 0, 0, map[], session.work)])
  }

  ghost predicate ChunkStep(s: Sys, s2: Sys, i: nat) {
    && i in s.writers
    && var w := s.writers[i];
    && w.done < |w.req.ops| && !Oversized(Current(w)) && w.chunk < ChunkCount(w.session.ctx, w.done, Current(w))
    && var r := ChunkRows(Over(s.db, Pending(w)).files, w.session.ctx, w.done, Current(w), w.chunk);
    && r.Ok?
    && var w2 := w.(chunk := w.chunk + 1, part := w.part + r.value);
    && Free(s, i, Pending(w2)) && s2 == s.(writers := s.writers[i := w2])
  }

  ghost predicate ApplyStep(s: Sys, s2: Sys, i: nat) {
    && i in s.writers
    && var w := s.writers[i];
    && w.done < |w.req.ops| && !Oversized(Current(w)) && w.chunk == ChunkCount(w.session.ctx, w.done, Current(w))
    && var r := Complete(s.db, w.session.ctx, w.done, Current(w), w.work, w.part);
    && r.Ok?
    && var w2 := w.(done := w.done + 1, chunk := 0, part := map[], work := r.value);
    && Free(s, i, Pending(w2)) && s2 == s.(writers := s.writers[i := w2])
  }

  ghost predicate PublishStep(s: Sys, s2: Sys, i: nat) {
    && i in s.writers
    && var w := s.writers[i];
    && w.done == |w.req.ops| && w.req.ident in s.db.tables && w.req.ident in s.hist
    && var r := Finish(w.env, s.db, w.req, w.session, w.work);
    && r.Ok?
    && s2 == Sys(Over(s.db, r.value),
                 Advance(s.hist, w.req.ident, ChangeOf(w.session.ctx, w.req.ops, |w.req.ops|, w.work)),
                 s.writers - {i}, s.log + [w.req])
  }

  ghost predicate CreateStep(
    s: Sys, s2: Sys, env: Env, ident: TableIdent, columns: seq<ColumnSpec>, properties: Option<Properties>, ids: Ids)
  {
    var r := CreateWrites(env, s.db, ident, columns, properties, ids);
    && r.Ok? && (forall j :: j in s.writers ==> NoClash(Pending(s.writers[j]), r.value))
    && s2 == s.(db := Over(s.db, r.value), hist := s.hist[ident := Genesis(ids, columns)])
  }

  ghost predicate NextStep(s: Sys, s2: Sys, step: Step) {
    match step
    case Lock(i, env, req) => LockStep(s, s2, i, env, req)
    case Chunk(i) => ChunkStep(s, s2, i)
    case Apply(i) => ApplyStep(s, s2, i)
    case Publish(i) => PublishStep(s, s2, i)
    case Drop(i) => s2 == s.(writers := s.writers - {i})
    case Create(env, ident, columns, properties, ids) => CreateStep(s, s2, env, ident, columns, properties, ids)
  }

  ghost predicate Moves(s: Sys, s2: Sys) {
    s2 == s || exists step :: NextStep(s, s2, step)
  }

  const START := Sys(EMPTY, map[], map[], [])

  // ---------- the invariant ----------

  /** The chunks of the operation under way wrote what they would write to the published state of this moment. */
  ghost predicate PartOk(db: Db, w: Writer)
    requires w.done <= |w.req.ops|
  {
    if w.chunk == 0 then w.part == map[]
    else
      && w.done < |w.req.ops| && !Oversized(Current(w)) && w.chunk <= ChunkCount(w.session.ctx, w.done, Current(w))
      && RowsSoFar(Over(db, w.work.ws).files, w.session.ctx, w.done, Current(w), w.chunk) == Ok(w.part)
  }

  /** The writer's buffer is what its operations so far would do to the published state of this moment,
      not only to that of the moment it took the lock. */
  ghost predicate WriterOk(db: Db, w: Writer) {
    && w.done <= |w.req.ops| && CheckMutation(w.req.ops).Ok?
    && Begin(w.env, db, w.req) == Ok(w.session)
    && ExecOps(db, w.session.ctx, w.req.ops, w.done, w.session.work) == Ok(w.work)
    && PartOk(db, w)
  }

  ghost predicate Apart(s: Sys, i: nat, j: nat)
    requires i in s.writers && j in s.writers
  {
    s.writers[i].req.ident != s.writers[j].req.ident && NoClash(Pending(s.writers[i]), Pending(s.writers[j]))
  }

  /** The transactions published to a table, in order. */
  function Published(log: seq<Request>, ident: TableIdent): seq<TxnId> {
    if |log| == 0 then [] else
      var r := log[|log| - 1];
      Published(log[..|log| - 1], ident) + if r.ident == ident then [r.ids.txn] else []
  }

  /** The transactions they were based on. */
  function Bases(log: seq<Request>, ident: TableIdent): seq<TxnId> {
    if |log| == 0 then [] else
      var r := log[|log| - 1];
      Bases(log[..|log| - 1], ident) + if r.ident == ident then [r.base] else []
  }

  /** A table's history is its genesis and then exactly the published commits, each upon its base. */
  ghost predicate LogOk(s: Sys) {
    forall ident :: if ident in s.db.tables then ident in s.hist && LogOf(s, ident) else Published(s.log, ident) == []
  }

  ghost predicate LogOf(s: Sys, ident: TableIdent)
    requires ident in s.hist
  {
    var c := s.hist[ident].chain;
    |c| > 0 && c[1..] == Published(s.log, ident) && c[..|c| - 1] == Bases(s.log, ident)
  }

  ghost predicate WritersOk(s: Sys) {
    && (forall i :: i in s.writers ==> WriterOk(s.db, s.writers[i]))
    && (forall i, j :: i in s.writers && j in s.writers && i != j ==> Apart(s, i, j))
  }

  ghost predicate SysInv(s: Sys) {
    Inv(s.db, s.hist) && WritersOk(s) && LogOk(s)
  }

  // ---------- a buffer does not notice another table's publication ----------

  /** `ws` writes no row of `table`. */
  ghost predicate Foreign(db: Db, ws: Db, table: Uuid) {
    && (forall u :: u in ws.files ==> ws.files[u].table != table && (u in db.files ==> db.files[u].table != table))
    && (forall x :: x in ws.schemas ==>
          ws.schemas[x].table != table && (x in db.schemas ==> db.schemas[x].table != table))
    && (forall c :: c in ws.columns ==> c.schema in ws.schemas)
  }

  /** The buffer only grows. */
  ghost predicate Within(a: Db, b: Db) {
    && a.txns == b.txns && a.schemas.Keys <= b.schemas.Keys && a.files.Keys <= b.files.Keys && a.columns <= b.columns
  }

  lemma AppendAgrees(files: map<Uuid, FileRow>, more: map<Uuid, FileRow>, written: map<Uuid, FileRow>, ctx: Context,
                     chunks: seq<seq<FileEntry>>, n: nat)
    requires n <= |chunks| && AppendChunks(files + written, ctx, chunks, n).Ok?
    requires more.Keys !! written.Keys && more.Keys !! AppendChunks(files + written, ctx, chunks, n).value.Keys
    ensures AppendChunks((files + more) + written, ctx, chunks, n) == AppendChunks(files + written, ctx, chunks, n)
  {
    hide AppendChunks, InsertFiles, Flatten;
    AppendChunksAtOnce(files + written, ctx, chunks, n);
    AppendChunksAtOnce((files + more) + written, ctx, chunks, n);
    var entries := Flatten(chunks[..n]);
    forall i | 0 <= i < |entries| ensures entries[i].uuid !in more { FileRowsKeys(ctx, entries, entries[i].uuid); }
  }

  lemma DeleteAgrees(files: map<Uuid, FileRow>, more: map<Uuid, FileRow>, written: map<Uuid, FileRow>, ctx: Context,
                     chunks: seq<seq<Uuid>>, n: nat)
    requires n <= |chunks| && more.Keys !! written.Keys
    requires forall u :: u in more ==> more[u].table != ctx.table && (u in files ==> files[u].table != ctx.table)
    ensures MarkChunks((files + more) + written, ctx, chunks, n) == MarkChunks(files + written, ctx, chunks, n)
  {
    hide *;
    MarkChunksAtOnce(files + written, ctx, chunks, n);
    MarkChunksAtOnce((files + more) + written, ctx, chunks, n);
    MarkAgrees(files, more, written, ctx, Flatten(chunks[..n]));
  }

  lemma MarkAgrees(
    files: map<Uuid, FileRow>, more: map<Uuid, FileRow>, written: map<Uuid, FileRow>, ctx: Context, uuids: seq<Uuid>)
    requires more.Keys !! written.Keys
    requires forall u :: u in more ==> more[u].table != ctx.table && (u in files ==> files[u].table != ctx.table)
    ensures MarkRemoved((files + more) + written, ctx, uuids) == MarkRemoved(files + written, ctx, uuids)
  {
    var a, b := (files + more) + written, files + written;
    forall u | u in MarkRemoved(a, ctx, uuids) ensures u in MarkRemoved(b, ctx, uuids) && a[u] == b[u] {
      assert u !in more;
    }
    forall u | u in MarkRemoved(b, ctx, uuids) ensures u in MarkRemoved(a, ctx, uuids) {
      assert u !in more || u in written;
    }
  }

  lemma ColumnsAgree(columns: set<ColumnRow>, more: set<ColumnRow>, kind: DbKind, rows: seq<ColumnRow>)
    requires InsertColumns(columns, kind, rows).Ok?
    requires forall c, d :: c in InsertColumns(columns, kind, rows).value && d in more ==> !Clash(c, d)
    ensures InsertColumns(columns + more, kind, rows) == InsertColumns(columns, kind, rows)
  {
    ColumnsAtOnce(columns, kind, rows);
    ColumnsAtOnce(columns + more, kind, rows);
    forall i, c | 0 <= i < |rows| && c in more ensures !Clash(c, rows[i]) { assert rows[i] in Elements(rows); }
  }

  lemma SchemaAgrees(view: Db, view2: Db, ws: Db, ctx: Context, columns: seq<ColumnSpec>)
    requires ReplaceSchema(view, ctx, columns).Ok?
    requires ctx.schema.value in view.schemas && ctx.schema.value !in ws.schemas && ctx.ids.schema !in ws.schemas
    requires forall c :: c in ws.columns ==> c.schema in ws.schemas
    requires forall c, d :: c in ReplaceSchema(view, ctx, columns).value.columns && d in ws.columns ==> !Clash(c, d)
    requires view2.schemas == view.schemas + ws.schemas && view2.columns == view.columns + ws.columns
    ensures ReplaceSchema(view2, ctx, columns) == ReplaceSchema(view, ctx, columns)
  {
    var current := ctx.schema.value;
    assert ColumnsFor(view.columns + ws.columns, current) == ColumnsFor(view.columns, current);
    ColumnsAgree(view.columns, ws.columns, ctx.kind, ColumnRows(ctx.ids.schema, ctx.ids, columns));
  }

  /** The schema a writer started from belongs to its table. */
  ghost predicate OwnSchema(db: Db, ctx: Context) {
    ctx.schema.Some? && ctx.schema.value in db.schemas && db.schemas[ctx.schema.value].table == ctx.table
  }

  lemma OpGrows(db: Db, ctx: Context, k: nat, op: MutationOp, w: Work)
    requires ExecOp(db, ctx, k, op, w).Ok?
    ensures Within(w.ws, ExecOp(db, ctx, k, op, w).value.ws)
  {
  }

  lemma UnionsSwap<K, V>(a: map<K, V>, b: map<K, V>, c: map<K, V>)
    requires b.Keys !! c.Keys
    ensures (a + b) + c == (a + c) + b
  {
    forall k | k in (a + b) + c ensures ((a + b) + c)[k] == ((a + c) + b)[k] {}
  }

  lemma ViewsSwap(db: Db, ws: Db, own: Db)
    requires ws.schemas.Keys !! own.schemas.Keys
    ensures Over(Over(db, ws), own).schemas == Over(db, own).schemas + ws.schemas
    ensures Over(Over(db, ws), own).columns == Over(db, own).columns + ws.columns
  {
    UnionsSwap(db.schemas, ws.schemas, own.schemas);
  }

  lemma OpAgrees(db: Db, ws: Db, ctx: Context, k: nat, op: MutationOp, w: Work)
    requires ExecOp(db, ctx, k, op, w).Ok? && Foreign(db, ws, ctx.table) && OwnSchema(db, ctx)
    requires NoClash(ExecOp(db, ctx, k, op, w).value.ws, ws)
    ensures ExecOp(Over(db, ws), ctx, k, op, w) == ExecOp(db, ctx, k, op, w)
  {
    hide AppendChunks, MarkChunks, RemoveKeys, Chunks, ReplaceSchema;
    OpGrows(db, ctx, k, op, w);
    match op
    case AppendFiles(files) =>
      AppendAgrees(db.files, ws.files, w.ws.files, ctx, FileChunks(ctx, k, files), |FileChunks(ctx, k, files)|);
    case DeleteFiles(uuids) =>
      DeleteAgrees(db.files, ws.files, w.ws.files, ctx, UuidChunks(uuids), |UuidChunks(uuids)|);
    case UpdateSchema(columns) => SchemaOpAgrees(db, ws, ctx, k, columns, w);
    case _ =>
  }

  lemma SchemaOpAgrees(db: Db, ws: Db, ctx: Context, k: nat, columns: seq<ColumnSpec>, w: Work)
    requires ExecOp(db, ctx, k, UpdateSchema(columns), w).Ok? && Foreign(db, ws, ctx.table) && OwnSchema(db, ctx)
    requires NoClash(ExecOp(db, ctx, k, UpdateSchema(columns), w).value.ws, ws)
    ensures ExecOp(Over(db, ws), ctx, k, UpdateSchema(columns), w) == ExecOp(db, ctx, k, UpdateSchema(columns), w)
  {
    hide CheckEvolution, InsertColumns, CheckSchema;
    OpGrows(db, ctx, k, UpdateSchema(columns), w);
    ViewsSwap(db, ws, w.ws);
    SchemaAgrees(Over(db, w.ws), Over(Over(db, ws), w.ws), ws, ctx, columns);
  }

  lemma {:induction false} OpsAgree(db: Db, ws: Db, ctx: Context, ops: seq<MutationOp>, n: nat, w0: Work)
    requires n <= |ops| && ExecOps(db, ctx, ops, n, w0).Ok? && Foreign(db, ws, ctx.table) && OwnSchema(db, ctx)
    requires NoClash(ExecOps(db, ctx, ops, n, w0).value.ws, ws)
    ensures ExecOps(Over(db, ws), ctx, ops, n, w0) == ExecOps(db, ctx, ops, n, w0)
    ensures w0.ws.txns == ExecOps(db, ctx, ops, n, w0).value.ws.txns
  {
    if n > 0 {
      var before := ExecOps(db, ctx, ops, n - 1, w0).value;
      OpGrows(db, ctx, n - 1, ops[n - 1], before);
      OpsAgree(db, ws, ctx, ops, n - 1, w0);
      OpAgrees(db, ws, ctx, n - 1, ops[n - 1], before);
    }
  }

  lemma PartAgrees(db: Db, ws: Db, w: Writer)
    requires w.done <= |w.req.ops| && PartOk(db, w) && Foreign(db, ws, w.session.ctx.table) && NoClash(Pending(w), ws)
    ensures PartOk(Over(db, ws), w)
  {
    hide AppendChunks, MarkChunks, Chunks;
    if w.chunk > 0 {
      match Current(w)
      case AppendFiles(files) =>
        AppendAgrees(db.files, ws.files, w.work.ws.files, w.session.ctx, FileChunks(w.session.ctx, w.done, files),
          w.chunk);
      case DeleteFiles(uuids) =>
        DeleteAgrees(db.files, ws.files, w.work.ws.files, w.session.ctx, UuidChunks(uuids), w.chunk);
      case _ =>
    }
  }

  lemma NoClashWithin(w: Writer, ws: Db)
    requires NoClash(Pending(w), ws)
    ensures NoClash(w.work.ws, ws)
  {
  }

  /** A writer goes on as if another table's publication had been there all along. */
  lemma WriterAgrees(db: Db, ws: Db, w: Writer)
    requires WriterOk(db, w) && Foreign(db, ws, w.session.ctx.table) && OwnSchema(db, w.session.ctx)
    requires NoClash(Pending(w), ws) && w.req.ident !in ws.tables
    ensures WriterOk(Over(db, ws), w)
  {
    hide PartOk, ExecOps;
    NoClashWithin(w, ws);
    PartAgrees(db, ws, w);
    OpsAgree(db, ws, w.session.ctx, w.req.ops, w.done, w.session.work);
    assert w.req.ids.txn in w.work.ws.txns;
  }

  /** One more chunk statement, on top of the earlier ones. */
  lemma ChunkContinues(
    files: map<Uuid, FileRow>, ctx: Context, k: nat, op: MutationOp, n: nat, part: map<Uuid, FileRow>)
    requires n < ChunkCount(ctx, k, op) && RowsSoFar(files, ctx, k, op, n) == Ok(part)
    requires ChunkRows(files + part, ctx, k, op, n).Ok?
    ensures RowsSoFar(files, ctx, k, op, n + 1) == Ok(part + ChunkRows(files + part, ctx, k, op, n).value)
  {
  }

  /** All chunks together are the operation. */
  lemma ChunksAreOperation(db: Db, ctx: Context, k: nat, op: MutationOp, w: Work, part: map<Uuid, FileRow>)
    requires !Oversized(op) && RowsSoFar(Over(db, w.ws).files, ctx, k, op, ChunkCount(ctx, k, op)) == Ok(part)
    ensures Complete(db, ctx, k, op, w, part) == ExecOp(db, ctx, k, op, w)
  {
    hide AppendChunks, MarkChunks, ReplaceSchema;
  }

  // ---------- every step keeps the invariant ----------

  lemma NoClashSymmetric(a: Db, b: Db)
    requires NoClash(a, b)
    ensures NoClash(b, a)
  {
    forall c, d | c in b.columns && d in a.columns ensures !Clash(c, d) { assert !Clash(d, c); }
  }

  lemma WriterFacts(db: Db, hs: map<TableIdent, Hist>, w: Writer)
    requires Inv(db, hs) && WriterOk(db, w)
    ensures w.req.ident in db.tables && db.tables[w.req.ident].head == Some(w.req.base)
    ensures w.session.ctx.table == db.tables[w.req.ident].uuid && OwnSchema(db, w.session.ctx)
  {
    hide SliceOk, ExecOps, GlobalOk;
    assert TableOk(db, hs, w.req.ident);
    HeadAndSchema(SliceOf(db, w.req.ident), hs[w.req.ident]);
  }

  /** Other tables' writers survive a publication. */
  lemma WritersAgree(s: Sys, ws: Db, j: nat)
    requires Inv(s.db, s.hist) && j in s.writers && WriterOk(s.db, s.writers[j])
    requires s.writers[j].req.ident in s.db.tables ==> Foreign(s.db, ws, s.db.tables[s.writers[j].req.ident].uuid)
    requires NoClash(Pending(s.writers[j]), ws) && s.writers[j].req.ident !in ws.tables
    ensures WriterOk(Over(s.db, ws), s.writers[j])
  {
    hide WriterOk, NoClash, Foreign, OwnSchema, Inv, Pending;
    WriterFacts(s.db, s.hist, s.writers[j]);
    WriterAgrees(s.db, ws, s.writers[j]);
  }

  lemma CommitIsForeign(env: Env, db: Db, hs: map<TableIdent, Hist>, req: Request, other: TableIdent)
    requires Inv(db, hs) && CommitWrites(env, db, req).Ok? && other in db.tables && other != req.ident
    ensures Foreign(db, CommitWrites(env, db, req).value, db.tables[other].uuid)
            && other !in CommitWrites(env, db, req).value.tables
  {
    hide CommitWrites, SliceOk, OwnFiles, Legal;
    CommitHasTable(env, db, req);
    assert TableOk(db, hs, req.ident);
    CommitIsChange(env, db, hs[req.ident], req);
    OwnRows(db, req.ident, Committed(env, db, req));
  }

  lemma CommitHasTable(env: Env, db: Db, req: Request)
    requires CommitWrites(env, db, req).Ok?
    ensures req.ident in db.tables
  {
  }

  lemma CreateIsForeign(
    env: Env, db: Db, ident: TableIdent, columns: seq<ColumnSpec>, properties: Option<Properties>, ids: Ids,
                        other: TableIdent)
    requires CreateWrites(env, db, ident, columns, properties, ids).Ok? && other in db.tables
    ensures var ws := CreateWrites(env, db, ident, columns, properties, ids).value;
            Foreign(db, ws, db.tables[other].uuid) && other !in ws.tables
  {
    CreateShape(env, db, ident, columns, properties, ids);
    ColumnRowsStored(ids.schema, ids, columns);
  }

  /** Publishing a finished buffer is exactly an atomic commit against the state published by then. */
  lemma PublishIsCommit(db: Db, w: Writer)
    requires WriterOk(db, w) && w.done == |w.req.ops| && w.req.ident in db.tables
    requires Finish(w.env, db, w.req, w.session, w.work).Ok?
    ensures CommitWrites(w.env, db, w.req) == Finish(w.env, db, w.req, w.session, w.work)
    ensures Committed(w.env, db, w.req) == ChangeOf(w.session.ctx, w.req.ops, |w.req.ops|, w.work)
  {
  }

  /** Where only writer i moves, and what it has pending is free, the writers stay apart. */
  lemma StayApart(s: Sys, s2: Sys, i: nat)
    requires WritersOk(s) && i in s2.writers && s2.db == s.db && Free(s, i, Pending(s2.writers[i]))
    requires forall j :: j != i ==> (j in s2.writers <==> j in s.writers)
    requires forall j :: j in s.writers && j != i ==>
               s2.writers[j] == s.writers[j] && s.writers[j].req.ident != s2.writers[i].req.ident
    requires WriterOk(s2.db, s2.writers[i])
    ensures WritersOk(s2)
  {
    hide NoClash, WriterOk, Pending;
    forall j | j in s2.writers ensures WriterOk(s2.db, s2.writers[j]) {
      if j != i { assert WriterOk(s.db, s.writers[j]); }
    }
    forall j, k | j in s2.writers && k in s2.writers && j != k ensures Apart(s2, j, k) {
      if j == i {
        NoClashSymmetric(Pending(s.writers[k]), Pending(s2.writers[i]));
      } else if k != i {
        assert Apart(s, j, k);
      }
    }
  }

  lemma OthersApart(s: Sys, i: nat)
    requires WritersOk(s) && i in s.writers
    ensures forall j :: j in s.writers && j != i ==> s.writers[j].req.ident != s.writers[i].req.ident
  {
    forall j | j in s.writers && j != i ensures s.writers[j].req.ident != s.writers[i].req.ident {
      assert Apart(s, j, i);
    }
  }

  lemma LockKeeps(s: Sys, s2: Sys, i: nat, env: Env, req: Request)
    requires WritersOk(s) && LockStep(s, s2, i, env, req)
    ensures WritersOk(s2)
  {
    hide WritersOk, NoClash;
    StartedOk(s.db, s2.writers[i]);
    StayApart(s, s2, i);
  }

  lemma StartedOk(db: Db, w: Writer)
    requires CheckMutation(w.req.ops).Ok? && Begin(w.env, db, w.req) == Ok(w.session)
    requires w.done == 0 && w.chunk == 0 && w.part == map[] && w.work == w.session.work
    ensures WriterOk(db, w) && Pending(w) == w.work.ws
  {
    NothingMore(w.work.ws.files);
  }

  lemma NothingMore(files: map<Uuid, FileRow>)
    ensures files + map[] == files
  {
  }

  lemma ChunkKeeps(s: Sys, s2: Sys, i: nat)
    requires WritersOk(s) && ChunkStep(s, s2, i)
    ensures WritersOk(s2)
  {
    hide NoClash, ChunkRows, Begin, ExecOps, RowsSoFar;
    assert WriterOk(s.db, s.writers[i]);
    OthersApart(s, i);
    ChunkStepOk(s.db, s.writers[i]);
    StayApart(s, s2, i);
  }

  lemma ChunkStepOk(db: Db, w: Writer)
    requires WriterOk(db, w) && w.done < |w.req.ops| && !Oversized(Current(w))
    requires w.chunk < ChunkCount(w.session.ctx, w.done, Current(w))
    requires ChunkRows(Over(db, Pending(w)).files, w.session.ctx, w.done, Current(w), w.chunk).Ok?
    ensures var rows := ChunkRows(Over(db, Pending(w)).files, w.session.ctx, w.done, Current(w), w.chunk).value;
            WriterOk(db, w.(chunk := w.chunk + 1, part := w.part + rows))
  {
    hide ChunkRows, RowsSoFar, ChunkCount, Begin, ExecOps, CheckMutation;
    var files := Over(db, w.work.ws).files;
    MapUnionAssociates(db.files, w.work.ws.files, w.part);
    if w.chunk == 0 { NoRowsYetWritten(files, w.session.ctx, w.done, Current(w)); }
    ChunkContinues(files, w.session.ctx, w.done, Current(w), w.chunk, w.part);
  }

  lemma NoRowsYetWritten(files: map<Uuid, FileRow>, ctx: Context, k: nat, op: MutationOp)
    ensures RowsSoFar(files, ctx, k, op, 0) == Ok(map[])
  {
  }

  lemma ApplyKeeps(s: Sys, s2: Sys, i: nat)
    requires WritersOk(s) && ApplyStep(s, s2, i)
    ensures WritersOk(s2)
  {
    hide NoClash, Begin, ExecOps, RowsSoFar, Complete;
    assert WriterOk(s.db, s.writers[i]);
    OthersApart(s, i);
    ApplyStepOk(s.db, s.writers[i]);
    StayApart(s, s2, i);
  }

  lemma ApplyStepOk(db: Db, w: Writer)
    requires WriterOk(db, w) && w.done < |w.req.ops| && !Oversized(Current(w))
    requires w.chunk == ChunkCount(w.session.ctx, w.done, Current(w))
    requires Complete(db, w.session.ctx, w.done, Current(w), w.work, w.part).Ok?
    ensures var work := Complete(db, w.session.ctx, w.done, Current(w), w.work, w.part).value;
            WriterOk(db, w.(done := w.done + 1, chunk := 0, part := map[], work := work))
  {
    hide Begin, ExecOp, RowsSoFar, Complete;
    if w.chunk == 0 { NoRowsYetWritten(Over(db, w.work.ws).files, w.session.ctx, w.done, Current(w)); }
    ChunksAreOperation(db, w.session.ctx, w.done, Current(w), w.work, w.part);
  }

  lemma FinishWrites(db: Db, w: Writer, other: Db)
    requires WriterOk(db, w) && w.done == |w.req.ops|
    requires w.req.ident in db.tables && Finish(w.env, db, w.req, w.session, w.work).Ok? && NoClash(other, Pending(w))
    ensures NoClash(other, Finish(w.env, db, w.req, w.session, w.work).value)
  {
    NothingMore(w.work.ws.files);
  }

  lemma PublishKeeps(s: Sys, s2: Sys, i: nat)
    requires Inv(s.db, s.hist) && WritersOk(s) && PublishStep(s, s2, i)
    ensures WritersOk(s2) && i in s.writers
    ensures PublishedRequest(s.writers[i].env, s, s2, s.writers[i].req)
  {
    hide NoClash, Inv, WriterOk, Finish, CommitWrites, Committed, Foreign, Pending;
    var w := s.writers[i];
    PublishIsCommit(s.db, w);
    forall j | j in s2.writers ensures WriterOk(s2.db, s2.writers[j]) {
      var other := s.writers[j].req.ident;
      assert Apart(s, j, i);
      FinishWrites(s.db, w, Pending(s.writers[j]));
      WriterFacts(s.db, s.hist, s.writers[j]);
      CommitIsForeign(w.env, s.db, s.hist, w.req, other);
      WritersAgree(s, CommitWrites(w.env, s.db, w.req).value, j);
    }
    forall j, k | j in s2.writers && k in s2.writers && j != k ensures Apart(s2, j, k) { assert Apart(s, j, k); }
  }

  lemma CreateKeeps(
    s: Sys, s2: Sys, env: Env, ident: TableIdent, columns: seq<ColumnSpec>, properties: Option<Properties>, ids: Ids)
    requires Inv(s.db, s.hist) && WritersOk(s) && CreateStep(s, s2, env, ident, columns, properties, ids)
    ensures WritersOk(s2) && CreatedTable(env, s, s2, ident, columns, properties, ids)
  {
    hide NoClash, Inv, WriterOk, CreateWrites, Foreign, Pending;
    forall j | j in s2.writers ensures WriterOk(s2.db, s2.writers[j]) {
      WriterFacts(s.db, s.hist, s.writers[j]);
      CreateIsForeign(env, s.db, ident, columns, properties, ids, s.writers[j].req.ident);
      WritersAgree(s, CreateWrites(env, s.db, ident, columns, properties, ids).value, j);
    }
    forall j, k | j in s2.writers && k in s2.writers && j != k ensures Apart(s2, j, k) { assert Apart(s, j, k); }
  }

  lemma DropKeeps(s: Sys, s2: Sys, i: nat)
    requires WritersOk(s) && s2 == s.(writers := s.writers - {i})
    ensures WritersOk(s2)
  {
    hide NoClash, WriterOk;
    forall j, k | j in s2.writers && k in s2.writers && j != k ensures Apart(s2, j, k) { assert Apart(s, j, k); }
  }

  // ---------- refinement ----------

  /** One atomic commit of `req`. */
  ghost predicate PublishedRequest(env: Env, s: Sys, s2: Sys, req: Request) {
    && req.ident in s.hist && CommitWrites(env, s.db, req).Ok?
    && s2.db == Over(s.db, CommitWrites(env, s.db, req).value)
    && s2.hist == Advance(s.hist, req.ident, Committed(env, s.db, req)) && s2.log == s.log + [req]
  }

  ghost predicate CreatedTable(
    env: Env, s: Sys, s2: Sys, ident: TableIdent, columns: seq<ColumnSpec>, properties: Option<Properties>, ids: Ids)
  {
    && CreateWrites(env, s.db, ident, columns, properties, ids).Ok?
    && s2.db == Over(s.db, CreateWrites(env, s.db, ident, columns, properties, ids).value)
    && s2.hist == s.hist[ident := Genesis(ids, columns)] && s2.log == s.log
  }

  ghost predicate Unpublished(s: Sys, s2: Sys) {
    s2.db == s.db && s2.hist == s.hist && s2.log == s.log
  }

  /** The simple system: each step is nothing, one whole commit, or one table creation. */
  ghost predicate AtomicStep(s: Sys, s2: Sys) {
    || Unpublished(s, s2)
    || (exists env, req :: PublishedRequest(env, s, s2, req))
    || (exists env, ident, columns, properties, ids :: CreatedTable(env, s, s2, ident, columns, properties, ids))
  }

  lemma CommitKeepsLog(env: Env, s: Sys, s2: Sys, req: Request)
    requires Inv(s.db, s.hist) && LogOk(s) && PublishedRequest(env, s, s2, req)
    ensures LogOk(s2) && Inv(s2.db, s2.hist)
  {
    hide CommitWrites, SliceOk, GlobalOk, ApplyChange, Legal, SliceOf, Publishable;
    CommitHasTable(env, s.db, req);
    CommitSteps(env, s.db, s.hist, req);
    assert TableOk(s.db, s.hist, req.ident);
    CommitIsChange(env, s.db, s.hist[req.ident], req);
    BaseIsLast(s.db, s.hist, req.ident);
    forall ident
      ensures if ident in s2.db.tables then ident in s2.hist && LogOf(s2, ident) else Published(s2.log, ident) == []
    {
      LogExtends(s, s2, req, ident, Committed(env, s.db, req));
    }
  }

  lemma BaseIsLast(db: Db, hs: map<TableIdent, Hist>, ident: TableIdent)
    requires TableOk(db, hs, ident)
    ensures |hs[ident].chain| > 0 && Distinct(hs[ident].chain)
            && SliceOf(db, ident).row.head == Some(Last(hs[ident].chain))
  {
  }

  lemma LogExtends(s: Sys, s2: Sys, req: Request, ident: TableIdent, c: Change)
    requires LogOk(s) && req.ident in s.db.tables && req.ident in s.hist && s2.log == s.log + [req]
    requires s2.hist == Advance(s.hist, req.ident, c) && c.txn == req.ids.txn
    requires |s.hist[req.ident].chain| > 0 && Last(s.hist[req.ident].chain) == req.base
    requires forall other :: other in s2.db.tables <==> other in s.db.tables
    ensures if ident in s2.db.tables then ident in s2.hist && LogOf(s2, ident) else Published(s2.log, ident) == []
  {
    assert s2.log[..|s2.log| - 1] == s.log;
    if ident in s.db.tables { assert LogOf(s, ident); }
    if ident == req.ident {
      var c0 := s.hist[ident].chain;
      assert (c0 + [c.txn])[1..] == c0[1..] + [c.txn];
      assert (c0 + [c.txn])[..|c0|] == c0[..|c0| - 1] + [Last(c0)];
    }
  }

  lemma CreateKeepsLog(
    env: Env, s: Sys, s2: Sys, ident: TableIdent, columns: seq<ColumnSpec>, properties: Option<Properties>, ids: Ids)
    requires Inv(s.db, s.hist) && LogOk(s) && CreatedTable(env, s, s2, ident, columns, properties, ids)
    ensures LogOk(s2) && Inv(s2.db, s2.hist)
  {
    hide CreateWrites, SliceOk, GlobalOk, SliceOf, NewSlice;
    CreateSteps(env, s.db, s.hist, ident, columns, properties, ids);
    forall other
      ensures if other in s2.db.tables then other in s2.hist && LogOf(s2, other) else Published(s2.log, other) == []
    {
      if other in s.db.tables { assert LogOf(s, other); }
      if other == ident { SameLength(s.log, ident); }
    }
  }

  lemma {:induction false} SameLength(log: seq<Request>, ident: TableIdent)
    ensures |Published(log, ident)| == |Bases(log, ident)|
    decreases |log|
  {
    if |log| > 0 { SameLength(log[..|log| - 1], ident); }
  }

  /** The protocol refines atomic commits, and every step keeps the invariant: locking, running statements and
      rolling back change nothing that is published, even when other tables' commits are published in between. */
  lemma ProtocolRefinesAtomicCommits(s: Sys, s2: Sys)
    requires SysInv(s) && Moves(s, s2)
    ensures SysInv(s2) && AtomicStep(s, s2)
  {
    hide Inv, WritersOk, LogOk, NextStep, PublishedRequest, CreatedTable;
    if s2 != s {
      var step :| NextStep(s, s2, step);
      StepRefines(s, s2, step);
    }
  }

  lemma StepRefines(s: Sys, s2: Sys, step: Step)
    requires SysInv(s) && NextStep(s, s2, step)
    ensures SysInv(s2) && AtomicStep(s, s2)
  {
    hide Inv, WritersOk, LogOk, PublishedRequest, CreatedTable, PublishStep, CreateStep, Free, CheckMutation, Begin,
      ChunkRows, Complete, ChunkCount;
    match step
    case Lock(i, env, req) => LockKeeps(s, s2, i, env, req); LogStays(s, s2);
    case Chunk(i) => ChunkKeeps(s, s2, i); LogStays(s, s2);
    case Apply(i) => ApplyKeeps(s, s2, i); LogStays(s, s2);
    case Publish(i) =>
      PublishKeeps(s, s2, i);
      CommitKeepsLog(s.writers[i].env, s, s2, s.writers[i].req);
    case Drop(i) => DropKeeps(s, s2, i); LogStays(s, s2);
    case Create(env, ident, columns, properties, ids) =>
      CreateKeeps(s, s2, env, ident, columns, properties, ids);
      CreateKeepsLog(env, s, s2, ident, columns, properties, ids);
  }

  lemma LogStays(s: Sys, s2: Sys)
    requires LogOk(s) && Unpublished(s, s2)
    ensures LogOk(s2)
  {
    forall ident
      ensures if ident in s2.db.tables then ident in s2.hist && LogOf(s2, ident) else Published(s2.log, ident) == []
    {
      if ident in s.db.tables { assert LogOf(s, ident); }
    }
  }

  // ---------- runs ----------

  ghost predicate NextAt(run: nat -> Sys, n: nat) {
    Moves(run(n), run(n + 1))
  }

  /** Every run of the protocol, with any number of writers, each on its own catalog instance. */
  ghost predicate Run(run: nat -> Sys) {
    run(0) == START && forall n: nat {:trigger NextAt(run, n)} :: NextAt(run, n)
  }

  lemma StartOk()
    ensures SysInv(START)
  {
  }

  /** The invariant holds throughout every run. */
  lemma {:induction false} RunKeepsInvariant(run: nat -> Sys, n: nat)
    requires Run(run)
    ensures SysInv(run(n))
  {
    hide SysInv, Moves;
    if n == 0 { StartOk(); } else {
      RunKeepsInvariant(run, n - 1);
      assert NextAt(run, n - 1);
      ProtocolRefinesAtomicCommits(run(n - 1), run(n));
    }
  }

  // ---------- winners and losers ----------

  /** Entry p of the log, found among the published transactions and bases of its table. */
  lemma {:induction false} LogEntry(log: seq<Request>, ident: TableIdent, p: nat)
    requires p < |log| && log[p].ident == ident
    ensures var k := |Published(log[..p], ident)|;
            && k < |Published(log, ident)| == |Bases(log, ident)|
            && Published(log, ident)[k] == log[p].ids.txn && Bases(log, ident)[k] == log[p].base
    decreases |log|
  {
    var n := |log| - 1;
    SameLength(log, ident);
    SameLength(log[..n], ident);
    if p < n {
      LogEntry(log[..n], ident, p);
      assert log[..n][..p] == log[..p];
    }
  }

  /** No successful commit is lost: at every later moment its transaction is in the table's history, directly
      after its base. */
  lemma PublishedStaysLinked(s: Sys, p: nat) returns (k: nat)
    requires SysInv(s) && p < |s.log|
    ensures s.log[p].ident in s.db.tables && s.log[p].ident in s.hist
    ensures var c := s.hist[s.log[p].ident].chain;
            k + 1 < |c| && c[k] == s.log[p].base && c[k + 1] == s.log[p].ids.txn
    ensures k == |Published(s.log[..p], s.log[p].ident)|
  {
    hide Inv, WritersOk;
    var ident := s.log[p].ident;
    LogEntry(s.log, ident, p);
    k := |Published(s.log[..p], ident)|;
    assert LogOf(s, ident);
    var c := s.hist[ident].chain;
    assert c[1..][k] == c[k + 1] && c[..|c| - 1][k] == c[k];
  }

  /** Of all commits that share a base, at most one succeeds. */
  lemma OneWinnerPerBase(s: Sys, p: nat, q: nat)
    requires SysInv(s) && p < q < |s.log| && s.log[p].ident == s.log[q].ident
    ensures s.log[p].base != s.log[q].base
  {
    hide LogOk, WritersOk, SliceOk, GlobalOk;
    var k := PublishedStaysLinked(s, p);
    var m := PublishedStaysLinked(s, q);
    LogEntry(s.log[..q], s.log[q].ident, p);
    assert s.log[..q][..p] == s.log[..p];
    assert TableOk(s.db, s.hist, s.log[p].ident);
    BaseIsLast(s.db, s.hist, s.log[p].ident);
  }

  /** Once a commit has won its base, any other request on that base fails the base check. */
  lemma StaleBaseIsRefused(env: Env, s: Sys, p: nat, req: Request)
    requires SysInv(s) && p < |s.log| && s.log[p].ident == req.ident && s.log[p].base == req.base
    requires req.ident in s.db.tables && env.writer >= s.db.tables[req.ident].minWriter
    ensures Begin(env, s.db, req) == Err(BaseMismatch)
  {
    hide LogOk, WritersOk, SliceOk, GlobalOk;
    var k := PublishedStaysLinked(s, p);
    assert TableOk(s.db, s.hist, req.ident);
    BaseIsLast(s.db, s.hist, req.ident);
  }

  // ---------- growing ids ----------

  ghost predicate LockAt(run: nat -> Sys, n: nat, i: nat, env: Env, req: Request) {
    LockStep(run(n), run(n + 1), i, env, req)
  }

  /** The hypothesis on the id source: a commit's fresh id exceeds the head it is based on. */
  ghost predicate IdSource(run: nat -> Sys) {
    forall n: nat, i: nat, env, req {:trigger LockAt(run, n, i, env, req)} ::
      LockAt(run, n, i, env, req) ==> req.ids.txn > req.base
  }

  predicate Ascends(req: Request) {
    req.ids.txn > req.base
  }

  ghost predicate AllAscend(s: Sys) {
    (forall i :: i in s.writers ==> Ascends(s.writers[i].req)) && forall p :: 0 <= p < |s.log| ==> Ascends(s.log[p])
  }

  lemma StepAscends(s: Sys, s2: Sys, step: Step)
    requires AllAscend(s) && NextStep(s, s2, step) && (step.Lock? ==> Ascends(step.req))
    ensures AllAscend(s2)
  {
    hide Free, CheckMutation, Begin, ChunkRows, Complete, ChunkCount, Finish, Advance, CreateWrites, ChangeOf, Ascends,
      Genesis, Oversized;
  }

  lemma {:induction false} RunAscends(run: nat -> Sys, n: nat)
    requires Run(run) && IdSource(run)
    ensures AllAscend(run(n))
  {
    hide NextStep, LockStep;
    if n > 0 {
      RunAscends(run, n - 1);
      assert NextAt(run, n - 1);
      if run(n) != run(n - 1) {
        var step :| NextStep(run(n - 1), run(n), step);
        if step.Lock? { LockIsLock(run, n - 1, step); }
        StepAscends(run(n - 1), run(n), step);
      }
    }
  }

  lemma LockIsLock(run: nat -> Sys, n: nat, step: Step)
    requires step.Lock? && NextStep(run(n), run(n + 1), step)
    ensures LockAt(run, n, step.id, step.env, step.req)
  {
  }

  lemma {:induction false} PublishedAboveBases(log: seq<Request>, ident: TableIdent)
    requires forall p :: 0 <= p < |log| ==> Ascends(log[p])
    ensures |Published(log, ident)| == |Bases(log, ident)|
    ensures forall k :: 0 <= k < |Published(log, ident)| ==> Published(log, ident)[k] > Bases(log, ident)[k]
    decreases |log|
  {
    if |log| > 0 { PublishedAboveBases(log[..|log| - 1], ident); }
  }

  lemma {:induction false} AscentIncreases(c: seq<TxnId>, j: nat)
    requires j < |c| && forall k :: 0 <= k < |c| - 1 ==> c[k] < c[k + 1]
    ensures forall i :: 0 <= i < j ==> c[i] < c[j]
  {
    if j > 0 {
      AscentIncreases(c, j - 1);
      assert c[j - 1] < c[j - 1 + 1];
    }
  }

  /** Then ids grow along every history of the run. */
  lemma RunIdsGrow(run: nat -> Sys, n: nat, ident: TableIdent)
    requires Run(run) && IdSource(run) && ident in run(n).db.tables
    ensures ident in run(n).hist && Increasing(run(n).hist[ident].chain)
  {
    hide Run, IdSource, Inv, WritersOk;
    RunKeepsInvariant(run, n);
    RunAscends(run, n);
    assert LogOf(run(n), ident);
    var c := run(n).hist[ident].chain;
    PublishedAboveBases(run(n).log, ident);
    forall k | 0 <= k < |c| - 1 ensures c[k] < c[k + 1] { assert c[1..][k] == c[k + 1] && c[..|c| - 1][k] == c[k]; }
    forall j | 0 <= j < |c| ensures forall i :: 0 <= i < j ==> c[i] < c[j] { AscentIncreases(c, j); }
  }

  // ---------- readers of a run ----------

  ghost predicate TableGrows(s: Sys, s2: Sys, ident: TableIdent) {
    && TableOk(s.db, s.hist, ident) && TableOk(s2.db, s2.hist, ident)
    && Grows(SliceOf(s.db, ident), s.hist[ident], SliceOf(s2.db, ident), s2.hist[ident])
  }

  lemma CommitGrows(env: Env, s: Sys, s2: Sys, req: Request, ident: TableIdent)
    requires Inv(s.db, s.hist) && PublishedRequest(env, s, s2, req) && ident in s.db.tables
    ensures TableGrows(s, s2, ident)
  {
    hide CommitWrites, GlobalOk, SliceOf, SliceOk, ApplyChange, Grows, Legal;
    CommitSteps(env, s.db, s.hist, req);
    assert TableOk(s.db, s.hist, ident) && TableOk(s2.db, s2.hist, ident);
    if ident == req.ident {
      ChangeGrows(SliceOf(s.db, ident), s.hist[ident], Committed(env, s.db, req));
    } else {
      GrowsReflexive(SliceOf(s.db, ident), s.hist[ident]);
    }
  }

  lemma CreateGrows(
    env: Env, s: Sys, s2: Sys, ident: TableIdent, columns: seq<ColumnSpec>, properties: Option<Properties>, ids: Ids,
    other: TableIdent)
    requires Inv(s.db, s.hist) && CreatedTable(env, s, s2, ident, columns, properties, ids) && other in s.db.tables
    ensures TableGrows(s, s2, other)
  {
    hide CreateWrites, GlobalOk, SliceOf, SliceOk, NewSlice, Grows;
    CreateSteps(env, s.db, s.hist, ident, columns, properties, ids);
    assert TableOk(s.db, s.hist, other) && TableOk(s2.db, s2.hist, other);
    GrowsReflexive(SliceOf(s.db, other), s.hist[other]);
  }

  lemma StepGrows(s: Sys, s2: Sys, ident: TableIdent)
    requires Inv(s.db, s.hist) && AtomicStep(s, s2) && ident in s.db.tables
    ensures TableGrows(s, s2, ident)
  {
    hide PublishedRequest, CreatedTable, SliceOk, GlobalOk, Grows;
    if Unpublished(s, s2) {
      assert TableOk(s.db, s.hist, ident);
      GrowsReflexive(SliceOf(s.db, ident), s.hist[ident]);
    } else if env, req :| PublishedRequest(env, s, s2, req) {
      CommitGrows(env, s, s2, req, ident);
    } else {
      var env, table, columns, properties, ids :| CreatedTable(env, s, s2, table, columns, properties, ids);
      CreateGrows(env, s, s2, table, columns, properties, ids, ident);
    }
  }

  /** Along a run, tables are never dropped and their histories only extended. */
  lemma {:induction false} RunGrows(run: nat -> Sys, ident: TableIdent, m: nat, n: nat)
    requires Run(run) && m <= n && ident in run(m).db.tables
    ensures TableGrows(run(m), run(n), ident)
    decreases n
  {
    hide SliceOk, GlobalOk, Grows, Moves, WritersOk, LogOk, AtomicStep;
    RunKeepsInvariant(run, n);
    if m == n {
      assert TableOk(run(m).db, run(m).hist, ident);
      GrowsReflexive(SliceOf(run(m).db, ident), run(m).hist[ident]);
    } else {
      RunGrows(run, ident, m, n - 1);
      RunKeepsInvariant(run, n - 1);
      assert NextAt(run, n - 1);
      ProtocolRefinesAtomicCommits(run(n - 1), run(n));
      StepGrows(run(n - 1), run(n), ident);
      TableGrowsTransitive(run(m), run(n - 1), run(n), ident);
    }
  }

  lemma TableGrowsTransitive(a: Sys, b: Sys, c: Sys, ident: TableIdent)
    requires TableGrows(a, b, ident) && TableGrows(b, c, ident)
    ensures TableGrows(a, c, ident)
  {
    hide FilesOk, SchemasOk, ColumnsOk, EvolutionOk, Grows;
    GrowsTransitive(SliceOf(a.db, ident), a.hist[ident], SliceOf(b.db, ident), b.hist[ident], SliceOf(c.db, ident),
      c.hist[ident]);
  }

  /** A writer pins the head it saw as its base. Later the base still is the head exactly when nobody has
      published to the table in between. */
  lemma PinnedBaseHolds(run: nat -> Sys, ident: TableIdent, m: nat, n: nat)
    requires Run(run) && m <= n && ident in run(m).db.tables
    ensures ident in run(n).db.tables
    ensures run(n).db.tables[ident].head == run(m).db.tables[ident].head <==>
              Published(run(n).log, ident) == Published(run(m).log, ident)
  {
    hide Run, SliceOk, GlobalOk, WritersOk;
    RunGrows(run, ident, m, n);
    RunKeepsInvariant(run, m);
    RunKeepsInvariant(run, n);
    BaseIsLast(run(m).db, run(m).hist, ident);
    BaseIsLast(run(n).db, run(n).hist, ident);
    assert LogOf(run(m), ident) && LogOf(run(n), ident);
    SameHeadSameChain(run(m).hist[ident].chain, run(n).hist[ident].chain);
  }

  lemma SameHeadSameChain(c: seq<TxnId>, d: seq<TxnId>)
    requires |c| > 0 && c <= d && Distinct(d)
    ensures Last(c) == Last(d) <==> c[1..] == d[1..]
  {
    assert d[|c| - 1] == Last(c);
    if c[1..] == d[1..] { assert |c| == |d|; }
    if Last(c) == Last(d) { assert |c| == |d| && c == d; }
  }

  /** A reader's queries look at the run at ever later moments. */
  ghost predicate Sampled(run: nat -> Sys, at: nat -> nat) {
    forall i: nat, j: nat {:trigger at(i), at(j)} :: i <= j ==> at(i) <= at(j)
  }

  function Seen(run: nat -> Sys, at: nat -> nat): Schedule {
    (k: nat) => run(at(k)).db
  }

  function SeenHist(run: nat -> Sys, at: nat -> nat): nat -> map<TableIdent, Hist> {
    (k: nat) => run(at(k)).hist
  }

  /** What any reader of any run sees is a schedule of reachable states, each grown from those before … */
  lemma RunIsFollowed(run: nat -> Sys, at: nat -> nat, ident: TableIdent)
    requires Run(run) && Sampled(run, at) && ident in run(at(0)).db.tables
    ensures Followed(Seen(run, at), SeenHist(run, at), ident)
  {
    hide SliceOk, Grows, Run;
    var obs, hs := Seen(run, at), SeenHist(run, at);
    forall k: nat ensures TableOk(obs(k), hs(k), ident) { TableSeenAt(run, at, ident, k); }
    forall i: nat, j: nat | i <= j ensures GrowsBetween(obs, hs, ident, i, j) {
      TableSeenAt(run, at, ident, i);
      RunGrows(run, ident, at(i), at(j));
    }
  }

  /** … and an observed one where the ids are drawn in order. */
  lemma RunIsObserved(run: nat -> Sys, at: nat -> nat, ident: TableIdent)
    requires Run(run) && IdSource(run) && Sampled(run, at) && ident in run(at(0)).db.tables
    ensures Observed(Seen(run, at), SeenHist(run, at), ident)
  {
    hide SliceOk, Grows, Run, Followed, Increasing, IdSource;
    RunIsFollowed(run, at, ident);
    forall k: nat ensures ident in SeenHist(run, at)(k) && Increasing(SeenHist(run, at)(k)[ident].chain) {
      TableSeenAt(run, at, ident, k);
      RunIdsGrow(run, at(k), ident);
    }
  }

  lemma TableSeenAt(run: nat -> Sys, at: nat -> nat, ident: TableIdent, k: nat)
    requires Run(run) && Sampled(run, at) && ident in run(at(0)).db.tables
    ensures ident in run(at(k)).hist && ident in run(at(k)).db.tables && TableOk(run(at(k)).db, run(at(k)).hist, ident)
  {
    hide SliceOk, Grows, Run;
    RunGrows(run, ident, at(0), at(k));
  }

  /** Reads of any run are linearizable: whatever any number of writers publish between the reader's queries,
      it gets the answer of one atomic read at the moment of its first query. */
  lemma RunReadsAreAtomic(
    env: Env, run: nat -> Sys, at: nat -> nat, ident: TableIdent, target: Option<TxnId>, r: Result<View>)
    requires Run(run) && IdSource(run) && Sampled(run, at) && IsRead(Seen(run, at), env, ident, target, r)
    ensures var s := run(at(0));
            if ident !in s.db.tables then r == Err(TableNotFound)
            else
              && TableOk(s.db, s.hist, ident) && SameResult(r, ReadAt(env, SliceOf(s.db, ident), s.hist[ident], target))
              && (r.Ok? ==> r.value.properties == s.db.tables[ident].properties)
  {
    hide Run, IdSource, Sampled, SameResult, ReadAt, SliceOk, Observed, IsReadAlong;
    if ident in run(at(0)).db.tables {
      RunIsObserved(run, at, ident);
      InterleavedReadIsAtomic(Seen(run, at), SeenHist(run, at), env, ident, target, r);
    }
  }
}
