/** What runs can reach: every atomic commit is realized by the steps of a writer, so every order of transaction
    ids occurs in the history of some table. */
module Reach {
  import opened CatalogTypes
  import opened Limits
  import opened Validation
  import opened Statements
  import opened History
  import opened Commits
  import opened Mutations
  import opened Meaning
  import opened Acceptance
  import opened Views
  import opened Protocol
  import opened Runs

  ghost predicate Reachable(s: Sys) {
    exists run: nat -> Sys, n: nat :: Run(run) && run(n) == s
  }

  lemma StartReachable()
    ensures Reachable(START)
  {
    var run: nat -> Sys := _ => START;
    forall n: nat ensures NextAt(run, n) {}
    assert Run(run) && run(0) == START;
  }

  /** A run can go on by any step, and rest from then on. */
  lemma ReachStep(s: Sys, s2: Sys)
    requires Reachable(s) && Moves(s, s2)
    ensures Reachable(s2)
  {
    hide NextStep;
    var run: nat -> Sys, n: nat :| Run(run) && run(n) == s;
    var longer: nat -> Sys := (k: nat) => if k <= n then run(k) else s2;
    forall k: nat ensures NextAt(longer, k) {
      if k < n { assert NextAt(run, k); }
    }
    assert Run(longer) && longer(n + 1) == s2;
  }

  lemma ReachInv(s: Sys)
    requires Reachable(s)
    ensures SysInv(s)
  {
    hide SysInv;
    var run: nat -> Sys, n: nat :| Run(run) && run(n) == s;
    RunKeepsInvariant(run, n);
  }

  // ---------- one commit, statement by statement ----------

  /** The writer after n whole operations and m chunks of the next one. */
  function WriterAt(env: Env, db: Db, req: Request, n: nat, m: nat): Writer
    requires Begin(env, db, req).Ok? && n <= |req.ops|
    requires var begun := Begin(env, db, req).value;
             && ExecOps(db, begun.ctx, req.ops, n, begun.work).Ok?
             && (m > 0 ==> n < |req.ops| && m <= ChunkCount(begun.ctx, n, req.ops[n]))
             && (m > 0 ==> RowsSoFar(Over(db, ExecOps(db, begun.ctx, req.ops, n, begun.work).value.ws).files,
                                     begun.ctx, n, req.ops[n], m).Ok?)
  {
    var begun := Begin(env, db, req).value;
    var work := ExecOps(db, begun.ctx, req.ops, n, begun.work).value;
    var part := if m == 0 then map[] else RowsSoFar(Over(db, work.ws).files, begun.ctx, n, req.ops[n], m).value;
    Writer(env, req, begun, n, m, part, work)
  }

  ghost function Alone(s: Sys, w: Writer): Sys {
    s.(writers := map[0 := w])
  }

  lemma {:induction false} OpsPrefixOk(db: Db, ctx: Context, ops: seq<MutationOp>, n: nat, w: Work)
    requires n <= |ops| && ExecOps(db, ctx, ops, |ops|, w).Ok?
    ensures ExecOps(db, ctx, ops, n, w).Ok?
  {
    if ExecOps(db, ctx, ops, n, w).Err? { ExecOpsStays(db, ctx, ops, n, |ops|, w); }
  }

  lemma RowsPrefixOk(files: map<Uuid, FileRow>, ctx: Context, k: nat, op: MutationOp, m: nat)
    requires m <= ChunkCount(ctx, k, op) && RowsSoFar(files, ctx, k, op, ChunkCount(ctx, k, op)).Ok?
    ensures RowsSoFar(files, ctx, k, op, m).Ok?
  {
    if op.AppendFiles? && RowsSoFar(files, ctx, k, op, m).Err? {
      AppendStays(files, ctx, FileChunks(ctx, k, op.files), m, ChunkCount(ctx, k, op));
    }
  }

  /** An accepted operation is not oversized and all its chunks run. */
  lemma OperationRuns(db: Db, ctx: Context, k: nat, op: MutationOp, w: Work)
    requires ExecOp(db, ctx, k, op, w).Ok?
    ensures !Oversized(op) && RowsSoFar(Over(db, w.ws).files, ctx, k, op, ChunkCount(ctx, k, op)).Ok?
    ensures Complete(db, ctx, k, op, w, RowsSoFar(Over(db, w.ws).files, ctx, k, op, ChunkCount(ctx, k, op)).value)
            == ExecOp(db, ctx, k, op, w)
  {
    hide AppendChunks, MarkChunks, ReplaceSchema, Chunks, RemoveKeys;
  }

  lemma NextChunkOk(files: map<Uuid, FileRow>, ctx: Context, k: nat, op: MutationOp, m: nat)
    requires m < ChunkCount(ctx, k, op) && RowsSoFar(files, ctx, k, op, m).Ok?
             && RowsSoFar(files, ctx, k, op, m + 1).Ok?
    ensures var part := RowsSoFar(files, ctx, k, op, m).value;
            && ChunkRows(files + part, ctx, k, op, m).Ok?
            && RowsSoFar(files, ctx, k, op, m + 1).value == part + ChunkRows(files + part, ctx, k, op, m).value
  {
    hide InsertFiles, MarkRemoved, Chunks;
  }

  ghost predicate Committing(s: Sys, env: Env, req: Request) {
    && s.writers == map[] && CommitWrites(env, s.db, req).Ok? && req.ident in s.db.tables && req.ident in s.hist
  }

  lemma CommitFacts(s: Sys, env: Env, req: Request)
    requires Committing(s, env, req)
    ensures CheckMutation(req.ops).Ok? && Begin(env, s.db, req).Ok?
    ensures var begun := Begin(env, s.db, req).value;
            && ExecOps(s.db, begun.ctx, req.ops, |req.ops|, begun.work).Ok?
            && Finish(env, s.db, req, begun, ExecOps(s.db, begun.ctx, req.ops, |req.ops|, begun.work).value)
               == CommitWrites(env, s.db, req)
  {
  }

  ghost predicate WriterReady(s: Sys, env: Env, req: Request, n: nat, m: nat) {
    && n <= |req.ops| && Begin(env, s.db, req).Ok?
    && var begun := Begin(env, s.db, req).value;
    && ExecOps(s.db, begun.ctx, req.ops, n, begun.work).Ok?
    && (m > 0 ==> n < |req.ops| && m <= ChunkCount(begun.ctx, n, req.ops[n]))
    && (m > 0 ==> RowsSoFar(Over(s.db, ExecOps(s.db, begun.ctx, req.ops, n, begun.work).value.ws).files,
                            begun.ctx, n, req.ops[n], m).Ok?)
  }

  lemma Ready(s: Sys, env: Env, req: Request, n: nat, m: nat)
    requires Committing(s, env, req) && n <= |req.ops|
    requires var ctx := Begin(env, s.db, req).value.ctx;
             Begin(env, s.db, req).Ok? && (m > 0 ==> n < |req.ops| && m <= ChunkCount(ctx, n, req.ops[n]))
    ensures WriterReady(s, env, req, n, m)
  {
    hide CommitWrites, ChunkCount, RowsSoFar, ExecOp, Begin;
    CommitFacts(s, env, req);
    var begun := Begin(env, s.db, req).value;
    OpsPrefixOk(s.db, begun.ctx, req.ops, n, begun.work);
    if m > 0 {
      OpsPrefixOk(s.db, begun.ctx, req.ops, n + 1, begun.work);
      var work := ExecOps(s.db, begun.ctx, req.ops, n, begun.work).value;
      OperationRuns(s.db, begun.ctx, n, req.ops[n], work);
      RowsPrefixOk(Over(s.db, work.ws).files, begun.ctx, n, req.ops[n], m);
    }
  }

  lemma LockReached(s: Sys, env: Env, req: Request)
    requires Reachable(s) && Committing(s, env, req)
    ensures WriterReady(s, env, req, 0, 0) && Reachable(Alone(s, WriterAt(env, s.db, req, 0, 0)))
  {
    hide Reachable, CommitWrites, Begin, CheckMutation, NoClash;
    CommitFacts(s, env, req);
    var w := WriterAt(env, s.db, req, 0, 0);
    assert LockStep(s, Alone(s, w), 0, env, req);
    assert NextStep(s, Alone(s, w), Lock(0, env, req));
    ReachStep(s, Alone(s, w));
  }

  lemma ChunkReached(s: Sys, env: Env, req: Request, n: nat, m: nat)
    requires Committing(s, env, req) && n < |req.ops| && WriterReady(s, env, req, n, m)
    requires m < ChunkCount(Begin(env, s.db, req).value.ctx, n, req.ops[n])
    requires Reachable(Alone(s, WriterAt(env, s.db, req, n, m)))
    ensures WriterReady(s, env, req, n, m + 1) && Reachable(Alone(s, WriterAt(env, s.db, req, n, m + 1)))
  {
    hide Reachable, CommitWrites, Begin, NextStep, ChunkCount, RowsSoFar, ExecOp, ExecOps, WriterAt, Alone;
    CommitFacts(s, env, req);
    Ready(s, env, req, n, m + 1);
    ChunkRuns(s, env, req, n, m);
    var w, w2 := WriterAt(env, s.db, req, n, m), WriterAt(env, s.db, req, n, m + 1);
    AloneChunk(s, w, w2);
    ReachStep(Alone(s, w), Alone(s, w2));
  }

  /** The next chunk statement goes through and makes the next writer. */
  lemma ChunkRuns(s: Sys, env: Env, req: Request, n: nat, m: nat)
    requires Committing(s, env, req) && n < |req.ops| && WriterReady(s, env, req, n, m)
             && WriterReady(s, env, req, n, m + 1)
    ensures var w, w2 := WriterAt(env, s.db, req, n, m), WriterAt(env, s.db, req, n, m + 1);
            && w.done < |w.req.ops| && !Oversized(Current(w)) && w.chunk < ChunkCount(w.session.ctx, w.done, Current(w))
            && var r := ChunkRows(Over(s.db, Pending(w)).files, w.session.ctx, w.done, Current(w), w.chunk);
            r.Ok? && w2 == w.(chunk := w.chunk + 1, part := w.part + r.value)
  {
    hide CommitWrites, Begin, ChunkCount, RowsSoFar, ChunkRows, ExecOp;
    CommitFacts(s, env, req);
    var begun := Begin(env, s.db, req).value;
    var w := WriterAt(env, s.db, req, n, m);
    var files := Over(s.db, w.work.ws).files;
    OpsPrefixOk(s.db, begun.ctx, req.ops, n + 1, begun.work);
    OperationRuns(s.db, begun.ctx, n, req.ops[n], w.work);
    NoRowsYetWritten(files, begun.ctx, n, req.ops[n]);
    NextChunkOk(files, begun.ctx, n, req.ops[n], m);
    MapUnionAssociates(s.db.files, w.work.ws.files, w.part);
  }

  lemma AloneChunk(s: Sys, w: Writer, w2: Writer)
    requires w.done < |w.req.ops| && !Oversized(Current(w)) && w.chunk < ChunkCount(w.session.ctx, w.done, Current(w))
    requires var r := ChunkRows(Over(s.db, Pending(w)).files, w.session.ctx, w.done, Current(w), w.chunk);
             r.Ok? && w2 == w.(chunk := w.chunk + 1, part := w.part + r.value)
    ensures Moves(Alone(s, w), Alone(s, w2))
  {
    hide ChunkRows, ChunkCount, NoClash, Pending;
    assert ChunkStep(Alone(s, w), Alone(s, w2), 0);
    assert NextStep(Alone(s, w), Alone(s, w2), Chunk(0));
  }

  lemma {:induction false} ChunksReached(s: Sys, env: Env, req: Request, n: nat, m: nat)
    requires Committing(s, env, req) && n < |req.ops| && WriterReady(s, env, req, n, 0)
    requires m <= ChunkCount(Begin(env, s.db, req).value.ctx, n, req.ops[n])
    requires Reachable(Alone(s, WriterAt(env, s.db, req, n, 0)))
    ensures WriterReady(s, env, req, n, m) && Reachable(Alone(s, WriterAt(env, s.db, req, n, m)))
  {
    hide Reachable, Committing, WriterReady, WriterAt, Begin, ChunkCount;
    if m > 0 {
      ChunksReached(s, env, req, n, m - 1);
      ChunkReached(s, env, req, n, m - 1);
    }
  }

  lemma ApplyReached(s: Sys, env: Env, req: Request, n: nat)
    requires Committing(s, env, req) && n < |req.ops| && WriterReady(s, env, req, n, 0)
    requires Reachable(Alone(s, WriterAt(env, s.db, req, n, 0)))
    ensures WriterReady(s, env, req, n + 1, 0) && Reachable(Alone(s, WriterAt(env, s.db, req, n + 1, 0)))
  {
    hide Reachable, CommitWrites, Begin, NoClash, ChunkCount, RowsSoFar, Complete, ExecOp;
    CommitFacts(s, env, req);
    var begun := Begin(env, s.db, req).value;
    var m := ChunkCount(begun.ctx, n, req.ops[n]);
    ChunksReached(s, env, req, n, m);
    Ready(s, env, req, n + 1, 0);
    var w, w2 := WriterAt(env, s.db, req, n, m), WriterAt(env, s.db, req, n + 1, 0);
    OperationRuns(s.db, begun.ctx, n, req.ops[n], w.work);
    NoRowsYetWritten(Over(s.db, w.work.ws).files, begun.ctx, n, req.ops[n]);
    assert ApplyStep(Alone(s, w), Alone(s, w2), 0);
    assert NextStep(Alone(s, w), Alone(s, w2), Apply(0));
    ReachStep(Alone(s, w), Alone(s, w2));
  }

  lemma {:induction false} OpsReached(s: Sys, env: Env, req: Request, n: nat)
    requires Reachable(s) && Committing(s, env, req) && n <= |req.ops|
    ensures WriterReady(s, env, req, n, 0) && Reachable(Alone(s, WriterAt(env, s.db, req, n, 0)))
  {
    hide Reachable, Committing, WriterReady, WriterAt;
    if n == 0 {
      LockReached(s, env, req);
    } else {
      OpsReached(s, env, req, n - 1);
      ApplyReached(s, env, req, n - 1);
    }
  }

  ghost function After(s: Sys, env: Env, req: Request): Sys
    requires Committing(s, env, req)
  {
    Sys(Over(s.db, CommitWrites(env, s.db, req).value), Advance(s.hist, req.ident, Committed(env, s.db, req)), map[],
        s.log + [req])
  }

  /** The converse of refinement: from a state without writers, every atomic commit takes place in some run. */
  lemma AtomicCommitsAreRealized(s: Sys, env: Env, req: Request)
    requires Reachable(s) && Committing(s, env, req)
    ensures Reachable(After(s, env, req))
  {
    hide Reachable, CommitWrites, Begin, Finish, ExecOp, ChangeOf, Advance;
    CommitFacts(s, env, req);
    OpsReached(s, env, req, |req.ops|);
    var w := WriterAt(env, s.db, req, |req.ops|, 0);
    CommittedIs(s.db, env, req);
    assert map[0 := w] - {0} == map[];
    assert PublishStep(Alone(s, w), After(s, env, req), 0);
    assert NextStep(Alone(s, w), After(s, env, req), Publish(0));
    ReachStep(Alone(s, w), After(s, env, req));
  }

  lemma CommittedIs(db: Db, env: Env, req: Request)
    requires CommitWrites(env, db, req).Ok?
    ensures Begin(env, db, req).Ok?
    ensures var begun := Begin(env, db, req).value;
            && ExecOps(db, begun.ctx, req.ops, |req.ops|, begun.work).Ok?
            && Committed(env, db, req)
               == ChangeOf(begun.ctx, req.ops, |req.ops|, ExecOps(db, begun.ctx, req.ops, |req.ops|, begun.work).value)
  {
  }

  // ---------- a table with any history ----------

  const FILE := FileSpec(None, "f", "p", 0, 0, None, None)

  function FirstIds(t: TxnId): Ids {
    Ids(1, t, 2, p => p, (k, i) => i)
  }

  function LaterIds(t: TxnId): Ids {
    Ids(9, t, 9, p => 100 + p, (k, i) => 0)
  }

  /** A commit that touches properties only. */
  function Quiet(base: TxnId, t: TxnId): Request {
    Request(TABLE, base, [SetProperties(map["k" := "v"])], LaterIds(t))
  }

  /** A commit that adds a file and a schema version. */
  function Busy(base: TxnId, t: TxnId): Request {
    Request(TABLE, base, [AppendFiles([FILE]), UpdateSchema(COLUMNS)], LaterIds(t))
  }

  /** The table alone in the database, with history c and no commit under way. */
  ghost predicate Stage(s: Sys, c: seq<TxnId>) {
    && Reachable(s) && s.writers == map[] && TABLE in s.db.tables && TABLE in s.hist && s.hist[TABLE].chain == c
    && s.db.tables[TABLE].uuid == 1 && s.db.tables[TABLE].minWriter == 1 && (forall t :: t in s.db.txns <==> t in c)
  }

  /** As it was created. */
  ghost predicate Untouched(s: Sys) {
    && TABLE in s.hist && s.hist[TABLE].specs == [COLUMNS] && s.db.files == map[] && 9 !in s.db.schemas
    && s.db.columns == Elements(ColumnRows(2, FirstIds(0), COLUMNS))
  }

  /** With a live file added at t and a current schema started at t. */
  ghost predicate Marked(s: Sys, t: TxnId) {
    && 0 in s.db.files && s.db.files[0].table == 1 && s.db.files[0].added == t && s.db.files[0].removed == None
    && 9 in s.db.schemas && s.db.schemas[9].table == 1 && s.db.schemas[9].validFrom == t
       && s.db.schemas[9].validTo == None
  }

  lemma ColumnsValid()
    ensures ValidSchema(COLUMNS) && SpecEvolves(COLUMNS, COLUMNS)
  {
    assert !IsWhitespace("a"[0]);
    assert ColumnEvolves(COLUMNS[0], COLUMNS[0]);
    assert KeptBy(COLUMNS[0], COLUMNS);
  }

  lemma Creatable(t: TxnId)
    ensures var r := CreateWrites(LENIENT, EMPTY, TABLE, COLUMNS, None, FirstIds(t));
            && r.Ok? && r.value.tables == map[TABLE := TableRow(1, Some(t), Some(2), map[], 1, 1)]
            && r.value.txns == map[t := TxnRow(1, None)] && r.value.schemas == map[2 := SchemaRow(1, 1, t, None)]
            && r.value.files == map[] && r.value.columns == Elements(ColumnRows(2, FirstIds(0), COLUMNS))
  {
    ColumnsValid();
    CheckSchemaAccepts(COLUMNS);
    ColumnsAtOnce({}, Sqlite, ColumnRows(2, FirstIds(t), COLUMNS));
    assert ColumnRows(2, FirstIds(t), COLUMNS) == ColumnRows(2, FirstIds(0), COLUMNS);
  }

  lemma CreatedStage(t: TxnId) returns (s: Sys)
    ensures Stage(s, [t]) && Untouched(s)
  {
    hide Reachable, CreateWrites;
    Creatable(t);
    StartReachable();
    s := START.(db := Over(EMPTY, CreateWrites(LENIENT, EMPTY, TABLE, COLUMNS, None, FirstIds(t)).value),
                hist := map[TABLE := Genesis(FirstIds(t), COLUMNS)]);
    assert CreateStep(START, s, LENIENT, TABLE, COLUMNS, None, FirstIds(t));
    assert NextStep(START, s, Create(LENIENT, TABLE, COLUMNS, None, FirstIds(t)));
    ReachStep(START, s);
  }

  lemma StageFacts(s: Sys, c: seq<TxnId>)
    requires Stage(s, c)
    ensures Inv(s.db, s.hist) && TableOk(s.db, s.hist, TABLE) && |c| > 0 && s.db.tables[TABLE].head == Some(Last(c))
  {
    hide Reachable, SliceOk, GlobalOk;
    ReachInv(s);
    assert TableOk(s.db, s.hist, TABLE);
    BaseIsLast(s.db, s.hist, TABLE);
  }

  lemma QuietAccepted(db: Db, base: TxnId, t: TxnId)
    requires TABLE in db.tables && db.tables[TABLE].uuid == 1 && db.tables[TABLE].minWriter == 1
    requires db.tables[TABLE].head == Some(base) && t !in db.txns
    ensures var r := CommitWrites(LENIENT, db, Quiet(base, t));
            && r.Ok? && r.value.schemas == map[] && r.value.columns == {} && r.value.files == map[]
            && r.value.txns == map[t := TxnRow(1, Some(base))] && r.value.tables.Keys == {TABLE}
            && r.value.tables[TABLE].uuid == 1 && r.value.tables[TABLE].minWriter == 1
            && Committed(LENIENT, db, Quiet(base, t)).txn == t && Committed(LENIENT, db, Quiet(base, t)).spec == None
  {
    var ops := Quiet(base, t).ops;
    MutationAccepted(t);
    assert ops == SetOne(t).ops;
    var s := Begin(LENIENT, db, Quiet(base, t)).value;
    assert ExecOps(db, s.ctx, ops, 0, s.work) == Ok(s.work);
    assert ExecOps(db, s.ctx, ops, 1, s.work) == Ok(s.work.(properties := map["k" := "v"]));
  }

  lemma QuietStage(s: Sys, c: seq<TxnId>, t: TxnId) returns (s2: Sys)
    requires Stage(s, c) && t !in c
    ensures Stage(s2, c + [t]) && (Untouched(s) ==> Untouched(s2)) && (forall x :: Marked(s, x) ==> Marked(s2, x))
  {
    hide Reachable, CommitWrites, Committed, Inv, SliceOk;
    StageFacts(s, c);
    QuietAccepted(s.db, Last(c), t);
    AtomicCommitsAreRealized(s, LENIENT, Quiet(Last(c), t));
    s2 := After(s, LENIENT, Quiet(Last(c), t));
    assert s2.db.files == s.db.files && s2.db.schemas == s.db.schemas && s2.db.columns == s.db.columns;
  }

  lemma BusyValid(base: TxnId, t: TxnId)
    ensures ValidMutation(Busy(base, t).ops)
  {
    var ops := Busy(base, t).ops;
    assert ops[..1] == [ops[0]] && ops[..1][..0] == [];
    assert CountUpdates(ops[..1][..0]) == 0 && CountSets(ops[..1][..0]) == 0;
    assert CountUpdates(ops[..1]) == 0 && CountSets(ops[..1]) == 0;
    assert CountUpdates(ops) == 1 && CountSets(ops) == 0;
  }

  lemma BusyAcceptable(db: Db, base: TxnId, t: TxnId)
    requires db.files == map[] && 9 !in db.schemas && db.columns == Elements(ColumnRows(2, FirstIds(0), COLUMNS))
    ensures var ops := Busy(base, t).ops;
            && FilesAcceptable(db, LaterIds(t), ops, 2) && (forall k :: 0 <= k < 2 ==> Sized(ops[k]))
            && ops[1] == UpdateSchema(COLUMNS) && !ops[0].UpdateSchema?
               && SchemaAcceptable(db, COLUMNS, LaterIds(t), COLUMNS)
  {
    var ops := Busy(base, t).ops;
    ColumnsValid();
    assert !IsWhitespace(FILE.path[0]);
    forall k, i | 0 <= k < 2 && ops[k].AppendFiles? && 0 <= i < |ops[k].files| ensures ValidFile(ops[k].files[i]) {
      assert k == 0 && i == 0;
    }
  }

  lemma BusyAccepted(s: Sys, c: seq<TxnId>, t: TxnId)
    requires Stage(s, c) && Untouched(s) && t !in c && |c| > 0
    ensures CommitWrites(LENIENT, s.db, Busy(Last(c), t)).Ok?
  {
    hide Reachable, CommitWrites, Inv, SliceOk, Acceptable, ValidMutation, PropertiesAfter;
    StageFacts(s, c);
    BusyValid(Last(c), t);
    BusyAcceptable(s.db, Last(c), t);
    CommitOkIff(LENIENT, s.db, s.hist, Busy(Last(c), t));
  }

  /** What the busy commit leaves behind. */
  lemma BusyMarks(db: Db, hs: map<TableIdent, Hist>, base: TxnId, t: TxnId)
    requires Inv(db, hs) && CommitWrites(LENIENT, db, Busy(base, t)).Ok? && TABLE in db.tables
             && db.tables[TABLE].uuid == 1
    ensures var c, db2 := Committed(LENIENT, db, Busy(base, t)),
            Over(db, CommitWrites(LENIENT, db, Busy(base, t)).value);
            && c.txn == t && TABLE in db2.tables && 0 in SliceOf(db2, TABLE).files
            && SliceOf(db2, TABLE).files[0].added == t && SliceOf(db2, TABLE).files[0].removed == None
            && 9 in SliceOf(db2, TABLE).schemas && SliceOf(db2, TABLE).schemas[9].validFrom == t
            && SliceOf(db2, TABLE).schemas[9].validTo == None && SliceOf(db2, TABLE).row.uuid == 1
            && SliceOf(db2, TABLE).row.minWriter == db.tables[TABLE].minWriter
  {
    hide CommitWrites, Committed, SliceOk, GlobalOk, Legal, SliceOf;
    var req := Busy(base, t);
    CommitSteps(LENIENT, db, hs, req);
    assert TableOk(db, hs, TABLE);
    CommitIsChange(LENIENT, db, hs[TABLE], req);
    ChangeMeaning(LENIENT, db, hs[TABLE], req);
    CommitMeaning(LENIENT, db, hs, req);
    AppendsArePublished(LENIENT, db, hs, req, 0, 0);
    BusyOutcome(base, t, Live(SliceOf(db, TABLE).files));
    SliceRow(db, TABLE);
  }

  lemma SliceRow(db: Db, ident: TableIdent)
    requires ident in db.tables
    ensures SliceOf(db, ident).row == db.tables[ident]
  {
  }

  lemma BusyOutcome(base: TxnId, t: TxnId, live: set<Uuid>)
    ensures 0 in LiveAfter(LaterIds(t), Busy(base, t).ops, 2, live) && SpecIn(Busy(base, t).ops, 2) == Some(COLUMNS)
  {
    var ops := Busy(base, t).ops;
    var appended := Appended(LaterIds(t), 0, [FILE]);
    assert [FILE][0].fileUuid.GetOr(LaterIds(t).file(0, 0)) in appended;
    assert LiveAfter(LaterIds(t), ops, 0, live) == live;
    assert LiveAfter(LaterIds(t), ops, 1, live) == live + appended;
    assert LiveAfter(LaterIds(t), ops, 2, live) == live + appended;
  }

  /** The same, on the rows of the database. */
  lemma BusyRows(db: Db, hs: map<TableIdent, Hist>, base: TxnId, t: TxnId)
    requires Inv(db, hs) && CommitWrites(LENIENT, db, Busy(base, t)).Ok? && TABLE in db.tables
             && db.tables[TABLE].uuid == 1
    ensures var s := START.(db := Over(db, CommitWrites(LENIENT, db, Busy(base, t)).value));
            && Marked(s, t) && TABLE in s.db.tables && s.db.tables[TABLE].uuid == 1
            && s.db.tables[TABLE].minWriter == db.tables[TABLE].minWriter
            && (forall x :: x in s.db.txns <==> x in db.txns || x == t)
            && Committed(LENIENT, db, Busy(base, t)).txn == t
  {
    hide CommitWrites, Committed, SliceOk, GlobalOk, Legal, Publishable, NewSchemas, NewColumns, ApplyChange;
    BusyMarks(db, hs, base, t);
    assert TableOk(db, hs, TABLE);
    CommitIsChange(LENIENT, db, hs[TABLE], Busy(base, t));
  }

  lemma BusyStage(s: Sys, c: seq<TxnId>, t: TxnId) returns (s2: Sys)
    requires Stage(s, c) && Untouched(s) && t !in c
    ensures Stage(s2, c + [t]) && Marked(s2, t)
  {
    hide Reachable, CommitWrites, Committed, Inv, SliceOk, Untouched;
    StageFacts(s, c);
    var req := Busy(Last(c), t);
    BusyAccepted(s, c, t);
    AtomicCommitsAreRealized(s, LENIENT, req);
    s2 := After(s, LENIENT, req);
    BusyRows(s.db, s.hist, Last(c), t);
  }

  /** For every history there is a run that produces a table with it, whose only file and second schema came at
      position j. */
  lemma {:induction false} HistoryOccurs(c: seq<TxnId>, j: nat, n: nat) returns (s: Sys)
    requires Distinct(c) && 0 < j < |c| && 0 < n <= |c|
    ensures Stage(s, c[..n]) && if n <= j then Untouched(s) else Marked(s, c[j])
  {
    hide Stage, Untouched, Marked;
    if n == 1 {
      s := CreatedStage(c[0]);
      assert c[..1] == [c[0]];
    } else {
      var before := HistoryOccurs(c, j, n - 1);
      assert c[..n] == c[..n - 1] + [c[n - 1]];
      if n - 1 == j {
        s := BusyStage(before, c[..n - 1], c[n - 1]);
      } else {
        s := QuietStage(before, c[..n - 1], c[n - 1]);
      }
    }
  }

  // ---------- growing ids are necessary ----------

  /** If the id at an earlier position i is above the one at j, both filters misread the table at i: they show the
      file and the schema that came at j. */
  lemma Misread(s: Sys, c: seq<TxnId>, i: nat, j: nat)
    requires Stage(s, c) && i < j < |c| && c[j] < c[i] && Marked(s, c[j])
    ensures TABLE in s.db.tables && !FilesFilteredRight(SliceOf(s.db, TABLE), s.hist[TABLE])
    ensures !SchemasFilteredRight(SliceOf(s.db, TABLE), s.hist[TABLE])
  {
    hide Reachable, FilesOk, ColumnsOk, EvolutionOk, Spells, Inv;
    StageFacts(s, c);
    var slice, h := SliceOf(s.db, TABLE), s.hist[TABLE];
    assert Index(c, c[j]) == j;
    assert 0 in VisibleIn(slice.files, c[i]) && 0 !in VisibleAt(slice.files, c, i);
    LateSchemaNotActive(slice, h, i, j);
    assert !SchemaFilteredRight(slice, h, i, 9);
  }

  lemma LateSchemaNotActive(s: Slice, h: Hist, i: nat, j: nat)
    requires SchemasOk(s, h) && Distinct(h.chain) && i < j < |h.chain| && 9 in s.schemas
             && s.schemas[9].validFrom == h.chain[j]
    ensures h.schemas[ActiveVersion(s, h, i)] != 9
  {
    ActiveInForce(s, h, i);
    assert Index(h.chain, h.chain[j]) == j;
  }

  /** The table `ident` of a reachable state has history c. */
  ghost predicate HasHistory(s: Sys, ident: TableIdent, c: seq<TxnId>) {
    Reachable(s) && ident in s.db.tables && ident in s.hist && s.hist[ident].chain == c
  }

  ghost predicate FilesReadRight(s: Sys, ident: TableIdent) {
    ident in s.db.tables && ident in s.hist && FilesFilteredRight(SliceOf(s.db, ident), s.hist[ident])
  }

  ghost predicate SchemasReadRight(s: Sys, ident: TableIdent) {
    ident in s.db.tables && ident in s.hist && SchemasFilteredRight(SliceOf(s.db, ident), s.hist[ident])
  }

  /** Growing ids are not only enough for each interval filter but necessary: over all tables that runs produce, the
      file filter is right at every transaction of every table with history c if and only if ids grow along c, and
      so is the schema filter. */
  lemma FiltersRightIffIdsGrow(c: seq<TxnId>)
    requires Distinct(c)
    ensures (forall s, ident :: HasHistory(s, ident, c) ==> FilesReadRight(s, ident)) <==> Increasing(c)
    ensures (forall s, ident :: HasHistory(s, ident, c) ==> SchemasReadRight(s, ident)) <==> Increasing(c)
  {
    hide Reachable, SysInv, FilesFilteredRight, SchemasFilteredRight, SliceOk;
    if Increasing(c) {
      forall s, ident | HasHistory(s, ident, c) ensures FilesReadRight(s, ident) && SchemasReadRight(s, ident) {
        ReachableTable(s, ident);
        GrowingIdsFilterRight(SliceOf(s.db, ident), s.hist[ident]);
      }
    } else {
      var i, j :| 0 <= i < j < |c| && c[i] >= c[j];
      var s := HistoryOccurs(c, j, |c|);
      assert c[..|c|] == c;
      Misread(s, c, i, j);
      assert HasHistory(s, TABLE, c);
    }
  }

  lemma ReachableTable(s: Sys, ident: TableIdent)
    requires Reachable(s) && ident in s.db.tables
    ensures TableOk(s.db, s.hist, ident)
  {
    hide Reachable, SliceOk, GlobalOk, WritersOk, LogOk;
    ReachInv(s);
  }
}
