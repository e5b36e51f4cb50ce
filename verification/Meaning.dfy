/** The meaning of a mutation, stated on live file sets and properties without rows or chunks. */
module Meaning {
  import opened CatalogTypes
  import opened Limits
  import opened Validation
  import opened Statements
  import opened History
  import opened Commits

  function Live(files: map<Uuid, FileRow>): set<Uuid> {
    set u | u in files && files[u].removed.None?
  }

  function Appended(ids: Ids, k: nat, files: seq<FileSpec>): set<Uuid> {
    set i | 0 <= i < |files| :: files[i].fileUuid.GetOr(ids.file(k, i))
  }

  /** Appends make files live, deletes end the live ones they name. */
  function LiveStep(ids: Ids, k: nat, op: MutationOp, live: set<Uuid>): set<Uuid> {
    match op
    case AppendFiles(files) => live + Appended(ids, k, files)
    case DeleteFiles(uuids) => live - Elements(uuids)
    case _ => live
  }

  function PropertiesStep(op: MutationOp, properties: Properties): Properties {
    match op
    case SetProperties(p) => p
    case RemoveProperties(keys) => properties - Elements(keys)
    case _ => properties
  }

  function LiveAfter(ids: Ids, ops: seq<MutationOp>, n: nat, live: set<Uuid>): set<Uuid>
    requires n <= |ops|
  {
    if n == 0 then live else LiveStep(ids, n - 1, ops[n - 1], LiveAfter(ids, ops, n - 1, live))
  }

  function PropertiesAfter(ops: seq<MutationOp>, n: nat, properties: Properties): Properties
    requires n <= |ops|
  {
    if n == 0 then properties else PropertiesStep(ops[n - 1], PropertiesAfter(ops, n - 1, properties))
  }

  lemma {:induction false} RemoveKeysAtOnce(properties: Properties, keys: seq<string>, n: nat)
    requires n <= |keys|
    ensures RemoveKeys(properties, keys, n) == properties - Elements(keys[..n])
  {
    if n > 0 {
      RemoveKeysAtOnce(properties, keys, n - 1);
      assert keys[..n] == keys[..n - 1] + [keys[n - 1]];
      assert Elements(keys[..n]) == Elements(keys[..n - 1]) + {keys[n - 1]};
    } else {
      assert Elements(keys[..0]) == {};
    }
  }

  lemma AppendMakesLive(files: map<Uuid, FileRow>, all: map<Uuid, FileRow>, ctx: Context, k: nat, specs: seq<FileSpec>)
    requires forall u :: u in files ==> u in all
    requires FreshFiles(all, Entries(ctx.ids, k, specs))
    ensures Live(files + FileRows(ctx, Entries(ctx.ids, k, specs))) == Live(files) + Appended(ctx.ids, k, specs)
  {
    var entries := Entries(ctx.ids, k, specs);
    var rows := FileRows(ctx, entries);
    forall u ensures u in rows <==> u in Appended(ctx.ids, k, specs) {
      FileRowsKeys(ctx, entries, u);
      if u in rows { var i :| 0 <= i < |entries| && entries[i].uuid == u; }
      if u in Appended(ctx.ids, k, specs) {
        var i :| 0 <= i < |specs| && specs[i].fileUuid.GetOr(ctx.ids.file(k, i)) == u;
        assert entries[i].uuid == u;
      }
    }
    forall u | u in rows ensures rows[u].removed.None? && u !in all { FileRowsKeys(ctx, entries, u); }
  }

  lemma DeleteEndsLive(
    own: map<Uuid, FileRow>, written: map<Uuid, FileRow>, all: map<Uuid, FileRow>, ctx: Context, uuids: seq<Uuid>)
    requires own == FilesIn(all, ctx.table) && (forall u :: u in written ==> written[u].table == ctx.table)
    requires forall u :: u in written && u in all ==> u in own
    ensures Live(own + (written + MarkRemoved(all + written, ctx, uuids))) == Live(own + written) - Elements(uuids)
  {
  }

  lemma {:induction false} FoldMeaning(db: Db, s: Slice, ctx: Context, ops: seq<MutationOp>, n: nat, w0: Work, w: Work)
    requires ContextOk(s, ctx) && s.files == FilesIn(db.files, ctx.table)
    requires s.schemas == SchemasIn(db.schemas, ctx.table) && s.columns == ColumnsIn(db.columns, db.schemas, ctx.table)
    requires n <= |ops| && CountUpdates(ops) <= 1 && FoldOk(db, s, ctx, ops, 0, w0) && w0.ws.files == map[]
    requires ExecOps(db, ctx, ops, n, w0) == Ok(w)
    ensures Live(s.files + w.ws.files) == LiveAfter(ctx.ids, ops, n, Live(s.files))
    ensures w.properties == PropertiesAfter(ops, n, w0.properties)
  {
    hide ExecOp, OwnFiles, SpecOk, LiveStep, PropertiesStep, FilesIn, SchemasIn, ColumnsIn, Buffer;
    if n == 0 {
      assert s.files + map[] == s.files;
    } else {
      var k, before := n - 1, ExecOps(db, ctx, ops, n - 1, w0).value;
      FoldMeaning(db, s, ctx, ops, k, w0, before);
      FoldInstallsChange(db, s, ctx, ops, k, w0, before);
      OpMeaning(db, s, ctx, k, ops[k], before, w);
    }
  }

  lemma OpMeaning(db: Db, s: Slice, ctx: Context, k: nat, op: MutationOp, w: Work, w2: Work)
    requires s.files == FilesIn(db.files, ctx.table) && ctx.table == s.row.uuid
    requires OwnFiles(db.files, s, ctx.txn, w.ws.files) && ExecOp(db, ctx, k, op, w) == Ok(w2)
    ensures Live(s.files + w2.ws.files) == LiveStep(ctx.ids, k, op, Live(s.files + w.ws.files))
    ensures w2.properties == PropertiesStep(op, w.properties)
  {
    match op
    case AppendFiles(files) => AppendOpMeaning(db, s, ctx, k, files, w, w2);
    case DeleteFiles(uuids) => DeleteOpMeaning(db, s, ctx, k, uuids, w, w2);
    case RemoveProperties(keys) =>
      RemoveKeysAtOnce(w.properties, keys, |keys|);
      assert keys[..|keys|] == keys;
    case UpdateSchema(columns) => UpdateKeepsFiles(db, ctx, k, columns, w, w2);
    case SetProperties(_) =>
  }

  lemma UpdateKeepsFiles(db: Db, ctx: Context, k: nat, columns: seq<ColumnSpec>, w: Work, w2: Work)
    requires ExecOp(db, ctx, k, UpdateSchema(columns), w) == Ok(w2)
    ensures w2.ws.files == w.ws.files && w2.properties == w.properties
  {
    assert w.ws.files + map[] == w.ws.files;
  }

  lemma AppendOpMeaning(db: Db, s: Slice, ctx: Context, k: nat, files: seq<FileSpec>, w: Work, w2: Work)
    requires s.files == FilesIn(db.files, ctx.table) && ExecOp(db, ctx, k, AppendFiles(files), w) == Ok(w2)
    ensures Live(s.files + w2.ws.files) == Live(s.files + w.ws.files) + Appended(ctx.ids, k, files)
  {
    var entries := Entries(ctx.ids, k, files);
    ChunkedOperationsAtOnce(db.files + w.ws.files, ctx, entries, []);
    AppendMakesLive(s.files + w.ws.files, db.files + w.ws.files, ctx, k, files);
    MapUnionAssociates(s.files, w.ws.files, FileRows(ctx, entries));
    assert w2.ws.files == w.ws.files + FileRows(ctx, entries);
  }

  lemma DeleteOpMeaning(db: Db, s: Slice, ctx: Context, k: nat, uuids: seq<Uuid>, w: Work, w2: Work)
    requires s.files == FilesIn(db.files, ctx.table) && ctx.table == s.row.uuid
    requires OwnFiles(db.files, s, ctx.txn, w.ws.files) && ExecOp(db, ctx, k, DeleteFiles(uuids), w) == Ok(w2)
    ensures Live(s.files + w2.ws.files) == Live(s.files + w.ws.files) - Elements(uuids)
  {
    forall u | u in w.ws.files ensures w.ws.files[u].table == ctx.table {
      assert LegalFile(s, ctx.txn, u, w.ws.files[u]);
    }
    ChunkedOperationsAtOnce(db.files + w.ws.files, ctx, [], uuids);
    DeleteEndsLive(s.files, w.ws.files, db.files, ctx, uuids);
  }

  lemma ChangeMeaning(env: Env, db: Db, h: Hist, req: Request)
    requires req.ident in db.tables && SliceOk(SliceOf(db, req.ident), h) && CommitWrites(env, db, req).Ok?
    ensures var s, c := SliceOf(db, req.ident), Committed(env, db, req);
            && Live(s.files + c.files) == LiveAfter(req.ids, req.ops, |req.ops|, Live(s.files))
            && c.properties == PropertiesAfter(req.ops, |req.ops|, s.row.properties)
            && c.spec == SpecIn(req.ops, |req.ops|) && c.ids == req.ids
  {
    var s := SliceOf(db, req.ident);
    HeadAndSchema(s, h);
    var ctx, w0 := Begin(env, db, req).value.ctx, Begin(env, db, req).value.work;
    ScanOpsAccepts(req.ops, |req.ops|);
    assert req.ops[..|req.ops|] == req.ops;
    FoldMeaning(db, s, ctx, req.ops, |req.ops|, w0, ExecOps(db, ctx, req.ops, |req.ops|, w0).value);
  }

  /** An Ok commit installs the in-order meaning of all its operations under one new transaction
      whose parent is the base. */
  lemma CommitMeaning(env: Env, db: Db, hs: map<TableIdent, Hist>, req: Request)
    requires Inv(db, hs) && CommitWrites(env, db, req).Ok?
    ensures var db2 := Over(db, CommitWrites(env, db, req).value);
            && req.ident in db.tables && req.ident in db2.tables
            && var s, s2 := SliceOf(db, req.ident), SliceOf(db2, req.ident);
            && s.row.head == Some(req.base) && s2.row.head == Some(req.ids.txn)
            && s2.txns == s.txns[req.ids.txn := Some(req.base)] && req.ids.txn !in s.txns
            && Live(s2.files) == LiveAfter(req.ids, req.ops, |req.ops|, Live(s.files))
            && s2.row.properties == PropertiesAfter(req.ops, |req.ops|, s.row.properties)
            && s2.row.schema == (if SpecIn(req.ops, |req.ops|).Some? then Some(req.ids.schema) else s.row.schema)
  {
    CommitSteps(env, db, hs, req);
    assert TableOk(db, hs, req.ident);
    MeaningOfChange(env, db, hs[req.ident], req);
  }

  lemma MeaningOfChange(env: Env, db: Db, h: Hist, req: Request)
    requires req.ident in db.tables && SliceOk(SliceOf(db, req.ident), h) && CommitWrites(env, db, req).Ok?
    ensures var s, c := SliceOf(db, req.ident), Committed(env, db, req);
            && Publishable(db, req.ident, c)
            && var s2 := ApplyChange(s, c);
            && s.row.head == Some(req.base) && s2.row.head == Some(req.ids.txn)
            && s2.txns == s.txns[req.ids.txn := Some(req.base)] && req.ids.txn !in s.txns
            && Live(s2.files) == LiveAfter(req.ids, req.ops, |req.ops|, Live(s.files))
            && s2.row.properties == PropertiesAfter(req.ops, |req.ops|, s.row.properties)
            && s2.row.schema == (if SpecIn(req.ops, |req.ops|).Some? then Some(req.ids.schema) else s.row.schema)
  {
    CommitIsChange(env, db, h, req);
    ChangeMeaning(env, db, h, req);
  }

  // ---------- appended data ----------

  /** The file with that UUID is buffered with the data of its spec. */
  ghost predicate Installed(ctx: Context, files: map<Uuid, FileRow>, u: Uuid, f: FileSpec) {
    u in files && FixedFile(files[u]) == NewFile(ctx, f)
  }

  lemma {:induction false} RowHolds(ctx: Context, entries: seq<FileEntry>, i: nat)
    requires i < |entries| && forall a, b :: 0 <= a < b < |entries| ==> entries[a].uuid != entries[b].uuid
    ensures entries[i].uuid in FileRows(ctx, entries)
            && FileRows(ctx, entries)[entries[i].uuid] == NewFile(ctx, entries[i].spec)
    decreases |entries|
  {
    var n := |entries| - 1;
    if i < n { RowHolds(ctx, entries[..n], i); }
  }

  lemma AppendInstalls(db: Db, ctx: Context, k: nat, files: seq<FileSpec>, w: Work, i: nat)
    requires ExecOp(db, ctx, k, AppendFiles(files), w).Ok? && i < |files|
    ensures Installed(ctx, ExecOp(db, ctx, k, AppendFiles(files), w).value.ws.files,
            files[i].fileUuid.GetOr(ctx.ids.file(k, i)), files[i])
  {
    hide AppendChunks, Chunks, MarkChunks;
    var entries := Entries(ctx.ids, k, files);
    ChunkedOperationsAtOnce(Over(db, w.ws).files, ctx, entries, []);
    RowHolds(ctx, entries, i);
  }

  /** No operation takes a buffered file away or alters its data. */
  lemma OpKeepsInstalled(db: Db, ctx: Context, k: nat, op: MutationOp, w: Work, u: Uuid, f: FileSpec)
    requires ExecOp(db, ctx, k, op, w).Ok? && Installed(ctx, w.ws.files, u, f)
    ensures Installed(ctx, ExecOp(db, ctx, k, op, w).value.ws.files, u, f)
  {
    hide AppendChunks, Chunks, MarkChunks, ReplaceSchema, RemoveKeys;
    match op
    case AppendFiles(files) =>
      var entries := Entries(ctx.ids, k, files);
      ChunkedOperationsAtOnce(Over(db, w.ws).files, ctx, entries, []);
      FileRowsKeys(ctx, entries, u);
    case DeleteFiles(uuids) => ChunkedOperationsAtOnce(Over(db, w.ws).files, ctx, [], uuids);
    case UpdateSchema(columns) => UpdateKeepsFiles(db, ctx, k, columns, w, ExecOp(db, ctx, k, op, w).value);
    case _ =>
  }

  lemma {:induction false} FoldInstalls(db: Db, ctx: Context, ops: seq<MutationOp>, n: nat, w: Work, k: nat, i: nat)
    requires n <= |ops| && ExecOps(db, ctx, ops, n, w).Ok? && k < n && ops[k].AppendFiles? && i < |ops[k].files|
    ensures var f := ops[k].files[i];
            Installed(ctx, ExecOps(db, ctx, ops, n, w).value.ws.files, f.fileUuid.GetOr(ctx.ids.file(k, i)), f)
  {
    hide ExecOp, Installed;
    var before := ExecOps(db, ctx, ops, n - 1, w).value;
    if k == n - 1 {
      AppendInstalls(db, ctx, k, ops[k].files, before, i);
    } else {
      var f := ops[k].files[i];
      FoldInstalls(db, ctx, ops, n - 1, w, k, i);
      OpKeepsInstalled(db, ctx, n - 1, ops[n - 1], before, f.fileUuid.GetOr(ctx.ids.file(k, i)), f);
    }
  }

  /** Every file of every append of an Ok commit is in the table afterwards, as new, with the format, path,
      counts and documents of its spec. */
  lemma AppendsArePublished(env: Env, db: Db, hs: map<TableIdent, Hist>, req: Request, k: nat, i: nat)
    requires Inv(db, hs) && CommitWrites(env, db, req).Ok?
    requires k < |req.ops| && req.ops[k].AppendFiles? && i < |req.ops[k].files|
    ensures var db2, f := Over(db, CommitWrites(env, db, req).value), req.ops[k].files[i];
            && req.ident in db.tables && req.ident in db2.tables
            && var files, u := SliceOf(db2, req.ident).files, f.fileUuid.GetOr(req.ids.file(k, i));
            && u in files && u !in SliceOf(db, req.ident).files
            && FixedFile(files[u])
               == FileRow(db.tables[req.ident].uuid, f.format, f.path, f.records, f.bytes, req.ids.txn, None,
                                              f.partition, f.options)
  {
    hide Inv, SliceOk, ExecOps, LegalFile, SliceOf;
    CommitSteps(env, db, hs, req);
    var s := Begin(env, db, req).value;
    FoldInstalls(db, s.ctx, req.ops, |req.ops|, s.work, k, i);
    var f := req.ops[k].files[i];
    NewlyAdded(env, db, hs, req, f.fileUuid.GetOr(req.ids.file(k, i)));
  }

  lemma NewlyAdded(env: Env, db: Db, hs: map<TableIdent, Hist>, req: Request, u: Uuid)
    requires Inv(db, hs) && CommitWrites(env, db, req).Ok?
    requires var files := Committed(env, db, req).files; u in files && files[u].added == req.ids.txn
    ensures req.ident in db.tables && u !in SliceOf(db, req.ident).files
  {
    hide CommitWrites, Committed, ColumnsOk, SchemasOk, EvolutionOk, ApplyChange;
    CommitSteps(env, db, hs, req);
    assert TableOk(db, hs, req.ident);
    CommitIsChange(env, db, hs[req.ident], req);
    var s, c := SliceOf(db, req.ident), Committed(env, db, req);
    assert LegalFile(s, c.txn, u, c.files[u]);
    assert forall v :: v in s.files ==> FileOk(s.files[v], hs[req.ident].chain);
  }
}
