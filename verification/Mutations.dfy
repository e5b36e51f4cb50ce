/** The loops of `commit` and `create_table`: each method carries out one operation chunk by chunk and is
    proved against its write set. */
module Mutations {
  import opened CatalogTypes
  import opened DataTypes
  import opened Limits
  import opened Validation
  import opened Statements
  import opened History

  lemma {:induction false} AppendStays(
    files: map<Uuid, FileRow>, ctx: Context, chunks: seq<seq<FileEntry>>, n: nat, m: nat)
    requires n <= m <= |chunks| && AppendChunks(files, ctx, chunks, n).Err?
    ensures AppendChunks(files, ctx, chunks, m) == AppendChunks(files, ctx, chunks, n)
    decreases m
  {
    if m > n { AppendStays(files, ctx, chunks, n, m - 1); }
  }

  lemma {:induction false} CheckFilesStays(entries: seq<FileEntry>, n: nat, m: nat)
    requires n <= m <= |entries| && CheckFiles(entries, n).Err?
    ensures CheckFiles(entries, m) == CheckFiles(entries, n)
    decreases m
  {
    if m > n { CheckFilesStays(entries, n, m - 1); }
  }

  /** One chunk: its rows are validated one by one while the row data is collected, then inserted at once. */
  method InsertFileChunk(
    files: map<Uuid, FileRow>, ctx: Context, chunk: seq<FileEntry>)
    returns (r: Result<map<Uuid, FileRow>>)
    ensures r == InsertFiles(files, ctx, chunk)
  {
    var rows: map<Uuid, FileRow> := map[];
    var isNew := true;
    for i := 0 to |chunk|
      invariant CheckFiles(chunk, i) == Ok(()) && rows == FileRows(ctx, chunk[..i])
      invariant isNew <==> FreshFiles(files, chunk[..i])
    {
      var valid := CheckFile(chunk[i].spec);
      if valid.Err? {
        CheckFilesStays(chunk, i + 1, |chunk|);
        return Err(valid.error);
      }
      FileRowsKeys(ctx, chunk[..i], chunk[i].uuid);
      NextFresh(files, chunk, i);
      assert chunk[..i + 1][..i] == chunk[..i];
      isNew := isNew && chunk[i].uuid !in files && chunk[i].uuid !in rows;
      rows := rows[chunk[i].uuid := NewFile(ctx, chunk[i].spec)];
    }
    assert chunk[..|chunk|] == chunk;
    return if isNew then Ok(rows) else Err(UniqueViolation);
  }

  lemma NextFresh(files: map<Uuid, FileRow>, chunk: seq<FileEntry>, i: nat)
    requires i < |chunk|
    ensures FreshFiles(files, chunk[..i + 1]) <==>
              && FreshFiles(files, chunk[..i]) && chunk[i].uuid !in files
              && forall j :: 0 <= j < i ==> chunk[..i][j].uuid != chunk[i].uuid
  {
    var a, b := chunk[..i], chunk[..i + 1];
    assert forall j :: 0 <= j < i ==> a[j] == b[j];
    assert b[i] == chunk[i];
  }

  /** An append succeeds exactly when every file is valid and every UUID new, and then adds each file once. */
  method AppendFiles(
    files: map<Uuid, FileRow>, ctx: Context, entries: seq<FileEntry>)
    returns (r: Result<map<Uuid, FileRow>>)
    ensures var chunks := Chunks(entries, BATCH_INSERT_FILES_CHUNK); r == AppendChunks(files, ctx, chunks, |chunks|)
    ensures r.Ok? <==>
              && (forall i :: 0 <= i < |entries| ==> ValidFile(entries[i].spec) && entries[i].uuid !in files)
              && (forall i, j :: 0 <= i < j < |entries| ==> entries[i].uuid != entries[j].uuid)
    ensures r.Ok? ==> r.value == FileRows(ctx, entries)
  {
    hide ValidFile, InsertFiles, MarkChunks, MarkRemoved, Chunks;
    ChunkedOperationsAtOnce(files, ctx, entries, []);
    var chunks := Chunks(entries, BATCH_INSERT_FILES_CHUNK);
    var rows: map<Uuid, FileRow> := map[];
    for c := 0 to |chunks|
      invariant AppendChunks(files, ctx, chunks, c) == Ok(rows)
    {
      var inserted := InsertFileChunk(files + rows, ctx, chunks[c]);
      if inserted.Err? {
        AppendStays(files, ctx, chunks, c + 1, |chunks|);
        return Err(inserted.error);
      }
      rows := rows + inserted.value;
    }
    return Ok(rows);
  }

  lemma MarkedRows(files: map<Uuid, FileRow>, ctx: Context, uuids: seq<Uuid>)
    ensures var marked := MarkRemoved(files, ctx, uuids);
            && (forall u :: u in marked <==>
                  u in files && u in uuids && files[u].table == ctx.table && files[u].removed.None?)
            && (forall u :: u in marked ==> marked[u] == files[u].(removed := Some(ctx.txn)))
  {
  }

  /** A delete marks exactly the named files that are live in its own table, and ignores every other UUID. */
  method DeleteFiles(files: map<Uuid, FileRow>, ctx: Context, uuids: seq<Uuid>) returns (marked: map<Uuid, FileRow>)
    ensures var chunks := Chunks(uuids, BATCH_DELETE_FILES_CHUNK); marked == MarkChunks(files, ctx, chunks, |chunks|)
    ensures forall u :: u in marked <==>
                          u in files && u in uuids && files[u].table == ctx.table && files[u].removed.None?
    ensures forall u :: u in marked ==> marked[u] == files[u].(removed := Some(ctx.txn))
  {
    hide MarkRemoved, AppendChunks, FreshFiles;
    ChunkedOperationsAtOnce(files, ctx, [], uuids);
    MarkedRows(files, ctx, uuids);
    var chunks := Chunks(uuids, BATCH_DELETE_FILES_CHUNK);
    marked := map[];
    for c := 0 to |chunks|
      invariant marked == MarkChunks(files, ctx, chunks, c)
    {
      marked := marked + MarkRemoved(files + marked, ctx, chunks[c]);
    }
  }

  lemma {:induction false} ColumnChunksStay(columns: set<ColumnRow>, chunks: seq<seq<ColumnRow>>, n: nat, m: nat)
    requires n <= m <= |chunks| && InsertColumnChunks(columns, chunks, n).Err?
    ensures InsertColumnChunks(columns, chunks, m) == InsertColumnChunks(columns, chunks, n)
    decreases m
  {
    if m > n { ColumnChunksStay(columns, chunks, n, m - 1); }
  }

  lemma {:induction false} SameChunkShape<S, T>(xs: seq<S>, ys: seq<T>, size: nat)
    requires size > 0 && |xs| == |ys|
    ensures |Chunks(xs, size)| == |Chunks(ys, size)|
    ensures forall c :: 0 <= c < |Chunks(xs, size)| ==> |Chunks(xs, size)[c]| == |Chunks(ys, size)[c]|
    decreases |xs|
  {
    if |xs| > size { SameChunkShape(xs[size..], ys[size..], size); }
  }

  /** Row i of chunk c, as the loop computes it, is the row of the column at position c * size + i. */
  lemma ChunkedColumnRow(schema: Uuid, ids: Ids, columns: seq<ColumnSpec>, size: nat, c: nat, i: nat)
    requires size > 0 && c < |Chunks(columns, size)| && i < |Chunks(columns, size)[c]|
    ensures var rows := ColumnRows(schema, ids, columns);
            && c < |Chunks(rows, size)| && i < |Chunks(rows, size)[c]|
            && 0 <= c * size + i
            && Chunks(rows, size)[c][i] == ColumnRowAt(schema, ids, c * size + i, Chunks(columns, size)[c][i])
  {
    var rows := ColumnRows(schema, ids, columns);
    SameChunkShape(columns, rows, size);
    ChunkPosition(columns, size, c, i);
    ChunkPosition(rows, size, c, i);
  }

  /** The row data of chunk c, with ordinals c * size + i + 1. */
  method ColumnRowData(
    schema: Uuid, ids: Ids, columns: seq<ColumnSpec>, size: nat, c: nat)
    returns (rowData: seq<ColumnRow>)
    requires size > 0 && c < |Chunks(columns, size)|
    ensures c < |Chunks(ColumnRows(schema, ids, columns), size)|
            && rowData == Chunks(ColumnRows(schema, ids, columns), size)[c]
  {
    SameChunkShape(columns, ColumnRows(schema, ids, columns), size);
    var chunk: seq<ColumnSpec> := Chunks(columns, size)[c];
    rowData := [];
    for i := 0 to |chunk|
      invariant rowData == Chunks(ColumnRows(schema, ids, columns), size)[c][..i]
    {
      ChunkedColumnRow(schema, ids, columns, size, c, i);
      var position := c * size + i;
      var spec := chunk[i];
      rowData := rowData + [ColumnRow(ids.column(position), schema, spec.name, spec.typ, position + 1, spec.nullable)];
    }
  }

  /** The column rows of a schema, inserted chunk by chunk: the same rows as one insert, at ordinals 1..n in
      specification order. */
  method InsertSchemaColumns(columns: set<ColumnRow>, kind: DbKind, schema: Uuid, ids: Ids, specs: seq<ColumnSpec>)
    returns (r: Result<set<ColumnRow>>)
    ensures r == InsertColumns(columns, kind, ColumnRows(schema, ids, specs))
    ensures r.Ok? ==> Stored(r.value, specs)
    ensures r.Ok? <==> FreshColumns(columns, ColumnRows(schema, ids, specs))
    ensures r.Ok? ==> forall c :: c in r.value ==> c.schema == schema
  {
    hide Stored, FreshColumns, Chunks, ColumnRows;
    var size := BatchInsertColumnsChunk(kind);
    ghost var all := Chunks(ColumnRows(schema, ids, specs), size);
    RowCount(schema, ids, specs);
    SameChunkShape(specs, ColumnRows(schema, ids, specs), size);
    ColumnsAtOnce(columns, kind, ColumnRows(schema, ids, specs));
    ColumnRowsStored(schema, ids, specs);
    var inserted: set<ColumnRow> := {};
    for c := 0 to |Chunks(specs, size)|
      invariant InsertColumnChunks(columns, all, c) == Ok(inserted)
    {
      var rowData := ColumnRowData(schema, ids, specs, size, c);
      if !FreshColumns(columns + inserted, rowData) {
        ColumnChunksStay(columns, all, c + 1, |all|);
        return Err(UniqueViolation);
      }
      inserted := inserted + Elements(rowData);
    }
    return Ok(inserted);
  }

  lemma RowCount(schema: Uuid, ids: Ids, specs: seq<ColumnSpec>)
    ensures |ColumnRows(schema, ids, specs)| == |specs|
  {
  }

  // ---------- schema evolution ----------

  lemma {:induction false} CheckColumnsStay(prior: set<ColumnRow>, columns: seq<ColumnSpec>, n: nat, m: nat)
    requires n <= m <= |columns| && CheckColumns(prior, columns, n).Err?
    ensures CheckColumns(prior, columns, m) == CheckColumns(prior, columns, n)
    decreases m
  {
    if m > n { CheckColumnsStay(prior, columns, n, m - 1); }
  }

  /** Column names within a schema are unique. */
  ghost predicate UniqueNames(rows: set<ColumnRow>) {
    forall a, b :: a in rows && b in rows && a.name == b.name ==> a == b
  }

  /** The evolution check through a map from current names to types and nullability. */
  method CheckSchemaEvolution(prior: set<ColumnRow>, columns: seq<ColumnSpec>) returns (r: Result<()>)
    requires UniqueNames(prior)
    ensures r == CheckEvolution(prior, columns)
  {
    var current := map c: ColumnRow | c in prior :: c.name := (c.typ, c.nullable);
    forall c | c in prior ensures c.name in current && current[c.name] == (c.typ, c.nullable) {}
    if exists name :: name in current.Keys && !HasName(columns, name) {
      return Err(DroppedColumn);
    }
    for n := 0 to |columns|
      invariant CheckColumns(prior, columns, n) == Ok(())
    {
      var c := columns[n];
      if c.name in current {
        var (typ, nullable) := current[c.name];
        if !CanEvolveTo(typ, c.typ) || (nullable && !c.nullable) {
          CheckColumnsStay(prior, columns, n + 1, |columns|);
          return Err(if !CanEvolveTo(typ, c.typ) then IncompatibleType(c.name) else NarrowedNullability(c.name));
        }
      }
    }
    return Ok(());
  }

  /** One UpdateSchema: validate, check evolution, close the current schema and open the next version. */
  method UpdateSchema(view: Db, ctx: Context, columns: seq<ColumnSpec>) returns (r: Result<Db>)
    requires ctx.schema.Some? ==> UniqueNames(ColumnsFor(view.columns, ctx.schema.value))
    ensures r == ReplaceSchema(view, ctx, columns)
  {
    var valid := ValidateSchema(columns);
    if valid.Err? { return Err(valid.error); }
    if ctx.schema.None? { return Err(NoCurrentSchema); }
    var current := ctx.schema.value;
    if current !in view.schemas { return Err(MissingSchemaRow); }
    var evolves := CheckSchemaEvolution(ColumnsFor(view.columns, current), columns);
    if evolves.Err? { return Err(evolves.error); }
    if ctx.ids.schema in view.schemas { return Err(UniqueViolation); }
    var row := view.schemas[current];
    var inserted := InsertSchemaColumns(view.columns, ctx.kind, ctx.ids.schema, ctx.ids, columns);
    if inserted.Err? { return Err(inserted.error); }
    var written := map[ctx.ids.schema := SchemaRow(ctx.table, row.version + 1, ctx.txn, None)];
    written := written[current := row.(validTo := Some(ctx.txn))];
    return Ok(EMPTY.(schemas := written, columns := inserted.value));
  }

  // ---------- one operation ----------

  method RemoveProperties(properties: Properties, keys: seq<string>) returns (left: Properties)
    ensures left == RemoveKeys(properties, keys, |keys|)
    ensures left == properties - Elements(keys)
  {
    left := properties;
    for n := 0 to |keys|
      invariant left == RemoveKeys(properties, keys, n)
      invariant left == properties - Elements(keys[..n])
    {
      assert keys[..n + 1] == keys[..n] + [keys[n]];
      assert Elements(keys[..n + 1]) == Elements(keys[..n]) + {keys[n]};
      left := left - {keys[n]};
    }
    assert keys[..|keys|] == keys;
  }

  /** Applies operation k to the transaction's buffer. */
  method Execute(db: Db, ctx: Context, k: nat, op: MutationOp, w: Work) returns (r: Result<Work>)
    requires ctx.schema.Some? ==> UniqueNames(ColumnsFor(Over(db, w.ws).columns, ctx.schema.value))
    ensures r == ExecOp(db, ctx, k, op, w)
  {
    var view := Over(db, w.ws);
    match op {
      case AppendFiles(files) =>
        if |files| > MAX_FILES_PER_APPEND { return Err(AppendTooLarge); }
        var rows := AppendFiles(view.files, ctx, Entries(ctx.ids, k, files));
        if rows.Err? { return Err(rows.error); }
        return Ok(w.(ws := w.ws.(files := w.ws.files + rows.value)));
      case DeleteFiles(uuids) =>
        if |uuids| > MAX_FILES_PER_DELETE { return Err(DeleteTooLarge); }
        var marked := DeleteFiles(view.files, ctx, uuids);
        return Ok(w.(ws := w.ws.(files := w.ws.files + marked)));
      case UpdateSchema(columns) =>
        var rows := UpdateSchema(view, ctx, columns);
        if rows.Err? { return Err(rows.error); }
        return Ok(w.(ws := Over(w.ws, rows.value), schema := Some(ctx.ids.schema)));
      case SetProperties(properties) =>
        return Ok(w.(properties := properties));
      case RemoveProperties(keys) =>
        if |keys| > MAX_PROPERTY_KEYS_TO_REMOVE { return Err(RemoveTooLarge); }
        var left := RemoveProperties(w.properties, keys);
        return Ok(w.(properties := left));
    }
  }
}
