/** What readers are told, in terms of a table's history alone. */
module Answers {
  import opened CatalogTypes
  import opened Statements
  import opened History
  import opened Commits
  import opened Views
  import opened Readers
  import opened Events
  import opened Delta
  import opened Listings
  import opened Diff

  // ---------- schemas ----------

  /** The columns of a specification in order, numbered from 1. */
  ghost predicate Spelled(list: seq<ColumnRow>, schema: Uuid, spec: seq<ColumnSpec>) {
    && |list| == |spec|
    && (forall i :: 0 <= i < |list| ==>
          && list[i].schema == schema && list[i].ordinal == i + 1 && list[i].name == spec[i].name
          && list[i].typ == spec[i].typ && list[i].nullable == spec[i].nullable)
  }

  /** The view is that of schema version i, up to the end of its interval. */
  ghost predicate IsVersion(s: Slice, h: Hist, i: nat, v: SchemaView)
    requires i < |h.schemas| && i < |h.specs|
  {
    && v.uuid == h.schemas[i] && v.uuid in s.schemas && v.row.version == i + 1
    && v.row.table == s.schemas[v.uuid].table && v.row.validFrom == s.schemas[v.uuid].validFrom
    && Spelled(v.columns, v.uuid, h.specs[i])
  }

  lemma VersionSpelled(s: Slice, h: Hist, i: nat, list: seq<ColumnRow>)
    requires SliceOk(s, h) && i < |h.schemas| && Ordered(ColumnsFor(s.columns, h.schemas[i]), list)
    ensures Spelled(list, h.schemas[i], h.specs[i])
  {
    hide ChainOk, FilesOk, EvolutionOk, SchemaOk;
    var rows := ColumnsFor(s.columns, h.schemas[i]);
    OrderedIsListed(rows, h.specs[i], list);
    forall j | 0 <= j < |list| ensures list[j].schema == h.schemas[i] { assert list[j] in rows; }
  }

  lemma ActiveIsVersion(s: Slice, h: Hist, k: nat, v: SchemaView)
    requires SliceOk(s, h) && k < |h.chain|
    requires v.uuid == SchemaAt(s, h, k).uuid && FixedSchema(v.row) == FixedSchema(SchemaAt(s, h, k).row)
    requires v.columns == SchemaAt(s, h, k).columns
    ensures exists i :: 0 <= i < |h.schemas| && i < |h.specs| && InForce(s, h, i, k) && IsVersion(s, h, i, v)
  {
    hide Spelled, FilesOk, EvolutionOk, Spells, Stored, VersionAt;
    var i := ActiveVersion(s, h, k);
    ActiveInForce(s, h, k);
    assert SchemaOk(s, h, i);
    var rows := ColumnsFor(s.columns, h.schemas[i]);
    ListedOrdered(rows, h.specs[i]);
    VersionSpelled(s, h, i, v.columns);
    assert InForce(s, h, i, k) && IsVersion(s, h, i, v);
  }

  // ---------- reads ----------

  /** Added at position k or before, and not removed at k or before. */
  ghost predicate LiveAt(f: FileRow, c: seq<TxnId>, k: nat) {
    && f.added in c && Index(c, f.added) <= k
    && (f.removed.Some? ==> f.removed.value in c && k < Index(c, f.removed.value))
  }

  /** The same file but for its removal. */
  predicate SameData(a: FileRow, b: FileRow) {
    && a.table == b.table && a.format == b.format && a.path == b.path && a.records == b.records && a.bytes == b.bytes
    && a.added == b.added && a.partition == b.partition && a.options == b.options
  }

  ghost predicate TellsFiles(s: Slice, h: Hist, k: nat, files: map<Uuid, FileRow>) {
    && (forall u :: u in files <==> u in s.files && LiveAt(s.files[u], h.chain, k))
    && (forall u :: u in files && u in s.files ==> SameData(files[u], s.files[u]))
  }

  ghost predicate TellsSchema(s: Slice, h: Hist, k: nat, v: SchemaView) {
    exists i :: 0 <= i < |h.schemas| && i < |h.specs| && InForce(s, h, i, k) && IsVersion(s, h, i, v)
  }

  /** The view of the table at position k of its history. */
  ghost predicate TellsView(s: Slice, h: Hist, k: nat, v: View) {
    && k < |h.chain| && v.table == s.row.uuid && v.txn == h.chain[k]
    && TellsSchema(s, h, k, v.schema) && TellsFiles(s, h, k, v.files)
  }

  lemma FixedIsSame(a: FileRow, b: FileRow)
    ensures FixedFile(a) == FixedFile(b) <==> SameData(a, b)
  {
  }

  lemma VisibleTells(s: Slice, h: Hist, k: nat, files: map<Uuid, FileRow>)
    requires FilesOk(s, h) && k < |h.chain| && SameFiles(files, VisibleAt(s.files, h.chain, k))
    ensures TellsFiles(s, h, k, files)
  {
    hide FixedFile, SameData;
    forall u | u in files && u in s.files ensures SameData(files[u], s.files[u]) { FixedIsSame(files[u], s.files[u]); }
    forall u ensures u in files <==> u in s.files && LiveAt(s.files[u], h.chain, k) {
      if u in s.files { assert FileOk(s.files[u], h.chain); }
    }
  }

  lemma FixedViews(v: View, w: View)
    requires FixedView(v) == FixedView(w)
    ensures v.table == w.table && v.txn == w.txn && SameFiles(v.files, w.files)
    ensures v.schema.uuid == w.schema.uuid && FixedSchema(v.schema.row) == FixedSchema(w.schema.row)
    ensures v.schema.columns == w.schema.columns
  {
    hide FixedFile, FixedSchema;
    var a, b := FixedView(v), FixedView(w);
    assert a.files == b.files && a.schema.row == b.schema.row;
    forall u
      ensures u in v.files <==> u in w.files
      ensures u in v.files && u in w.files ==> FixedFile(v.files[u]) == FixedFile(w.files[u])
    {
      assert u in a.files <==> u in v.files;
      assert u in b.files <==> u in w.files;
    }
  }

  lemma SnapshotTells(s: Slice, h: Hist, k: nat, v: View)
    requires SliceOk(s, h) && k < |h.chain| && SameResult(Ok(v), Snapshot(s, h, k))
    ensures TellsView(s, h, k, v) && |v.files| <= 10_000
    ensures |v.files| == |VisibleAt(s.files, h.chain, k)|
  {
    hide SchemasOk, ColumnsOk, EvolutionOk, ChainOk, FixedView, FixedFile, FixedSchema, TellsSchema, TellsFiles,
      SchemaAt, VisibleAt;
    var w := Snapshot(s, h, k).value;
    FixedViews(v, w);
    VisibleTells(s, h, k, v.files);
    TellsActive(s, h, k, v.schema);
    SameKeysSize(v.files, w.files);
  }

  lemma TellsActive(s: Slice, h: Hist, k: nat, v: SchemaView)
    requires SliceOk(s, h) && k < |h.chain|
    requires v.uuid == SchemaAt(s, h, k).uuid && FixedSchema(v.row) == FixedSchema(SchemaAt(s, h, k).row)
    requires v.columns == SchemaAt(s, h, k).columns
    ensures TellsSchema(s, h, k, v)
  {
    hide SliceOk, SchemaAt, InForce, IsVersion;
    ActiveIsVersion(s, h, k, v);
  }

  lemma SameKeysSize(a: map<Uuid, FileRow>, b: map<Uuid, FileRow>)
    requires forall u :: u in a <==> u in b
    ensures |a| == |b|
  {
    assert a.Keys == b.Keys && |a.Keys| == |a| && |b.Keys| == |b|;
  }

  /** What an Ok read says, whatever commits fall between its queries: the target is in the history its first query
      saw, and it returns the schema in force there with its columns in order, exactly the files live there with
      their data, and the properties of the table row. */
  lemma ReadTells(
    obs: Schedule, hs: nat -> map<TableIdent, Hist>, env: Env, ident: TableIdent, at: Option<TxnId>, v: View)
    requires Observed(obs, hs, ident) && IsRead(obs, env, ident, at, Ok(v))
    ensures TableOk(obs(0), hs(0), ident)
    ensures var s, h := SliceOf(obs(0), ident), hs(0)[ident];
            var t := if at.Some? then at.value else Last(h.chain);
            && t in h.chain && TellsView(s, h, Index(h.chain, t), v) && v.properties == s.row.properties
            && |v.files| <= 10_000 && env.reader >= s.row.minReader
  {
    hide Observed, IsRead, SliceOk, Snapshot, SameResult, TellsView;
    InterleavedReadIsAtomic(obs, hs, env, ident, at, Ok(v));
    OkReads(env, SliceOf(obs(0), ident), hs(0)[ident], at, v);
  }

  lemma OkReads(env: Env, s: Slice, h: Hist, at: Option<TxnId>, v: View)
    requires SliceOk(s, h) && SameResult(Ok(v), ReadAt(env, s, h, at))
    ensures |h.chain| > 0
    ensures var t := if at.Some? then at.value else Last(h.chain);
            && t in h.chain && TellsView(s, h, Index(h.chain, t), v) && |v.files| <= 10_000
               && env.reader >= s.row.minReader
  {
    hide SchemasOk, ColumnsOk, EvolutionOk, FilesOk, Spells, Snapshot, FixedView, TellsView;
    var t := at.GetOr(Last(h.chain));
    if env.reader >= s.row.minReader && t in h.chain { SnapshotTells(s, h, Index(h.chain, t), v); }
  }

  /** A read that nothing interleaves with, value or error, in terms of the history alone. */
  lemma AtomicReadTells(
    obs: Schedule, db: Db, hs: map<TableIdent, Hist>, env: Env, ident: TableIdent, at: Option<TxnId>, r: Result<View>)
    requires TableOk(db, hs, ident) && Increasing(hs[ident].chain) && IsRead(obs, env, ident, at, r)
    requires forall k: nat :: obs(k) == db
    ensures |hs[ident].chain| > 0
    ensures var s, h := SliceOf(db, ident), hs[ident];
            var t := if at.Some? then at.value else Last(h.chain);
            && (r == Err(ProtocolTooOld) <==> env.reader < s.row.minReader)
            && (r == Err(NotInHistory) <==> env.reader >= s.row.minReader && t !in h.chain)
            && (r == Err(TooManyFiles) <==>
                  env.reader >= s.row.minReader && t in h.chain
                    && |VisibleAt(s.files, h.chain, Index(h.chain, t))| > 10_000)
            && (r.Err? ==> r.error in {ProtocolTooOld, NotInHistory, TooManyFiles})
            && (r.Ok? ==> && TellsView(s, h, Index(h.chain, t), r.value) && r.value.properties == s.row.properties
                          && (forall u :: u in r.value.files ==> r.value.files[u] == s.files[u])
                          && r.value.schema.row == s.schemas[r.value.schema.uuid])
  {
    hide IsRead, SchemasOk, ColumnsOk, EvolutionOk, FilesOk, Spells, FixedView, TellsView, SchemaAt, VisibleAt;
    AtomicReadExact(obs, db, hs, env, ident, at, r);
    if r.Ok? {
      SameOk(r.value);
      OkReads(env, SliceOf(db, ident), hs[ident], at, r.value);
      var t := at.GetOr(Last(hs[ident].chain));
      ActiveRow(SliceOf(db, ident), hs[ident], Index(hs[ident].chain, t));
      VisibleRows(SliceOf(db, ident).files, hs[ident].chain, Index(hs[ident].chain, t));
    }
  }

  lemma SameOk(v: View)
    ensures SameResult(Ok(v), Ok(v))
  {
  }

  lemma ActiveRow(s: Slice, h: Hist, k: nat)
    requires SliceOk(s, h) && k < |h.chain|
    ensures SchemaAt(s, h, k).uuid in s.schemas && SchemaAt(s, h, k).row == s.schemas[SchemaAt(s, h, k).uuid]
  {
    assert SchemaOk(s, h, ActiveVersion(s, h, k));
  }

  // ---------- events ----------

  /** The file changes of transaction t: additions then removals, each once, none missing, with their data. */
  ghost predicate TellsChanges(s: Slice, t: TxnId, changes: seq<FileChange>) {
    && (forall i :: 0 <= i < |changes| ==> TellsChange(s, t, changes[i]))
    && (forall i, j :: 0 <= i < j < |changes| ==> !(changes[i].kind.Removed? && changes[j].kind.Added?))
    && (forall i, j :: 0 <= i < j < |changes| && changes[i].uuid == changes[j].uuid ==>
                         changes[i].kind != changes[j].kind)
    && (forall u :: u in s.files && s.files[u].added == t ==> Names(changes, Added, u))
    && (forall u :: u in s.files && s.files[u].removed == Some(t) ==> Names(changes, Removed, u))
  }

  ghost predicate TellsChange(s: Slice, t: TxnId, c: FileChange) {
    && c.txn == t && c.uuid in s.files && SameData(c.file, s.files[c.uuid])
    && if c.kind.Added? then s.files[c.uuid].added == t else s.files[c.uuid].removed == Some(t)
  }

  /** The schema that starts at transaction t, if one does. */
  ghost predicate TellsSchemaChange(s: Slice, h: Hist, t: TxnId, change: Option<SchemaView>) {
    match change
    case None => forall x :: x in s.schemas ==> s.schemas[x].validFrom != t
    case Some(v) => exists i :: 0 <= i < |h.schemas| && i < |h.specs| && VersionStarts(s, h, i, t)
                                && IsVersion(s, h, i, v)
  }

  ghost predicate VersionStarts(s: Slice, h: Hist, i: nat, t: TxnId)
    requires i < |h.schemas|
  {
    h.schemas[i] in s.schemas && s.schemas[h.schemas[i]].validFrom == t
  }

  /** The event of the transaction at position k of the history. */
  ghost predicate TellsEvent(s: Slice, h: Hist, k: nat, e: TxnEvent) {
    && k < |h.chain| && e.txn == h.chain[k]
    && TellsChanges(s, h.chain[k], e.changes) && TellsSchemaChange(s, h, h.chain[k], e.schema)
  }

  lemma LogTells(s: Slice, t: TxnId, changes: seq<FileChange>)
    requires IsLog(s.files, t, changes)
    ensures TellsChanges(s, t, changes)
  {
    hide SameData, Names;
    var n :| 0 <= n <= |changes| && LogSplit(s.files, t, changes, n);
    var head, tail := changes[..n], changes[n..];
    LogRecords(s.files, t, changes);
    forall i | 0 <= i < |changes| ensures TellsChange(s, t, changes[i]) && (changes[i].kind.Added? <==> i < n) {
      assert RecordsRow(s.files, t, changes[i]);
      SameAsItself(changes[i].file);
      if i < n { assert changes[i] == head[i]; } else { assert changes[i] == tail[i - n]; }
    }
    forall u | u in s.files && s.files[u].removed == Some(t) ensures Names(changes, Removed, u) {
      assert u in RemovedIn(s.files, t) && ListsFile(tail, u);
      var i :| 0 <= i < |tail| && tail[i].uuid == u;
      NamedAt(changes, n + i);
    }
  }

  lemma SameAsItself(f: FileRow)
    ensures SameData(f, f)
  {
  }

  lemma NamedAt(changes: seq<FileChange>, i: nat)
    requires i < |changes|
    ensures Names(changes, changes[i].kind, changes[i].uuid)
  {
  }

  lemma SchemaChangeTells(db: Db, ident: TableIdent, h: Hist, t: TxnId, change: Option<SchemaView>)
    requires ident in db.tables && SliceOk(SliceOf(db, ident), h)
             && IsSchemaChange(SliceOf(db, ident).schemas, db.columns, t, change)
    ensures TellsSchemaChange(SliceOf(db, ident), h, t, change)
  {
    hide Spelled, ChainOk, FilesOk, EvolutionOk, Stored;
    var s := SliceOf(db, ident);
    match change
    case None =>
      forall x | x in s.schemas ensures s.schemas[x].validFrom != t { assert x !in ChangedIn(s.schemas, t); }
    case Some(v) =>
      var i :| 0 <= i < |h.schemas| && h.schemas[i] == v.uuid;
      SliceColumns(db, ident, v.uuid);
      VersionSpelled(s, h, i, v.columns);
      assert SchemaOk(s, h, i);
      assert VersionStarts(s, h, i, t) && IsVersion(s, h, i, v);
  }

  lemma SameChangesTell(s: Slice, t: TxnId, a: seq<FileChange>, b: seq<FileChange>)
    requires TellsChanges(s, t, b) && SameChanges(a, b)
    ensures TellsChanges(s, t, a)
  {
    hide FixedFile, SameData;
    forall i | 0 <= i < |a| ensures TellsChange(s, t, a[i]) && a[i].kind == b[i].kind && a[i].uuid == b[i].uuid {
      assert SameChange(a[i], b[i]) && TellsChange(s, t, b[i]);
      FixedIsSame(a[i].file, b[i].file);
      SameDataChains(a[i].file, b[i].file, s.files[b[i].uuid]);
    }
    forall u, kind | Names(b, kind, u) ensures Names(a, kind, u) {
      var i :| 0 <= i < |b| && b[i].kind == kind && b[i].uuid == u;
      assert a[i].kind == kind && a[i].uuid == u;
    }
  }

  lemma SameDataChains(a: FileRow, b: FileRow, c: FileRow)
    requires SameData(a, b) && SameData(b, c)
    ensures SameData(a, c)
  {
  }

  lemma SameEventTells(s: Slice, h: Hist, k: nat, a: TxnEvent, b: TxnEvent)
    requires TellsEvent(s, h, k, b) && SameEvent(a, b)
    ensures TellsEvent(s, h, k, a)
  {
    hide Spelled, TellsChanges, SameChange;
    SameChangesTell(s, h.chain[k], a.changes, b.changes);
    if a.schema.Some? {
      var v, w := a.schema.value, b.schema.value;
      var i :| 0 <= i < |h.schemas| && i < |h.specs| && VersionStarts(s, h, i, h.chain[k]) && IsVersion(s, h, i, w);
      assert IsVersion(s, h, i, v);
    }
  }

  /** The part of the history a listing covers: the positions after the boundary up to the target. */
  ghost predicate IsRange(c: seq<TxnId>, from: Option<TxnId>, to: TxnId, lo: nat, hi: nat) {
    && to in c && hi == Index(c, to) + 1
    && if from.None? then lo == 0 else from.value in c && lo == Index(c, from.value) + 1 && lo < hi
  }

  lemma AtomicListingTells(
    db: Db, hs: map<TableIdent, Hist>, ident: TableIdent, from: Option<TxnId>, to: TxnId, events: seq<TxnEvent>)
    returns (lo: nat, hi: nat)
    requires TableOk(db, hs, ident) && IsListing(Still(db), ident, from, to, Ok(events))
    ensures IsRange(hs[ident].chain, from, to, lo, hi) && |events| == hi - lo <= 50_000
    ensures forall k :: 0 <= k < |events| ==> TellsEvent(SliceOf(db, ident), hs[ident], lo + k, events[k])
  {
    hide IsListing, FilesOk, SchemasOk, ColumnsOk, EvolutionOk, Spells, IsLog, TellsChanges, TellsSchemaChange,
      IsEvent, FirstFault;
    var s, h := SliceOf(db, ident), hs[ident];
    var c := h.chain;
    ListingCovers(db, hs, ident, from, to, Ok(events));
    lo, hi := LowEnd(c, from, Index(c, to)), Index(c, to) + 1;
    EventsAreLogs(db, ident, c[lo..hi], events);
    forall k | 0 <= k < |events| ensures TellsEvent(s, h, lo + k, events[k]) {
      assert c[lo..hi][k] == c[lo + k];
      assert EventAt(Still(db), 0, db.tables[ident].uuid, c[lo..hi], events, k);
      EventHasSchema(db, ident, c[lo + k], events[k]);
      LogTells(s, c[lo + k], events[k].changes);
      SchemaChangeTells(db, ident, h, c[lo + k], events[k].schema);
    }
  }

  lemma EventHasSchema(db: Db, ident: TableIdent, t: TxnId, e: TxnEvent)
    requires ident in db.tables
    requires var s := SliceOf(db, ident); IsEvent(s.files, s.files, s.schemas, db.columns, t, e)
    ensures e.txn == t && IsSchemaChange(SliceOf(db, ident).schemas, db.columns, t, e.schema)
  {
  }

  /** What an Ok listing says, whatever commits fall between its queries: of the history its existence check saw, the
      events of exactly the transactions after the boundary up to the target, oldest first; each with exactly the
      files it added and removed and, if and only if a schema starts there, that schema with its columns in order. */
  lemma ListingTells(
    obs: Schedule, hs: nat -> map<TableIdent, Hist>, ident: TableIdent, from: Option<TxnId>, to: TxnId,
    events: seq<TxnEvent>)
    returns (lo: nat, hi: nat)
    requires Followed(obs, hs, ident) && IsListing(obs, ident, from, to, Ok(events))
    ensures TableOk(obs(1), hs(1), ident)
    ensures IsRange(hs(1)[ident].chain, from, to, lo, hi) && |events| == hi - lo <= 50_000
    ensures forall k :: 0 <= k < |events| ==> TellsEvent(SliceOf(obs(1), ident), hs(1)[ident], lo + k, events[k])
  {
    hide Followed, IsListing, SliceOk, SameEvent, TellsEvent, IsRange;
    TableSeen(obs, hs, ident, 1, 1);
    InterleavedListingIsAtomic(obs, hs, ident, from, to, Ok(events));
    var r0 :| IsListing(Still(obs(1)), ident, from, to, r0) && SameListing(Ok(events), r0);
    lo, hi := AtomicListingTells(obs(1), hs(1), ident, from, to, r0.value);
    forall k | 0 <= k < |events| ensures TellsEvent(SliceOf(obs(1), ident), hs(1)[ident], lo + k, events[k]) {
      SameEventTells(SliceOf(obs(1), ident), hs(1)[ident], lo + k, events[k], r0.value[k]);
    }
  }

  // ---------- diffs ----------

  /** The files live at position j and not at position i. */
  ghost predicate TellsOnly(s: Slice, c: seq<TxnId>, i: nat, j: nat, part: map<Uuid, FileRow>) {
    && (forall u :: u in part <==> u in s.files && LiveAt(s.files[u], c, j) && !LiveAt(s.files[u], c, i))
    && (forall u :: u in part && u in s.files ==> SameData(part[u], s.files[u]))
  }

  /** The schema in force at position j, if another one is in force at position i. */
  ghost predicate TellsNewSchema(s: Slice, h: Hist, i: nat, j: nat, change: Option<SchemaView>) {
    match change
    case None => exists v :: 0 <= v < |h.schemas| && InForce(s, h, v, i) && InForce(s, h, v, j)
    case Some(view) =>
      TellsSchema(s, h, j, view) && forall v :: 0 <= v < |h.schemas| && InForce(s, h, v, i) ==>
                                                  h.schemas[v] != view.uuid
  }

  ghost predicate TellsDelta(s: Slice, c: seq<TxnId>, from: TxnId, to: TxnId, d: TableDelta) {
    && from in c && to in c && Index(c, from) < Index(c, to) && d.from == from && d.to == to
    && TellsOnly(s, c, Index(c, from), Index(c, to), d.added)
       && TellsOnly(s, c, Index(c, to), Index(c, from), d.removed)
  }

  lemma OnlyInTells(s: Slice, h: Hist, i: nat, j: nat, part: map<Uuid, FileRow>)
    requires FilesOk(s, h) && i < |h.chain| && j < |h.chain|
    requires IsOnlyIn(part, VisibleAt(s.files, h.chain, j), VisibleAt(s.files, h.chain, i))
    ensures TellsOnly(s, h.chain, i, j, part)
  {
    hide FixedFile, SameData;
    forall u ensures u in part <==> u in s.files && LiveAt(s.files[u], h.chain, j) && !LiveAt(s.files[u], h.chain, i) {
      if u in s.files { assert FileOk(s.files[u], h.chain); }
    }
    forall u | u in part && u in s.files ensures SameData(part[u], s.files[u]) { FixedIsSame(part[u], s.files[u]); }
  }

  /** What an Ok diff says of files, whatever commits fall between its queries and however ids are ordered: of the
      history its existence check saw, exactly the files live at `to` and not at `from`, and the other way round. */
  lemma DiffTells(
    obs: Schedule, hs: nat -> map<TableIdent, Hist>, env: Env, ident: TableIdent, from: TxnId, to: TxnId, d: TableDelta)
    requires Followed(obs, hs, ident) && IsDiff(obs, env, ident, from, to, Ok(d))
    ensures TableOk(obs(1), hs(1), ident)
    ensures TellsDelta(SliceOf(obs(1), ident), hs(1)[ident].chain, from, to, d)
  {
    hide Followed, IsDiff, SchemasOk, ColumnsOk, EvolutionOk, FilesOk, IsOnlyIn, TellsOnly;
    InterleavedDiffExact(obs, hs, env, ident, from, to, d);
    var s, h := SliceOf(obs(1), ident), hs(1)[ident];
    OnlyInTells(s, h, Index(h.chain, from), Index(h.chain, to), d.added);
    OnlyInTells(s, h, Index(h.chain, to), Index(h.chain, from), d.removed);
  }

  lemma ChangeTells(s: Slice, h: Hist, i: nat, j: nat, change: Option<SchemaView>)
    requires SliceOk(s, h) && i < |h.chain| && j < |h.chain|
    requires change.Some? <==> SchemaAt(s, h, i).uuid != SchemaAt(s, h, j).uuid
    requires change.Some? ==> SameSchema(change.value, SchemaAt(s, h, j))
    ensures TellsNewSchema(s, h, i, j, change)
  {
    hide ColumnsOk, EvolutionOk, FilesOk, Spells, TellsSchema, VersionAt, FixedSchema;
    var v, w := ActiveVersion(s, h, i), ActiveVersion(s, h, j);
    ActiveInForce(s, h, i);
    ActiveInForce(s, h, j);
    match change
    case None =>
      assert h.schemas[v] == h.schemas[w];
      assert v == w;
    case Some(view) =>
      TellsActive(s, h, j, view);
      forall x | 0 <= x < |h.schemas| && InForce(s, h, x, i) ensures h.schemas[x] != view.uuid {
        SchemasTile(s, h, i, x);
      }
  }

  /** What it says of schemas, where ids grow. */
  lemma DiffTellsSchema(
    obs: Schedule, hs: nat -> map<TableIdent, Hist>, env: Env, ident: TableIdent, from: TxnId, to: TxnId, d: TableDelta)
    requires Observed(obs, hs, ident) && IsDiff(obs, env, ident, from, to, Ok(d))
    ensures TableOk(obs(1), hs(1), ident) && from in hs(1)[ident].chain && to in hs(1)[ident].chain
    ensures var s, h := SliceOf(obs(1), ident), hs(1)[ident];
            TellsNewSchema(s, h, Index(h.chain, from), Index(h.chain, to), d.newSchema)
  {
    hide Observed, IsDiff, SliceOk, SchemaAt, TellsNewSchema, SameSchema;
    InterleavedDiffSchema(obs, hs, env, ident, from, to, d);
    var s, h := SliceOf(obs(1), ident), hs(1)[ident];
    ChangeTells(s, h, Index(h.chain, from), Index(h.chain, to), d.newSchema);
  }

  /** A schema starts at a later position exactly where the schema in force changes. */
  lemma SchemaStartsWhereItChanges(s: Slice, h: Hist, k: nat)
    requires SliceOk(s, h) && 0 < k < |h.chain|
    ensures (exists x :: x in s.schemas && s.schemas[x].validFrom == h.chain[k]) <==>
              ActiveVersion(s, h, k) != ActiveVersion(s, h, k - 1)
  {
    hide ColumnsOk, EvolutionOk, FilesOk, Spells, VersionAt;
    var v := ActiveVersion(s, h, k);
    IndexOfItem(h.chain, k);
    if x :| x in s.schemas && s.schemas[x].validFrom == h.chain[k] {
      var i :| 0 <= i < |h.schemas| && h.schemas[i] == x;
      StartedNow(s, h, k, i);
      SchemasTile(s, h, k, i);
      SchemasTile(s, h, k - 1, i);
    } else {
      SchemasTile(s, h, k, v);
      SchemasTile(s, h, k - 1, v);
      assert SchemaOk(s, h, v);
      assert s.schemas[h.schemas[v]].validFrom != h.chain[k];
    }
  }
}
