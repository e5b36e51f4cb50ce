/** End to end: when listings and diffs fail, counted on the history, and what a read returns after a commit. */
module Effects {
  import opened CatalogTypes
  import opened Validation
  import opened Statements
  import opened History
  import opened Commits
  import opened Meaning
  import opened Acceptance
  import opened Views
  import opened Readers
  import opened Events
  import opened Listings
  import opened Diff
  import opened Outcomes
  import opened Answers

  // ---------- the limits of a listing ----------

  function AddedBetween(s: Slice, c: seq<TxnId>, lo: nat, hi: nat): set<Uuid> {
    set u | u in s.files && InRange(c, s.files[u].added, lo, hi)
  }

  function RemovedBetween(s: Slice, c: seq<TxnId>, lo: nat, hi: nat): set<Uuid> {
    set u | u in s.files && s.files[u].removed.Some? && InRange(c, s.files[u].removed.value, lo, hi)
  }

  function SchemasBetween(s: Slice, c: seq<TxnId>, lo: nat, hi: nat): set<Uuid> {
    set x | x in s.schemas && InRange(c, s.schemas[x].validFrom, lo, hi)
  }

  /** The file changes of positions lo..hi stay within the limit. */
  predicate FilesFit(s: Slice, c: seq<TxnId>, lo: nat, hi: nat) {
    |AddedBetween(s, c, lo, hi)| <= 10_000 && |RemovedBetween(s, c, lo, hi)| <= 10_000
  }

  lemma SizesAdd(a: set<Uuid>, b: set<Uuid>, all: set<Uuid>)
    requires (forall u :: u in all <==> u in a || u in b) && a !! b
    ensures |all| == |a| + |b|
  {
    assert all == a + b;
  }

  lemma NextAdded(s: Slice, c: seq<TxnId>, lo: nat, k: nat)
    requires Distinct(c) && lo <= k < |c|
    ensures |AddedBetween(s, c, lo, k + 1)| == |AddedBetween(s, c, lo, k)| + |AddedIn(s.files, c[k]).Keys|
  {
    SizesAdd(AddedBetween(s, c, lo, k), AddedIn(s.files, c[k]).Keys, AddedBetween(s, c, lo, k + 1));
  }

  lemma NextRemoved(s: Slice, c: seq<TxnId>, lo: nat, k: nat)
    requires Distinct(c) && lo <= k < |c|
    ensures |RemovedBetween(s, c, lo, k + 1)| == |RemovedBetween(s, c, lo, k)| + |RemovedIn(s.files, c[k]).Keys|
  {
    SizesAdd(RemovedBetween(s, c, lo, k), RemovedIn(s.files, c[k]).Keys, RemovedBetween(s, c, lo, k + 1));
  }

  lemma NextSchemas(s: Slice, c: seq<TxnId>, lo: nat, k: nat)
    requires Distinct(c) && lo <= k < |c|
    ensures |SchemasBetween(s, c, lo, k + 1)| == |SchemasBetween(s, c, lo, k)| + |ChangedIn(s.schemas, c[k]).Keys|
  {
    SizesAdd(SchemasBetween(s, c, lo, k), ChangedIn(s.schemas, c[k]).Keys, SchemasBetween(s, c, lo, k + 1));
  }

  lemma FactsHere(db: Db, ident: TableIdent, p: nat, t: TxnId)
    requires ident in db.tables
    ensures var f, s := FactsAt(Still(db), p, db.tables[ident].uuid, t), SliceOf(db, ident);
            && f.added == AddedIn(s.files, t).Keys && f.removed == RemovedIn(s.files, t).Keys
            && f.schemas == ChangedIn(s.schemas, t).Keys
  {
  }

  lemma NothingBetween(s: Slice, c: seq<TxnId>, lo: nat)
    ensures AddedBetween(s, c, lo, lo) == {} && RemovedBetween(s, c, lo, lo) == {} && SchemasBetween(s, c, lo, lo) == {}
  {
  }

  lemma SumNext(facts: seq<Facts>, n: nat)
    requires n <= |facts|
    ensures n == 0 ==>
              Sum(facts, n, AddedCount) == 0 && Sum(facts, n, RemovedCount) == 0 && Sum(facts, n, SchemaCount) == 0
    ensures n > 0 ==>
              && Sum(facts, n, AddedCount) == Sum(facts, n - 1, AddedCount) + |facts[n - 1].added|
              && Sum(facts, n, RemovedCount) == Sum(facts, n - 1, RemovedCount) + |facts[n - 1].removed|
              && Sum(facts, n, SchemaCount) == Sum(facts, n - 1, SchemaCount) + |facts[n - 1].schemas|
  {
  }

  lemma {:induction false} SumsCount(db: Db, hs: map<TableIdent, Hist>, ident: TableIdent, lo: nat, hi: nat, n: nat)
    requires TableOk(db, hs, ident) && lo <= hi <= |hs[ident].chain| && n <= hi - lo
    ensures var facts := AllFacts(Still(db), 0, db.tables[ident].uuid, hs[ident].chain[lo..hi]);
            var s, c := SliceOf(db, ident), hs[ident].chain;
            && Sum(facts, n, AddedCount) == |AddedBetween(s, c, lo, lo + n)|
            && Sum(facts, n, RemovedCount) == |RemovedBetween(s, c, lo, lo + n)|
            && Sum(facts, n, SchemaCount) == |SchemasBetween(s, c, lo, lo + n)|
  {
    hide FilesOk, SchemasOk, ColumnsOk, EvolutionOk, Spells, AddedIn, RemovedIn, ChangedIn, AddedBetween,
      RemovedBetween,
      SchemasBetween, FactsAt, SliceOf, Sum, Distinct;
    var s, c := SliceOf(db, ident), hs[ident].chain;
    var facts := AllFacts(Still(db), 0, db.tables[ident].uuid, c[lo..hi]);
    SumNext(facts, n);
    if n == 0 {
      NothingBetween(s, c, lo);
    } else {
      ChainHere(db, hs, ident);
      SumsCount(db, hs, ident, lo, hi, n - 1);
      NextAdded(s, c, lo, lo + n - 1);
      NextRemoved(s, c, lo, lo + n - 1);
      NextSchemas(s, c, lo, lo + n - 1);
      assert c[lo..hi][n - 1] == c[lo + n - 1];
      FactsHere(db, ident, 4 * (n - 1), c[lo + n - 1]);
    }
  }

  /** Which limit the facts of n transactions break first. */
  lemma {:induction false} PlainFaultsExact(facts: seq<Facts>, n: nat)
    requires n <= |facts| && forall i :: 0 <= i < n ==> Plain(facts[i])
    ensures FirstFault(facts, n).None? <==>
              && Sum(facts, n, AddedCount) <= 10_000 && Sum(facts, n, RemovedCount) <= 10_000
              && Sum(facts, n, SchemaCount) <= 10_000
    ensures FirstFault(facts, n) == Some(TooManySchemaChanges) <==> exists m :: 0 <= m <= n && SchemasBreakAt(facts, m)
    ensures FirstFault(facts, n).Some? ==> FirstFault(facts, n).value in {TooManyFileEvents, TooManySchemaChanges}
    ensures FirstFault(facts, n) == Some(TooManyFileEvents) ==>
              Sum(facts, n, AddedCount) > 10_000 || Sum(facts, n, RemovedCount) > 10_000
  {
    if n > 0 {
      PlainFaultsExact(facts, n - 1);
      assert SchemasBreakAt(facts, n) <==>
               && Sum(facts, n, SchemaCount) > 10_000
               && Sum(facts, n, AddedCount) <= 10_000 && Sum(facts, n, RemovedCount) <= 10_000;
    } else {
      assert !SchemasBreakAt(facts, 0);
    }
  }

  ghost predicate SchemasBreakAt(facts: seq<Facts>, m: nat)
    requires m <= |facts|
  {
    && Sum(facts, m, SchemaCount) > 10_000
    && Sum(facts, m, AddedCount) <= 10_000 && Sum(facts, m, RemovedCount) <= 10_000
  }

  /** The schema changes break their limit at a position up to which the file changes fit. */
  ghost predicate SchemasBreak(s: Slice, c: seq<TxnId>, lo: nat, hi: nat) {
    exists m :: lo <= m <= hi && BreaksBy(s, c, lo, m)
  }

  ghost predicate BreaksBy(s: Slice, c: seq<TxnId>, lo: nat, m: nat) {
    |SchemasBetween(s, c, lo, m)| > 10_000 && FilesFit(s, c, lo, m)
  }

  ghost predicate ProperBoundary(c: seq<TxnId>, from: Option<TxnId>, to: TxnId) {
    to in c && (from.Some? ==> from.value in c && Index(c, from.value) < Index(c, to))
  }

  /** When an undisturbed listing fails and with which error, counted on the history: an unknown target; a boundary
      that is no proper ancestor; more than 50000 transactions; more than 10000 files added or removed; more than
      10000 schema changes. */
  lemma AtomicListingReports(
    db: Db, hs: map<TableIdent, Hist>, ident: TableIdent, from: Option<TxnId>, to: TxnId, r: Result<seq<TxnEvent>>)
    requires TableOk(db, hs, ident) && IsListing(Still(db), ident, from, to, r)
    ensures var c := hs[ident].chain; to !in c ==> r == Err(UnknownTransaction)
    ensures var c := hs[ident].chain;
            to in c && !ProperBoundary(c, from, to) ==>
              r == Err(if Index(c, to) + 1 > 50_000 then TooManyTransactions else NotAncestor)
    ensures var s, c := SliceOf(db, ident), hs[ident].chain;
            forall lo, hi :: IsRange(c, from, to, lo, hi) ==>
              if hi - lo > 50_000 then r == Err(TooManyTransactions)
              else
                && (r.Ok? <==> FilesFit(s, c, lo, hi) && |SchemasBetween(s, c, lo, hi)| <= 10_000)
                && (r == Err(TooManySchemaChanges) <==> SchemasBreak(s, c, lo, hi))
                && (r.Err? ==> r.error in {TooManyFileEvents, TooManySchemaChanges})
  {
    hide IsListing, SliceOk, FirstFault, SchemasBreak, FilesFit, SchemasBetween, FactsAt, ListingFault;
    ListingCovers(db, hs, ident, from, to, r);
    ChainHere(db, hs, ident);
    var c := hs[ident].chain;
    forall lo, hi | IsRange(c, from, to, lo, hi) && hi - lo <= 50_000
      ensures r.Ok? <==>
                FilesFit(SliceOf(db, ident), c, lo, hi) && |SchemasBetween(SliceOf(db, ident), c, lo, hi)| <= 10_000
      ensures r == Err(TooManySchemaChanges) <==> SchemasBreak(SliceOf(db, ident), c, lo, hi)
      ensures r.Err? ==> r.error in {TooManyFileEvents, TooManySchemaChanges}
    {
      assert lo == LowEnd(c, from, Index(c, to));
      RangeReports(db, hs, ident, lo, hi, r);
    }
  }

  lemma ChainHere(db: Db, hs: map<TableIdent, Hist>, ident: TableIdent)
    requires TableOk(db, hs, ident)
    ensures Distinct(hs[ident].chain)
  {
  }

  lemma RangeReports(
    db: Db, hs: map<TableIdent, Hist>, ident: TableIdent, lo: nat, hi: nat, r: Result<seq<TxnEvent>>)
    requires TableOk(db, hs, ident) && lo <= hi <= |hs[ident].chain|
    requires IsEventList(Still(db), 0, db.tables[ident].uuid, hs[ident].chain[lo..hi], r)
    ensures var s, c := SliceOf(db, ident), hs[ident].chain;
            && (r.Ok? <==> FilesFit(s, c, lo, hi) && |SchemasBetween(s, c, lo, hi)| <= 10_000)
            && (r == Err(TooManySchemaChanges) <==> SchemasBreak(s, c, lo, hi))
            && (r.Err? ==> r.error in {TooManyFileEvents, TooManySchemaChanges})
  {
    hide SliceOk, FirstFault, FactsAt, EventAt, Sum, AddedBetween, RemovedBetween, SchemasBetween;
    var s, c, table := SliceOf(db, ident), hs[ident].chain, db.tables[ident].uuid;
    var facts := AllFacts(Still(db), 0, table, c[lo..hi]);
    EventsArePlain(db, hs, ident, 0, lo, hi);
    PlainFaultsExact(facts, hi - lo);
    SumsCount(db, hs, ident, lo, hi, hi - lo);
    forall m | 0 <= m <= hi - lo ensures SchemasBreakAt(facts, m) <==> BreaksBy(s, c, lo, lo + m) {
      SumsCount(db, hs, ident, lo, hi, m);
    }
    if m :| lo <= m <= hi && BreaksBy(s, c, lo, m) { assert SchemasBreakAt(facts, m - lo); }
  }

  // ---------- diffs ----------

  /** When an undisturbed diff fails: on its listing, with the listing's error; else on a reader too old, or on more
      than 10000 files in either snapshot. */
  lemma AtomicDiffReports(
    db: Db, hs: map<TableIdent, Hist>, env: Env, ident: TableIdent, from: TxnId, to: TxnId, r: Result<TableDelta>)
    returns (listing: Result<seq<TxnEvent>>)
    requires TableOk(db, hs, ident) && Increasing(hs[ident].chain) && IsDiff(Still(db), env, ident, from, to, r)
    ensures IsListing(Still(db), ident, Some(from), to, listing)
    ensures listing.Err? ==> r == Err(listing.error)
    ensures listing.Ok? ==> from in hs[ident].chain && to in hs[ident].chain
    ensures listing.Ok? ==>
              var s, h := SliceOf(db, ident), hs[ident];
              var wide := |VisibleAt(s.files, h.chain, Index(h.chain, from))| > 10_000
                          || |VisibleAt(s.files, h.chain, Index(h.chain, to))| > 10_000;
              && (r == Err(ProtocolTooOld) <==> env.reader < s.row.minReader)
              && (r == Err(TooManyFiles) <==> env.reader >= s.row.minReader && wide)
              && (r.Ok? <==> env.reader >= s.row.minReader && !wide)
  {
    hide IsListing, IsRead, SliceOk, VisibleAt, Project, TellsView;
    listing :| IsListing(Still(db), ident, Some(from), to, listing)
      && IsDiffAfter(Still(db), env, ident, from, to, listing, r);
    if listing.Ok? {
      var lo, hi := AtomicListingTells(db, hs, ident, Some(from), to, listing.value);
      var q: nat, a :| 2 <= q && IsRead(Shift(Still(db), q), env, ident, Some(from), a)
                       && IsDiffRead(Still(db), env, ident, from, to, listing.value, q, a, r);
      AtomicReadTells(Shift(Still(db), q), db, hs, env, ident, Some(from), a);
      if a.Ok? {
        var p: nat, b :| q <= p && IsRead(Shift(Still(db), p), env, ident, Some(to), b)
                         && r == if b.Err? then Err(b.error)
                            else Ok(Project(from, to, listing.value, a.value, b.value));
        AtomicReadTells(Shift(Still(db), p), db, hs, env, ident, Some(to), b);
      }
    }
  }

  // ---------- reading one's own commit ----------

  /** At the head, the live files are those never removed. */
  lemma HeadTellsLive(s: Slice, h: Hist, files: map<Uuid, FileRow>)
    requires FilesOk(s, h) && Distinct(h.chain) && |h.chain| > 0 && TellsFiles(s, h, |h.chain| - 1, files)
    ensures files.Keys == Live(s.files)
  {
    hide SameData;
    forall u ensures u in files <==> u in Live(s.files) {
      if u in s.files { assert FileOk(s.files[u], h.chain); }
    }
  }

  lemma HeadSchema(s: Slice, h: Hist, v: SchemaView)
    requires SliceOk(s, h) && TellsSchema(s, h, |h.chain| - 1, v)
    ensures |h.schemas| > 0 && |h.specs| == |h.schemas| && s.row.schema == Some(Last(h.schemas))
    ensures v.uuid == Last(h.schemas) && Spelled(v.columns, v.uuid, Last(h.specs))
  {
    hide ColumnsOk, EvolutionOk, FilesOk, Spells, Spelled, VersionAt;
    var k := |h.chain| - 1;
    var i :| 0 <= i < |h.schemas| && i < |h.specs| && InForce(s, h, i, k) && IsVersion(s, h, i, v);
    var last := |h.schemas| - 1;
    assert SchemaOk(s, h, last) && SchemaOk(s, h, i);
    SchemasTile(s, h, k, i);
    SchemasTile(s, h, k, last);
    InForceByStart(s, h, last, k);
    SpecsMatch(s, h);
  }

  lemma SpecsMatch(s: Slice, h: Hist)
    requires ColumnsOk(s, h)
    ensures |h.specs| == |h.schemas|
  {
  }

  /** A read of the head. */
  lemma HeadTold(obs: Schedule, db: Db, hs: map<TableIdent, Hist>, reader: Env, ident: TableIdent, v: View)
    requires TableOk(db, hs, ident) && Increasing(hs[ident].chain) && IsRead(obs, reader, ident, None, Ok(v))
    requires forall k: nat :: obs(k) == db
    ensures db.tables[ident].head == Some(v.txn) && db.tables[ident].schema == Some(v.schema.uuid)
    ensures v.files.Keys == Live(SliceOf(db, ident).files) && v.properties == db.tables[ident].properties
    ensures |hs[ident].specs| > 0 && Spelled(v.schema.columns, v.schema.uuid, Last(hs[ident].specs))
  {
    hide FilesOk, SchemasOk, ColumnsOk, EvolutionOk, Spells, IsRead, Spelled, TellsSchema, TellsFiles;
    AtomicReadTells(obs, db, hs, reader, ident, None, Ok(v));
    var s, h := SliceOf(db, ident), hs[ident];
    HeadPosition(db, hs, ident);
    HeadTellsLive(s, h, v.files);
    HeadSchema(s, h, v.schema);
  }

  /** A read after a commit returns what the mutation means: the new transaction; exactly the files left live by its
      appends and deletes, in order; the properties left by its sets and removals; and the schema it installed, with
      the columns it named in order, or else the one before. */
  lemma ReadAfterCommit(
    env: Env, db: Db, hs: map<TableIdent, Hist>, req: Request, obs: Schedule, reader: Env, v: View)
    requires Inv(db, hs) && CommitWrites(env, db, req).Ok?
    requires forall k: nat :: obs(k) == Over(db, CommitWrites(env, db, req).value)
    requires req.ident in hs && Increasing(hs[req.ident].chain + [req.ids.txn])
    requires IsRead(obs, reader, req.ident, None, Ok(v))
    ensures req.ident in db.tables
    ensures v.txn == req.ids.txn
    ensures v.files.Keys == LiveAfter(req.ids, req.ops, |req.ops|, Live(SliceOf(db, req.ident).files))
    ensures v.properties == PropertiesAfter(req.ops, |req.ops|, db.tables[req.ident].properties)
    ensures forall k :: 0 <= k < |req.ops| && req.ops[k].UpdateSchema? ==>
                          v.schema.uuid == req.ids.schema
                            && Spelled(v.schema.columns, req.ids.schema, req.ops[k].columns)
    ensures (forall k :: 0 <= k < |req.ops| ==> !req.ops[k].UpdateSchema?) ==>
              Some(v.schema.uuid) == db.tables[req.ident].schema
  {
    hide CommitWrites, Committed, SliceOk, GlobalOk, Legal, SliceOf, IsRead, Spelled, PropertiesAfter, LiveAfter,
      ApplyChange, Increasing;
    CommitSteps(env, db, hs, req);
    CommitMeaning(env, db, hs, req);
    var db2, hs2 := Over(db, CommitWrites(env, db, req).value), Advance(hs, req.ident, Committed(env, db, req));
    AdvancedTable(env, db, hs, req);
    assert TableOk(db2, hs2, req.ident);
    HeadTold(obs, db2, hs2, reader, req.ident, v);
    RowsAre(db, db2, req.ident);
    SpecOfCommit(env, db, req);
  }

  lemma NewTable(env: Env, columns: seq<ColumnSpec>, properties: Option<Properties>, ids: Ids)
    ensures var s, h := NewSlice(env, columns, properties, ids), Genesis(ids, columns);
            && h.chain == [ids.txn] && Increasing(h.chain) && Last(h.specs) == columns && s.files == map[]
            && s.row == TableRow(ids.table, Some(ids.txn), Some(ids.schema),
                                 if properties.Some? then properties.value else map[], env.reader, env.writer)
            && VisibleAt(s.files, h.chain, Index(h.chain, ids.txn)) == map[] && Live(s.files) == {}
  {
    var given: Option<Properties> := properties;
    assert given.GetOr(map[]) == if given.Some? then given.value else map[];
  }

  /** A table just created is read by every catalog whose reader version is not below the creator's, and by no other:
      its only transaction, the columns it was created with in order, its properties, and no files. */
  lemma ReadAfterCreate(
    env: Env, db: Db, hs: map<TableIdent, Hist>, ident: TableIdent, columns: seq<ColumnSpec>,
    properties: Option<Properties>, ids: Ids, obs: Schedule, reader: Env, r: Result<View>)
    requires Inv(db, hs) && CreateWrites(env, db, ident, columns, properties, ids).Ok?
    requires forall k: nat :: obs(k) == Over(db, CreateWrites(env, db, ident, columns, properties, ids).value)
    requires IsRead(obs, reader, ident, None, r)
    ensures if reader.reader < env.reader then r == Err(ProtocolTooOld) else r.Ok?
    ensures r.Ok? ==>
              && r.value.table == ids.table && r.value.txn == ids.txn && r.value.files == map[]
              && r.value.schema.uuid == ids.schema && Spelled(r.value.schema.columns, ids.schema, columns)
              && r.value.properties == if properties.Some? then properties.value else map[]
  {
    hide CreateWrites, NewSlice, SliceOk, GlobalOk, SliceOf, IsRead, Spelled, Increasing, VisibleAt, Live, Index,
      TellsSchema, TellsFiles;
    CreateSteps(env, db, hs, ident, columns, properties, ids);
    NewTable(env, columns, properties, ids);
    var db2, hs2 := Over(db, CreateWrites(env, db, ident, columns, properties, ids).value),
      hs[ident := Genesis(ids, columns)];
    assert TableOk(db2, hs2, ident);
    RowsAre(db2, db2, ident);
    AtomicReadTells(obs, db2, hs2, reader, ident, None, r);
    if r.Ok? { HeadTold(obs, db2, hs2, reader, ident, r.value); }
  }

  /** What a commit makes of the history. */
  lemma AdvancedTable(env: Env, db: Db, hs: map<TableIdent, Hist>, req: Request)
    requires Inv(db, hs) && CommitWrites(env, db, req).Ok? && req.ident in hs
    ensures var h, h2 := hs[req.ident], Advance(hs, req.ident, Committed(env, db, req))[req.ident];
            && h2.chain == h.chain + [req.ids.txn]
            && (SpecIn(req.ops, |req.ops|).Some? ==>
                  |h2.specs| > 0 && Last(h2.specs) == SpecIn(req.ops, |req.ops|).value)
  {
    hide CommitWrites, Committed, SliceOk, GlobalOk, Legal, SliceOf, ApplyChange, Publishable;
    CommitSteps(env, db, hs, req);
    assert TableOk(db, hs, req.ident);
    CommitIsChange(env, db, hs[req.ident], req);
    ChangeMeaning(env, db, hs[req.ident], req);
  }

  lemma SpecOfCommit(env: Env, db: Db, req: Request)
    requires CommitWrites(env, db, req).Ok?
    ensures forall k :: 0 <= k < |req.ops| && req.ops[k].UpdateSchema? ==>
                          SpecIn(req.ops, |req.ops|) == Some(req.ops[k].columns)
    ensures (forall k :: 0 <= k < |req.ops| ==> !req.ops[k].UpdateSchema?) ==> SpecIn(req.ops, |req.ops|).None?
  {
    hide ExecOps, Begin, Finish, ValidMutation, SpecIn;
    MutationAcceptable(req.ops);
    SpecInFinds(req.ops, |req.ops|);
  }

  lemma HeadPosition(db: Db, hs: map<TableIdent, Hist>, ident: TableIdent)
    requires TableOk(db, hs, ident)
    ensures var s, h := SliceOf(db, ident), hs[ident];
            |h.chain| > 0 && Index(h.chain, Last(h.chain)) == |h.chain| - 1 && FilesOk(s, h) && Distinct(h.chain)
  {
  }

  lemma RowsAre(db: Db, db2: Db, ident: TableIdent)
    requires ident in db.tables && ident in db2.tables
    ensures SliceOf(db, ident).row == db.tables[ident] && SliceOf(db2, ident).row == db2.tables[ident]
  {
  }
}
