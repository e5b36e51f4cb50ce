/** The reader theorems on runs of the protocol, and concrete runs. */
module Runs {
  import opened CatalogTypes
  import opened DataTypes
  import opened Limits
  import opened Validation
  import opened Statements
  import opened History
  import opened Commits
  import opened Views
  import opened Readers
  import opened Events
  import opened Listings
  import opened Delta
  import opened Diff
  import opened Outcomes
  import opened Acceptance
  import opened Answers
  import opened Protocol
  import opened Catalogs

  /** Listings of any run are linearizable at the moment of their existence check. */
  lemma RunListingsAreAtomic(
    run: nat -> Sys, at: nat -> nat, ident: TableIdent, from: Option<TxnId>, to: TxnId, r: Result<seq<TxnEvent>>)
    requires Run(run) && Sampled(run, at) && IsListing(Seen(run, at), ident, from, to, r)
    ensures if ident in run(at(0)).db.tables then Linearizes(Seen(run, at), ident, 1, from, to, r)
            else r == Err(TableNotFound)
  {
    hide Run, Sampled, Followed, IsListingAlong, Linearizes;
    if ident in run(at(0)).db.tables {
      RunIsFollowed(run, at, ident);
      InterleavedListingIsAtomic(Seen(run, at), SeenHist(run, at), ident, from, to, r);
    }
  }

  /** Diffs of any run report exactly the files in which the two snapshots differ, independent of what is published
      while they run, and where ids are drawn in order exactly the schema in which they differ. */
  lemma RunDiffsAreExact(
    env: Env, run: nat -> Sys, at: nat -> nat, ident: TableIdent, from: TxnId, to: TxnId, d: TableDelta)
    requires Run(run) && Sampled(run, at) && IsDiff(Seen(run, at), env, ident, from, to, Ok(d))
    ensures var s := run(at(1));
            && TableOk(s.db, s.hist, ident)
            && var t, h := SliceOf(s.db, ident), s.hist[ident];
            && from in h.chain && to in h.chain && Index(h.chain, from) < Index(h.chain, to)
            && IsDifference(t, h, Index(h.chain, from), Index(h.chain, to), d.added, d.removed)
            && (IdSource(run) ==>
                  && (d.newSchema.Some? <==>
                        SchemaAt(t, h, Index(h.chain, from)).uuid != SchemaAt(t, h, Index(h.chain, to)).uuid)
                  && (d.newSchema.Some? ==> SameSchema(d.newSchema.value, SchemaAt(t, h, Index(h.chain, to)))))
  {
    hide Run, Sampled, IdSource, Followed, Observed, IsDiff, SliceOk, IsDifference, SchemaAt;
    DiffedTable(Seen(run, at), env, ident, from, to, Ok(d));
    RunIsFollowed(run, at, ident);
    InterleavedDiffExact(Seen(run, at), SeenHist(run, at), env, ident, from, to, d);
    if IdSource(run) {
      RunIsObserved(run, at, ident);
      InterleavedDiffSchema(Seen(run, at), SeenHist(run, at), env, ident, from, to, d);
    }
  }

  /** Where ids are drawn in order, diffs of any run are linearizable, errors included, at the moment of their
      existence check. */
  lemma RunDiffsAreAtomic(
    env: Env, run: nat -> Sys, at: nat -> nat, ident: TableIdent, from: TxnId, to: TxnId, r: Result<TableDelta>)
    returns (r0: Result<TableDelta>)
    requires Run(run) && IdSource(run) && Sampled(run, at) && IsDiff(Seen(run, at), env, ident, from, to, r)
    ensures if ident in run(at(0)).db.tables then
              IsDiff(Still(run(at(1)).db), env, ident, from, to, r0) && SameDiff(r, r0)
            else r == Err(TableNotFound)
  {
    hide Run, IdSource, Sampled, Observed, IsDiff, SameDiff;
    if ident in run(at(0)).db.tables {
      RunIsObserved(run, at, ident);
      r0 := InterleavedDiffIsAtomic(Seen(run, at), SeenHist(run, at), env, ident, from, to, r);
    } else {
      r0 := r;
      DiffedTable(Seen(run, at), env, ident, from, to, r);
    }
  }

  lemma DiffedTable(obs: Schedule, env: Env, ident: TableIdent, from: TxnId, to: TxnId, r: Result<TableDelta>)
    requires IsDiff(obs, env, ident, from, to, r)
    ensures ident in obs(0).tables || r == Err(TableNotFound)
  {
    hide IsListingAlong, IsDiffRead, IsRead;
  }

  /** In every run, the properties an Ok diff reports are those of the later of two moments of the run, the first
      queries of its two reads, and it reports them exactly when they differ from those of the earlier. */
  lemma RunDiffsCompareMoments(
    env: Env, run: nat -> Sys, at: nat -> nat, ident: TableIdent, from: TxnId, to: TxnId, d: TableDelta)
    returns (events: seq<TxnEvent>, q: nat, a: View, p: nat, b: View)
    requires Run(run) && Sampled(run, at) && IsDiff(Seen(run, at), env, ident, from, to, Ok(d))
    ensures IsRead(Shift(Seen(run, at), q), env, ident, Some(from), Ok(a))
    ensures IsRead(Shift(Seen(run, at), p), env, ident, Some(to), Ok(b))
    ensures d == Project(from, to, events, a, b)
    ensures at(1) <= at(q) <= at(p) && ident in run(at(q)).db.tables && ident in run(at(p)).db.tables
    ensures var x, y := run(at(q)).db.tables[ident].properties, run(at(p)).db.tables[ident].properties;
            (d.newProperties.Some? <==> x != y) && (d.newProperties.Some? ==> d.newProperties.value == y)
  {
    hide Run, IsDiff, IsRead, IsListing, Project;
    events, q, a, p, b := DiffComparesTwoMoments(Seen(run, at), env, ident, from, to, d);
  }

  /** What reads of any run say, in terms of the history at the moment of their first query. */
  lemma RunReadsTell(env: Env, run: nat -> Sys, at: nat -> nat, ident: TableIdent, target: Option<TxnId>, v: View)
    requires Run(run) && IdSource(run) && Sampled(run, at) && IsRead(Seen(run, at), env, ident, target, Ok(v))
    ensures var s := run(at(0));
            && TableOk(s.db, s.hist, ident)
            && var t, h := SliceOf(s.db, ident), s.hist[ident];
            && |h.chain| > 0
            && var x := if target.Some? then target.value else Last(h.chain);
            && x in h.chain && TellsView(t, h, Index(h.chain, x), v) && v.properties == t.row.properties
  {
    hide Run, Sampled, IdSource, Observed, IsRead, TellsView, SchemasOk, ColumnsOk, FilesOk, EvolutionOk, Spells;
    ReadProperties(Seen(run, at), env, ident, target, v);
    RunIsObserved(run, at, ident);
    ReadTells(Seen(run, at), SeenHist(run, at), env, ident, target, v);
  }

  /** What listings of any run say, in terms of the history at the moment of their existence check. */
  lemma RunListingsTell(
    run: nat -> Sys, at: nat -> nat, ident: TableIdent, from: Option<TxnId>, to: TxnId, events: seq<TxnEvent>)
    returns (lo: nat, hi: nat)
    requires Run(run) && Sampled(run, at) && IsListing(Seen(run, at), ident, from, to, Ok(events))
    ensures var s := run(at(1));
            && TableOk(s.db, s.hist, ident) && IsRange(s.hist[ident].chain, from, to, lo, hi) && |events| == hi - lo
            && forall k :: 0 <= k < |events| ==> TellsEvent(SliceOf(s.db, ident), s.hist[ident], lo + k, events[k])
  {
    hide Run, Sampled, Followed, IsListing, TellsEvent, IsRange, SliceOk;
    NoTableListed(Seen(run, at), ident, from, to, events);
    RunIsFollowed(run, at, ident);
    lo, hi := ListingTells(Seen(run, at), SeenHist(run, at), ident, from, to, events);
  }

  /** What diffs of any run say, in terms of the history at the moment of their existence check. */
  lemma RunDiffsTell(
    env: Env, run: nat -> Sys, at: nat -> nat, ident: TableIdent, from: TxnId, to: TxnId, d: TableDelta)
    requires Run(run) && Sampled(run, at) && IsDiff(Seen(run, at), env, ident, from, to, Ok(d))
    ensures var s := run(at(1));
            && TableOk(s.db, s.hist, ident)
            && var t, h := SliceOf(s.db, ident), s.hist[ident];
            && TellsDelta(t, h.chain, from, to, d)
            && (IdSource(run) ==> TellsNewSchema(t, h, Index(h.chain, from), Index(h.chain, to), d.newSchema))
  {
    hide Run, Sampled, IdSource, Followed, Observed, IsDiff, SliceOk, TellsOnly, TellsNewSchema;
    DiffedTable(Seen(run, at), env, ident, from, to, Ok(d));
    RunIsFollowed(run, at, ident);
    DiffTells(Seen(run, at), SeenHist(run, at), env, ident, from, to, d);
    if IdSource(run) {
      RunIsObserved(run, at, ident);
      DiffTellsSchema(Seen(run, at), SeenHist(run, at), env, ident, from, to, d);
    }
  }

  lemma NoTableListed(obs: Schedule, ident: TableIdent, from: Option<TxnId>, to: TxnId, events: seq<TxnEvent>)
    requires IsListing(obs, ident, from, to, Ok(events))
    ensures ident in obs(0).tables
  {
  }

  /** Every file stored in any state of any run is valid: it has a path, no negative count, accepted documents only. */
  lemma {:induction false} RunFilesValid(run: nat -> Sys, n: nat)
    requires Run(run)
    ensures RowsValid(run(n).db.files)
  {
    hide SysInv, Moves, RowsValid, PublishedRequest, CreatedTable;
    if n == 0 {
      NoRowsValid();
    } else {
      RunFilesValid(run, n - 1);
      RunKeepsInvariant(run, n - 1);
      assert NextAt(run, n - 1);
      ProtocolRefinesAtomicCommits(run(n - 1), run(n));
      StepKeepsFilesValid(run(n - 1), run(n));
    }
  }

  lemma NoRowsValid()
    ensures RowsValid(map[])
  {
  }

  lemma StepKeepsFilesValid(s: Sys, s2: Sys)
    requires AtomicStep(s, s2) && RowsValid(s.db.files)
    ensures RowsValid(s2.db.files)
  {
    hide RowsValid, CommitWrites, CreateWrites;
    if env, req :| PublishedRequest(env, s, s2, req) {
      CommitKeepsRowsValid(env, s.db, req);
    } else if env, ident, columns, properties, ids :| CreatedTable(env, s, s2, ident, columns, properties, ids) {
      CreateShape(env, s.db, ident, columns, properties, ids);
      assert s.db.files + map[] == s.db.files;
    }
  }

  /** The errors readers of a run can meet, in a table that is there: never a cycle, a broken chain or an ambiguous
      or over-wide schema, and no missing schema where ids are drawn in order. */
  lemma RunErrors(
    env: Env, run: nat -> Sys, at: nat -> nat, ident: TableIdent, target: Option<TxnId>, from: Option<TxnId>, to: TxnId,
    v: Result<View>, l: Result<seq<TxnEvent>>)
    requires Run(run) && Sampled(run, at) && ident in run(at(0)).db.tables
    requires IsRead(Seen(run, at), env, ident, target, v) && IsListing(Seen(run, at), ident, from, to, l)
    ensures v.Err? ==> ReadFault(v.error)
    ensures l.Err? ==> ListingFault(l.error)
    ensures IdSource(run) ==> v != Err(NoSchemaAtTransaction)
  {
    hide Run, Sampled, IdSource, Followed, Observed, IsRead, IsListing, ReadFault, ListingFault;
    RunIsFollowed(run, at, ident);
    ReadErrors(Seen(run, at), SeenHist(run, at), env, ident, target, v);
    ListingErrors(Seen(run, at), SeenHist(run, at), ident, from, to, l);
    if IdSource(run) { RunIsObserved(run, at, ident); }
  }

  /** Whenever their queries take place in a run, a read, a listing and a diff come to an end. */
  lemma RunQueriesEnd(
    env: Env, run: nat -> Sys, at: nat -> nat, ident: TableIdent, target: Option<TxnId>, from: TxnId, to: TxnId)
    returns (v: Result<View>, l: Result<seq<TxnEvent>>, d: Result<TableDelta>)
    requires Run(run) && Sampled(run, at)
    ensures IsRead(Seen(run, at), env, ident, target, v) && IsListing(Seen(run, at), ident, Some(from), to, l)
    ensures IsDiff(Seen(run, at), env, ident, from, to, d)
  {
    hide Run, Sampled, Followed, IsReadAlong, IsListingAlong, IsDiffRead;
    var obs, hs := Seen(run, at), SeenHist(run, at);
    if ident in run(at(0)).db.tables {
      RunIsFollowed(run, at, ident);
      v := ReadHasOutcome(obs, hs, env, ident, target);
      l := ListingHasOutcome(obs, hs, ident, Some(from), to);
      d := DiffHasOutcome(obs, hs, env, ident, from, to);
    } else {
      v, l, d := Err(TableNotFound), Err(TableNotFound), Err(TableNotFound);
      assert IsDiffAfter(obs, env, ident, from, to, l, d);
    }
  }

  // ---------- concrete runs ----------

  const TABLE := TableIdent("db", "t")
  const LENIENT := Env(Sqlite, 1, 1, _ => true)
  const FIRST := Ids(1, 10, 2, p => p, (k, i) => i)
  const COLUMNS := [ColumnSpec("a", Int32, false)]

  function Second(t: TxnId): Ids {
    Ids(9, t, 9, p => p, (k, i) => i)
  }

  /** A commit that sets a property, under transaction id t. */
  function SetOne(t: TxnId): Request {
    Request(TABLE, 10, [SetProperties(map["k" := "v"])], Second(t))
  }

  function Created(): Result<Db> {
    CreateWrites(LENIENT, EMPTY, TABLE, COLUMNS, None, FIRST)
  }

  function Written(t: TxnId): Db {
    EMPTY.(tables := map[TABLE := TableRow(1, Some(t), Some(2), map["k" := "v"], 1, 1)],
           txns := map[t := TxnRow(1, Some(10))])
  }

  lemma CreationAccepted()
    ensures Created().Ok? && |COLUMNS| == 1
    ensures var ws := Created().value;
            && ws.tables == map[TABLE := TableRow(1, Some(10), Some(2), map[], 1, 1)]
               && ws.txns == map[10 := TxnRow(1, None)]
            && ws.schemas == map[2 := SchemaRow(1, 1, 10, None)] && ws.files == map[]
  {
    assert ValidSchema(COLUMNS) by { assert !IsWhitespace("a"[0]); }
    CheckSchemaAccepts(COLUMNS);
    ColumnsAtOnce({}, Sqlite, ColumnRows(2, FIRST, COLUMNS));
  }

  lemma MutationAccepted(t: TxnId)
    ensures CheckMutation(SetOne(t).ops) == Ok(())
  {
    var ops := SetOne(t).ops;
    assert ops[..1] == ops && ops[..0] == [];
    assert CountSets(ops[..0]) == 0;
    assert CountSets(ops) == 1;
    assert ScanOps(ops, 0) == Ok(()) && ScanOps(ops, 1) == Ok(());
  }

  ghost predicate JustCreated(db: Db) {
    && db.tables == map[TABLE := TableRow(1, Some(10), Some(2), map[], 1, 1)] && db.txns == map[10 := TxnRow(1, None)]
    && db.schemas == map[2 := SchemaRow(1, 1, 10, None)] && db.files == map[]
  }

  lemma CommitAccepted(db: Db, t: TxnId)
    requires JustCreated(db) && t != 10
    ensures CommitWrites(LENIENT, db, SetOne(t)) == Ok(Written(t))
  {
    MutationAccepted(t);
    var s := Begin(LENIENT, db, SetOne(t)).value;
    assert ExecOps(db, s.ctx, SetOne(t).ops, 0, s.work) == Ok(s.work);
    assert ExecOps(db, s.ctx, SetOne(t).ops, 1, s.work).Ok?;
  }

  /** A run that creates the table and commits to it once, under transaction id t. */
  ghost predicate TwoStepRun(run: nat -> Sys, t: TxnId) {
    && Run(run)
    && JustCreated(run(1).db) && TABLE in run(1).hist && run(1).hist[TABLE].chain == [10]
    && TABLE in run(4).hist && run(4).hist[TABLE].chain == [10, t]
    && run(4).db == Over(run(1).db, Written(t))
  }

  ghost function CreatedState(): Sys
    requires Created().Ok?
  {
    START.(db := Over(EMPTY, Created().value), hist := map[TABLE := Genesis(FIRST, COLUMNS)])
  }

  function Locked(db: Db, t: TxnId): Writer
    requires Begin(LENIENT, db, SetOne(t)).Ok?
  {
    var session := Begin(LENIENT, db, SetOne(t)).value;
    Writer(LENIENT, SetOne(t), session, 0, 0, map[], session.work)
  }

  function Applied(db: Db, t: TxnId): Writer
    requires Begin(LENIENT, db, SetOne(t)).Ok?
  {
    var w := Locked(db, t);
    w.(done := 1, work := w.work.(properties := map["k" := "v"]))
  }

  ghost function PublishedState(s: Sys, t: TxnId): Sys
    requires TABLE in s.hist && Begin(LENIENT, s.db, SetOne(t)).Ok?
  {
    var w := Applied(s.db, t);
    Sys(Over(s.db, Written(t)), Advance(s.hist, TABLE, ChangeOf(w.session.ctx, SetOne(t).ops, 1, w.work)), map[],
      [SetOne(t)])
  }

  lemma CreateTaken()
    ensures Created().Ok? && JustCreated(CreatedState().db)
            && NextStep(START, CreatedState(), Create(LENIENT, TABLE, COLUMNS, None, FIRST))
  {
    CreationAccepted();
  }

  lemma LockTaken(s: Sys, t: TxnId)
    requires JustCreated(s.db) && t != 10 && s.writers == map[]
    ensures Begin(LENIENT, s.db, SetOne(t)).Ok?
    ensures NextStep(s, s.(writers := map[0 := Locked(s.db, t)]), Lock(0, LENIENT, SetOne(t)))
  {
    MutationAccepted(t);
  }

  lemma ApplyTaken(s: Sys, t: TxnId)
    requires JustCreated(s.db) && t != 10 && s.writers == map[0 := Locked(s.db, t)]
    ensures NextStep(s, s.(writers := map[0 := Applied(s.db, t)]), Apply(0))
  {
    assert SetOne(t).ops[0] == SetProperties(map["k" := "v"]);
  }

  lemma PublishTaken(s: Sys, t: TxnId)
    requires JustCreated(s.db) && t != 10 && s.writers == map[0 := Applied(s.db, t)] && s.log == [] && TABLE in s.hist
    ensures NextStep(s, PublishedState(s, t), Publish(0))
  {
    var w := Applied(s.db, t);
    assert Finish(LENIENT, s.db, w.req, w.session, w.work) == Ok(Written(t));
    assert map[0 := w] - {0} == map[];
  }

  lemma PublishedChain(s: Sys, t: TxnId)
    requires TABLE in s.hist && s.hist[TABLE].chain == [10] && Begin(LENIENT, s.db, SetOne(t)).Ok?
    ensures TABLE in PublishedState(s, t).hist && PublishedState(s, t).hist[TABLE].chain == [10, t]
  {
  }

  lemma OnlyLock(
    run: nat -> Sys, n: nat, i: nat, env: Env, req: Request, s1: Sys, s2: Sys, s3: Sys, s4: Sys, t: TxnId)
    requires LockAt(run, n, i, env, req)
    requires n == 0 ==> run(n) == START && run(n + 1) == s1
    requires n == 1 ==> run(n) == s1 && run(n + 1) == s2
    requires n == 2 ==> run(n) == s2 && run(n + 1) == s3
    requires n == 3 ==> run(n) == s3 && run(n + 1) == s4
    requires n >= 4 ==> run(n) == s4 && run(n + 1) == s4
    requires s1.writers == map[] && s2.writers.Keys == {0} && s3.writers.Keys == {0} && s4.writers == map[]
    requires 0 in s2.writers && s2.writers[0].req == SetOne(t)
    ensures n == 1 && req == SetOne(t)
  {
    hide Free, Unlocked, CheckMutation, Begin;
    var a, b := run(n).writers, run(n + 1).writers;
    assert i !in a && i in b && b[i].req == req;
  }

  lemma LocksInOrder(run: nat -> Sys, s1: Sys, s2: Sys, s3: Sys, s4: Sys, t: TxnId)
    requires run(0) == START && run(1) == s1 && run(2) == s2 && run(3) == s3 && forall n: nat :: n >= 4 ==> run(n) == s4
    requires s1.writers == map[] && s2.writers.Keys == {0} && s3.writers.Keys == {0} && s4.writers == map[]
    requires 0 in s2.writers && s2.writers[0].req == SetOne(t)
    ensures t > 10 ==> IdSource(run)
  {
    hide LockAt;
    forall n: nat, i: nat, env, req | LockAt(run, n, i, env, req) ensures req == SetOne(t) {
      OnlyLock(run, n, i, env, req, s1, s2, s3, s4, t);
    }
  }

  lemma RunExists(t: TxnId) returns (run: nat -> Sys)
    requires t != 10
    ensures TwoStepRun(run, t) && (t > 10 ==> IdSource(run))
  {
    hide NextStep, Created, Begin, JustCreated, Written, Advance;
    CreateTaken();
    var s1 := CreatedState();
    LockTaken(s1, t);
    var s2 := s1.(writers := map[0 := Locked(s1.db, t)]);
    ApplyTaken(s2, t);
    var s3 := s2.(writers := map[0 := Applied(s1.db, t)]);
    PublishTaken(s3, t);
    var s4 := PublishedState(s3, t);
    run := (n: nat) =>
      if n == 0 then START else if n == 1 then s1 else if n == 2 then s2 else if n == 3 then s3 else s4;
    PublishedChain(s3, t);
    forall n: nat ensures NextAt(run, n) {
      assert n == 0 || n == 1 || n == 2 || n == 3 || run(n + 1) == run(n);
    }
    LocksInOrder(run, s1, s2, s3, s4, t);
  }

  /** The invariant and the hypotheses of the commit and reader theorems are met by a run. */
  lemma FirstCommit(t: TxnId) returns (run: nat -> Sys)
    requires t != 10
    ensures TwoStepRun(run, t) && CommitWrites(LENIENT, run(1).db, SetOne(t)) == Ok(Written(t))
    ensures t > 10 ==> IdSource(run)
    ensures TableGrows(run(1), run(4), TABLE) && Inv(run(1).db, run(1).hist) && Inv(run(4).db, run(4).hist)
  {
    hide Run, IdSource, CommitWrites, TableGrows, Inv, WritersOk, LogOk;
    run := RunExists(t);
    CommitAccepted(run(1).db, t);
    RunKeepsInvariant(run, 1);
    RunKeepsInvariant(run, 4);
    RunGrows(run, TABLE, 1, 4);
  }

  // ---------- ids out of order ----------

  /** A head whose id is below the start of its only schema cannot be read. */
  lemma HeadUnreadable(db: Db, r: Result<View>)
    requires TABLE in db.tables && db.tables[TABLE] == TableRow(1, Some(5), Some(2), map["k" := "v"], 1, 1)
    requires db.schemas == map[2 := SchemaRow(1, 1, 10, None)] && IsRead(Still(db), LENIENT, TABLE, None, r)
    ensures r == Err(NoSchemaAtTransaction)
  {
    var path, end :| IsReadAlong(Still(db), db.tables[TABLE], 5, path, end, r);
    forall i | 0 <= i < |path| - 1 ensures path[i] != 5 { assert WalkStep(Still(db), 1, 1, 5, path, i); }
  }

  /** With an id source out of order the catalog accepts a commit and then cannot read its own head: the creation
      takes id 10, the commit id 5, and no schema is valid at 5. */
  method ReadAfterOutOfOrderCommit() returns (r: Result<View>)
    ensures r == Err(NoSchemaAtTransaction)
  {
    hide IsRead, CommitWrites, CreateWrites, Committed, Inv, SliceOf, NewSlice, CreateAcceptable, CommitAcceptable,
      Meaning.Live, Meaning.LiveAfter, Meaning.PropertiesAfter, TellsView, ReadAt, OthersKept, Increasing, ValidSchema;
    CreationAccepted();
    var catalog := new Catalog(LENIENT);
    var created := catalog.CreateTable(TABLE, COLUMNS, None, FIRST);
    CommitAccepted(catalog.db, 5);
    var committed := catalog.Commit(SetOne(5));
    assert committed == Ok(5);
    r := catalog.Read(TABLE, None);
    HeadUnreadable(catalog.db, r);
  }

  // ---------- a listing's first query ----------

  /** The listing of the commit by queries that, from the existence check on, see it published. */
  lemma LateWalk(obs: Schedule, db: Db, path: seq<TxnId>)
    requires obs(2) == db && TxnsIn(db.txns, 1) == map[10 := None, 20 := Some(10)] && path == [20]
    ensures SegmentWalk(obs, 2, 1, Some(10), path, Reached) && Reverse(path) == path
  {
    assert path[1..] == [];
  }

  ghost predicate JustCommitted(db: Db) {
    && TABLE in db.tables && db.tables[TABLE] == TableRow(1, Some(20), Some(2), map["k" := "v"], 1, 1)
    && TxnsIn(db.txns, 1) == map[10 := None, 20 := Some(10)]
    && db.schemas == map[2 := SchemaRow(1, 1, 10, None)] && db.files == map[]
  }

  lemma CommitLeaves(db: Db)
    requires JustCreated(db)
    ensures JustCommitted(Over(db, Written(20)))
  {
  }

  lemma NothingChanged(db: Db)
    requires db.schemas == map[2 := SchemaRow(1, 1, 10, None)] && db.files == map[]
    ensures AddedIn(FilesIn(db.files, 1), 20) == map[] && RemovedIn(FilesIn(db.files, 1), 20) == map[]
    ensures ChangedIn(SchemasIn(db.schemas, 1), 20) == map[]
  {
  }

  ghost predicate SeesAfter(obs: Schedule, db: Db) {
    forall k: nat :: 1 <= k ==> obs(k) == db
  }

  lemma LateEvent(obs: Schedule, db: Db)
    requires SeesAfter(obs, db) && JustCommitted(db)
    ensures EventAt(obs, 3, 1, [20], [TxnEvent(20, [], None)], 0)
  {
    var e := TxnEvent(20, [], None);
    assert obs(3) == db && obs(4) == db && obs(5) == db && obs(6) == db;
    NothingChanged(db);
    assert e.changes[..0] == [] && e.changes[0..] == [];
    assert IsEvent(FilesIn(db.files, 1), FilesIn(db.files, 1), SchemasIn(db.schemas, 1), db.columns, 20, e);
  }

  lemma LateFacts(obs: Schedule, db: Db)
    requires SeesAfter(obs, db) && JustCommitted(db)
    ensures FirstFault(AllFacts(obs, 3, 1, [20]), 1) == None
  {
    assert obs(3) == db && obs(4) == db && obs(5) == db && obs(6) == db;
    NothingChanged(db);
    var facts := AllFacts(obs, 3, 1, [20]);
    assert facts[0] == FactsAt(obs, 3, 1, 20);
    assert FirstFault(facts, 0) == None;
    assert Sum(facts, 0, AddedCount) == 0 && Sum(facts, 0, RemovedCount) == 0 && Sum(facts, 0, SchemaCount) == 0;
  }

  lemma LateEvents(obs: Schedule, db: Db, path: seq<TxnId>)
    requires SeesAfter(obs, db) && JustCommitted(db) && path == [20]
    ensures IsEventList(obs, 3, 1, path, Ok([TxnEvent(20, [], None)]))
  {
    hide EventAt, FirstFault, AllFacts;
    LateEvent(obs, db);
    LateFacts(obs, db);
    var events := [TxnEvent(20, [], None)];
    forall i | 0 <= i < 1 ensures EventAt(obs, 3, 1, [20], events, i) { assert i == 0; }
  }

  lemma LateListing(obs: Schedule, db: Db)
    requires SeesAfter(obs, db) && JustCommitted(db)
    requires TABLE in obs(0).tables && obs(0).tables[TABLE].uuid == 1 && obs(0).tables[TABLE].head.Some?
    ensures IsListing(obs, TABLE, Some(10), 20, Ok([TxnEvent(20, [], None)]))
  {
    hide SegmentWalk, IsEventList, Reverse;
    var path: seq<TxnId> := [20];
    assert obs(1) == db && obs(2) == db;
    LateWalk(obs, db, path);
    LateEvents(obs, db, path);
    assert IsListingAlong(obs, 1, Some(10), path, Reached, Ok([TxnEvent(20, [], None)]));
  }

  /** Why the first query's state cannot always stand for a listing: in this run the commit of transaction 20 is
      published between the first query and the existence check, and the listing succeeds although transaction 20
      is unknown to the state the first query saw. */
  lemma MissedPublication() returns (run: nat -> Sys, at: nat -> nat, r: Result<seq<TxnEvent>>)
    ensures Run(run) && Sampled(run, at) && IsListing(Seen(run, at), TABLE, Some(10), 20, r)
    ensures r.Ok? && !Linearizes(Seen(run, at), TABLE, 0, Some(10), 20, r)
  {
    hide Run, Followed, IsListing, Linearizes;
    run := RunExists(20);
    at, r := (k: nat) => if k == 0 then 1 else 4, Ok([TxnEvent(20, [], None)]);
    CommitLeaves(run(1).db);
    LateListing(Seen(run, at), run(4).db);
    RunIsFollowed(run, at, TABLE);
    FirstQueryLinearizesIff(Seen(run, at), SeenHist(run, at), TABLE, Some(10), 20, r);
    assert Seen(run, at)(0) == run(1).db && Seen(run, at)(1) == run(4).db;
    assert 20 !in TxnsIn(run(1).db.txns, 1) && 20 in TxnsIn(run(4).db.txns, 1);
  }

  // ---------- a diff that hides a property change ----------

  lemma NoFilesVisible(s: Slice, h: Hist, k: nat)
    requires SliceOk(s, h) && k < |h.chain| && s.files == map[]
    ensures Snapshot(s, h, k).Ok?
  {
    assert VisibleAt(s.files, h.chain, k) == map[];
  }

  lemma BothReadable(db: Db, hs: map<TableIdent, Hist>, t: TxnId)
    requires JustCommitted(db) && TableOk(db, hs, TABLE) && t in hs[TABLE].chain && Increasing(hs[TABLE].chain)
    ensures ReadAt(LENIENT, SliceOf(db, TABLE), hs[TABLE], Some(t)).Ok?
    ensures IsRead(Shift(Still(db), 2), LENIENT, TABLE, Some(t),
            ReadAt(LENIENT, SliceOf(db, TABLE), hs[TABLE], Some(t)))
  {
    hide IsRead, FilesOk, SchemasOk, ColumnsOk, EvolutionOk, Snapshot;
    NoFilesVisible(SliceOf(db, TABLE), hs[TABLE], Index(hs[TABLE].chain, t));
    AtomicReadExists(Shift(Still(db), 2), db, hs, LENIENT, TABLE, Some(t));
  }

  lemma QuietDiff(db: Db, hs: map<TableIdent, Hist>) returns (d: TableDelta)
    requires JustCommitted(db) && TableOk(db, hs, TABLE) && hs[TABLE].chain == [10, 20]
    ensures IsDiff(Still(db), LENIENT, TABLE, 10, 20, Ok(d)) && d.newProperties == None && d.added == map[]
            && d.removed == map[]
  {
    hide IsListing, IsRead, ReadAt, SliceOk;
    LateListing(Still(db), db);
    BothReadable(db, hs, 10);
    BothReadable(db, hs, 20);
    var events := [TxnEvent(20, [], None)];
    var a, b := ReadAt(LENIENT, SliceOf(db, TABLE), hs[TABLE], Some(10)),
      ReadAt(LENIENT, SliceOf(db, TABLE), hs[TABLE], Some(20));
    NoChanges(events);
    d := Project(10, 20, events, a.value, b.value);
    assert IsDiffRead(Still(db), LENIENT, TABLE, 10, 20, events, 2, a, Ok(d));
    assert IsDiffAfter(Still(db), LENIENT, TABLE, 10, 20, Ok(events), Ok(d));
    var listed, q, x, p, y := DiffComparesTwoMoments(Still(db), LENIENT, TABLE, 10, 20, d);
  }

  /** The commit of transaction 20 does nothing but set a property, yet the diff across it is Ok and empty. */
  lemma DiffHidesPropertyChange() returns (run: nat -> Sys, d: TableDelta)
    ensures TwoStepRun(run, 20) && IsDiff(Still(run(4).db), LENIENT, TABLE, 10, 20, Ok(d))
    ensures TABLE in run(1).db.tables && TABLE in run(4).db.tables
    ensures run(1).db.tables[TABLE].properties == map[] && run(4).db.tables[TABLE].properties == map["k" := "v"]
    ensures d.newProperties == None && d.added == map[] && d.removed == map[]
  {
    hide Run, IsDiff, SliceOk, GlobalOk, Grows;
    run := FirstCommit(20);
    CommitLeaves(run(1).db);
    d := QuietDiff(run(4).db, run(4).hist);
  }

  lemma NoChanges(events: seq<TxnEvent>)
    requires |events| == 1 && events[0].changes == []
    ensures NetOf(ChangesOf(events)) == Net(map[], map[])
  {
    assert ChangesOf(events[..0]) == [];
  }
}
