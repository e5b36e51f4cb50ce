/** Which errors a reader of a table can meet while commits go on, and that its queries always have an outcome. */
module Outcomes {
  import opened CatalogTypes
  import opened Limits
  import opened Statements
  import opened History
  import opened Commits
  import opened Views
  import opened Readers
  import opened Events
  import opened Listings
  import opened Diff

  // ---------- errors of listings ----------

  predicate ListingFault(e: CatalogError) {
    e in {UnknownTransaction, NotAncestor, TooManyTransactions, TooManyFileEvents, TooManySchemaChanges}
  }

  lemma AtMostOne<K, V>(m: map<K, V>)
    requires forall x, y :: x in m && y in m ==> x == y
    ensures |m| <= 1 && |m.Keys| <= 1
  {
    if x :| x in m { assert m.Keys == {x} && |m.Keys| == |m|; }
  }

  /** No two schemas start at the same transaction. */
  lemma OneSchemaPerTransaction(s: Slice, h: Hist)
    requires SchemasOk(s, h)
    ensures forall x, y :: x in s.schemas && y in s.schemas && s.schemas[x].validFrom == s.schemas[y].validFrom ==>
                             x == y
  {
    forall x, y | x in s.schemas && y in s.schemas && s.schemas[x].validFrom == s.schemas[y].validFrom ensures x == y {
      var i :| 0 <= i < |h.schemas| && h.schemas[i] == x;
      var j :| 0 <= j < |h.schemas| && h.schemas[j] == y;
      if i < j { StartsIncrease(s, h, i, j); }
      if j < i { StartsIncrease(s, h, j, i); }
    }
  }

  predicate Plain(f: Facts) {
    |f.schemas| <= 1 && !f.wide
  }

  lemma {:induction false} PlainFaults(facts: seq<Facts>, n: nat)
    requires n <= |facts| && forall i :: 0 <= i < n ==> Plain(facts[i])
    ensures FirstFault(facts, n) in {None, Some(TooManyFileEvents), Some(TooManySchemaChanges)}
  {
    if n > 0 { PlainFaults(facts, n - 1); }
  }

  lemma EventsArePlain(db: Db, hs: map<TableIdent, Hist>, ident: TableIdent, q: nat, lo: nat, hi: nat)
    requires TableOk(db, hs, ident) && lo <= hi <= |hs[ident].chain|
    ensures var facts := AllFacts(Still(db), q, db.tables[ident].uuid, hs[ident].chain[lo..hi]);
            forall i :: 0 <= i < |facts| ==> Plain(facts[i])
  {
    hide FilesOk, ColumnsOk, EvolutionOk, SchemasOk, SeesEvent, Followed, FactsAt;
    var hist: nat -> map<TableIdent, Hist> := _ => hs;
    var s, table, txns := SliceOf(db, ident), db.tables[ident].uuid, hs[ident].chain[lo..hi];
    StillFollowed(db, hs, ident);
    SegmentSeen(Still(db), hist, ident, 0, q, lo, hi);
    forall i | 0 <= i < |txns| ensures Plain(FactsAt(Still(db), q + 4 * i, table, txns[i])) {
      SameFacts(db, Still(db), q + 4 * i, table, txns[i]);
      OneSchemaPerTransaction(s, hs[ident]);
      AtMostOne(ChangedIn(s.schemas, txns[i]));
    }
  }

  lemma AtomicListingErrors(
    db: Db, hs: map<TableIdent, Hist>, ident: TableIdent, from: Option<TxnId>, to: TxnId, r: Result<seq<TxnEvent>>)
    requires TableOk(db, hs, ident) && IsListing(Still(db), ident, from, to, r)
    ensures r.Err? ==> ListingFault(r.error)
  {
    hide IsListing, SliceOk, FactsAt, FirstFault, ChainEnd, LowEnd, Index;
    ListingCovers(db, hs, ident, from, to, r);
    var c := hs[ident].chain;
    if to in c {
      var lo, hi := LowEnd(c, from, Index(c, to)), Index(c, to) + 1;
      EventsArePlain(db, hs, ident, 0, lo, hi);
      PlainFaults(AllFacts(Still(db), 0, db.tables[ident].uuid, c[lo..hi]), |c[lo..hi]|);
    }
  }

  /** The errors a listing can meet: an unknown target, a boundary that is no ancestor, or a limit. Cycles,
      ambiguous schemas and over-wide schemas do not occur, whatever commits fall between the queries. */
  lemma ListingErrors(
    obs: Schedule, hs: nat -> map<TableIdent, Hist>, ident: TableIdent, from: Option<TxnId>, to: TxnId,
    r: Result<seq<TxnEvent>>)
    requires Followed(obs, hs, ident) && IsListing(obs, ident, from, to, r)
    ensures r.Err? ==> ListingFault(r.error)
  {
    hide Followed, IsListing, SliceOk, SameEvent;
    TableSeen(obs, hs, ident, 1, 1);
    InterleavedListingIsAtomic(obs, hs, ident, from, to, r);
    var r0 :| IsListing(Still(obs(1)), ident, from, to, r0) && SameListing(r, r0);
    AtomicListingErrors(obs(1), hs(1), ident, from, to, r0);
  }

  // ---------- errors of reads ----------

  predicate ReadFault(e: CatalogError) {
    e in {ProtocolTooOld, NotInHistory, NoSchemaAtTransaction, TooManyFiles}
  }

  lemma SnapshotErrors(
    obs: Schedule, hs: nat -> map<TableIdent, Hist>, ident: TableIdent, q: nat, t: TxnId, r: Result<View>)
    requires Followed(obs, hs, ident) && TableOk(obs(0), hs(0), ident)
    requires IsSnapshot(obs, q, obs(0).tables[ident], t, r)
    ensures r.Err? ==> ReadFault(r.error)
  {
    hide Followed, SliceOk, SchemaOk, Stored, Covers, VisibleIn, Ordered;
    TableSeen(obs, hs, ident, q, q);
    var row, schemas := obs(0).tables[ident], SchemasIn(obs(q).schemas, obs(0).tables[ident].uuid);
    if exists x :: x in schemas && Covers(schemas[x], t) {
      var x :| x in schemas && Covers(schemas[x], t) && IsSnapshotOf(obs, q, row, t, x, r);
      SchemaFits(obs, hs, ident, q, x);
    }
  }

  lemma SchemaFits(obs: Schedule, hs: nat -> map<TableIdent, Hist>, ident: TableIdent, q: nat, x: Uuid)
    requires Followed(obs, hs, ident) && TableOk(obs(q), hs(q), ident) && x in SliceOf(obs(q), ident).schemas
    ensures |ColumnsFor(obs(q + 1).columns, x)| <= MAX_COLUMNS_PER_SCHEMA
  {
    hide Followed, FilesOk, EvolutionOk, Stored;
    var s, h := SliceOf(obs(q), ident), hs(q)[ident];
    var v :| 0 <= v < |h.schemas| && h.schemas[v] == x;
    ColumnsSeen(obs, hs, ident, q, v, 0);
    StoredSize(ColumnsFor(s.columns, x), h.specs[v]);
  }

  /** The errors a read of an existing table can meet: a reader too old, a target outside the history, a limit,
      or, where ids do not grow, no schema. Cycles, broken chains, missing heads and over-wide schemas do not
      occur, whatever commits fall between the queries. */
  lemma ReadErrors(
    obs: Schedule, hs: nat -> map<TableIdent, Hist>, env: Env, ident: TableIdent, at: Option<TxnId>, r: Result<View>)
    requires Followed(obs, hs, ident) && IsRead(obs, env, ident, at, r)
    ensures r.Err? ==> ReadFault(r.error)
    ensures Observed(obs, hs, ident) ==> r != Err(NoSchemaAtTransaction)
  {
    hide Followed, FilesOk, SchemasOk, ColumnsOk, EvolutionOk, HeadWalk, IsSnapshot, Spells, Distinct, Observed;
    FirstState(obs, hs, ident);
    var row := obs(0).tables[ident];
    var t, c := at.GetOr(Last(hs(0)[ident].chain)), hs(0)[ident].chain;
    if env.reader >= row.minReader {
      var path, end :| IsReadAlong(obs, row, t, path, end, r);
      ParentsSeen(obs, hs, ident);
      WalkExact(obs, 1, row.uuid, c, t, path, end);
      if end.Found? { SnapshotErrors(obs, hs, ident, |path|, t, r); }
    }
    if Observed(obs, hs, ident) { ObservedHasSchema(obs, hs, env, ident, at, r); }
  }

  lemma ObservedHasSchema(
    obs: Schedule, hs: nat -> map<TableIdent, Hist>, env: Env, ident: TableIdent, at: Option<TxnId>, r: Result<View>)
    requires Observed(obs, hs, ident) && IsRead(obs, env, ident, at, r)
    ensures r != Err(NoSchemaAtTransaction)
  {
    hide Observed, IsRead, SliceOk, SchemaAt, VisibleAt, FixedView;
    InterleavedReadIsAtomic(obs, hs, env, ident, at, r);
  }

  // ---------- reads have outcomes ----------

  lemma SnapshotHasOutcome(obs: Schedule, q: nat, row: TableRow, t: TxnId) returns (r: Result<View>)
    ensures IsSnapshot(obs, q, row, t, r)
  {
    var schemas := SchemasIn(obs(q).schemas, row.uuid);
    if x :| x in schemas && Covers(schemas[x], t) {
      var columns := ColumnsFor(obs(q + 1).columns, x);
      var list := OrderExists(columns);
      r := if |columns| > MAX_COLUMNS_PER_SCHEMA then Err(TooManyColumns)
           else Assemble(row, t, SchemaView(x, schemas[x], list), VisibleIn(FilesIn(obs(q + 2).files, row.uuid), t));
      assert IsSnapshotOf(obs, q, row, t, x, r);
    } else {
      r := Err(NoSchemaAtTransaction);
    }
  }

  /** However commits fall between its queries, a read comes to an end. */
  lemma ReadHasOutcome(obs: Schedule, hs: nat -> map<TableIdent, Hist>, env: Env, ident: TableIdent, at: Option<TxnId>)
    returns (r: Result<View>)
    requires Followed(obs, hs, ident)
    ensures IsRead(obs, env, ident, at, r)
  {
    hide Followed, FilesOk, SchemasOk, ColumnsOk, EvolutionOk, HeadWalk, IsSnapshot, Spells, Distinct;
    FirstState(obs, hs, ident);
    var row, c := obs(0).tables[ident], hs(0)[ident].chain;
    var t := at.GetOr(Last(c));
    if env.reader < row.minReader {
      r := Err(ProtocolTooOld);
    } else {
      var k := if t in c then Index(c, t) else 0;
      ParentsSeen(obs, hs, ident);
      WalkExists(obs, row.uuid, c, t, k);
      if t in c { r := SnapshotHasOutcome(obs, |Descent(c, k)|, row, t); } else { r := Err(NotInHistory); }
      assert IsReadAlong(obs, row, t, Descent(c, k), if t in c then Found else Missing, r);
    }
  }

  // ---------- listings have outcomes ----------

  function Span(c: seq<TxnId>, j: nat, n: nat): (path: seq<TxnId>)
    requires 0 < n <= j + 1 <= |c|
    ensures |path| == n && forall i :: 0 <= i < n ==> path[i] == c[j - i]
  {
    seq(n, i requires 0 <= i < n => c[j - i])
  }

  /** Along a chain the listing's walk takes place, down to the boundary, the root or the limit. */
  lemma SegmentExists(obs: Schedule, table: Uuid, c: seq<TxnId>, from: Option<TxnId>, j: nat) returns (path: seq<TxnId>)
    requires Distinct(c) && j < |c| && ParentsSeenFrom(obs, table, c, 2)
    ensures path != [] && path[0] == c[j] && SegmentWalk(obs, 2, table, from, path, ChainEnd(c, from, j))
  {
    var lo := LowEnd(c, from, j);
    var n := if j + 1 - lo > MAX_TRANSACTIONS_PER_SCAN then MAX_TRANSACTIONS_PER_SCAN + 1 else j + 1 - lo;
    path := Span(c, j, n);
    forall i | 0 <= i < n - 1 ensures SegmentStep(obs, 2, table, from, path, i) {
      assert ParentSeen(obs, table, c, 2 + i, j - i);
    }
    forall a, b | 0 <= a < b < n ensures path[a] != path[b] {}
    assert ParentSeen(obs, table, c, 2 + (n - 1), j - (n - 1));
    assert path[n - 1] !in path[..n - 1];
  }

  lemma {:induction false} ListExists(
    rows: map<Uuid, FileRow>, kind: ChangeKind, t: TxnId)
    returns (list: seq<FileChange>)
    ensures Lists(rows, kind, t, list)
    decreases |rows|
  {
    list := [];
    if u :| u in rows {
      var rest := ListExists(rows - {u}, kind, t);
      list := rest + [FileChange(t, kind, u, rows[u])];
      forall v | v in rows ensures ListsFile(list, v) {
        if v == u {
          assert list[|rest|].uuid == u;
        } else {
          assert ListsFile(rest, v);
          var i :| 0 <= i < |rest| && rest[i].uuid == v;
          assert list[i].uuid == v;
        }
      }
    }
  }

  lemma EventExists(
    added: map<Uuid, FileRow>, removed: map<Uuid, FileRow>, schemas: map<Uuid, SchemaRow>, columns: set<ColumnRow>,
    t: TxnId)
    returns (e: TxnEvent)
    ensures IsEvent(added, removed, schemas, columns, t, e)
  {
    hide Lists;
    var first := ListExists(AddedIn(added, t), Added, t);
    var second := ListExists(RemovedIn(removed, t), Removed, t);
    var change: Option<SchemaView> := None;
    if x :| x in ChangedIn(schemas, t) {
      var list := OrderExists(ColumnsFor(columns, x));
      change := Some(SchemaView(x, schemas[x], list));
    }
    e := TxnEvent(t, first + second, change);
    assert e.changes[..|first|] == first && e.changes[|first|..] == second;
  }

  ghost predicate EventFor(obs: Schedule, p: nat, table: Uuid, t: TxnId, e: TxnEvent) {
    IsEvent(FilesIn(obs(p).files, table), FilesIn(obs(p + 1).files, table), SchemasIn(obs(p + 2).schemas, table),
            obs(p + 3).columns, t, e)
  }

  lemma {:induction false} EventsExist(
    obs: Schedule, q: nat, table: Uuid, txns: seq<TxnId>, n: nat)
    returns (events: seq<TxnEvent>)
    requires n <= |txns|
    ensures |events| == n && forall i :: 0 <= i < n ==> EventFor(obs, q + 4 * i, table, txns[i], events[i])
  {
    hide IsEvent;
    events := [];
    if n > 0 {
      var p := q + 4 * (n - 1);
      var before := EventsExist(obs, q, table, txns, n - 1);
      var e := EventExists(
        FilesIn(obs(p).files, table), FilesIn(obs(p + 1).files, table), SchemasIn(obs(p + 2).schemas, table),
        obs(p + 3).columns, txns[n - 1]);
      events := before + [e];
    }
  }

  lemma EventListHasOutcome(obs: Schedule, q: nat, table: Uuid, txns: seq<TxnId>) returns (r: Result<seq<TxnEvent>>)
    ensures IsEventList(obs, q, table, txns, r)
  {
    hide FirstFault, FactsAt, IsEvent;
    var fault := FirstFault(AllFacts(obs, q, table, txns), |txns|);
    var events := EventsExist(obs, q, table, txns, |txns|);
    r := if fault.Some? then Err(fault.value) else Ok(events);
    forall i | 0 <= i < |txns| ensures EventAt(obs, q, table, txns, events, i) {
      assert EventFor(obs, q + 4 * i, table, txns[i], events[i]);
    }
  }

  /** However commits fall between its queries, a listing comes to an end. */
  lemma ListingHasOutcome(
    obs: Schedule, hs: nat -> map<TableIdent, Hist>, ident: TableIdent, from: Option<TxnId>, to: TxnId)
    returns (r: Result<seq<TxnEvent>>)
    requires Followed(obs, hs, ident)
    ensures IsListing(obs, ident, from, to, r)
  {
    hide Followed, SliceOk, SegmentWalk, IsEventList, ChainEnd, ParentsSeenFrom;
    TableSeen(obs, hs, ident, 0, 1);
    HeadListed(obs(0), hs(0), ident);
    var row, c := obs(0).tables[ident], hs(1)[ident].chain;
    if to !in c {
      r := Err(UnknownTransaction);
    } else {
      ParentsSeenSince(obs, hs, ident, 1);
      ChainDistinct(obs(1), hs(1), ident);
      ParentsSeenLater(obs, row.uuid, c);
      var path := SegmentExists(obs, row.uuid, c, from, Index(c, to));
      var end := ChainEnd(c, from, Index(c, to));
      match end {
        case Repeated => r := Err(ParentCycle);
        case Absent => r := Err(UnknownTransaction);
        case TooLong => r := Err(TooManyTransactions);
        case NoBoundary => r := Err(NotAncestor);
        case Reached => r := EventListHasOutcome(obs, 2 + |path|, row.uuid, Reverse(path));
      }
      assert IsListingAlong(obs, row.uuid, from, path, end, r);
    }
  }

  lemma ChainDistinct(db: Db, hs: map<TableIdent, Hist>, ident: TableIdent)
    requires TableOk(db, hs, ident)
    ensures Distinct(hs[ident].chain)
  {
  }

  lemma ParentsSeenLater(obs: Schedule, table: Uuid, c: seq<TxnId>)
    requires ParentsSeenFrom(obs, table, c, 1)
    ensures ParentsSeenFrom(obs, table, c, 2)
  {
  }

  // ---------- diffs have outcomes ----------

  lemma ShiftFollowed(obs: Schedule, hs: nat -> map<TableIdent, Hist>, ident: TableIdent, q: nat)
    requires Followed(obs, hs, ident)
    ensures Followed(Shift(obs, q), (k: nat) => hs(q + k), ident)
  {
    hide TableOk, Grows;
    var later: nat -> map<TableIdent, Hist> := (k: nat) => hs(q + k);
    forall i: nat, j: nat | i <= j ensures GrowsBetween(Shift(obs, q), later, ident, i, j) {
      assert GrowsBetween(obs, hs, ident, q + i, q + j);
    }
  }

  /** However commits fall between its queries, a diff comes to an end. */
  lemma DiffHasOutcome(
    obs: Schedule, hs: nat -> map<TableIdent, Hist>, env: Env, ident: TableIdent, from: TxnId, to: TxnId)
    returns (r: Result<TableDelta>)
    requires Followed(obs, hs, ident)
    ensures IsDiff(obs, env, ident, from, to, r)
  {
    hide Followed, IsListing, IsRead, Project;
    var listing := ListingHasOutcome(obs, hs, ident, Some(from), to);
    if listing.Err? {
      r := Err(listing.error);
    } else {
      ShiftFollowed(obs, hs, ident, 2);
      var a := ReadHasOutcome(Shift(obs, 2), (k: nat) => hs(2 + k), env, ident, Some(from));
      var b := ReadHasOutcome(Shift(obs, 2), (k: nat) => hs(2 + k), env, ident, Some(to));
      r := if a.Err? then Err(a.error) else if b.Err? then Err(b.error)
           else Ok(Project(from, to, listing.value, a.value, b.value));
      assert IsDiffRead(obs, env, ident, from, to, listing.value, 2, a, r);
    }
    assert IsDiffAfter(obs, env, ident, from, to, listing, r);
  }

  /** The errors a diff can meet: those of its listing and its reads. */
  lemma DiffErrors(
    obs: Schedule, hs: nat -> map<TableIdent, Hist>, env: Env, ident: TableIdent, from: TxnId, to: TxnId,
    r: Result<TableDelta>)
    requires Followed(obs, hs, ident) && IsDiff(obs, env, ident, from, to, r)
    ensures r.Err? ==> ListingFault(r.error) || ReadFault(r.error)
  {
    hide Followed, IsListing, IsRead, Project, ListingFault, ReadFault;
    var listing :| IsListing(obs, ident, Some(from), to, listing) && IsDiffAfter(obs, env, ident, from, to, listing, r);
    ListingErrors(obs, hs, ident, Some(from), to, listing);
    if listing.Ok? {
      var q: nat, a :| 2 <= q && IsRead(Shift(obs, q), env, ident, Some(from), a)
                       && IsDiffRead(obs, env, ident, from, to, listing.value, q, a, r);
      ShiftFollowed(obs, hs, ident, q);
      ReadErrors(Shift(obs, q), (k: nat) => hs(q + k), env, ident, Some(from), a);
      if a.Ok? {
        var p: nat, b :| q <= p && IsRead(Shift(obs, p), env, ident, Some(to), b)
                         && r == if b.Err? then Err(b.error)
                            else Ok(Project(from, to, listing.value, a.value, b.value));
        ShiftFollowed(obs, hs, ident, p);
        ReadErrors(Shift(obs, p), (k: nat) => hs(p + k), env, ident, Some(to), b);
      }
    }
  }
}
