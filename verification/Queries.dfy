/** The loops of `read_table`, `list_transaction_events` and `diff_table` over one database state. They
    terminate on any parent map, cyclic and dangling ones included. */
module Queries {
  import opened CatalogTypes
  import opened Limits
  import opened Statements
  import opened History
  import opened Views
  import opened Readers
  import opened Events
  import opened Delta
  import opened Diff
  import opened Framing

  function OwnTxns(db: Db, table: Uuid): map<TxnId, Option<TxnId>> {
    TxnsIn(db.txns, table)
  }

  lemma MoreVisited(visited: set<TxnId>, t: TxnId, all: set<TxnId>)
    requires visited <= all && t in all && t !in visited
    ensures |all - (visited + {t})| < |all - visited|
  {
    assert all - visited == (all - (visited + {t})) + {t};
  }

  // ---------- the walk from the head ----------

  /** What the walk has done on reaching the last element of `path`. */
  ghost predicate HeadPath(db: Db, q: nat, table: Uuid, target: TxnId, path: seq<TxnId>) {
    && |path| > 0 && Distinct(path[..|path| - 1])
    && (forall i {:trigger WalkStep(Still(db), q, table, target, path, i)} ::
          0 <= i < |path| - 1 ==> WalkStep(Still(db), q, table, target, path, i))
  }

  lemma HeadPathExtends(db: Db, q: nat, table: Uuid, target: TxnId, done: seq<TxnId>, cursor: TxnId, next: TxnId)
    requires HeadPath(db, q, table, target, done + [cursor]) && cursor !in done && cursor != target
    requires cursor in OwnTxns(db, table) && OwnTxns(db, table)[cursor] == Some(next)
    ensures HeadPath(db, q, table, target, done + [cursor] + [next])
  {
    var path, longer := done + [cursor], done + [cursor] + [next];
    assert path[..|path| - 1] == done && longer[..|longer| - 1] == path;
    forall i | 0 <= i < |longer| - 1 ensures WalkStep(Still(db), q, table, target, longer, i) {
      if i < |path| - 1 { assert WalkStep(Still(db), q, table, target, path, i); }
    }
  }

  lemma HeadWalkEnds(db: Db, q: nat, table: Uuid, target: TxnId, done: seq<TxnId>, cursor: TxnId, end: WalkEnd)
    requires HeadPath(db, q, table, target, done + [cursor])
    requires end == if cursor in done then Cycle else if cursor == target then Found
                    else if cursor !in OwnTxns(db, table) then Broken else Missing
    requires end.Missing? ==> OwnTxns(db, table)[cursor].None?
    ensures HeadWalk(Still(db), q, table, target, done + [cursor], end)
  {
    var path := done + [cursor];
    assert path[..|path| - 1] == done;
  }

  /** Follows parents from the head until the target, a root, a missing row or a repetition. */
  method WalkToTarget(db: Db, table: Uuid, head: TxnId, target: TxnId) returns (end: WalkEnd)
    ensures exists path :: path != [] && path[0] == head && HeadWalk(Still(db), 1, table, target, path, end)
  {
    hide HeadPath, HeadWalk, TxnsIn;
    var txns := OwnTxns(db, table);
    var cursor, visited: set<TxnId> := head, {};
    ghost var done: seq<TxnId>, path: seq<TxnId> := [], [head];
    StartHeadPath(db, 1, table, target, head);
    while true
      invariant path == done + [cursor] && path[0] == head && HeadPath(db, 1, table, target, path)
      invariant (forall t :: t in visited <==> t in done) && visited <= txns.Keys
      decreases |txns.Keys - visited|
    {
      if cursor in visited { end := Cycle; break; }
      if cursor == target { end := Found; break; }
      if cursor !in txns { end := Broken; break; }
      if txns[cursor].None? { end := Missing; break; }
      MoreVisited(visited, cursor, txns.Keys);
      HeadPathExtends(db, 1, table, target, done, cursor, txns[cursor].value);
      visited := visited + {cursor};
      done := path;
      cursor := txns[cursor].value;
      path := path + [cursor];
    }
    HeadWalkEnds(db, 1, table, target, done, cursor, end);
  }

  lemma StartHeadPath(db: Db, q: nat, table: Uuid, target: TxnId, head: TxnId)
    ensures HeadPath(db, q, table, target, [head])
  {
  }

  // ---------- ORDER BY ordinal_position ----------

  /** SELECT … ORDER BY ordinal_position. */
  method OrderByOrdinal(rows: set<ColumnRow>) returns (list: seq<ColumnRow>)
    ensures Ordered(rows, list)
  {
    list := [];
    var rest := rows;
    while rest != {}
      invariant Distinct(list) && (forall r :: r in rows <==> r in list || r in rest)
                && (forall r :: r in list ==> r !in rest)
      invariant forall i, j :: 0 <= i < j < |list| ==> list[i].ordinal <= list[j].ordinal
      invariant forall r, q :: r in list && q in rest ==> r.ordinal <= q.ordinal
      decreases |rest|
    {
      SmallestExists(rest);
      var r :| r in rest && forall q :: q in rest ==> r.ordinal <= q.ordinal;
      list := list + [r];
      rest := rest - {r};
    }
  }

  // ---------- read_table ----------

  method ReadSnapshot(db: Db, ghost q: nat, row: TableRow, t: TxnId) returns (r: Result<View>)
    ensures IsSnapshot(Still(db), q, row, t, r)
  {
    var schemas := SchemasIn(db.schemas, row.uuid);
    if x :| x in schemas && Covers(schemas[x], t) {
      var columns := ColumnsFor(db.columns, x);
      if |columns| > MAX_COLUMNS_PER_SCHEMA {
        r := Err(TooManyColumns);
      } else {
        var list := OrderByOrdinal(columns);
        r := Assemble(row, t, SchemaView(x, schemas[x], list), VisibleIn(FilesIn(db.files, row.uuid), t));
      }
      assert IsSnapshotOf(Still(db), q, row, t, x, r);
    } else {
      r := Err(NoSchemaAtTransaction);
    }
  }

  method ReadTable(db: Db, env: Env, ident: TableIdent, at: Option<TxnId>) returns (r: Result<View>)
    ensures IsRead(Still(db), env, ident, at, r)
  {
    hide HeadWalk, IsSnapshot;
    if ident !in db.tables { return Err(TableNotFound); }
    var row := db.tables[ident];
    if env.reader < row.minReader { return Err(ProtocolTooOld); }
    if row.head.None? { return Err(NoCurrentTransaction); }
    var t := at.GetOr(row.head.value);
    var end := WalkToTarget(db, row.uuid, row.head.value, t);
    ghost var path :| path != [] && path[0] == row.head.value && HeadWalk(Still(db), 1, row.uuid, t, path, end);
    match end {
      case Cycle => r := Err(ParentCycle);
      case Broken => r := Err(BrokenChain);
      case Missing => r := Err(NotInHistory);
      case Found => r := ReadSnapshot(db, |path|, row, t);
    }
    assert IsReadAlong(Still(db), row, t, path, end, r);
  }

  // ---------- list_transaction_events ----------

  ghost predicate SegmentPath(db: Db, q: nat, table: Uuid, from: Option<TxnId>, path: seq<TxnId>) {
    && |path| > 0 && Distinct(path[..|path| - 1])
    && (forall i {:trigger SegmentStep(Still(db), q, table, from, path, i)} ::
          0 <= i < |path| - 1 ==> SegmentStep(Still(db), q, table, from, path, i))
  }

  lemma SegmentPathExtends(
    db: Db, q: nat, table: Uuid, from: Option<TxnId>, done: seq<TxnId>, cursor: TxnId, next: TxnId)
    requires SegmentPath(db, q, table, from, done + [cursor]) && cursor !in done && from != Some(next)
    requires cursor in OwnTxns(db, table) && OwnTxns(db, table)[cursor] == Some(next)
    ensures SegmentPath(db, q, table, from, done + [cursor] + [next])
  {
    var path, longer := done + [cursor], done + [cursor] + [next];
    assert path[..|path| - 1] == done && longer[..|longer| - 1] == path;
    forall i | 0 <= i < |longer| - 1 ensures SegmentStep(Still(db), q, table, from, longer, i) {
      if i < |path| - 1 { assert SegmentStep(Still(db), q, table, from, path, i); }
    }
  }

  lemma StartSegmentPath(db: Db, q: nat, table: Uuid, from: Option<TxnId>, to: TxnId)
    ensures SegmentPath(db, q, table, from, [to])
  {
  }

  lemma SegmentWalkEnds(
    db: Db, q: nat, table: Uuid, from: Option<TxnId>, done: seq<TxnId>, cursor: TxnId, end: SegmentEnd)
    requires SegmentPath(db, q, table, from, done + [cursor]) && |done| <= MAX_TRANSACTIONS_PER_SCAN
    requires SegmentEnds(cursor in done, |done| + 1, OwnTxns(db, table), from, cursor, end)
    ensures SegmentWalk(Still(db), q, table, from, done + [cursor], end)
  {
    var path := done + [cursor];
    assert path[..|path| - 1] == done;
  }

  /** Follows parents from `to` until the boundary, a root, a missing row, a repetition or the limit, collecting
      the transactions newest first. */
  method WalkToBoundary(db: Db, table: Uuid, from: Option<TxnId>, to: TxnId) returns (end: SegmentEnd, desc: seq<TxnId>)
    ensures exists path :: path != [] && path[0] == to && (end.Reached? ==> desc == path)
                           && SegmentWalk(Still(db), 2, table, from, path, end)
  {
    hide SegmentPath, SegmentWalk, TxnsIn;
    var txns := OwnTxns(db, table);
    var cursor, visited: set<TxnId> := to, {};
    ghost var done: seq<TxnId>, path: seq<TxnId> := [], [to];
    desc := [];
    StartSegmentPath(db, 2, table, from, to);
    while true
      invariant desc == done && path == done + [cursor] && path[0] == to && |done| <= MAX_TRANSACTIONS_PER_SCAN
      invariant (forall t :: t in visited <==> t in done) && visited <= txns.Keys
                && SegmentPath(db, 2, table, from, path)
      decreases |txns.Keys - visited|
    {
      if cursor in visited { end := Repeated; break; }
      if cursor !in txns { end := Absent; break; }
      desc := desc + [cursor];
      if |desc| > MAX_TRANSACTIONS_PER_SCAN { end := TooLong; break; }
      if txns[cursor].None? { end := if from.None? then Reached else NoBoundary; break; }
      if txns[cursor] == from { end := Reached; break; }
      MoreVisited(visited, cursor, txns.Keys);
      SegmentPathExtends(db, 2, table, from, done, cursor, txns[cursor].value);
      visited := visited + {cursor};
      done := path;
      cursor := txns[cursor].value;
      path := path + [cursor];
    }
    SegmentWalkEnds(db, 2, table, from, done, cursor, end);
  }

  /** The rows of one query as changes. */
  method ListChanges(rows: map<Uuid, FileRow>, kind: ChangeKind, t: TxnId) returns (list: seq<FileChange>)
    ensures Lists(rows, kind, t, list)
  {
    list := [];
    var rest := rows.Keys;
    while rest != {}
      invariant rest <= rows.Keys
      invariant forall i :: 0 <= i < |list| ==>
                  && list[i].uuid in rows && list[i].uuid !in rest
                  && list[i] == FileChange(t, kind, list[i].uuid, rows[list[i].uuid])
      invariant forall i, j :: 0 <= i < j < |list| ==> list[i].uuid != list[j].uuid
      invariant forall u :: u in rows && u !in rest ==> ListsFile(list, u)
      decreases |rest|
    {
      var u :| u in rest;
      ghost var before := list;
      list := list + [FileChange(t, kind, u, rows[u])];
      assert list[|before|].uuid == u;
      forall v | v in rows && v !in rest ensures ListsFile(list, v) {
        if v != u {
          assert ListsFile(before, v);
          var i :| 0 <= i < |before| && before[i].uuid == v;
          assert list[i].uuid == v;
        }
      }
      rest := rest - {u};
    }
  }

  lemma {:induction false} FaultStays(facts: seq<Facts>, n: nat, m: nat)
    requires n <= m <= |facts| && FirstFault(facts, n).Some?
    ensures FirstFault(facts, m) == FirstFault(facts, n)
    decreases m
  {
    if m > n { FaultStays(facts, n, m - 1); }
  }

  /** The schema change of a transaction, if it has one. */
  method SchemaChange(db: Db, table: Uuid, t: TxnId) returns (r: Result<Option<SchemaView>>)
    ensures var changed := ChangedIn(SchemasIn(db.schemas, table), t);
            if |changed| > 1 then r == Err(AmbiguousSchema)
            else if exists x :: x in changed && |ColumnsFor(db.columns, x)| > MAX_COLUMNS_PER_SCHEMA then
              r == Err(TooManyColumns)
            else r.Ok? && IsSchemaChange(SchemasIn(db.schemas, table), db.columns, t, r.value)
                 && (r.value.Some? <==> |changed| == 1)
  {
    var changed := ChangedIn(SchemasIn(db.schemas, table), t);
    if |changed| > 1 { return Err(AmbiguousSchema); }
    if x :| x in changed {
      assert forall y :: y in changed ==> y == x by {
        forall y | y in changed ensures y == x { TwoKeys(changed, x, y); }
      }
      assert |changed| == 1 by { assert |changed.Keys| == |changed|; }
      var columns := ColumnsFor(db.columns, x);
      if |columns| > MAX_COLUMNS_PER_SCHEMA { return Err(TooManyColumns); }
      var list := OrderByOrdinal(columns);
      return Ok(Some(SchemaView(x, changed[x], list)));
    }
    return Ok(None);
  }

  lemma TwoKeys<K, V>(m: map<K, V>, x: K, y: K)
    requires x in m && y in m && |m| <= 1
    ensures x == y
  {
    if x != y {
      var two := {x, y};
      assert two <= m.Keys && |m.Keys| == |m|;
      assert |m.Keys| == |two| + |m.Keys - two| by { assert m.Keys == two + (m.Keys - two); }
    }
  }

  /** The event queries, transaction by transaction, with the running counters of the limit checks. */
  method ListEvents(db: Db, ghost q: nat, table: Uuid, txns: seq<TxnId>) returns (r: Result<seq<TxnEvent>>)
    ensures IsEventList(Still(db), q, table, txns, r)
  {
    hide FirstFault, Sum, EventAt, FactsAt, EventRead, Lists, IsSchemaChange, AddedIn, RemovedIn, ChangedIn, FilesIn,
      SchemasIn, ColumnsFor;
    var events: seq<TxnEvent> := [];
    var added, removed, changes := 0, 0, 0;
    ghost var facts := AllFacts(Still(db), q, table, txns);
    NoFaultYet(facts);
    for n := 0 to |txns|
      invariant |events| == n && FirstFault(facts, n).None?
      invariant added == Sum(facts, n, AddedCount) && removed == Sum(facts, n, RemovedCount)
                && changes == Sum(facts, n, SchemaCount)
      invariant forall i :: 0 <= i < n ==> EventRead(db, q, table, txns[i], events[i], i)
    {
      var t := txns[n];
      var addedRows := AddedIn(FilesIn(db.files, table), t);
      var removedRows := RemovedIn(FilesIn(db.files, table), t);
      var change := SchemaChange(db, table, t);
      NextFault(facts, n);
      FactsOf(db, q, table, txns, n);
      added := added + |addedRows|;
      if added > MAX_FILES_PER_QUERY {
        FaultStays(facts, n + 1, |txns|);
        return Err(TooManyFileEvents);
      }
      removed := removed + |removedRows|;
      if removed > MAX_FILES_PER_QUERY {
        FaultStays(facts, n + 1, |txns|);
        return Err(TooManyFileEvents);
      }
      if change == Err(AmbiguousSchema) {
        FaultStays(facts, n + 1, |txns|);
        return Err(AmbiguousSchema);
      }
      var found := change.Err? || change.value.Some?;
      changes := changes + if found then 1 else 0;
      if changes > MAX_SCHEMA_CHANGES_PER_SCAN {
        FaultStays(facts, n + 1, |txns|);
        return Err(TooManySchemaChanges);
      }
      if change.Err? {
        FaultStays(facts, n + 1, |txns|);
        return Err(TooManyColumns);
      }
      var first := ListChanges(addedRows, Added, t);
      var second := ListChanges(removedRows, Removed, t);
      var event := TxnEvent(t, first + second, change.value);
      AssembledEvent(db, q, table, t, n, event, first, second);
      events := events + [event];
    }
    SeenEvents(db, q, table, txns, events);
    return Ok(events);
  }

  lemma NoFaultYet(facts: seq<Facts>)
    ensures FirstFault(facts, 0).None?
    ensures Sum(facts, 0, AddedCount) == 0 && Sum(facts, 0, RemovedCount) == 0 && Sum(facts, 0, SchemaCount) == 0
  {
  }

  lemma NextFault(facts: seq<Facts>, n: nat)
    requires n < |facts| && FirstFault(facts, n).None?
    ensures Sum(facts, n + 1, AddedCount) == Sum(facts, n, AddedCount) + |facts[n].added|
    ensures Sum(facts, n + 1, RemovedCount) == Sum(facts, n, RemovedCount) + |facts[n].removed|
    ensures Sum(facts, n + 1, SchemaCount) == Sum(facts, n, SchemaCount) + |facts[n].schemas|
    ensures FirstFault(facts, n + 1) ==
              if Sum(facts, n + 1, AddedCount) > MAX_FILES_PER_QUERY then Some(TooManyFileEvents)
              else if Sum(facts, n + 1, RemovedCount) > MAX_FILES_PER_QUERY then Some(TooManyFileEvents)
              else if |facts[n].schemas| > 1 then Some(AmbiguousSchema)
              else if Sum(facts, n + 1, SchemaCount) > MAX_SCHEMA_CHANGES_PER_SCAN then Some(TooManySchemaChanges)
              else if facts[n].wide then Some(TooManyColumns)
              else None
  {
  }

  /** What the limit checks of one more transaction look at. */
  lemma FactsOf(db: Db, q: nat, table: Uuid, txns: seq<TxnId>, n: nat)
    requires n < |txns|
    ensures var f, changed := AllFacts(Still(db), q, table, txns)[n], ChangedIn(SchemasIn(db.schemas, table), txns[n]);
            && |f.added| == |AddedIn(FilesIn(db.files, table), txns[n])|
               && |f.removed| == |RemovedIn(FilesIn(db.files, table), txns[n])|
            && |f.schemas| == |changed|
            && (f.wide <==> exists x :: x in changed && |ColumnsFor(db.columns, x)| > MAX_COLUMNS_PER_SCHEMA)
  {
    var a, r := AddedIn(FilesIn(db.files, table), txns[n]), RemovedIn(FilesIn(db.files, table), txns[n]);
    var changed := ChangedIn(SchemasIn(db.schemas, table), txns[n]);
    assert |a.Keys| == |a| && |r.Keys| == |r| && |changed.Keys| == |changed|;
  }

  ghost predicate EventRead(db: Db, q: nat, table: Uuid, t: TxnId, e: TxnEvent, i: nat) {
    IsEvent(FilesIn(db.files, table), FilesIn(db.files, table), SchemasIn(db.schemas, table), db.columns, t, e)
  }

  lemma AssembledEvent(
    db: Db, q: nat, table: Uuid, t: TxnId, i: nat, e: TxnEvent, first: seq<FileChange>, second: seq<FileChange>)
    requires e.txn == t && e.changes == first + second
    requires IsSchemaChange(SchemasIn(db.schemas, table), db.columns, t, e.schema)
    requires Lists(AddedIn(FilesIn(db.files, table), t), Added, t, first)
    requires Lists(RemovedIn(FilesIn(db.files, table), t), Removed, t, second)
    ensures EventRead(db, q, table, t, e, i)
  {
    hide Lists, IsSchemaChange;
    assert e.changes[..|first|] == first && e.changes[|first|..] == second;
  }

  lemma SeenEvents(db: Db, q: nat, table: Uuid, txns: seq<TxnId>, events: seq<TxnEvent>)
    requires |events| == |txns| && forall i :: 0 <= i < |txns| ==> EventRead(db, q, table, txns[i], events[i], i)
    ensures forall i :: 0 <= i < |txns| ==> EventAt(Still(db), q, table, txns, events, i)
  {
    hide EventAt;
    forall i | 0 <= i < |txns| ensures EventAt(Still(db), q, table, txns, events, i) {
      SeenEvent(db, q, table, txns, events, i);
    }
  }

  lemma SeenEvent(db: Db, q: nat, table: Uuid, txns: seq<TxnId>, events: seq<TxnEvent>, i: nat)
    requires i < |events| == |txns| && EventRead(db, q, table, txns[i], events[i], i)
    ensures EventAt(Still(db), q, table, txns, events, i)
  {
    var p: nat := q + 4 * i;
    assert Still(db)(p) == db && Still(db)(p + 1) == db && Still(db)(p + 2) == db && Still(db)(p + 3) == db;
    assert IsEvent(FilesIn(db.files, table), FilesIn(db.files, table), SchemasIn(db.schemas, table), db.columns,
      txns[i], events[i]);
  }

  method ListTransactionEvents(
    db: Db, ident: TableIdent, from: Option<TxnId>, to: TxnId)
    returns (r: Result<seq<TxnEvent>>)
    ensures IsListing(Still(db), ident, from, to, r)
  {
    hide SegmentWalk, IsEventList;
    if ident !in db.tables { return Err(TableNotFound); }
    var row := db.tables[ident];
    if row.head.None? { return Err(NoCurrentTransaction); }
    if row.head.value != to && to !in OwnTxns(db, row.uuid) { return Err(UnknownTransaction); }
    var end, desc := WalkToBoundary(db, row.uuid, from, to);
    ghost var path :| path != [] && path[0] == to && (end.Reached? ==> desc == path)
                      && SegmentWalk(Still(db), 2, row.uuid, from, path, end);
    match end {
      case Repeated => r := Err(ParentCycle);
      case Absent => r := Err(UnknownTransaction);
      case TooLong => r := Err(TooManyTransactions);
      case NoBoundary => r := Err(NotAncestor);
      case Reached => r := ListEvents(db, 2 + |path|, row.uuid, Reverse(desc));
    }
    ListingFound(db, ident, from, to, path, end, r);
  }

  lemma ListingFound(
    db: Db, ident: TableIdent, from: Option<TxnId>, to: TxnId, path: seq<TxnId>, end: SegmentEnd,
    r: Result<seq<TxnEvent>>)
    requires ident in db.tables && db.tables[ident].head.Some?
    requires db.tables[ident].head.value == to || to in OwnTxns(db, db.tables[ident].uuid)
    requires path != [] && path[0] == to && IsListingAlong(Still(db), db.tables[ident].uuid, from, path, end, r)
    ensures IsListing(Still(db), ident, from, to, r)
  {
    hide IsListingAlong;
  }

  // ---------- diff_table ----------

  lemma ListedTable(db: Db, ident: TableIdent, from: Option<TxnId>, to: TxnId, events: seq<TxnEvent>)
    requires IsListing(Still(db), ident, from, to, Ok(events))
    ensures ident in db.tables
  {
  }

  method DiffTable(db: Db, env: Env, ident: TableIdent, from: TxnId, to: TxnId) returns (r: Result<TableDelta>)
    ensures IsDiff(Still(db), env, ident, from, to, r)
  {
    hide IsListing, IsRead;
    var listing := ListTransactionEvents(db, ident, Some(from), to);
    if listing.Err? {
      r := Err(listing.error);
    } else {
      ListedTable(db, ident, Some(from), to, listing.value);
      var a := ReadTable(db, env, ident, Some(from));
      ReadAlike(Still(db), db, Shift(Still(db), 2), db, env, ident, Some(from), a);
      if a.Err? {
        r := Err(a.error);
      } else {
        var b := ReadTable(db, env, ident, Some(to));
        ReadAlike(Still(db), db, Shift(Still(db), 2), db, env, ident, Some(to), b);
        if b.Err? {
          r := Err(b.error);
        } else {
          var added, removed := ProjectDeltaRange(listing.value);
          r := Ok(TableDelta(
                    from, to, added, removed,
                    if a.value.schema.uuid != b.value.schema.uuid then Some(b.value.schema) else None,
                    if a.value.properties != b.value.properties then Some(b.value.properties) else None));
        }
      }
      assert IsDiffRead(Still(db), env, ident, from, to, listing.value, 2, a, r);
    }
    assert IsDiffAfter(Still(db), env, ident, from, to, listing, r);
  }
}
