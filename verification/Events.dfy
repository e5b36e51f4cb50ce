/** `list_transaction_events` as its separate queries: the parent walk from `to` back to `from`,
    then the file, schema and column queries of each transaction, oldest first. */
module Events {
  import opened CatalogTypes
  import opened Limits
  import opened Statements
  import opened History
  import opened Views
  import opened Readers

  datatype SegmentEnd = Reached | NoBoundary | Repeated | Absent | TooLong

  /** The backward loop: `path` lists the transactions visited, newest first; the row of path[i] is
      read by query q + i. */
  ghost predicate SegmentWalk(
    obs: Schedule, q: nat, table: Uuid, from: Option<TxnId>, path: seq<TxnId>, end: SegmentEnd)
  {
    && 0 < |path| <= MAX_TRANSACTIONS_PER_SCAN + 1 && Distinct(path[..|path| - 1])
    && (forall i {:trigger SegmentStep(obs, q, table, from, path, i)} ::
          0 <= i < |path| - 1 ==> SegmentStep(obs, q, table, from, path, i))
    && var last := |path| - 1;
    && SegmentEnds(path[last] in path[..last], |path|, TxnsIn(obs(q + last).txns, table), from, path[last], end)
  }

  ghost predicate SegmentStep(obs: Schedule, q: nat, table: Uuid, from: Option<TxnId>, path: seq<TxnId>, i: nat)
    requires i + 1 < |path|
  {
    var txns := TxnsIn(obs(q + i).txns, table);
    path[i] in txns && txns[path[i]] == Some(path[i + 1]) && from != Some(path[i + 1])
  }

  /** How the loop body leaves at transaction t: the checks in the order the code makes them. */
  ghost predicate SegmentEnds(
    seen: bool, visited: nat, txns: map<TxnId, Option<TxnId>>, from: Option<TxnId>, t: TxnId, end: SegmentEnd)
  {
    if seen then end == Repeated
    else if t !in txns then end == Absent
    else if visited > MAX_TRANSACTIONS_PER_SCAN then end == TooLong
    else if txns[t].Some? then txns[t] == from && end == Reached
    else end == if from.None? then Reached else NoBoundary
  }

  function Reverse<T>(s: seq<T>): (r: seq<T>)
    ensures |r| == |s| && forall i :: 0 <= i < |s| ==> r[i] == s[|s| - 1 - i]
  {
    if |s| == 0 then [] else Reverse(s[1..]) + [s[0]]
  }

  // ---------- one event ----------

  /** A result of SELECT on the files of a table, turned into changes: each row once, in any order. */
  ghost predicate Lists(rows: map<Uuid, FileRow>, kind: ChangeKind, t: TxnId, list: seq<FileChange>) {
    && (forall i :: 0 <= i < |list| ==>
          list[i].uuid in rows && list[i] == FileChange(t, kind, list[i].uuid, rows[list[i].uuid]))
    && (forall i, j :: 0 <= i < j < |list| ==> list[i].uuid != list[j].uuid)
    && (forall u :: u in rows ==> ListsFile(list, u))
  }

  ghost predicate ListsFile(list: seq<FileChange>, u: Uuid) {
    exists i :: 0 <= i < |list| && list[i].uuid == u
  }

  function ChangedIn(schemas: map<Uuid, SchemaRow>, t: TxnId): map<Uuid, SchemaRow> {
    map x | x in schemas && schemas[x].validFrom == t :: schemas[x]
  }

  ghost predicate IsSchemaChange(
    schemas: map<Uuid, SchemaRow>, columns: set<ColumnRow>, t: TxnId, change: Option<SchemaView>)
  {
    match change
    case None => forall x :: x !in ChangedIn(schemas, t)
    case Some(v) =>
      && v.uuid in ChangedIn(schemas, t) && v.row == schemas[v.uuid]
      && Ordered(ColumnsFor(columns, v.uuid), v.columns)
  }

  /** The event of transaction t, from the rows its four queries return. */
  ghost predicate IsEvent(
    added: map<Uuid, FileRow>, removed: map<Uuid, FileRow>, schemas: map<Uuid, SchemaRow>, columns: set<ColumnRow>,
    t: TxnId, e: TxnEvent)
  {
    && e.txn == t && IsSchemaChange(schemas, columns, t, e.schema)
    && exists n :: 0 <= n <= |e.changes|
                   && Lists(AddedIn(added, t), Added, t, e.changes[..n])
                      && Lists(RemovedIn(removed, t), Removed, t, e.changes[n..])
  }

  // ---------- limits ----------

  /** What the limit checks look at for one transaction. */
  datatype Facts = Facts(added: set<Uuid>, removed: set<Uuid>, schemas: set<Uuid>, wide: bool)

  function AddedCount(f: Facts): nat { |f.added| }

  function RemovedCount(f: Facts): nat { |f.removed| }

  function SchemaCount(f: Facts): nat { |f.schemas| }

  function Sum(facts: seq<Facts>, n: nat, size: Facts -> nat): nat
    requires n <= |facts|
  {
    if n == 0 then 0 else Sum(facts, n - 1, size) + size(facts[n - 1])
  }

  /** The first check to fail while the first n transactions are processed. */
  function FirstFault(facts: seq<Facts>, n: nat): Option<CatalogError>
    requires n <= |facts|
  {
    if n == 0 then None else
      var before := FirstFault(facts, n - 1);
      if before.Some? then before
      else if Sum(facts, n, AddedCount) > MAX_FILES_PER_QUERY then Some(TooManyFileEvents)
      else if Sum(facts, n, RemovedCount) > MAX_FILES_PER_QUERY then Some(TooManyFileEvents)
      else if |facts[n - 1].schemas| > 1 then Some(AmbiguousSchema)
      else if Sum(facts, n, SchemaCount) > MAX_SCHEMA_CHANGES_PER_SCAN then Some(TooManySchemaChanges)
      else if facts[n - 1].wide then Some(TooManyColumns)
      else None
  }

  ghost function FactsAt(obs: Schedule, p: nat, table: Uuid, t: TxnId): Facts {
    var changed := ChangedIn(SchemasIn(obs(p + 2).schemas, table), t);
    Facts(AddedIn(FilesIn(obs(p).files, table), t).Keys, RemovedIn(FilesIn(obs(p + 1).files, table), t).Keys,
      changed.Keys,
          exists x :: x in changed && |ColumnsFor(obs(p + 3).columns, x)| > MAX_COLUMNS_PER_SCHEMA)
  }

  ghost function AllFacts(obs: Schedule, q: nat, table: Uuid, txns: seq<TxnId>): seq<Facts> {
    seq(|txns|, i requires 0 <= i < |txns| => FactsAt(obs, q + 4 * i, table, txns[i]))
  }

  ghost predicate EventAt(obs: Schedule, q: nat, table: Uuid, txns: seq<TxnId>, events: seq<TxnEvent>, i: nat)
    requires i < |txns| == |events|
  {
    var p := q + 4 * i;
    IsEvent(FilesIn(obs(p).files, table), FilesIn(obs(p + 1).files, table), SchemasIn(obs(p + 2).schemas, table),
            obs(p + 3).columns, txns[i], events[i])
  }

  /** The event queries for `txns`, four per transaction from query q on. */
  ghost predicate IsEventList(obs: Schedule, q: nat, table: Uuid, txns: seq<TxnId>, r: Result<seq<TxnEvent>>) {
    var fault := FirstFault(AllFacts(obs, q, table, txns), |txns|);
    if fault.Some? then r == Err(fault.value)
    else r.Ok? && |r.value| == |txns| && forall i :: 0 <= i < |txns| ==> EventAt(obs, q, table, txns, r.value, i)
  }

  /** The outcomes `list_transaction_events` may return under a schedule. */
  ghost predicate IsListing(
    obs: Schedule, ident: TableIdent, from: Option<TxnId>, to: TxnId, r: Result<seq<TxnEvent>>)
  {
    if ident !in obs(0).tables then r == Err(TableNotFound) else
      var row := obs(0).tables[ident];
      if row.head.None? then r == Err(NoCurrentTransaction)
      else if row.head.value != to && to !in TxnsIn(obs(1).txns, row.uuid) then r == Err(UnknownTransaction)
      else exists path, end :: path != [] && path[0] == to && IsListingAlong(obs, row.uuid, from, path, end, r)
  }

  ghost predicate IsListingAlong(
    obs: Schedule, table: Uuid, from: Option<TxnId>, path: seq<TxnId>, end: SegmentEnd, r: Result<seq<TxnEvent>>)
  {
    && SegmentWalk(obs, 2, table, from, path, end)
    && match end
       case Repeated => r == Err(ParentCycle)
       case Absent => r == Err(UnknownTransaction)
       case TooLong => r == Err(TooManyTransactions)
       case NoBoundary => r == Err(NotAncestor)
       case Reached => IsEventList(obs, 2 + |path|, table, Reverse(path), r)
  }

  // ---------- the walk on an arbitrary parent map ----------

  /** The segment (from, to], oldest first: each parent is the predecessor, the first one's is `from`. */
  ghost predicate IsSegment(txns: map<TxnId, Option<TxnId>>, from: Option<TxnId>, to: TxnId, seg: seq<TxnId>) {
    && |seg| > 0 && Last(seg) == to && Distinct(seg)
    && (forall i {:trigger SegmentLink(txns, from, seg, i)} :: 0 <= i < |seg| ==> SegmentLink(txns, from, seg, i))
  }

  ghost predicate SegmentLink(txns: map<TxnId, Option<TxnId>>, from: Option<TxnId>, seg: seq<TxnId>, i: nat)
    requires i < |seg|
  {
    && seg[i] in txns
    && if i == 0 then txns[seg[i]] == from else txns[seg[i]] == Some(seg[i - 1]) && Some(seg[i - 1]) != from
  }

  /** A finished walk has visited exactly a segment. */
  lemma WalkedSegment(db: Db, q: nat, table: Uuid, from: Option<TxnId>, path: seq<TxnId>, end: SegmentEnd)
    requires SegmentWalk(_ => db, q, table, from, path, end) && end.Reached?
    ensures IsSegment(TxnsIn(db.txns, table), from, path[0], Reverse(path))
  {
    var txns, seg, n := TxnsIn(db.txns, table), Reverse(path), |path|;
    forall i | 0 <= i < n ensures SegmentLink(txns, from, seg, i) {
      if i > 0 { assert SegmentStep(_ => db, q, table, from, path, n - 1 - i); }
    }
    forall i, j | 0 <= i < j < n ensures seg[i] != seg[j] {
      if i == 0 { assert path[n - 1 - j] in path[..n - 1]; }
      else { assert path[..n - 1][n - 1 - j] != path[..n - 1][n - 1 - i]; }
    }
  }

  /** Where a segment exists, the walk runs down it … */
  lemma {:induction false} WalkFollowsSegment(
    db: Db, q: nat, table: Uuid, from: Option<TxnId>, path: seq<TxnId>, end: SegmentEnd, seg: seq<TxnId>, i: nat)
    requires SegmentWalk(_ => db, q, table, from, path, end) && IsSegment(TxnsIn(db.txns, table), from, path[0], seg)
    requires i < |path|
    ensures i < |seg| && path[i] == seg[|seg| - 1 - i]
  {
    if i > 0 {
      WalkFollowsSegment(db, q, table, from, path, end, seg, i - 1);
      assert SegmentStep(_ => db, q, table, from, path, i - 1);
      assert SegmentLink(TxnsIn(db.txns, table), from, seg, |seg| - i);
    }
  }

  /** … so on any parent map, cyclic and dangling ones included, the walk succeeds exactly when a
      segment within the limit exists, and returns that segment, which is unique. */
  lemma SegmentWalkExact(
    db: Db, q: nat, table: Uuid, from: Option<TxnId>, path: seq<TxnId>, end: SegmentEnd, seg: seq<TxnId>)
    requires SegmentWalk(_ => db, q, table, from, path, end)
    ensures end.Reached? && seg == Reverse(path) ==>
              IsSegment(TxnsIn(db.txns, table), from, path[0], seg) && |seg| <= MAX_TRANSACTIONS_PER_SCAN
    ensures IsSegment(TxnsIn(db.txns, table), from, path[0], seg) ==>
              if |seg| <= MAX_TRANSACTIONS_PER_SCAN then end.Reached? && seg == Reverse(path) else end.TooLong?
  {
    var txns, last := TxnsIn(db.txns, table), |path| - 1;
    if end.Reached? { WalkedSegment(db, q, table, from, path, end); }
    if IsSegment(txns, from, path[0], seg) {
      forall i | 0 <= i <= last ensures i < |seg| && path[i] == seg[|seg| - 1 - i] {
        WalkFollowsSegment(db, q, table, from, path, end, seg, i);
      }
      assert SegmentLink(txns, from, seg, |seg| - 1 - last);
      assert forall i :: 0 <= i < last ==> path[i] != path[last];
      if last + 1 < |seg| {
        assert txns[path[last]] == Some(seg[|seg| - 2 - last]);
      }
    }
  }
}
