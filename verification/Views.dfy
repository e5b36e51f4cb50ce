/** Table snapshots on one slice: the id-interval filters of `read_table` against the history
    they stand for. Nothing here but the `Increasing` lemmas compares transaction ids by size. */
module Views {
  import opened CatalogTypes
  import opened DataTypes
  import opened Limits
  import opened Validation
  import opened Statements
  import opened History

  datatype View = View(table: Uuid, txn: TxnId, schema: SchemaView, files: map<Uuid, FileRow>, properties: Properties)

  // ---------- the filters of the queries ----------

  /** added <= t AND (removed IS NULL OR removed > t) */
  function VisibleIn(files: map<Uuid, FileRow>, t: TxnId): map<Uuid, FileRow> {
    map u | u in files && files[u].added <= t && (files[u].removed.None? || files[u].removed.value > t) :: files[u]
  }

  /** valid_from <= t AND (valid_to IS NULL OR valid_to > t) */
  predicate Covers(row: SchemaRow, t: TxnId) {
    row.validFrom <= t && (row.validTo.None? || row.validTo.value > t)
  }

  /** A result of SELECT … ORDER BY ordinal_position. */
  ghost predicate Ordered(rows: set<ColumnRow>, list: seq<ColumnRow>) {
    && Distinct(list) && (forall r :: r in rows <==> r in list)
    && (forall i, j :: 0 <= i < j < |list| ==> list[i].ordinal <= list[j].ordinal)
  }

  // ---------- the same on positions of the chain ----------

  /** Files added at position k or before and not removed at k or before. */
  ghost function VisibleAt(files: map<Uuid, FileRow>, c: seq<TxnId>, k: nat): map<Uuid, FileRow> {
    map u | u in files && FileOk(files[u], c) && Index(c, files[u].added) <= k
            && (files[u].removed.Some? ==> k < Index(c, files[u].removed.value)) :: files[u]
  }

  /** Chain position at which schema i starts. */
  ghost function Start(s: Slice, h: Hist, i: nat): nat
    requires i < |h.schemas| && SchemaOk(s, h, i)
  {
    Index(h.chain, s.schemas[h.schemas[i]].validFrom)
  }

  /** Among the first n schemas, the last one that had started by chain position k. */
  ghost function VersionAt(s: Slice, h: Hist, k: nat, n: nat): (v: nat)
    requires 0 < n <= |h.schemas| && forall i :: 0 <= i < n ==> SchemaOk(s, h, i)
    ensures v < n
    decreases n
  {
    if n == 1 || Start(s, h, n - 1) <= k then n - 1 else VersionAt(s, h, k, n - 1)
  }

  ghost function ActiveVersion(s: Slice, h: Hist, k: nat): (v: nat)
    requires SchemasOk(s, h)
    ensures v < |h.schemas|
  {
    VersionAt(s, h, k, |h.schemas|)
  }

  function RowAt(rows: set<ColumnRow>, n: int): ColumnRow
    requires HasOrdinal(rows, n)
    requires forall q, r :: q in rows && r in rows && q.ordinal == r.ordinal ==> q == r
  {
    var r :| r in rows && r.ordinal == n; r
  }

  /** The rows of a stored specification in specification order. */
  function Listed(rows: set<ColumnRow>, n: nat): (list: seq<ColumnRow>)
    requires forall i :: 1 <= i <= n ==> HasOrdinal(rows, i)
    requires forall q, r :: q in rows && r in rows && q.ordinal == r.ordinal ==> q == r
    ensures |list| == n && forall i :: 0 <= i < n ==> list[i] in rows && list[i].ordinal == i + 1
  {
    seq(n, i requires 0 <= i < n => RowAt(rows, i + 1))
  }

  function Assemble(row: TableRow, t: TxnId, schema: SchemaView, files: map<Uuid, FileRow>): Result<View> {
    if |files| > MAX_FILES_PER_QUERY then Err(TooManyFiles)
    else Ok(View(row.uuid, t, schema, files, row.properties))
  }

  ghost function SchemaAt(s: Slice, h: Hist, k: nat): SchemaView
    requires SliceOk(s, h) && k < |h.chain|
  {
    var v := ActiveVersion(s, h, k);
    assert SchemaOk(s, h, v);
    var x := h.schemas[v];
    SchemaView(x, s.schemas[x], Listed(ColumnsFor(s.columns, x), |h.specs[v]|))
  }

  /** The atomic snapshot at chain position k, defined on the history. */
  ghost function Snapshot(s: Slice, h: Hist, k: nat): Result<View>
    requires SliceOk(s, h) && k < |h.chain|
  {
    Assemble(s.row, h.chain[k], SchemaAt(s, h, k), VisibleAt(s.files, h.chain, k))
  }

  // ---------- tiling ----------

  lemma {:induction false} StartsIncrease(s: Slice, h: Hist, i: nat, j: nat)
    requires SchemasOk(s, h) && i < j < |h.schemas|
    ensures SchemaOk(s, h, i) && SchemaOk(s, h, j) && Start(s, h, i) < Start(s, h, j)
    decreases j
  {
    assert SchemaOk(s, h, j - 1) && SchemaOk(s, h, j);
    if i < j - 1 { StartsIncrease(s, h, i, j - 1); }
  }

  /** Schema i is in force at chain position k: its row's interval holds it. */
  ghost predicate InForce(s: Slice, h: Hist, i: nat, k: nat)
    requires i < |h.schemas|
  {
    && SchemaOk(s, h, i)
    && var row := s.schemas[h.schemas[i]];
    && Index(h.chain, row.validFrom) <= k
    && (row.validTo.Some? ==> row.validTo.value in h.chain && k < Index(h.chain, row.validTo.value))
  }

  lemma InForceByStart(s: Slice, h: Hist, i: nat, k: nat)
    requires i < |h.schemas| && SchemaOk(s, h, i) && (i + 1 < |h.schemas| ==> SchemaOk(s, h, i + 1))
    ensures InForce(s, h, i, k) <==> Start(s, h, i) <= k && (i + 1 < |h.schemas| ==> k < Start(s, h, i + 1))
  {
  }

  lemma {:induction false} VersionBounds(s: Slice, h: Hist, k: nat, n: nat)
    requires 0 < n <= |h.schemas| && forall i :: 0 <= i < |h.schemas| ==> SchemaOk(s, h, i)
    requires n < |h.schemas| ==> k < Start(s, h, n)
    ensures var v := VersionAt(s, h, k, n);
            && (v > 0 ==> Start(s, h, v) <= k)
            && (v + 1 < |h.schemas| ==> k < Start(s, h, v + 1))
    decreases n
  {
    if n > 1 && Start(s, h, n - 1) > k { VersionBounds(s, h, k, n - 1); }
  }

  lemma FirstStart(s: Slice, h: Hist)
    requires SchemasOk(s, h) && Distinct(h.chain)
    ensures SchemaOk(s, h, 0) && Start(s, h, 0) == 0
  {
    assert SchemaOk(s, h, 0);
    assert h.chain[Index(h.chain, h.chain[0])] == h.chain[0];
  }

  lemma ActiveInForce(s: Slice, h: Hist, k: nat)
    requires SchemasOk(s, h) && Distinct(h.chain)
    ensures InForce(s, h, ActiveVersion(s, h, k), k)
  {
    var v := ActiveVersion(s, h, k);
    FirstStart(s, h);
    VersionBounds(s, h, k, |h.schemas|);
    assert SchemaOk(s, h, v);
    if v + 1 < |h.schemas| { assert SchemaOk(s, h, v + 1); }
    InForceByStart(s, h, v, k);
  }

  lemma InForceUnique(s: Slice, h: Hist, i: nat, j: nat, k: nat)
    requires SchemasOk(s, h) && i < j < |h.schemas| && InForce(s, h, i, k)
    ensures !InForce(s, h, j, k)
  {
    assert SchemaOk(s, h, i) && SchemaOk(s, h, i + 1) && SchemaOk(s, h, j);
    InForceByStart(s, h, i, k);
    if i + 1 < j { StartsIncrease(s, h, i + 1, j); }
  }

  /** Schema intervals tile history: at every position exactly one schema is in force, versions count
      up from 1 in chain order, and the open interval is the current schema's. */
  lemma SchemasTile(s: Slice, h: Hist, k: nat, i: nat)
    requires SliceOk(s, h) && k < |h.chain| && i < |h.schemas|
    ensures InForce(s, h, i, k) <==> i == ActiveVersion(s, h, k)
    ensures SchemaOk(s, h, i) && s.schemas[h.schemas[i]].version == i + 1
    ensures s.schemas[h.schemas[i]].validTo.None? <==> s.row.schema == Some(h.schemas[i])
  {
    var v := ActiveVersion(s, h, k);
    assert SchemaOk(s, h, i);
    ActiveInForce(s, h, k);
    if i < v && InForce(s, h, i, k) { InForceUnique(s, h, i, v, k); }
    if v < i { InForceUnique(s, h, v, i, k); }
  }

  lemma SmallerMeansEarlier(c: seq<TxnId>, a: TxnId, k: nat)
    requires Increasing(c) && a in c && k < |c|
    ensures a <= c[k] <==> Index(c, a) <= k
  {
  }

  /** With growing ids, the interval filter on schemas returns the one schema in force, so LIMIT 1 is unambiguous. */
  lemma SchemaFilterExact(s: Slice, h: Hist, k: nat, x: Uuid)
    requires SliceOk(s, h) && Increasing(h.chain) && k < |h.chain| && x in s.schemas
    ensures Covers(s.schemas[x], h.chain[k]) <==> x == h.schemas[ActiveVersion(s, h, k)]
  {
    assert x in h.schemas;
    var i :| 0 <= i < |h.schemas| && h.schemas[i] == x;
    SchemasTile(s, h, k, i);
    var row := s.schemas[x];
    SmallerMeansEarlier(h.chain, row.validFrom, k);
    if row.validTo.Some? { SmallerMeansEarlier(h.chain, row.validTo.value, k); }
    assert Distinct(h.schemas);
  }

  /** With growing ids, the interval filter on files returns the files live at position k. */
  lemma FileFilterExact(s: Slice, h: Hist, k: nat)
    requires SliceOk(s, h) && Increasing(h.chain) && k < |h.chain|
    ensures VisibleIn(s.files, h.chain[k]) == VisibleAt(s.files, h.chain, k)
  {
    FilesFilterExact(s.files, h.chain, k);
  }

  lemma FilesFilterExact(files: map<Uuid, FileRow>, c: seq<TxnId>, k: nat)
    requires (forall u :: u in files ==> FileOk(files[u], c)) && Increasing(c) && k < |c|
    ensures VisibleIn(files, c[k]) == VisibleAt(files, c, k)
  {
    forall u | u in files ensures u in VisibleIn(files, c[k]) <==> u in VisibleAt(files, c, k) {
      var f := files[u];
      assert FileOk(f, c);
      SmallerMeansEarlier(c, f.added, k);
      if f.removed.Some? { SmallerMeansEarlier(c, f.removed.value, k); }
    }
  }

  // ---------- filters over whole tables ----------

  ghost predicate FilesFilteredRight(s: Slice, h: Hist) {
    forall k: nat {:trigger VisibleAt(s.files, h.chain, k)} ::
      k < |h.chain| ==> VisibleIn(s.files, h.chain[k]) == VisibleAt(s.files, h.chain, k)
  }

  ghost predicate SchemasFilteredRight(s: Slice, h: Hist) {
    SchemasOk(s, h) &&
    forall k: nat, x {:trigger SchemaFilteredRight(s, h, k, x)} ::
      k < |h.chain| && x in s.schemas ==> SchemaFilteredRight(s, h, k, x)
  }

  ghost predicate SchemaFilteredRight(s: Slice, h: Hist, k: nat, x: Uuid)
    requires SchemasOk(s, h) && k < |h.chain| && x in s.schemas
  {
    Covers(s.schemas[x], h.chain[k]) <==> x == h.schemas[ActiveVersion(s, h, k)]
  }

  /** Growing ids make both interval filters right at every transaction of a table. */
  lemma GrowingIdsFilterRight(s: Slice, h: Hist)
    requires SliceOk(s, h) && Increasing(h.chain)
    ensures FilesFilteredRight(s, h) && SchemasFilteredRight(s, h)
  {
    hide SliceOk, VisibleAt, VisibleIn, Covers, ActiveVersion;
    forall k: nat | k < |h.chain| ensures VisibleIn(s.files, h.chain[k]) == VisibleAt(s.files, h.chain, k) {
      FileFilterExact(s, h, k);
    }
    SliceHasSchemas(s, h);
    forall k: nat, x | k < |h.chain| && x in s.schemas ensures SchemaFilteredRight(s, h, k, x) {
      SchemaFilterExact(s, h, k, x);
    }
  }

  lemma SliceHasSchemas(s: Slice, h: Hist)
    requires SliceOk(s, h)
    ensures SchemasOk(s, h)
  {
  }

  // ---------- replay ----------

  function AddedIn(files: map<Uuid, FileRow>, t: TxnId): map<Uuid, FileRow> {
    map u | u in files && files[u].added == t :: files[u]
  }

  function RemovedIn(files: map<Uuid, FileRow>, t: TxnId): map<Uuid, FileRow> {
    map u | u in files && files[u].removed == Some(t) :: files[u]
  }

  /** Replaying transactions 0..k from an empty table: additions, then removals. */
  function ReplayTxns(files: map<Uuid, FileRow>, c: seq<TxnId>, k: nat): set<Uuid>
    requires k <= |c|
  {
    if k == 0 then {} else ReplayTxns(files, c, k - 1) + AddedIn(files, c[k - 1]).Keys - RemovedIn(files, c[k - 1]).Keys
  }

  lemma {:induction false} ReplayMember(files: map<Uuid, FileRow>, c: seq<TxnId>, k: nat, u: Uuid)
    requires Distinct(c) && k < |c| && u in files && FileOk(files[u], c)
    ensures u in ReplayTxns(files, c, k + 1) <==> u in VisibleAt(files, c, k)
  {
    if k > 0 { ReplayMember(files, c, k - 1, u); }
  }

  lemma {:induction false} ReplayKnown(files: map<Uuid, FileRow>, c: seq<TxnId>, k: nat, u: Uuid)
    requires k <= |c| && u in ReplayTxns(files, c, k)
    ensures u in files
  {
    if k > 0 && u in ReplayTxns(files, c, k - 1) { ReplayKnown(files, c, k - 1, u); }
  }

  /** The fast form refines the simple one: files visible at k are those left by replaying 0..k. */
  lemma VisibleIsReplay(s: Slice, h: Hist, k: nat)
    requires FilesOk(s, h) && Distinct(h.chain) && k < |h.chain|
    ensures VisibleAt(s.files, h.chain, k).Keys == ReplayTxns(s.files, h.chain, k + 1)
  {
    forall u ensures u in VisibleAt(s.files, h.chain, k) <==> u in ReplayTxns(s.files, h.chain, k + 1) {
      if u in s.files {
        ReplayMember(s.files, h.chain, k, u);
      } else if u in ReplayTxns(s.files, h.chain, k + 1) {
        ReplayKnown(s.files, h.chain, k + 1, u);
      }
    }
  }

  /** The last schema change among transactions 0..k. */
  ghost function LastChange(s: Slice, h: Hist, k: nat): Uuid
    requires SchemasOk(s, h) && k < |h.chain|
  {
    if exists x :: x in s.schemas && s.schemas[x].validFrom == h.chain[k]
    then var x :| x in s.schemas && s.schemas[x].validFrom == h.chain[k]; x
    else if k == 0 then h.schemas[0] else LastChange(s, h, k - 1)
  }

  /** The schema in force is the one most recently introduced on the chain. */
  lemma {:induction false} ActiveIsLastChange(s: Slice, h: Hist, k: nat)
    requires SliceOk(s, h) && k < |h.chain|
    ensures h.schemas[ActiveVersion(s, h, k)] == LastChange(s, h, k)
    decreases k
  {
    hide ColumnsOk, EvolutionOk, FilesOk, Spells;
    var v := ActiveVersion(s, h, k);
    ActiveInForce(s, h, k);
    FirstStart(s, h);
    if x :| x in s.schemas && s.schemas[x].validFrom == h.chain[k] {
      var y := LastChange(s, h, k);
      assert y in s.schemas && s.schemas[y].validFrom == h.chain[k];
      var i :| 0 <= i < |h.schemas| && h.schemas[i] == y;
      StartedNow(s, h, k, i);
      SchemasTile(s, h, k, i);
    } else {
      ActiveIsLastChange(s, h, k - 1);
      assert Index(h.chain, s.schemas[h.schemas[v]].validFrom) != k;
      SchemasTile(s, h, k - 1, v);
    }
  }

  lemma StartedNow(s: Slice, h: Hist, k: nat, i: nat)
    requires SchemasOk(s, h) && Distinct(h.chain) && k < |h.chain| && i < |h.schemas|
    requires h.schemas[i] in s.schemas && s.schemas[h.schemas[i]].validFrom == h.chain[k]
    ensures InForce(s, h, i, k)
  {
    assert SchemaOk(s, h, i);
    if i + 1 < |h.schemas| { assert SchemaOk(s, h, i + 1); }
    InForceByStart(s, h, i, k);
  }

  // ---------- columns ----------

  lemma SmallestExists(rows: set<ColumnRow>)
    requires rows != {}
    ensures exists r :: r in rows && forall q :: q in rows ==> r.ordinal <= q.ordinal
  {
    var r :| r in rows;
    var rest := rows - {r};
    if rest == {} {
      forall q | q in rows ensures r.ordinal <= q.ordinal { assert q == r || q in rest; }
    } else {
      SmallestExists(rest);
      var s :| s in rest && forall q :: q in rest ==> s.ordinal <= q.ordinal;
      var smallest := if r.ordinal < s.ordinal then r else s;
      forall q | q in rows ensures smallest.ordinal <= q.ordinal { assert q == r || q in rest; }
      assert smallest in rows;
    }
  }

  lemma {:induction false} OrderExists(rows: set<ColumnRow>) returns (list: seq<ColumnRow>)
    ensures Ordered(rows, list)
  {
    if rows == {} {
      list := [];
    } else {
      SmallestExists(rows);
      var r :| r in rows && forall q :: q in rows ==> r.ordinal <= q.ordinal;
      var rest := OrderExists(rows - {r});
      list := [r] + rest;
      forall q ensures q in rows <==> q in list { assert q in rows - {r} <==> q in rest; }
    }
  }

  /** Any list ordered by ordinal of the stored rows is the specification, column by column. */
  lemma OrderedIsListed(rows: set<ColumnRow>, spec: seq<ColumnSpec>, list: seq<ColumnRow>)
    requires Stored(rows, spec) && Ordered(rows, list)
    ensures list == Listed(rows, |spec|)
    ensures forall i :: 0 <= i < |spec| ==>
                          list[i].ordinal == i + 1 && ColumnSpec(list[i].name, list[i].typ, list[i].nullable) == spec[i]
  {
    hide Ordered, Stored;
    ListedLength(rows, spec, list);
    StoredOrdinals(rows, spec);
    forall i | 0 <= i < |list|
      ensures list[i].ordinal == i + 1 && list[i] == Listed(rows, |spec|)[i]
              && ColumnSpec(list[i].name, list[i].typ, list[i].nullable) == spec[i]
    {
      ListedEntry(rows, spec, list, i);
    }
  }

  lemma StoredOrdinals(rows: set<ColumnRow>, spec: seq<ColumnSpec>)
    requires Stored(rows, spec)
    ensures forall i :: 1 <= i <= |spec| ==> HasOrdinal(rows, i)
    ensures forall q, r :: q in rows && r in rows && q.ordinal == r.ordinal ==> q == r
  {
  }

  lemma ListedEntry(rows: set<ColumnRow>, spec: seq<ColumnSpec>, list: seq<ColumnRow>, i: nat)
    requires Stored(rows, spec) && Ordered(rows, list) && i < |list| == |spec|
    ensures list[i] in rows && list[i].ordinal == i + 1 && list[i] == Listed(rows, |spec|)[i]
    ensures ColumnSpec(list[i].name, list[i].typ, list[i].nullable) == spec[i]
  {
    assert list[i] in rows;
    OrdinalsClimb(rows, spec, list, i);
    OrdinalsReach(rows, spec, list, i + 1);
  }

  lemma ListedLength(rows: set<ColumnRow>, spec: seq<ColumnSpec>, list: seq<ColumnRow>)
    requires Stored(rows, spec) && Ordered(rows, list)
    ensures |list| == |spec|
  {
    OrdinalsReach(rows, spec, list, |spec|);
    if |list| > 0 {
      OrdinalsClimb(rows, spec, list, |list| - 1);
      assert list[|list| - 1] in rows;
    }
  }

  lemma {:induction false} OrdinalsClimb(rows: set<ColumnRow>, spec: seq<ColumnSpec>, list: seq<ColumnRow>, i: nat)
    requires Stored(rows, spec) && Ordered(rows, list) && i < |list|
    ensures list[i].ordinal >= i + 1
  {
    assert list[i] in rows;
    if i > 0 {
      OrdinalsClimb(rows, spec, list, i - 1);
      assert list[i - 1] in rows && list[i - 1] != list[i];
    }
  }

  /** The first n ordinals need at least n list entries. */
  lemma {:induction false} OrdinalsReach(rows: set<ColumnRow>, spec: seq<ColumnSpec>, list: seq<ColumnRow>, n: nat)
    requires Stored(rows, spec) && Ordered(rows, list) && n <= |spec|
    ensures n <= |list|
    ensures n > 0 ==> list[n - 1].ordinal <= n
  {
    if n > 0 {
      OrdinalsReach(rows, spec, list, n - 1);
      assert HasOrdinal(rows, n);
      var r :| r in rows && r.ordinal == n;
      var j :| 0 <= j < |list| && list[j] == r;
    }
  }

  lemma {:induction false} ListSize(rows: set<ColumnRow>, list: seq<ColumnRow>)
    requires Distinct(list) && forall r :: r in rows <==> r in list
    ensures |rows| == |list|
    decreases |list|
  {
    if |list| == 0 {
      assert rows == {};
    } else {
      var n := |list| - 1;
      var rest := rows - {list[n]};
      forall r ensures r in rest <==> r in list[..n] {}
      ListSize(rest, list[..n]);
      assert rows == rest + {list[n]};
    }
  }

  /** A stored specification never trips the column limit of the readers. */
  lemma StoredSize(rows: set<ColumnRow>, spec: seq<ColumnSpec>)
    requires Stored(rows, spec)
    ensures |rows| == |spec|
  {
    var list := Listed(rows, |spec|);
    forall r | r in rows ensures r in list { assert list[r.ordinal - 1] == r; }
    ListSize(rows, list);
  }

  /** Schema round trip: an accepted specification, written in chunks with computed ordinals and read back
      ordered by ordinal, is the same list of columns with ordinals 1..n, within the read limit. */
  lemma SchemaRoundTrip(
    columns: set<ColumnRow>, kind: DbKind, schema: Uuid, ids: Ids, spec: seq<ColumnSpec>, list: seq<ColumnRow>)
    requires ValidSchema(spec) && InsertColumns(columns, kind, ColumnRows(schema, ids, spec)).Ok?
    requires forall c :: c in columns ==> c.schema != schema
    requires Ordered(ColumnsFor(columns + InsertColumns(columns, kind, ColumnRows(schema, ids, spec)).value, schema),
             list)
    ensures list == ColumnRows(schema, ids, spec)
    ensures |list| == |spec| <= MAX_COLUMNS_PER_SCHEMA
  {
    var rows := InsertColumns(columns, kind, ColumnRows(schema, ids, spec)).value;
    ColumnsAtOnce(columns, kind, ColumnRows(schema, ids, spec));
    ColumnRowsStored(schema, ids, spec);
    assert ColumnsFor(columns + rows, schema) == rows;
    OrderedIsListed(rows, spec, list);
    forall i | 0 <= i < |spec| ensures list[i] == ColumnRows(schema, ids, spec)[i] {
      assert ColumnRows(schema, ids, spec)[i] in rows;
    }
  }

  // ---------- stability ----------

  /** The part of a view that no later commit changes. */
  function FixedView(v: View): View {
    v.(schema := v.schema.(row := FixedSchema(v.schema.row)),
       files := map u | u in v.files :: FixedFile(v.files[u]), properties := map[])
  }

  /** Same outcome, up to the row fields that later commits fill in and the unversioned properties. */
  predicate SameResult(a: Result<View>, b: Result<View>) {
    match (a, b)
    case (Ok(v), Ok(w)) => FixedView(v) == FixedView(w)
    case (Err(e), Err(f)) => e == f
    case _ => false
  }

  lemma VisibleStable(s: Slice, h: Hist, s2: Slice, g: Hist, k: nat)
    requires FilesOk(s, h) && FilesOk(s2, g) && Distinct(g.chain) && h.chain <= g.chain
    requires FilesGrow(s, |h.chain|, s2, g.chain) && k < |h.chain|
    ensures var v, w := VisibleAt(s.files, h.chain, k), VisibleAt(s2.files, g.chain, k);
            v.Keys == w.Keys && forall u :: u in v ==> FixedFile(v[u]) == FixedFile(w[u])
  {
    hide Distinct;
    forall u ensures u in VisibleAt(s.files, h.chain, k) <==> u in VisibleAt(s2.files, g.chain, k) {
      if u in s.files {
        var f, f2 := s.files[u], s2.files[u];
        assert FileOk(f, h.chain) && FileOk(f2, g.chain);
        IndexInExtension(h.chain, g.chain, f.added);
        if f.removed.Some? { IndexInExtension(h.chain, g.chain, f.removed.value); }
      }
    }
  }

  lemma ActiveStable(s: Slice, h: Hist, s2: Slice, g: Hist, k: nat)
    requires SliceOk(s, h) && SliceOk(s2, g) && Grows(s, h, s2, g) && k < |h.chain|
    ensures ActiveVersion(s, h, k) == ActiveVersion(s2, g, k)
  {
    hide ActiveVersion, ColumnsOk, EvolutionOk, FilesOk, FilesGrow, Spells;
    var v := ActiveVersion(s, h, k);
    SchemasTile(s, h, k, v);
    var x := h.schemas[v];
    assert g.schemas[v] == x && SchemaOk(s2, g, v);
    IndexInExtension(h.chain, g.chain, s.schemas[x].validFrom);
    if s.schemas[x].validTo.Some? { IndexInExtension(h.chain, g.chain, s.schemas[x].validTo.value); }
    SchemasTile(s2, g, k, v);
  }

  lemma SameFixedFiles(a: map<Uuid, FileRow>, b: map<Uuid, FileRow>)
    requires a.Keys == b.Keys && forall u :: u in a ==> FixedFile(a[u]) == FixedFile(b[u])
    ensures |a| == |b|
    ensures (map u | u in a :: FixedFile(a[u])) == (map u | u in b :: FixedFile(b[u]))
  {
    assert |a| == |a.Keys| && |b| == |b.Keys|;
  }

  lemma SchemaStable(s: Slice, h: Hist, s2: Slice, g: Hist, k: nat)
    requires SliceOk(s, h) && SliceOk(s2, g) && Grows(s, h, s2, g) && k < |h.chain|
    ensures var a, b := SchemaAt(s, h, k), SchemaAt(s2, g, k);
            a.uuid == b.uuid && FixedSchema(a.row) == FixedSchema(b.row) && a.columns == b.columns
  {
    hide FilesGrow, FilesOk, EvolutionOk, ActiveVersion, Spells, ValidSchema;
    ActiveStable(s, h, s2, g, k);
    var v := ActiveVersion(s, h, k);
    assert SchemaOk(s, h, v);
    assert g.schemas[v] == h.schemas[v] && g.specs[v] == h.specs[v];
    assert ColumnsFor(s2.columns, h.schemas[v]) == ColumnsFor(s.columns, h.schemas[v]);
  }

  lemma SameAssembled(
    r: TableRow, r2: TableRow, t: TxnId, a: SchemaView, b: SchemaView, v: map<Uuid, FileRow>, w: map<Uuid, FileRow>)
    requires r.uuid == r2.uuid && a.uuid == b.uuid && FixedSchema(a.row) == FixedSchema(b.row) && a.columns == b.columns
    requires v.Keys == w.Keys && forall u :: u in v ==> FixedFile(v[u]) == FixedFile(w[u])
    ensures SameResult(Assemble(r, t, a, v), Assemble(r2, t, b, w))
  {
    SameFixedFiles(v, w);
  }

  /** Snapshot stability: whatever is committed later, the snapshot at a transaction of the history
      keeps its files, their data, its schema and its columns. */
  lemma SnapshotStable(s: Slice, h: Hist, s2: Slice, g: Hist, k: nat)
    requires SliceOk(s, h) && SliceOk(s2, g) && Grows(s, h, s2, g) && k < |h.chain|
    ensures SameResult(Snapshot(s, h, k), Snapshot(s2, g, k))
  {
    VisibleStable(s, h, s2, g, k);
    SchemaStable(s, h, s2, g, k);
    assert g.chain[k] == h.chain[k];
    SameAssembled(s.row, s2.row, h.chain[k], SchemaAt(s, h, k), SchemaAt(s2, g, k),
                  VisibleAt(s.files, h.chain, k), VisibleAt(s2.files, g.chain, k));
  }

  // ---------- evolution ----------

  lemma SpecEvolvesChains(a: seq<ColumnSpec>, b: seq<ColumnSpec>, c: seq<ColumnSpec>)
    requires SpecEvolves(a, b) && SpecEvolves(b, c)
    ensures SpecEvolves(a, c)
  {
    forall i | 0 <= i < |a| ensures KeptBy(a[i], c) {
      assert KeptBy(a[i], b);
      var j :| 0 <= j < |b| && ColumnEvolves(a[i], b[j]);
      assert KeptBy(b[j], c);
      var k :| 0 <= k < |c| && ColumnEvolves(b[j], c[k]);
      EvolutionOrder(a[i].typ, b[j].typ, c[k].typ);
      assert ColumnEvolves(a[i], c[k]);
    }
  }

  lemma {:induction false} VersionsEvolve(h: Hist, i: nat, j: nat)
    requires EvolutionOk(h) && i <= j < |h.specs|
    ensures SpecEvolves(h.specs[i], h.specs[j])
    decreases j
  {
    if i < j {
      VersionsEvolve(h, i, j - 1);
      assert StepEvolves(h.specs, j - 1);
      SpecEvolvesChains(h.specs[i], h.specs[j - 1], h.specs[j]);
    } else {
      forall n | 0 <= n < |h.specs[i]| ensures KeptBy(h.specs[i][n], h.specs[i]) {
        assert ColumnEvolves(h.specs[i][n], h.specs[i][n]);
      }
    }
  }

  lemma ActiveMonotone(s: Slice, h: Hist, a: nat, b: nat)
    requires SchemasOk(s, h) && Distinct(h.chain) && a <= b
    ensures ActiveVersion(s, h, a) <= ActiveVersion(s, h, b)
  {
    var v, w := ActiveVersion(s, h, a), ActiveVersion(s, h, b);
    ActiveInForce(s, h, a);
    ActiveInForce(s, h, b);
    if w < v {
      assert SchemaOk(s, h, w + 1);
      InForceByStart(s, h, w, b);
      if w + 1 < v { StartsIncrease(s, h, w + 1, v); }
    }
  }

  ghost predicate RowEvolves(a: ColumnRow, b: ColumnRow) {
    a.name == b.name && CanEvolveTo(a.typ, b.typ) && (a.nullable ==> b.nullable)
  }

  lemma SchemaAtSpec(s: Slice, h: Hist, k: nat, i: nat)
    requires SliceOk(s, h) && k < |h.chain| && i < |SchemaAt(s, h, k).columns|
    ensures var r, v := SchemaAt(s, h, k).columns[i], ActiveVersion(s, h, k);
            |SchemaAt(s, h, k).columns| == |h.specs[v]| && h.specs[v][i] == ColumnSpec(r.name, r.typ, r.nullable)
  {
    var v := ActiveVersion(s, h, k);
    assert SchemaOk(s, h, v);
    assert SchemaAt(s, h, k).columns[i] in ColumnsFor(s.columns, h.schemas[v]);
  }

  /** Evolution safety over whole histories: every column a reader sees at position a is there by name at
      any later position b, its type reached by allowed evolutions and nullability only relaxed. */
  lemma EvolutionSafety(s: Slice, h: Hist, a: nat, b: nat, i: nat) returns (j: nat)
    requires SliceOk(s, h) && a <= b < |h.chain| && i < |SchemaAt(s, h, a).columns|
    ensures j < |SchemaAt(s, h, b).columns|
    ensures RowEvolves(SchemaAt(s, h, a).columns[i], SchemaAt(s, h, b).columns[j])
  {
    var v, w := ActiveVersion(s, h, a), ActiveVersion(s, h, b);
    ActiveMonotone(s, h, a, b);
    VersionsEvolve(h, v, w);
    SchemaAtSpec(s, h, a, i);
    assert KeptBy(h.specs[v][i], h.specs[w]);
    j :| 0 <= j < |h.specs[w]| && ColumnEvolves(h.specs[v][i], h.specs[w][j]);
    assert SchemaOk(s, h, w);
    SchemaAtSpec(s, h, b, j);
  }

  /** So a value written under the column's type at a is still a value of its type at b, after any number
      of schema updates in between. */
  lemma ValuesSurviveHistory(s: Slice, h: Hist, a: nat, b: nat, i: nat, x: int) returns (j: nat)
    requires SliceOk(s, h) && a <= b < |h.chain| && i < |SchemaAt(s, h, a).columns|
    requires var t := SchemaAt(s, h, a).columns[i].typ; IsExact(t) && Storable(t, x)
    ensures j < |SchemaAt(s, h, b).columns| && SchemaAt(s, h, b).columns[j].name == SchemaAt(s, h, a).columns[i].name
    ensures var t, u := SchemaAt(s, h, a).columns[i].typ, SchemaAt(s, h, b).columns[j].typ;
            IsExact(u) && Storable(u, Widen(t, u, x))
  {
    j := EvolutionSafety(s, h, a, b, i);
    WideningPreservesValues(SchemaAt(s, h, a).columns[i].typ, SchemaAt(s, h, b).columns[j].typ, x, x);
  }
}
