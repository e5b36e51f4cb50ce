/** The history of one table: its slice of the database, the invariant every run keeps, and
    what one commit and any number of commits do to it. */
module History {
  import opened CatalogTypes
  import opened DataTypes
  import opened Validation
  import opened Statements

  /** The rows that belong to one table. */
  datatype Slice = Slice(
    row: TableRow, txns: map<TxnId, Option<TxnId>>, schemas: map<Uuid, SchemaRow>,
    columns: set<ColumnRow>, files: map<Uuid, FileRow>)

  function TxnsIn(txns: map<TxnId, TxnRow>, table: Uuid): map<TxnId, Option<TxnId>> {
    map t | t in txns && txns[t].table == table :: txns[t].parent
  }

  function SchemasIn(schemas: map<Uuid, SchemaRow>, table: Uuid): map<Uuid, SchemaRow> {
    map s | s in schemas && schemas[s].table == table :: schemas[s]
  }

  function ColumnsIn(columns: set<ColumnRow>, schemas: map<Uuid, SchemaRow>, table: Uuid): set<ColumnRow> {
    set c | c in columns && c.schema in schemas && schemas[c.schema].table == table
  }

  function FilesIn(files: map<Uuid, FileRow>, table: Uuid): map<Uuid, FileRow> {
    map u | u in files && files[u].table == table :: files[u]
  }

  function SliceOf(db: Db, ident: TableIdent): Slice
    requires ident in db.tables
  {
    var table := db.tables[ident].uuid;
    Slice(db.tables[ident], TxnsIn(db.txns, table), SchemasIn(db.schemas, table),
          ColumnsIn(db.columns, db.schemas, table), FilesIn(db.files, table))
  }

  // ---------- the invariant of one table ----------

  /** History variables of a table: its transactions and schemas oldest first, and the column
      specification accepted for each schema. */
  datatype Hist = Hist(chain: seq<TxnId>, schemas: seq<Uuid>, specs: seq<seq<ColumnSpec>>)

  function Last<T>(s: seq<T>): T
    requires |s| > 0
  {
    s[|s| - 1]
  }

  function Index(c: seq<TxnId>, t: TxnId): (i: nat)
    requires t in c
    ensures i < |c| && c[i] == t
  {
    if Last(c) == t then |c| - 1 else Index(c[..|c| - 1], t)
  }

  function ParentAt(c: seq<TxnId>, i: nat): Option<TxnId>
    requires i < |c|
  {
    if i == 0 then None else Some(c[i - 1])
  }

  /** The parent map a chain spells out. */
  ghost predicate Spells(txns: map<TxnId, Option<TxnId>>, c: seq<TxnId>) {
    && (forall t :: t in txns <==> t in c)
    && (forall i {:trigger ParentAt(c, i)} :: 0 <= i < |c| ==> c[i] in txns && txns[c[i]] == ParentAt(c, i))
  }

  /** One simple path from a parentless genesis to the head, holding every transaction of the table. */
  ghost predicate ChainOk(s: Slice, h: Hist) {
    && |h.chain| > 0 && Distinct(h.chain) && Spells(s.txns, h.chain)
    && s.row.head == Some(Last(h.chain))
  }

  /** Linear history: one root, no transaction with two children, none without its parent, and the head is
      the only one without a child. */
  lemma LinearHistory(s: Slice, h: Hist)
    requires ChainOk(s, h)
    ensures forall t, u :: t in s.txns && u in s.txns && s.txns[t] == s.txns[u] ==> t == u
    ensures forall t :: t in s.txns && s.txns[t].Some? ==> s.txns[t].value in s.txns
    ensures forall t :: t in s.txns ==> (t == s.row.head.value <==> forall u :: u in s.txns ==> s.txns[u] != Some(t))
  {
    hide Spells, Distinct, ParentAt;
    ParentsByIndex(s, h);
    forall t, u | t in s.txns && u in s.txns && s.txns[t] == s.txns[u] ensures t == u {
      OnlyChild(h.chain, Index(h.chain, t), Index(h.chain, u));
    }
    forall t | t in s.txns && s.txns[t].Some? ensures s.txns[t].value in s.txns {
      ParentListed(s, h, Index(h.chain, t));
    }
    forall t | t in s.txns ensures t == s.row.head.value <==> forall u :: u in s.txns ==> s.txns[u] != Some(t) {
      ChildlessIsLast(s, h, Index(h.chain, t));
    }
  }

  lemma ParentsByIndex(s: Slice, h: Hist)
    requires Spells(s.txns, h.chain)
    ensures forall t :: t in s.txns ==> t in h.chain && s.txns[t] == ParentAt(h.chain, Index(h.chain, t))
  {
  }

  lemma OnlyChild(c: seq<TxnId>, i: nat, j: nat)
    requires Distinct(c) && i < |c| && j < |c| && ParentAt(c, i) == ParentAt(c, j)
    ensures i == j
  {
  }

  lemma ParentListed(s: Slice, h: Hist, i: nat)
    requires Spells(s.txns, h.chain) && i < |h.chain| && ParentAt(h.chain, i).Some?
    ensures ParentAt(h.chain, i).value in s.txns
  {
  }

  lemma ChildlessIsLast(s: Slice, h: Hist, i: nat)
    requires Spells(s.txns, h.chain) && Distinct(h.chain) && i < |h.chain|
    ensures h.chain[i] == Last(h.chain) <==> forall u :: u in s.txns ==> s.txns[u] != Some(h.chain[i])
  {
    var c := h.chain;
    if i + 1 < |c| { assert s.txns[c[i + 1]] == ParentAt(c, i + 1); }
    ParentsByIndex(s, h);
  }

  ghost predicate FileOk(f: FileRow, c: seq<TxnId>) {
    && f.added in c
    && (f.removed.Some? ==> f.removed.value in c && Index(c, f.added) <= Index(c, f.removed.value))
  }

  ghost predicate FilesOk(s: Slice, h: Hist) {
    forall u :: u in s.files ==> FileOk(s.files[u], h.chain)
  }

  ghost predicate SchemaOk(s: Slice, h: Hist, i: nat)
    requires i < |h.schemas|
  {
    && h.schemas[i] in s.schemas
    && var row := s.schemas[h.schemas[i]];
    && row.version == i + 1 && row.validFrom in h.chain
    && if i + 1 == |h.schemas| then row.validTo == None
       else
         && h.schemas[i + 1] in s.schemas
         && var next := s.schemas[h.schemas[i + 1]];
         && row.validTo == Some(next.validFrom) && next.validFrom in h.chain
         && Index(h.chain, row.validFrom) < Index(h.chain, next.validFrom)
  }

  /** Versions 1..n in chain order; each schema ends where the next begins, the last is open and current. */
  ghost predicate SchemasOk(s: Slice, h: Hist) {
    && |h.schemas| > 0 && Distinct(h.schemas) && |h.chain| > 0
    && (forall x :: x in s.schemas <==> x in h.schemas)
    && (forall i :: 0 <= i < |h.schemas| ==> SchemaOk(s, h, i))
    && s.schemas[h.schemas[0]].validFrom == h.chain[0]
    && s.row.schema == Some(Last(h.schemas))
  }

  predicate HasOrdinal(rows: set<ColumnRow>, n: int) {
    exists r :: r in rows && r.ordinal == n
  }

  /** The rows hold the specification: position p at ordinal p + 1, one row per ordinal. */
  ghost predicate Stored(rows: set<ColumnRow>, spec: seq<ColumnSpec>) {
    && (forall r :: r in rows ==>
                      1 <= r.ordinal <= |spec| && spec[r.ordinal - 1] == ColumnSpec(r.name, r.typ, r.nullable))
    && (forall n :: 1 <= n <= |spec| ==> HasOrdinal(rows, n))
    && (forall q, r :: q in rows && r in rows && q.ordinal == r.ordinal ==> q == r)
  }

  ghost predicate ColumnsOk(s: Slice, h: Hist) {
    && |h.specs| == |h.schemas|
    && (forall c :: c in s.columns ==> c.schema in h.schemas)
    && (forall i :: 0 <= i < |h.schemas| ==>
                      ValidSchema(h.specs[i]) && Stored(ColumnsFor(s.columns, h.schemas[i]), h.specs[i]))
  }

  /** b keeps every column of a by name, with a type a's reaches and nullability only relaxed. */
  ghost predicate SpecEvolves(a: seq<ColumnSpec>, b: seq<ColumnSpec>) {
    forall i :: 0 <= i < |a| ==> KeptBy(a[i], b)
  }

  ghost predicate KeptBy(c: ColumnSpec, b: seq<ColumnSpec>) {
    exists j :: 0 <= j < |b| && ColumnEvolves(c, b[j])
  }

  ghost predicate ColumnEvolves(a: ColumnSpec, b: ColumnSpec) {
    a.name == b.name && CanEvolveTo(a.typ, b.typ) && (a.nullable ==> b.nullable)
  }

  ghost predicate EvolutionOk(h: Hist) {
    forall i :: 0 <= i < |h.specs| - 1 ==> StepEvolves(h.specs, i)
  }

  ghost predicate StepEvolves(specs: seq<seq<ColumnSpec>>, i: nat)
    requires i + 1 < |specs|
  {
    SpecEvolves(specs[i], specs[i + 1])
  }

  ghost predicate SliceOk(s: Slice, h: Hist) {
    ChainOk(s, h) && FilesOk(s, h) && SchemasOk(s, h) && ColumnsOk(s, h) && EvolutionOk(h)
  }

  /** The hypothesis on the id source: ids grow along the chain. */
  ghost predicate Increasing(c: seq<TxnId>) {
    forall i, j :: 0 <= i < j < |c| ==> c[i] < c[j]
  }

  // ---------- one commit ----------

  /** The effect of a successful commit on its table. */
  datatype Change = Change(
    txn: TxnId, files: map<Uuid, FileRow>, spec: Option<seq<ColumnSpec>>, ids: Ids, properties: Properties)

  function NewColumns(c: Change): set<ColumnRow> {
    if c.spec.None? then {} else Elements(ColumnRows(c.ids.schema, c.ids, c.spec.value))
  }

  function NewSchemas(s: Slice, c: Change): map<Uuid, SchemaRow>
    requires s.row.schema.Some? && s.row.schema.value in s.schemas
  {
    if c.spec.None? then map[] else
      var current := s.row.schema.value;
      map[c.ids.schema := SchemaRow(s.row.uuid, s.schemas[current].version + 1, c.txn, None),
          current := s.schemas[current].(validTo := Some(c.txn))]
  }

  function ApplyChange(s: Slice, c: Change): Slice
    requires s.row.schema.Some? && s.row.schema.value in s.schemas
  {
    Slice(s.row.(head := Some(c.txn),
                 schema := if c.spec.Some? then Some(c.ids.schema) else s.row.schema,
                 properties := c.properties),
          s.txns[c.txn := s.row.head], s.schemas + NewSchemas(s, c), s.columns + NewColumns(c), s.files + c.files)
  }

  ghost predicate LegalFile(s: Slice, t: TxnId, u: Uuid, f: FileRow) {
    if u in s.files then s.files[u].removed.None? && f == s.files[u].(removed := Some(t))
    else f.table == s.row.uuid && f.added == t && (f.removed == None || f.removed == Some(t))
  }

  ghost predicate Legal(s: Slice, c: Change) {
    && c.txn !in s.txns
    && (forall u :: u in c.files ==> LegalFile(s, c.txn, u, c.files[u]))
    && (c.spec.Some? ==>
          && c.ids.schema !in s.schemas
          && (forall r :: r in s.columns ==> r.schema in s.schemas)
          && ValidSchema(c.spec.value)
          && s.row.schema.Some?
          && CheckEvolution(ColumnsFor(s.columns, s.row.schema.value), c.spec.value).Ok?)
  }

  function Extend(h: Hist, c: Change): Hist {
    Hist(h.chain + [c.txn],
         if c.spec.None? then h.schemas else h.schemas + [c.ids.schema],
         if c.spec.None? then h.specs else h.specs + [c.spec.value])
  }

  lemma ColumnRowsStored(schema: Uuid, ids: Ids, spec: seq<ColumnSpec>)
    ensures Stored(Elements(ColumnRows(schema, ids, spec)), spec)
    ensures forall r :: r in Elements(ColumnRows(schema, ids, spec)) ==> r.schema == schema
  {
    var rows := ColumnRows(schema, ids, spec);
    var all := Elements(rows);
    forall r | r in all
      ensures 1 <= r.ordinal <= |spec| && r == ColumnRowAt(schema, ids, r.ordinal - 1, spec[r.ordinal - 1])
    {
      var p :| 0 <= p < |rows| && rows[p] == r;
    }
    forall n | 1 <= n <= |spec| ensures HasOrdinal(all, n) {
      assert rows[n - 1] in all && rows[n - 1].ordinal == n;
    }
  }

  /** The column-by-column check of UpdateSchema accepts exactly the specs that evolve the stored one. */
  lemma EvolutionCheckExact(rows: set<ColumnRow>, a: seq<ColumnSpec>, b: seq<ColumnSpec>)
    requires Stored(rows, a) && ValidSchema(a) && ValidSchema(b)
    ensures CheckEvolution(rows, b).Ok? <==> SpecEvolves(a, b)
  {
    CheckColumnsAccepts(rows, b, |b|);
    if CheckEvolution(rows, b).Ok? {
      forall i | 0 <= i < |a| ensures KeptBy(a[i], b) {
        AcceptedColumnEvolves(rows, a, b, i);
      }
    }
    if SpecEvolves(a, b) {
      forall r | r in rows ensures HasName(b, r.name) {
        assert KeptBy(a[r.ordinal - 1], b);
        var j :| 0 <= j < |b| && ColumnEvolves(a[r.ordinal - 1], b[j]);
        assert b[j].name == r.name;
      }
      forall k | 0 <= k < |b| ensures CheckColumn(rows, b[k]).Ok? {
        EvolvedColumnAccepted(rows, a, b, k);
      }
    }
  }

  lemma AcceptedColumnEvolves(rows: set<ColumnRow>, a: seq<ColumnSpec>, b: seq<ColumnSpec>, i: nat)
    requires Stored(rows, a) && CheckEvolution(rows, b).Ok? && i < |a|
    ensures KeptBy(a[i], b)
  {
    CheckColumnsAccepts(rows, b, |b|);
    assert HasOrdinal(rows, i + 1);
    var r :| r in rows && r.ordinal == i + 1;
    assert HasName(b, r.name);
    var j :| 0 <= j < |b| && b[j].name == r.name;
    assert CheckColumn(rows, b[j]).Ok?;
    assert ColumnEvolves(a[i], b[j]);
  }

  lemma EvolvedColumnAccepted(rows: set<ColumnRow>, a: seq<ColumnSpec>, b: seq<ColumnSpec>, k: nat)
    requires Stored(rows, a) && SpecEvolves(a, b) && ValidSchema(b) && k < |b|
    ensures CheckColumn(rows, b[k]).Ok?
  {
    forall r | r in rows && r.name == b[k].name
      ensures CanEvolveTo(r.typ, b[k].typ) && (r.nullable ==> b[k].nullable)
    {
      assert KeptBy(a[r.ordinal - 1], b);
      var j :| 0 <= j < |b| && ColumnEvolves(a[r.ordinal - 1], b[j]);
      assert j == k;
    }
  }

  lemma {:induction false} CheckColumnsAccepts(rows: set<ColumnRow>, b: seq<ColumnSpec>, n: nat)
    requires n <= |b|
    ensures CheckColumns(rows, b, n).Ok? <==> forall k :: 0 <= k < n ==> CheckColumn(rows, b[k]).Ok?
  {
    if n > 0 { CheckColumnsAccepts(rows, b, n - 1); }
  }

  lemma DistinctExtend(c: seq<TxnId>, t: TxnId)
    requires Distinct(c) && t !in c
    ensures Distinct(c + [t])
  {
  }

  lemma SpellsExtend(txns: map<TxnId, Option<TxnId>>, c: seq<TxnId>, t: TxnId)
    requires |c| > 0 && Spells(txns, c) && t !in txns
    ensures Spells(txns[t := Some(Last(c))], c + [t])
  {
    var g, m := c + [t], txns[t := Some(Last(c))];
    forall i | 0 <= i < |g| ensures g[i] in m && m[g[i]] == ParentAt(g, i) {
      if i < |c| {
        assert g[i] == c[i] && c[i] in txns && txns[c[i]] == ParentAt(c, i);
      }
    }
    forall u ensures u in m <==> u in g {
      assert u in g <==> u in c || u == t;
    }
  }

  lemma IndexInExtension(h: seq<TxnId>, g: seq<TxnId>, t: TxnId)
    requires h <= g && Distinct(g) && t in h
    ensures t in g && Index(g, t) == Index(h, t) < |h|
  {
    assert g[Index(h, t)] == t;
  }

  lemma ExtendedChain(h: Hist, c: Change)
    requires Distinct(h.chain) && c.txn !in h.chain
    ensures Distinct(Extend(h, c).chain) && Later(Extend(h, c).chain, |h.chain|, c.txn)
    ensures h.chain <= Extend(h, c).chain && Index(Extend(h, c).chain, c.txn) == |h.chain|
  {
    assert Extend(h, c).chain[|h.chain|] == c.txn;
  }

  lemma ChangedFileOk(s: Slice, h: Hist, c: Change, u: Uuid)
    requires FilesOk(s, h) && Distinct(h.chain) && c.txn !in h.chain
    requires u in c.files ==> LegalFile(s, c.txn, u, c.files[u])
    requires u in s.files + c.files
    ensures FileOk((s.files + c.files)[u], Extend(h, c).chain)
  {
    ExtendedChain(h, c);
    var g := Extend(h, c).chain;
    if u in s.files {
      IndexInExtension(h.chain, g, s.files[u].added);
      if s.files[u].removed.Some? { IndexInExtension(h.chain, g, s.files[u].removed.value); }
    }
  }

  /** The schema row at position i after the change, in terms of the rows before it. */
  lemma ChangedSchemaRow(s: Slice, h: Hist, c: Change, i: nat)
    requires SchemasOk(s, h) && i < |h.schemas|
    requires c.spec.Some? ==> c.ids.schema !in s.schemas
    ensures h.schemas[i] in s.schemas && h.schemas[i] in ApplyChange(s, c).schemas
    ensures ApplyChange(s, c).schemas[h.schemas[i]] ==
              if c.spec.Some? && i == |h.schemas| - 1 then s.schemas[h.schemas[i]].(validTo := Some(c.txn))
              else s.schemas[h.schemas[i]]
  {
    assert SchemaOk(s, h, i);
    assert h.schemas[i] != Last(h.schemas) || i == |h.schemas| - 1;
  }

  /** The row a schema update adds. */
  lemma NewSchemaRow(s: Slice, h: Hist, c: Change)
    requires SchemasOk(s, h) && c.spec.Some? && c.ids.schema !in s.schemas
    ensures c.ids.schema in ApplyChange(s, c).schemas
    ensures ApplyChange(s, c).schemas[c.ids.schema] == SchemaRow(s.row.uuid, |h.schemas| + 1, c.txn, None)
  {
    assert SchemaOk(s, h, |h.schemas| - 1);
  }

  lemma ChangedSchemaOk(s: Slice, h: Hist, c: Change, i: nat)
    requires SchemasOk(s, h) && Distinct(h.chain) && c.txn !in h.chain
    requires c.spec.Some? ==> c.ids.schema !in s.schemas
    requires i < |Extend(h, c).schemas|
    ensures SchemaOk(ApplyChange(s, c), Extend(h, c), i)
  {
    hide Distinct, ApplyChange, SchemasOk;
    ExtendedChain(h, c);
    CurrentSchema(s, h);
    var g, n := Extend(h, c), |h.schemas|;
    if c.spec.Some? { NewSchemaRow(s, h, c); }
    if i < n {
      OldSchemaOk(s, h, i);
      ChangedSchemaRow(s, h, c, i);
      IndexInExtension(h.chain, g.chain, s.schemas[h.schemas[i]].validFrom);
      if i + 1 < n {
        ChangedSchemaRow(s, h, c, i + 1);
        IndexInExtension(h.chain, g.chain, s.schemas[h.schemas[i + 1]].validFrom);
      }
    }
  }

  lemma CurrentSchema(s: Slice, h: Hist)
    requires SchemasOk(s, h)
    ensures |h.schemas| > 0 && s.row.schema == Some(Last(h.schemas)) && Last(h.schemas) in s.schemas
  {
    assert SchemaOk(s, h, |h.schemas| - 1);
  }

  lemma OldSchemaOk(s: Slice, h: Hist, i: nat)
    requires SchemasOk(s, h) && i < |h.schemas|
    ensures SchemaOk(s, h, i)
  {
  }

  lemma ChangeKeepsSchemas(s: Slice, h: Hist, c: Change)
    requires SchemasOk(s, h) && Distinct(h.chain) && c.txn !in h.chain
    requires c.spec.Some? ==> c.ids.schema !in s.schemas
    ensures SchemasOk(ApplyChange(s, c), Extend(h, c))
  {
    hide SchemaOk, Distinct;
    var s2, g := ApplyChange(s, c), Extend(h, c);
    forall i | 0 <= i < |g.schemas| ensures SchemaOk(s2, g, i) { ChangedSchemaOk(s, h, c, i); }
    ChangedSchemaRow(s, h, c, 0);
    OldSchemaOk(s, h, 0);
    ChangedSchemaSet(s, h, c);
  }

  lemma ChangedSchemaSet(s: Slice, h: Hist, c: Change)
    requires SchemasOk(s, h) && (c.spec.Some? ==> c.ids.schema !in s.schemas)
    ensures Distinct(Extend(h, c).schemas)
    ensures forall x :: x in ApplyChange(s, c).schemas <==> x in Extend(h, c).schemas
  {
    hide SchemaOk;
    assert Last(h.schemas) in h.schemas;
  }

  lemma ChangeKeepsOldColumns(s: Slice, c: Change, x: Uuid)
    requires s.row.schema.Some? && s.row.schema.value in s.schemas
    requires c.spec.Some? ==> c.ids.schema !in s.schemas
    requires x in s.schemas
    ensures ColumnsFor(ApplyChange(s, c).columns, x) == ColumnsFor(s.columns, x)
  {
    if c.spec.Some? { ColumnRowsStored(c.ids.schema, c.ids, c.spec.value); }
  }

  lemma ChangeStoresSpec(s: Slice, c: Change)
    requires s.row.schema.Some? && s.row.schema.value in s.schemas
    requires c.spec.Some? && c.ids.schema !in s.schemas
    requires forall r :: r in s.columns ==> r.schema in s.schemas
    ensures Stored(ColumnsFor(ApplyChange(s, c).columns, c.ids.schema), c.spec.value)
    ensures forall r :: r in NewColumns(c) ==> r.schema == c.ids.schema
  {
    ColumnRowsStored(c.ids.schema, c.ids, c.spec.value);
    assert ColumnsFor(ApplyChange(s, c).columns, c.ids.schema) == NewColumns(c);
  }

  lemma ChangeKeepsColumns(s: Slice, h: Hist, c: Change)
    requires SchemasOk(s, h) && ColumnsOk(s, h)
    requires c.spec.Some? ==> ValidSchema(c.spec.value) && c.ids.schema !in s.schemas
    ensures ColumnsOk(ApplyChange(s, c), Extend(h, c))
  {
    var s2, g, n := ApplyChange(s, c), Extend(h, c), |h.schemas|;
    forall i | 0 <= i < n
      ensures ValidSchema(g.specs[i]) && Stored(ColumnsFor(s2.columns, g.schemas[i]), g.specs[i])
    {
      assert h.schemas[i] in s.schemas;
      ChangeKeepsOldColumns(s, c, h.schemas[i]);
    }
    if c.spec.Some? { ChangeStoresSpec(s, c); }
  }

  lemma ChangeKeepsEvolution(s: Slice, h: Hist, c: Change)
    requires SchemasOk(s, h) && ColumnsOk(s, h) && EvolutionOk(h)
    requires c.spec.Some? ==> ValidSchema(c.spec.value)
                              && CheckEvolution(ColumnsFor(s.columns, Last(h.schemas)), c.spec.value).Ok?
    ensures EvolutionOk(Extend(h, c))
  {
    var n := |h.schemas|;
    if c.spec.Some? {
      assert ValidSchema(h.specs[n - 1]) && Stored(ColumnsFor(s.columns, h.schemas[n - 1]), h.specs[n - 1]);
      EvolutionCheckExact(ColumnsFor(s.columns, h.schemas[n - 1]), h.specs[n - 1], c.spec.value);
    }
    forall i | 0 <= i < |Extend(h, c).specs| - 1 ensures StepEvolves(Extend(h, c).specs, i) {
      if i + 1 < n { assert StepEvolves(h.specs, i); }
    }
  }

  /** Every commit keeps the table's invariant. */
  lemma ChangeKeepsInvariant(s: Slice, h: Hist, c: Change)
    requires SliceOk(s, h) && Legal(s, c)
    ensures SliceOk(ApplyChange(s, c), Extend(h, c))
  {
    hide FileOk, SchemaOk, Stored, EvolutionOk, ValidSchema, CheckEvolution;
    assert c.txn !in h.chain;
    assert Last(h.schemas) in h.schemas;
    SpellsExtend(s.txns, h.chain, c.txn);
    DistinctExtend(h.chain, c.txn);
    forall u | u in s.files + c.files ensures FileOk((s.files + c.files)[u], Extend(h, c).chain) {
      ChangedFileOk(s, h, c, u);
    }
    ChangeKeepsSchemas(s, h, c);
    ChangeKeepsColumns(s, h, c);
    ChangeKeepsEvolution(s, h, c);
  }

  // ---------- any number of commits ----------

  /** The part of a file row that no commit changes. */
  function FixedFile(f: FileRow): FileRow {
    f.(removed := None)
  }

  ghost predicate Later(g: seq<TxnId>, n: nat, t: TxnId) {
    t in g && Index(g, t) >= n
  }

  ghost predicate FilesGrow(s: Slice, n: nat, s2: Slice, g: seq<TxnId>) {
    && (forall u :: u in s.files ==>
                      && u in s2.files && FixedFile(s2.files[u]) == FixedFile(s.files[u])
                      && (s2.files[u].removed == s.files[u].removed
                          || (s.files[u].removed.None? && s2.files[u].removed.Some?
                            && Later(g, n, s2.files[u].removed.value))))
    && (forall u :: u in s2.files && u !in s.files ==> Later(g, n, s2.files[u].added))
  }

  function FixedSchema(r: SchemaRow): SchemaRow {
    r.(validTo := None)
  }

  ghost predicate SchemasGrow(s: Slice, n: nat, s2: Slice, g: seq<TxnId>) {
    && (forall x :: x in s.schemas ==>
                      && x in s2.schemas && FixedSchema(s2.schemas[x]) == FixedSchema(s.schemas[x])
                      && ColumnsFor(s2.columns, x) == ColumnsFor(s.columns, x)
                      && (s2.schemas[x].validTo == s.schemas[x].validTo
                          || (s.schemas[x].validTo.None? && s2.schemas[x].validTo.Some?
                            && Later(g, n, s2.schemas[x].validTo.value))))
    && (forall x :: x in s2.schemas && x !in s.schemas ==> Later(g, n, s2.schemas[x].validFrom))
  }

  /** s2 is reached from s by further commits: the history is extended, nothing in it rewritten. */
  ghost predicate Grows(s: Slice, h: Hist, s2: Slice, g: Hist) {
    && h.chain <= g.chain && h.schemas <= g.schemas && h.specs <= g.specs
    && s2.row.uuid == s.row.uuid && s2.row.minReader == s.row.minReader && s2.row.minWriter == s.row.minWriter
    && FilesGrow(s, |h.chain|, s2, g.chain) && SchemasGrow(s, |h.chain|, s2, g.chain)
  }

  lemma ChangeGrowsFiles(s: Slice, h: Hist, c: Change)
    requires Distinct(h.chain) && c.txn !in h.chain
    requires forall u :: u in c.files ==> LegalFile(s, c.txn, u, c.files[u])
    requires s.row.schema.Some? && s.row.schema.value in s.schemas
    ensures FilesGrow(s, |h.chain|, ApplyChange(s, c), Extend(h, c).chain)
  {
    ExtendedChain(h, c);
  }

  lemma ChangeGrowsSchemas(s: Slice, h: Hist, c: Change)
    requires SchemasOk(s, h) && Distinct(h.chain) && c.txn !in h.chain
    requires c.spec.Some? ==> c.ids.schema !in s.schemas
    ensures SchemasGrow(s, |h.chain|, ApplyChange(s, c), Extend(h, c).chain)
  {
    ExtendedChain(h, c);
    assert SchemaOk(s, h, |h.schemas| - 1);
    forall x | x in s.schemas ensures ColumnsFor(ApplyChange(s, c).columns, x) == ColumnsFor(s.columns, x) {
      ChangeKeepsOldColumns(s, c, x);
    }
  }

  /** Every commit extends the table's history and rewrites none of it. */
  lemma ChangeGrows(s: Slice, h: Hist, c: Change)
    requires SliceOk(s, h) && Legal(s, c)
    ensures Grows(s, h, ApplyChange(s, c), Extend(h, c))
  {
    assert c.txn !in h.chain;
    assert Last(h.schemas) in h.schemas;
    ChangeGrowsFiles(s, h, c);
    ChangeGrowsSchemas(s, h, c);
  }

  lemma LaterShifts(h: seq<TxnId>, g: seq<TxnId>, n: nat, t: TxnId)
    requires h <= g && Distinct(g) && Later(h, n, t)
    ensures Later(g, n, t)
  {
    assert g[Index(h, t)] == t;
  }

  lemma GrowsTransitive(a: Slice, f: Hist, b: Slice, g: Hist, c: Slice, h: Hist)
    requires Grows(a, f, b, g) && Grows(b, g, c, h) && Distinct(h.chain)
    ensures Grows(a, f, c, h)
  {
    var n := |f.chain|;
    assert forall t :: Later(g.chain, n, t) ==> Later(h.chain, n, t) by {
      forall t | Later(g.chain, n, t) ensures Later(h.chain, n, t) { LaterShifts(g.chain, h.chain, n, t); }
    }
    assert forall t :: Later(h.chain, |g.chain|, t) ==> Later(h.chain, n, t);
    assert FilesGrow(a, n, c, h.chain);
    assert SchemasGrow(a, n, c, h.chain);
  }
}
