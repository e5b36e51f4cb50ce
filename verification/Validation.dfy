/** Request validation: schema specs, file specs and whole mutations. */
module Validation {
  import opened CatalogTypes
  import opened Limits

  /** Unicode White_Space, which `str::trim` strips. */
  predicate IsWhitespace(c: char) {
    var u := c as int;
    0x09 <= u <= 0x0D || u == 0x20 || u == 0x85 || u == 0xA0 || u == 0x1680 || 0x2000 <= u <= 0x200A
    || u == 0x2028 || u == 0x2029 || u == 0x202F || u == 0x205F || u == 0x3000
  }

  predicate IsBlank(s: string) {
    forall i :: 0 <= i < |s| ==> IsWhitespace(s[i])
  }

  function TrimStart(s: string): string {
    if |s| > 0 && IsWhitespace(s[0]) then TrimStart(s[1..]) else s
  }

  function TrimEnd(s: string): string {
    if |s| > 0 && IsWhitespace(s[|s| - 1]) then TrimEnd(s[..|s| - 1]) else s
  }

  lemma {:induction false} TrimStartEmpty(s: string)
    ensures TrimStart(s) == "" <==> forall i :: 0 <= i < |s| ==> IsWhitespace(s[i])
    ensures TrimStart(s) != "" ==> !IsWhitespace(TrimStart(s)[0])
    decreases |s|
  {
    if |s| > 0 && IsWhitespace(s[0]) {
      TrimStartEmpty(s[1..]);
      assert s == [s[0]] + s[1..];
    }
  }

  lemma {:induction false} TrimEndKeepsFirst(s: string)
    requires |s| > 0 && !IsWhitespace(s[0])
    ensures |TrimEnd(s)| > 0
    decreases |s|
  {
    if |s| > 1 { TrimEndKeepsFirst(s[..|s| - 1]); }
  }

  /** Blank means empty once trimmed on both sides, that is, without a position that holds something else. */
  lemma BlankIffTrimmedEmpty(s: string)
    ensures IsBlank(s) <==> TrimEnd(TrimStart(s)) == ""
    ensures !IsBlank(s) <==> exists i :: 0 <= i < |s| && !IsWhitespace(s[i])
  {
    TrimStartEmpty(s);
    if TrimStart(s) != "" { TrimEndKeepsFirst(TrimStart(s)); }
  }

  /** Of the ASCII characters, only tab, line feed, vertical tab, form feed, carriage return and space are stripped. */
  lemma AsciiWhitespace(c: char)
    requires (c as int) < 0x80
    ensures IsWhitespace(c) <==> c in {'\t', '\n', 0x0B as char, 0x0C as char, '\r', ' '}
  {
  }

  // ---------- schemas ----------

  /** What an accepted schema looks like. */
  predicate ValidSchema(columns: seq<ColumnSpec>) {
    && 0 < |columns| <= MAX_COLUMNS_PER_SCHEMA
    && (forall i :: 0 <= i < |columns| ==> !IsBlank(columns[i].name))
    && (forall i, j :: 0 <= i < j < |columns| ==> columns[i].name != columns[j].name)
  }

  /** The verdict after looking at the first n columns. */
  function ScanColumns(columns: seq<ColumnSpec>, n: nat): Result<()>
    requires n <= |columns|
  {
    if n == 0 then Ok(()) else
      var before := ScanColumns(columns, n - 1);
      var name := columns[n - 1].name;
      if before.Err? then before
      else if IsBlank(name) then Err(BlankColumnName)
      else if exists i :: 0 <= i < n - 1 && columns[i].name == name then Err(DuplicateColumn(name))
      else Ok(())
  }

  function CheckSchema(columns: seq<ColumnSpec>): Result<()> {
    if |columns| == 0 then Err(EmptySchema)
    else if |columns| > MAX_COLUMNS_PER_SCHEMA then Err(TooManyColumns)
    else ScanColumns(columns, |columns|)
  }

  lemma {:induction false} ScanStays(columns: seq<ColumnSpec>, n: nat, m: nat)
    requires n <= m <= |columns| && ScanColumns(columns, n).Err?
    ensures ScanColumns(columns, m) == ScanColumns(columns, n)
    decreases m
  {
    if m > n { ScanStays(columns, n, m - 1); }
  }

  lemma {:induction false} ScanAccepts(columns: seq<ColumnSpec>, n: nat)
    requires n <= |columns|
    ensures ScanColumns(columns, n).Ok? <==>
              (forall i :: 0 <= i < n ==> !IsBlank(columns[i].name)) &&
              (forall i, j :: 0 <= i < j < n ==> columns[i].name != columns[j].name)
  {
    if n > 0 { ScanAccepts(columns, n - 1); }
  }

  lemma CheckSchemaAccepts(columns: seq<ColumnSpec>)
    ensures CheckSchema(columns).Ok? <==> ValidSchema(columns)
  {
    ScanAccepts(columns, |columns|);
  }

  predicate ValidNames(columns: seq<ColumnSpec>) {
    && (forall i :: 0 <= i < |columns| ==> !IsBlank(columns[i].name))
    && (forall i, j :: 0 <= i < j < |columns| ==> columns[i].name != columns[j].name)
  }

  /** Column k is the first that cannot stay, for the reason e. */
  predicate ColumnOffends(columns: seq<ColumnSpec>, k: nat, e: CatalogError)
    requires k < |columns|
  {
    && ValidNames(columns[..k])
    && if IsBlank(columns[k].name) then e == BlankColumnName
       else e == DuplicateColumn(columns[k].name) && exists i :: 0 <= i < k && columns[i].name == columns[k].name
  }

  lemma ColumnOffendsNext(columns: seq<ColumnSpec>, n: nat, e: CatalogError)
    requires n < |columns|
    ensures ScanColumns(columns, n).Ok? <==> ValidNames(columns[..n])
    ensures ScanColumns(columns, n).Ok? ==> (ScanColumns(columns, n + 1) == Err(e) <==> ColumnOffends(columns, n, e))
  {
    ScanAccepts(columns, n);
    assert forall i :: 0 <= i < n ==> columns[..n][i] == columns[i];
  }

  lemma {:induction false} ScanColumnsReports(columns: seq<ColumnSpec>, n: nat, e: CatalogError)
    requires n <= |columns|
    ensures ScanColumns(columns, n) == Err(e) <==> exists k :: 0 <= k < n && ColumnOffends(columns, k, e)
  {
    hide ValidNames;
    if n > 0 {
      ScanColumnsReports(columns, n - 1, e);
      ColumnOffendsNext(columns, n - 1, e);
    }
  }

  /** Which error an unacceptable schema gets. */
  lemma CheckSchemaReports(columns: seq<ColumnSpec>, e: CatalogError)
    ensures CheckSchema(columns) == Err(e) <==>
              || (e == EmptySchema && |columns| == 0)
              || (e == TooManyColumns && |columns| > MAX_COLUMNS_PER_SCHEMA)
              || (0 < |columns| <= MAX_COLUMNS_PER_SCHEMA && exists k :: 0 <= k < |columns|
                                                                         && ColumnOffends(columns, k, e))
  {
    ScanColumnsReports(columns, |columns|, e);
  }

  method ValidateSchema(columns: seq<ColumnSpec>) returns (r: Result<()>)
    ensures r == CheckSchema(columns)
    ensures r.Ok? <==> ValidSchema(columns)
  {
    CheckSchemaAccepts(columns);
    if |columns| == 0 { return Err(EmptySchema); }
    if |columns| > MAX_COLUMNS_PER_SCHEMA { return Err(TooManyColumns); }
    var seen: set<string> := {};
    for n := 0 to |columns|
      invariant seen == set i | 0 <= i < n :: columns[i].name
      invariant ScanColumns(columns, n) == Ok(())
    {
      var name := columns[n].name;
      if IsBlank(name) || name in seen {
        ScanStays(columns, n + 1, |columns|);
        return Err(if IsBlank(name) then BlankColumnName else DuplicateColumn(name));
      }
      seen := seen + {name};
    }
    return Ok(());
  }

  // ---------- files ----------

  function CheckFile(f: FileSpec): Result<()> {
    if IsBlank(f.path) then Err(BlankPath)
    else if f.records < 0 then Err(NegativeRecordCount)
    else if f.bytes < 0 then Err(NegativeFileSize)
    else if f.partition.Some? && !f.partition.value.accepted then Err(RejectedDocument)
    else if f.options.Some? && !f.options.value.accepted then Err(RejectedDocument)
    else Ok(())
  }

  /** A file that can be appended: a path, no negative count, and only accepted documents. */
  predicate ValidFile(f: FileSpec) {
    && (exists i :: 0 <= i < |f.path| && !IsWhitespace(f.path[i]))
    && f.records >= 0 && f.bytes >= 0
    && (f.partition.Some? ==> f.partition.value.accepted)
    && (f.options.Some? ==> f.options.value.accepted)
  }

  /** The check accepts exactly the valid files, and reports the first thing wrong with any other. */
  lemma CheckFileExact(f: FileSpec)
    ensures CheckFile(f).Ok? <==> ValidFile(f)
    ensures CheckFile(f) == Err(BlankPath) <==> IsBlank(f.path)
    ensures CheckFile(f) == Err(NegativeRecordCount) <==> !IsBlank(f.path) && f.records < 0
    ensures CheckFile(f) == Err(NegativeFileSize) <==> !IsBlank(f.path) && f.records >= 0 && f.bytes < 0
    ensures CheckFile(f) == Err(RejectedDocument) <==>
              && !IsBlank(f.path) && f.records >= 0 && f.bytes >= 0
              && ((f.partition.Some? && !f.partition.value.accepted)
                  || (f.options.Some? && !f.options.value.accepted))
  {
    BlankIffTrimmedEmpty(f.path);
  }

  // ---------- mutations ----------

  /** The first element that repeats an earlier one. */
  function FirstRepeat<T(==)>(s: seq<T>, n: nat): Option<T>
    requires n <= |s|
  {
    if n == 0 then None else
      var before := FirstRepeat(s, n - 1);
      if before.Some? then before
      else if s[n - 1] in s[..n - 1] then Some(s[n - 1])
      else None
  }

  lemma {:induction false} FirstRepeatFinds<T>(s: seq<T>, n: nat)
    requires n <= |s|
    ensures FirstRepeat(s, n).None? <==> Distinct(s[..n])
  {
    if n > 0 {
      FirstRepeatFinds(s, n - 1);
      assert s[..n] == s[..n - 1] + [s[n - 1]];
    }
  }

  /** x is the first element to occur a second time. */
  predicate IsFirstRepeat<T(==)>(s: seq<T>, x: T) {
    exists k :: 0 <= k < |s| && RepeatsAt(s, k, x)
  }

  predicate RepeatsAt<T(==)>(s: seq<T>, k: nat, x: T)
    requires k < |s|
  {
    Distinct(s[..k]) && s[k] == x && x in s[..k]
  }

  lemma {:induction false} FirstRepeatIs<T>(s: seq<T>, n: nat, x: T)
    requires n <= |s|
    ensures FirstRepeat(s, n) == Some(x) <==> exists k :: 0 <= k < n && RepeatsAt(s, k, x)
  {
    hide Distinct;
    if n > 0 {
      FirstRepeatIs(s, n - 1, x);
      FirstRepeatFinds(s, n - 1);
      assert RepeatsAt(s, n - 1, x) <==> FirstRepeat(s, n - 1).None? && s[n - 1] == x && x in s[..n - 1];
    }
  }

  lemma {:induction false} RepeatStays<T>(s: seq<T>, n: nat, m: nat)
    requires n <= m <= |s| && FirstRepeat(s, n).Some?
    ensures FirstRepeat(s, m) == FirstRepeat(s, n)
    decreases m
  {
    if m > n { RepeatStays(s, n, m - 1); }
  }

  method FindRepeat<T(==)>(s: seq<T>) returns (r: Option<T>)
    ensures r == FirstRepeat(s, |s|)
    ensures r.None? <==> Distinct(s)
    ensures r.Some? ==> IsFirstRepeat(s, r.value)
  {
    FirstRepeatFinds(s, |s|);
    assert s[..|s|] == s;
    var seen: set<T> := {};
    for n := 0 to |s|
      invariant seen == set x | x in s[..n]
      invariant FirstRepeat(s, n) == None
    {
      if s[n] in seen {
        RepeatStays(s, n + 1, |s|);
        FirstRepeatIs(s, |s|, s[n]);
        return Some(s[n]);
      }
      assert s[..n + 1] == s[..n] + [s[n]];
      seen := seen + {s[n]};
    }
    return None;
  }

  function CountUpdates(ops: seq<MutationOp>): nat {
    if |ops| == 0 then 0 else CountUpdates(ops[..|ops| - 1]) + if ops[|ops| - 1].UpdateSchema? then 1 else 0
  }

  function CountSets(ops: seq<MutationOp>): nat {
    if |ops| == 0 then 0 else CountSets(ops[..|ops| - 1]) + if ops[|ops| - 1].SetProperties? then 1 else 0
  }

  /** The verdict of `Mutation::validate` after its first n operations. */
  function ScanOps(ops: seq<MutationOp>, n: nat): Result<()>
    requires n <= |ops|
  {
    if n == 0 then Ok(()) else
      var before := ScanOps(ops, n - 1);
      if before.Err? then before else
        match ops[n - 1]
        case UpdateSchema(_) => if CountUpdates(ops[..n]) > 1 then Err(SecondUpdateSchema) else Ok(())
        case SetProperties(_) => if CountSets(ops[..n]) > 1 then Err(SecondSetProperties) else Ok(())
        case DeleteFiles(uuids) =>
          var d := FirstRepeat(uuids, |uuids|);
          if d.Some? then Err(DuplicateDelete(d.value)) else Ok(())
        case RemoveProperties(keys) =>
          var d := FirstRepeat(keys, |keys|);
          if d.Some? then Err(DuplicateKey(d.value)) else Ok(())
        case AppendFiles(_) => Ok(())
  }

  /** At most one schema update, at most one property set, and no repetition inside a delete or a key removal. */
  predicate ValidMutation(ops: seq<MutationOp>) {
    && (forall i, j :: 0 <= i < j < |ops| ==> !(ops[i].UpdateSchema? && ops[j].UpdateSchema?))
    && (forall i, j :: 0 <= i < j < |ops| ==> !(ops[i].SetProperties? && ops[j].SetProperties?))
    && (forall i :: 0 <= i < |ops| && ops[i].DeleteFiles? ==> Distinct(ops[i].uuids))
    && (forall i :: 0 <= i < |ops| && ops[i].RemoveProperties? ==> Distinct(ops[i].keys))
  }

  lemma {:induction false} UpdatesCounted(ops: seq<MutationOp>)
    ensures CountUpdates(ops) == 0 <==> forall i :: 0 <= i < |ops| ==> !ops[i].UpdateSchema?
    ensures CountUpdates(ops) <= 1 <==> forall i, j :: 0 <= i < j < |ops| ==>
                                                         !(ops[i].UpdateSchema? && ops[j].UpdateSchema?)
    decreases |ops|
  {
    if |ops| > 0 {
      var n := |ops| - 1;
      UpdatesCounted(ops[..n]);
      assert ops == ops[..n] + [ops[n]];
    }
  }

  lemma {:induction false} SetsCounted(ops: seq<MutationOp>)
    ensures CountSets(ops) == 0 <==> forall i :: 0 <= i < |ops| ==> !ops[i].SetProperties?
    ensures CountSets(ops) <= 1 <==> forall i, j :: 0 <= i < j < |ops| ==>
                                                      !(ops[i].SetProperties? && ops[j].SetProperties?)
    decreases |ops|
  {
    if |ops| > 0 {
      var n := |ops| - 1;
      SetsCounted(ops[..n]);
      assert ops == ops[..n] + [ops[n]];
    }
  }

  /** The same with the counters of the loop. */
  predicate CountsValid(ops: seq<MutationOp>) {
    && CountUpdates(ops) <= 1
    && CountSets(ops) <= 1
    && (forall i :: 0 <= i < |ops| && ops[i].DeleteFiles? ==> Distinct(ops[i].uuids))
    && (forall i :: 0 <= i < |ops| && ops[i].RemoveProperties? ==> Distinct(ops[i].keys))
  }

  lemma ValidByCounts(ops: seq<MutationOp>)
    ensures ValidMutation(ops) <==> CountsValid(ops)
  {
    UpdatesCounted(ops);
    SetsCounted(ops);
  }

  lemma {:induction false} ScanOpsStays(ops: seq<MutationOp>, n: nat, m: nat)
    requires n <= m <= |ops| && ScanOps(ops, n).Err?
    ensures ScanOps(ops, m) == ScanOps(ops, n)
    decreases m
  {
    if m > n { ScanOpsStays(ops, n, m - 1); }
  }

  lemma {:induction false} ScanOpsCounts(ops: seq<MutationOp>, n: nat)
    requires n <= |ops|
    ensures ScanOps(ops, n).Ok? <==> CountsValid(ops[..n])
  {
    if n > 0 {
      var init, op := ops[..n - 1], ops[n - 1];
      ScanOpsCounts(ops, n - 1);
      assert ops[..n][..n - 1] == init;
      assert ops[..n] == init + [op];
      if op.DeleteFiles? { FirstRepeatFinds(op.uuids, |op.uuids|); assert op.uuids[..|op.uuids|] == op.uuids; }
      if op.RemoveProperties? { FirstRepeatFinds(op.keys, |op.keys|); assert op.keys[..|op.keys|] == op.keys; }
      assert CountsValid(ops[..n]) ==> CountsValid(init) by {
        assert forall i :: 0 <= i < |init| ==> init[i] == ops[..n][i];
      }
      assert ops[..n][n - 1] == op;
    }
  }

  lemma ScanOpsAccepts(ops: seq<MutationOp>, n: nat)
    requires n <= |ops|
    ensures ScanOps(ops, n).Ok? <==> ValidMutation(ops[..n])
    ensures ValidMutation(ops[..n]) <==> CountsValid(ops[..n])
  {
    ScanOpsCounts(ops, n);
    ValidByCounts(ops[..n]);
  }

  /** Operation k is the first that cannot stay, for the reason e. */
  ghost predicate OpOffends(ops: seq<MutationOp>, k: nat, e: CatalogError)
    requires k < |ops|
  {
    && ValidMutation(ops[..k])
    && match ops[k]
       case UpdateSchema(_) => e == SecondUpdateSchema && exists i :: 0 <= i < k && ops[i].UpdateSchema?
       case SetProperties(_) => e == SecondSetProperties && exists i :: 0 <= i < k && ops[i].SetProperties?
       case DeleteFiles(uuids) => e.DuplicateDelete? && IsFirstRepeat(uuids, e.uuid)
       case RemoveProperties(keys) => e.DuplicateKey? && IsFirstRepeat(keys, e.key)
       case AppendFiles(_) => false
  }

  lemma OpOffendsNext(ops: seq<MutationOp>, n: nat, e: CatalogError)
    requires n < |ops| && ScanOps(ops, n).Ok?
    ensures ScanOps(ops, n + 1) == Err(e) <==> OpOffends(ops, n, e)
  {
    ScanOpsAccepts(ops, n);
    assert ops[..n + 1][..n] == ops[..n] && ops[..n + 1][n] == ops[n];
    match ops[n]
    case UpdateSchema(_) => UpdatesCounted(ops[..n]);
    case SetProperties(_) => SetsCounted(ops[..n]);
    case DeleteFiles(uuids) => if e.DuplicateDelete? { FirstRepeatIs(uuids, |uuids|, e.uuid); }
    case RemoveProperties(keys) => if e.DuplicateKey? { FirstRepeatIs(keys, |keys|, e.key); }
    case AppendFiles(_) =>
  }

  lemma {:induction false} ScanOpsReports(ops: seq<MutationOp>, n: nat, e: CatalogError)
    requires n <= |ops|
    ensures ScanOps(ops, n) == Err(e) <==> exists k :: 0 <= k < n && OpOffends(ops, k, e)
  {
    hide ValidMutation, CountsValid;
    if n > 0 {
      ScanOpsReports(ops, n - 1, e);
      if ScanOps(ops, n - 1).Ok? {
        OpOffendsNext(ops, n - 1, e);
      } else if OpOffends(ops, n - 1, e) {
        ScanOpsAccepts(ops, n - 1);
      }
    }
  }

  lemma ScanVerdict(ops: seq<MutationOp>)
    ensures ScanOps(ops, |ops|).Ok? <==> ValidMutation(ops)
    ensures ScanOps(ops, |ops|).Err? ==> exists k :: 0 <= k < |ops| && OpOffends(ops, k, ScanOps(ops, |ops|).error)
  {
    hide OpOffends;
    ScanOpsAccepts(ops, |ops|);
    assert ops[..|ops|] == ops;
    if ScanOps(ops, |ops|).Err? { ScanOpsReports(ops, |ops|, ScanOps(ops, |ops|).error); }
  }

  method ValidateMutation(ops: seq<MutationOp>) returns (r: Result<()>)
    ensures r == ScanOps(ops, |ops|)
    ensures r.Ok? <==> ValidMutation(ops)
    ensures r.Err? ==> exists k :: 0 <= k < |ops| && OpOffends(ops, k, r.error)
  {
    hide OpOffends, ValidMutation;
    ScanVerdict(ops);
    var updates, sets := 0, 0;
    for n := 0 to |ops|
      invariant updates == CountUpdates(ops[..n]) && sets == CountSets(ops[..n])
      invariant ScanOps(ops, n) == Ok(())
    {
      assert ops[..n + 1][..n] == ops[..n] && ops[..n + 1][n] == ops[n];
      var fault: Option<CatalogError> := None;
      match ops[n] {
        case UpdateSchema(_) =>
          updates := updates + 1;
          if updates > 1 { fault := Some(SecondUpdateSchema); }
        case SetProperties(_) =>
          sets := sets + 1;
          if sets > 1 { fault := Some(SecondSetProperties); }
        case DeleteFiles(uuids) =>
          var d := FindRepeat(uuids);
          if d.Some? { fault := Some(DuplicateDelete(d.value)); }
        case RemoveProperties(keys) =>
          var d := FindRepeat(keys);
          if d.Some? { fault := Some(DuplicateKey(d.value)); }
        case AppendFiles(_) =>
      }
      if fault.Some? {
        ScanOpsStays(ops, n + 1, |ops|);
        return Err(fault.value);
      }
    }
    return Ok(());
  }
}
