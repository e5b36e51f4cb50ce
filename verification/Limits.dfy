/** Bounds on catalog operations, and the arithmetic of multi-row statements. */
module Limits {
  datatype DbKind = Sqlite | Postgres

  const MAX_FILES_PER_QUERY := 10_000
  const MAX_COLUMNS_PER_SCHEMA := 1_000
  const MAX_TRANSACTIONS_PER_SCAN := 50_000
  const MAX_SCHEMA_CHANGES_PER_SCAN := 10_000
  const MAX_OPERATIONS_PER_MUTATION := 1_000
  const MAX_FILES_PER_APPEND := 1_000
  const MAX_FILES_PER_DELETE := 1_000
  const MAX_PROPERTY_KEYS_TO_REMOVE := 100
  const BATCH_INSERT_FILES_CHUNK := 100
  const BATCH_DELETE_FILES_CHUNK := 500
  const COLUMN_INSERT_PARAMS_PER_ROW := 6
  const FILE_INSERT_PARAMS_PER_ROW := 9
  const DELETE_FILES_FIXED_PARAMS := 2

  function DbBindLimit(db: DbKind): nat {
    match db
    case Sqlite => 32_766
    case Postgres => 65_535
  }

  function ColumnInsertBindCount(rows: nat): nat { rows * COLUMN_INSERT_PARAMS_PER_ROW }

  function FileInsertBindCount(rows: nat): nat { rows * FILE_INSERT_PARAMS_PER_ROW }

  function DeleteFilesBindCount(rows: nat): nat { DELETE_FILES_FIXED_PARAMS + rows }

  function BatchInsertColumnsChunk(db: DbKind): nat {
    var rows := DbBindLimit(db) / COLUMN_INSERT_PARAMS_PER_ROW;
    if rows < MAX_COLUMNS_PER_SCHEMA then rows else MAX_COLUMNS_PER_SCHEMA
  }

  /** Rust's `slice::chunks`. */
  function Chunks<T>(xs: seq<T>, size: nat): seq<seq<T>>
    requires size > 0
  {
    if |xs| == 0 then []
    else if |xs| <= size then [xs]
    else [xs[..size]] + Chunks(xs[size..], size)
  }

  function Flatten<T>(xss: seq<seq<T>>): seq<T> {
    if |xss| == 0 then [] else Flatten(xss[..|xss| - 1]) + xss[|xss| - 1]
  }

  lemma {:induction false} FlattenCons<T>(x: seq<T>, xss: seq<seq<T>>)
    ensures Flatten([x] + xss) == x + Flatten(xss)
    decreases |xss|
  {
    var all := [x] + xss;
    if |xss| == 0 {
      assert all[..0] == [];
      assert Flatten(all[..0]) == [];
    } else {
      var n := |xss| - 1;
      FlattenCons(x, xss[..n]);
      assert all[..n + 1] == [x] + xss[..n];
    }
  }

  lemma {:induction false} ChunkLengths<T>(xs: seq<T>, size: nat)
    requires size > 0
    ensures forall c :: 0 <= c < |Chunks(xs, size)| ==> 0 < |Chunks(xs, size)[c]| <= size
    decreases |xs|
  {
    if |xs| > size { ChunkLengths(xs[size..], size); }
  }

  /** Chunking loses, repeats and reorders nothing. */
  lemma {:induction false} ChunksCover<T>(xs: seq<T>, size: nat)
    requires size > 0
    ensures Flatten(Chunks(xs, size)) == xs
    decreases |xs|
  {
    if |xs| == 0 {
    } else if |xs| <= size {
      FlattenCons(xs, []);
      assert [xs] + [] == [xs];
    } else {
      ChunksCover(xs[size..], size);
      FlattenCons(xs[..size], Chunks(xs[size..], size));
    }
  }

  /** Element i of chunk c sits at position c * size + i of the original list. */
  lemma {:induction false} ChunkPosition<T>(xs: seq<T>, size: nat, c: nat, i: nat)
    requires size > 0 && c < |Chunks(xs, size)| && i < |Chunks(xs, size)[c]|
    ensures 0 <= c * size + i < |xs|
    ensures Chunks(xs, size)[c][i] == xs[c * size + i]
    decreases |xs|
  {
    if |xs| > size {
      if c == 0 {
        assert c * size == 0;
      } else {
        ChunkPosition(xs[size..], size, c - 1, i);
        assert (c - 1) * size + size == c * size;
      }
    } else {
      assert c * size == 0;
    }
  }

  /** No more chunks than needed. */
  lemma {:induction false} ChunkCountExact<T>(xs: seq<T>, size: nat)
    requires size > 0
    ensures |xs| <= |Chunks(xs, size)| * size < |xs| + size
    decreases |xs|
  {
    if |xs| > size {
      var rest := |Chunks(xs[size..], size)|;
      ChunkCountExact(xs[size..], size);
      assert (1 + rest) * size == size + rest * size;
    }
  }

  /** The number and width of the chunked statements: 100 files of 9 parameters, 500 deletes of one and two fixed
      parameters, 1000 columns of 6. */
  lemma StatementShapes<F, D, C>(db: DbKind, files: seq<F>, deletes: seq<D>, columns: seq<C>)
    ensures |Chunks(files, BATCH_INSERT_FILES_CHUNK)| == (|files| + 99) / 100
    ensures |Chunks(deletes, BATCH_DELETE_FILES_CHUNK)| == (|deletes| + 499) / 500
    ensures |Chunks(columns, BatchInsertColumnsChunk(db))| == (|columns| + 999) / 1000
    ensures forall c :: c in Chunks(files, BATCH_INSERT_FILES_CHUNK) ==>
                          |c| <= 100 && FileInsertBindCount(|c|) == 9 * |c| <= 32_766
    ensures forall c :: c in Chunks(deletes, BATCH_DELETE_FILES_CHUNK) ==>
                          |c| <= 500 && DeleteFilesBindCount(|c|) == 2 + |c| <= 32_766
    ensures forall c :: c in Chunks(columns, BatchInsertColumnsChunk(db)) ==>
                          |c| <= 1_000 && ColumnInsertBindCount(|c|) == 6 * |c| <= 32_766
  {
    ChunkCountExact(files, BATCH_INSERT_FILES_CHUNK);
    ChunkCountExact(deletes, BATCH_DELETE_FILES_CHUNK);
    ChunkCountExact(columns, BatchInsertColumnsChunk(db));
    ChunkLengths(files, BATCH_INSERT_FILES_CHUNK);
    ChunkLengths(deletes, BATCH_DELETE_FILES_CHUNK);
    ChunkLengths(columns, BatchInsertColumnsChunk(db));
  }

  /** The relations the limits are chosen to keep. */
  lemma LimitsFit()
    ensures MAX_FILES_PER_APPEND == MAX_FILES_PER_DELETE == MAX_OPERATIONS_PER_MUTATION == MAX_COLUMNS_PER_SCHEMA
            == 1_000
    ensures MAX_FILES_PER_APPEND <= MAX_FILES_PER_QUERY == 10_000 && MAX_FILES_PER_APPEND <= MAX_OPERATIONS_PER_MUTATION
    ensures MAX_SCHEMA_CHANGES_PER_SCAN == 10_000 <= MAX_TRANSACTIONS_PER_SCAN == 50_000
    ensures MAX_PROPERTY_KEYS_TO_REMOVE == 100
  {
  }

  /** Every chunked statement respects the backend's bind-parameter ceiling. */
  lemma StatementsWithinBindLimit<F, D, C>(db: DbKind, files: seq<F>, deletes: seq<D>, columns: seq<C>)
    ensures BatchInsertColumnsChunk(db) == MAX_COLUMNS_PER_SCHEMA
    ensures forall c :: c in Chunks(files, BATCH_INSERT_FILES_CHUNK) ==> FileInsertBindCount(|c|) <= DbBindLimit(db)
    ensures forall c :: c in Chunks(deletes, BATCH_DELETE_FILES_CHUNK) ==> DeleteFilesBindCount(|c|) <= DbBindLimit(db)
    ensures forall c :: c in Chunks(columns, BatchInsertColumnsChunk(db)) ==>
                          ColumnInsertBindCount(|c|) <= DbBindLimit(db)
  {
    ChunkLengths(files, BATCH_INSERT_FILES_CHUNK);
    ChunkLengths(deletes, BATCH_DELETE_FILES_CHUNK);
    ChunkLengths(columns, BatchInsertColumnsChunk(db));
  }

  /** The first n placeholder numbers, in order. */
  function Numbered(n: nat): seq<nat> {
    seq(n, i => i + 1)
  }

  /** The `VALUES ($1, …), ($k+1, …)` tuples of a Postgres multi-row insert. */
  method ValuePlaceholders(rows: nat, width: nat) returns (tuples: seq<seq<nat>>)
    ensures |tuples| == rows && forall r :: 0 <= r < rows ==> |tuples[r]| == width
    ensures forall r, j :: 0 <= r < rows && 0 <= j < width ==> tuples[r][j] == r * width + j + 1
    ensures Flatten(tuples) == Numbered(rows * width)
  {
    tuples := [];
    var param := 1;
    for r := 0 to rows
      invariant |tuples| == r && param == r * width + 1
      invariant forall q :: 0 <= q < r ==> |tuples[q]| == width
      invariant forall q, j :: 0 <= q < r && 0 <= j < width ==> tuples[q][j] == q * width + j + 1
      invariant Flatten(tuples) == Numbered(param - 1)
    {
      var tuple := seq(width, j requires 0 <= j => param + j);
      assert (tuples + [tuple])[..r] == tuples;
      assert Numbered(param - 1) + tuple == Numbered(param - 1 + width);
      assert (r + 1) * width == r * width + width;
      tuples := tuples + [tuple];
      param := param + width;
    }
  }

  /** The `IN (…)` list of a chunked delete: SQLite counts from 0 and adds 3, Postgres from 1 and adds 2. */
  method DeletePlaceholders(db: DbKind, rows: nat) returns (list: seq<nat>)
    ensures [1, 2] + list == Numbered(DeleteFilesBindCount(rows))
    ensures |list| == rows && forall r :: 0 <= r < rows ==> list[r] == r + 3
  {
    list := [];
    for r := 0 to rows
      invariant [1, 2] + list == Numbered(r + 2)
      invariant |list| == r && forall q :: 0 <= q < r ==> list[q] == q + 3
    {
      var number := match db case Sqlite => r + 3 case Postgres => (r + 1) + 2;
      assert Numbered(r + 3) == Numbered(r + 2) + [number];
      list := list + [number];
    }
  }
}
