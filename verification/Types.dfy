/** Values shared by the whole model: options, results, errors, the rows of the
    five catalog tables, and the requests a client sends. */
module CatalogTypes {
  import opened DataTypes
  import opened Limits

  type Uuid = nat
  type TxnId = nat
  type Properties = map<string, string>

  datatype Option<+T> = None | Some(value: T) {
    function GetOr(default: T): T {
      match this
      case Some(v) => v
      case None => default
    }
  }

  datatype Result<+T> = Ok(value: T) | Err(error: CatalogError)

  /** One constructor per message the catalog returns. */
  datatype CatalogError =
    | EmptyMutation | TooManyOperations | SecondUpdateSchema | SecondSetProperties
    | DuplicateDelete(uuid: Uuid) | DuplicateKey(key: string)
    | EmptySchema | TooManyColumns | BlankColumnName | DuplicateColumn(name: string)
    | TableExists | TableNotFound | ProtocolTooOld | NoCurrentTransaction | BaseMismatch
    | AppendTooLarge | DeleteTooLarge | RemoveTooLarge
    | BlankPath | NegativeRecordCount | NegativeFileSize | RejectedDocument
    | NoCurrentSchema | MissingSchemaRow | DroppedColumn
    | IncompatibleType(name: string) | NarrowedNullability(name: string)
    | PropertiesTooLarge | UniqueViolation
    | UnknownTransaction | ParentCycle | BrokenChain | NotInHistory | NotAncestor
    | TooManyTransactions | TooManyFileEvents | TooManySchemaChanges | AmbiguousSchema
    | NoSchemaAtTransaction | TooManyFiles

  datatype TableIdent = TableIdent(namespace: string, name: string)

  /** A JSON document: its text, and whether the shape, size and format checks accept it. */
  datatype Json = Json(text: string, accepted: bool)

  datatype TableRow = TableRow(
    uuid: Uuid, head: Option<TxnId>, schema: Option<Uuid>, properties: Properties,
    minReader: int, minWriter: int)
  datatype TxnRow = TxnRow(table: Uuid, parent: Option<TxnId>)
  datatype SchemaRow = SchemaRow(table: Uuid, version: int, validFrom: TxnId, validTo: Option<TxnId>)
  datatype ColumnRow = ColumnRow(
    uuid: Uuid, schema: Uuid, name: string, typ: DataType, ordinal: int, nullable: bool)
  datatype FileRow = FileRow(
    table: Uuid, format: string, path: string, records: int, bytes: int,
    added: TxnId, removed: Option<TxnId>, partition: Option<Json>, options: Option<Json>)

  /** A schema as a reader returns it: its row and its columns in ordinal order. */
  datatype SchemaView = SchemaView(uuid: Uuid, row: SchemaRow, columns: seq<ColumnRow>)

  datatype ChangeKind = Added | Removed
  datatype FileChange = FileChange(txn: TxnId, kind: ChangeKind, uuid: Uuid, file: FileRow)
  datatype TxnEvent = TxnEvent(txn: TxnId, changes: seq<FileChange>, schema: Option<SchemaView>)

  /** One database state. `tables` is keyed by its UNIQUE(namespace, table_name) index,
      the other maps by their primary keys; column rows are only ever inserted. */
  datatype Db = Db(
    tables: map<TableIdent, TableRow>, txns: map<TxnId, TxnRow>, schemas: map<Uuid, SchemaRow>,
    columns: set<ColumnRow>, files: map<Uuid, FileRow>)

  const EMPTY := Db(map[], map[], map[], {}, map[])

  /** The database as a transaction with the write set `ws` sees it, and the state that
      publishing `ws` leaves behind. */
  function Over(db: Db, ws: Db): Db {
    Db(db.tables + ws.tables, db.txns + ws.txns, db.schemas + ws.schemas,
       db.columns + ws.columns, db.files + ws.files)
  }

  lemma MapUnionAssociates<K, V>(a: map<K, V>, b: map<K, V>, c: map<K, V>)
    ensures (a + b) + c == a + (b + c)
  {
  }

  datatype ColumnSpec = ColumnSpec(name: string, typ: DataType, nullable: bool)

  datatype FileSpec = FileSpec(
    fileUuid: Option<Uuid>, format: string, path: string, records: int, bytes: int,
    partition: Option<Json>, options: Option<Json>)

  datatype MutationOp =
    | AppendFiles(files: seq<FileSpec>)
    | DeleteFiles(uuids: seq<Uuid>)
    | UpdateSchema(columns: seq<ColumnSpec>)
    | SetProperties(properties: Properties)
    | RemoveProperties(keys: seq<string>)

  /** The identifiers the catalog would generate while serving one request: `column(p)` for the
      column at position p, `file(k, i)` for the i-th file of operation k. */
  datatype Ids = Ids(table: Uuid, txn: TxnId, schema: Uuid, column: nat -> Uuid, file: (nat, nat) -> Uuid)

  datatype Request = Request(ident: TableIdent, base: TxnId, ops: seq<MutationOp>, ids: Ids)

  /** A catalog instance: its backend and protocol versions, and whether serialized properties
      fit the JSON limit. */
  datatype Env = Env(kind: DbKind, reader: int, writer: int, fits: Properties -> bool)

  predicate Distinct<T(==)>(s: seq<T>) {
    forall i, j :: 0 <= i < j < |s| ==> s[i] != s[j]
  }
}
