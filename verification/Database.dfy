/**
 A database as far as opening one is concerned: the objects of its schema, the
 pinned scalars of its `meta` table, its rows, and the errors its driver reports.
 */
module Database {
  import opened Prelude

  // ----- what the driver refuses with

  /** A result code of SQLite's, extended or not; a value that is not of the type
      asked for, in three ways; or anything else. */
  datatype DriverError =
    | SqliteFailure(code: nat)
    | InvalidColumnType
    | FromSqlConversion
    | IntegralOutOfRange
    | Unclassified

  const CORRUPT: nat := 11
  const NOT_A_DATABASE: nat := 26

  /** The low eight bits, which say which code an extended one extends. */
  function Primary(code: nat): nat {
    code % 256
  }

  /** What the crate reports: the refused operation, a step on files, damage, or
      the client's own refusal. */
  datatype DbError = Sql | Lifecycle | Damaged | Declined

  /** Whether an error says the file's own contents are wrong. */
  predicate IsDamaged(e: DriverError) {
    e.SqliteFailure? && (Primary(e.code) == CORRUPT || Primary(e.code) == NOT_A_DATABASE)
  }

  predicate WrongType(e: DriverError) {
    e.InvalidColumnType? || e.FromSqlConversion? || e.IntegralOutOfRange?
  }

  /** Neither about the file's contents nor about a value's type. */
  predicate Environmental(e: DriverError) {
    !IsDamaged(e) && !WrongType(e)
  }

  function SqlError(e: DriverError): DbError {
    if IsDamaged(e) then Damaged else Sql
  }

  /** What an error met while reading pinned state means: the file is not one this
      build wrote (none), or the operation was refused. */
  function DamageOrFail(e: DriverError): Option<DbError> {
    if IsDamaged(e) || WrongType(e) then None else Some(SqlError(e))
  }

  /** Every extension of the two codes about contents, a corrupt page and no database
      at all, is damage to both policies; no extension of the codes for a statement
      refused, a database in use, a schema that moved, a machine that refuses or a
      disk that is full is damage to either; and the two differ only on a value of
      the wrong type. */
  lemma OnlyContentsAreDamage(code: nat, extension: nat, e: DriverError)
    ensures code == 11 || code == 26 ==>
              SqlError(SqliteFailure(code + 256 * extension)) == Damaged
              && DamageOrFail(SqliteFailure(code + 256 * extension)) == None
    ensures code in {1, 3, 5, 6, 7, 8, 10, 13, 14, 17, 19} ==>
              DamageOrFail(SqliteFailure(code + 256 * extension)) == Some(Sql)
              && SqlError(SqliteFailure(code + 256 * extension)) == Sql
    ensures e.InvalidColumnType? || e.FromSqlConversion? || e.IntegralOutOfRange? <==>
              DamageOrFail(e) == None && SqlError(e) == Sql
    ensures DamageOrFail(e) != Some(Damaged)
  {
    assert code < 256 ==> Primary(code + 256 * extension) == code;
  }

  // ----- contents

  datatype Value = Whole(number: int) | Words(text: string) | Strange

  datatype Object = Table(sql: string) | NotATable(sql: string)

  datatype Content = Content(objects: map<string, Object>, meta: map<string, Value>, rows: seq<nat>)

  const BLANK: Content := Content(map[], map[], [])

  const META: string := "meta"
  const STORE_SCHEMA_VERSION: string := "store_schema_version"
  const DDL_FINGERPRINT: string := "ddl_fingerprint"
  const SCHEMA_DIGEST: string := "schema_digest"
  const STORE_EPOCH: string := "store_epoch"
  const WRITE_GENERATION: string := "write_generation"

  /** The keys the ceremony writes; every other belongs to the client. */
  const MECHANICS: set<string> := {STORE_SCHEMA_VERSION, DDL_FINGERPRINT, SCHEMA_DIGEST, STORE_EPOCH}

  predicate HasMeta(c: Content) {
    META in c.objects && c.objects[META].Table?
  }

  datatype Fetched = Got(value: Option<Value>) | Broke(error: DriverError)

  datatype Kind = Integers | Texts

  /** Read one pinned scalar as a value of one type. */
  function Fetch(c: Content, key: string, kind: Kind): (r: Fetched)
    ensures r.Got? && r.value.Some? ==> (kind.Integers? <==> r.value.value.Whole?) && (kind.Texts? <==> r.value.value.Words?)
    ensures r.Broke? ==> r.error == InvalidColumnType
  {
    if key !in c.meta then Got(None)
    else if (kind.Integers? && c.meta[key].Whole?) || (kind.Texts? && c.meta[key].Words?) then Got(Some(c.meta[key]))
    else Broke(InvalidColumnType)
  }

  /** Write one pinned scalar; none where there is no table to write it in. */
  function Put(c: Content, key: string, value: Value): Option<Content> {
    if HasMeta(c) then Some(c.(meta := c.meta[key := value])) else None
  }

  // ----- the file

  /** What is at the database's path. A file that is not there is one with nothing
      in it, which is what connecting to it makes of it. Only a `rotten` file can
      make a read report damage. */
  datatype File = Unreadable | Db(content: Content, rotten: bool)

  function Epoch(file: File): Option<Value> {
    if file.Db? && STORE_EPOCH in file.content.meta then Some(file.content.meta[STORE_EPOCH]) else None
  }

  function Generation(file: File): Option<int> {
    if file.Db? && WRITE_GENERATION in file.content.meta && file.content.meta[WRITE_GENERATION].Whole?
    then Some(file.content.meta[WRITE_GENERATION].number)
    else None
  }

  /** What a client's transaction does to the rows, the objects and its own keys:
      anything, so long as it leaves the ceremony's keys and the counter alone. */
  type Work = Content -> Content

  predicate LeavesIdentity(c: Content, d: Content) {
    forall k :: k in MECHANICS + {WRITE_GENERATION} ==>
      (k in d.meta <==> k in c.meta) && (k in c.meta ==> d.meta[k] == c.meta[k])
  }

  /** A counted write: the work, and the counter one further, in one transaction.
      Without a counter there is no such write. */
  function Written(c: Content, work: Work): Content {
    if WRITE_GENERATION in c.meta && c.meta[WRITE_GENERATION].Whole?
    then
      var d := work(c);
      d.(meta := d.meta[WRITE_GENERATION := Whole(c.meta[WRITE_GENERATION].number + 1)])
    else c
  }

  /** One of the client's own keys set, or removed for none; it counts for nothing. */
  function Pin(c: Content, key: string, value: Option<Value>): (d: Content)
    ensures d.objects == c.objects && d.rows == c.rows
    ensures forall k :: k != key ==> (k in d.meta <==> k in c.meta) && (k in d.meta ==> d.meta[k] == c.meta[k])
    ensures if value.Some? then key in d.meta && d.meta[key] == value.value else key !in d.meta
  {
    if value.Some? then c.(meta := c.meta[key := value.value]) else c.(meta := c.meta - {key})
  }
}
