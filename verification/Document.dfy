/**
 The versioned machine-local document: a TOML tree that is held as it was read,
 so that a rewrite is an edit of the keys its reader owns. The TOML text itself
 is behind a codec.
 */
module Document {
  import opened Prelude
  import Utf8

  datatype Value = Text(text: string) | Integer(number: int) | Sub(table: Table) | Other(kind: string)

  type Table = map<string, Value>

  datatype Result<+T> = Ok(value: T) | Err(error: Error)

  datatype Error = Corrupt | VersionAhead(found: int) | IllegalName(name: string) | IllegalPath(path: string)

  const SCHEMA_VERSION: int := 1
  const VERSION_KEY: string := "version"

  /** The TOML reader and printer. Printing fails where a tree has no text. */
  datatype Codec = Codec(parse: Bytes -> Option<Table>, show: Table -> Option<Bytes>)
  {
    /** What is printed is UTF-8, and reads back as it was. */
    ghost predicate Faithful() {
      forall t :: show(t).Some? ==>
        Utf8.WellFormed(show(t).value) && parse(show(t).value) == Some(t)
    }
  }

  /** What a file that is not there stands for. */
  const EMPTY: Table := map[VERSION_KEY := Integer(SCHEMA_VERSION)]

  predicate Current(t: Table) {
    VERSION_KEY in t && t[VERSION_KEY] == Integer(SCHEMA_VERSION)
  }

  /** The file is there, it is UTF-8, it is TOML, and its version is `number`. */
  ghost predicate Says(codec: Codec, bytes: Option<Bytes>, number: int) {
    && bytes.Some? && Utf8.WellFormed(bytes.value)
    && codec.parse(bytes.value).Some?
    && var table := codec.parse(bytes.value).value;
       "version" in table && table["version"] == Integer(number)
  }

  /** Read a versioned document, or say what is wrong with it. A file that is not
      there is a document of version 1 and nothing else; one of version 1 is read as
      it is; one of a later version is told apart, with the version it says; and any
      other is broken. */
  function Read(codec: Codec, bytes: Option<Bytes>): (r: Result<Table>)
    ensures bytes == None ==> r == Ok(map["version" := Integer(1)])
    ensures bytes.Some? ==> (r.Ok? <==> Says(codec, bytes, 1))
    ensures bytes.Some? && r.Ok? ==> codec.parse(bytes.value) == Some(r.value)
    ensures forall n :: r == Err(VersionAhead(n)) <==> Says(codec, bytes, n) && n > 1
    ensures r.Err? && !r.error.VersionAhead? ==> r == Err(Corrupt)
    ensures r.Ok? ==> Current(r.value)
  {
    match bytes
    case None => Ok(EMPTY)
    case Some(text) =>
      Utf8.FromUtf8IsWellFormed(text);
      if !Utf8.FromUtf8(text).Valid? then Err(Corrupt)
      else match codec.parse(text)
           case None => Err(Corrupt)
           case Some(table) =>
             if VERSION_KEY !in table || !table[VERSION_KEY].Integer? then Err(Corrupt)
             else
               var found := table[VERSION_KEY].number;
               if found > SCHEMA_VERSION then Err(VersionAhead(found))
               else if found < SCHEMA_VERSION then Err(Corrupt)
               else Ok(table)
  }

  /** The sub-table under `key`, empty where there is none; anything else there is
      wrong. */
  function Section(t: Table, key: string): (r: Result<Table>)
    ensures r.Ok? <==> key in t ==> t[key].Sub?
    ensures r.Ok? ==> r.value == (if key in t then t[key].table else map[])
    ensures r.Err? ==> r.error == Corrupt
  {
    if key !in t then Ok(map[])
    else if t[key].Sub? then Ok(t[key].table)
    else Err(Corrupt)
  }

  function Stamped(t: Table): Table {
    t[VERSION_KEY := Integer(SCHEMA_VERSION)]
  }

  function OptionalText(entry: Table, key: string): Result<Option<string>> {
    if key !in entry then Ok(None)
    else if entry[key].Text? then Ok(Some(entry[key].text))
    else Err(Corrupt)
  }

  /** The entry with `key` saying `value`, and not there at all for none. */
  function WithOptional(entry: Table, key: string, value: Option<string>): (t: Table)
    ensures OptionalText(t, key) == Ok(value)
    ensures forall k :: k != key ==> (k in t <==> k in entry) && (k in t ==> t[k] == entry[k])
  {
    match value
    case Some(text) => entry[key := Text(text)]
    case None => entry - {key}
  }
}
