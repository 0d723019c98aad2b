/**
 The registry of vaults: four typed fields per vault over a document whose other
 keys are none of this build's business, and must outlive its rewrites.
 */
module Registry {
  import opened Prelude
  import opened Document

  const VAULTS_KEY: string := "vaults"
  const ROOT_KEY: string := "root"
  const SCHEMA_SOURCE_KEY: string := "schema_source"
  const POLL_BACKEND_KEY: string := "poll_backend"

  /** The keys of an entry that this build writes. */
  const MODELLED: set<string> := {ROOT_KEY, SCHEMA_SOURCE_KEY, POLL_BACKEND_KEY}

  datatype Entry = Entry(name: string, root: string, schemaSource: Option<string>, pollBackend: Option<string>)

  /** What the typed fields may say. */
  datatype Grammar = Grammar(
    name: string -> bool,
    root: string -> bool,
    schemaSource: string -> bool,
    pollBackend: string -> bool)
  {
    predicate Allows(e: Entry) {
      && name(e.name) && root(e.root)
      && (e.schemaSource.Some? ==> schemaSource(e.schemaSource.value))
      && (e.pollBackend.Some? ==> pollBackend(e.pollBackend.value))
    }
  }

  /** What is wrong with one entry of the file, if anything: the first thing a
      reader of its fields meets. */
  function Fault(g: Grammar, name: string, value: Value): Option<Error> {
    if !value.Sub? then Some(Corrupt)
    else
      var t := value.table;
      if !g.name(name) then Some(IllegalName(name))
      else if ROOT_KEY !in t || !t[ROOT_KEY].Text? then Some(Corrupt)
      else if !g.root(t[ROOT_KEY].text) then Some(IllegalPath(t[ROOT_KEY].text))
      else match OptionalText(t, SCHEMA_SOURCE_KEY)
        case Err(e) => Some(e)
        case Ok(source) =>
          if source.Some? && !g.schemaSource(source.value) then Some(IllegalPath(source.value))
          else match OptionalText(t, POLL_BACKEND_KEY)
               case Err(e) => Some(e)
               case Ok(backend) =>
                 if backend.Some? && !g.pollBackend(backend.value) then Some(Corrupt) else None
  }

  /** The key says `text`, and is not there for none. */
  predicate HasText(t: Table, key: string, text: Option<string>) {
    if text.Some? then key in t && t[key] == Text(text.value) else key !in t
  }

  /** What an entry of the file must be: a table under a legal name, with a legal
      root, and a legal source and backend where it has them. */
  predicate Legible(g: Grammar, name: string, value: Value) {
    && value.Sub? && g.name(name)
    && var t := value.table;
    && "root" in t && t["root"].Text? && g.root(t["root"].text)
    && ("schema_source" in t ==> t["schema_source"].Text? && g.schemaSource(t["schema_source"].text))
    && ("poll_backend" in t ==> t["poll_backend"].Text? && g.pollBackend(t["poll_backend"].text))
  }

  /** A fault is found exactly in what is not legible, and it is a name's, a path's
      or, for anything else, corruption. */
  lemma FaultsAre(g: Grammar, name: string, value: Value)
    ensures Fault(g, name, value) == None <==> Legible(g, name, value)
    ensures forall n :: Fault(g, name, value) == Some(IllegalName(n)) <==> value.Sub? && !g.name(name) && n == name
    ensures forall p :: Fault(g, name, value) == Some(IllegalPath(p)) <==>
              && value.Sub? && g.name(name)
              && var t := value.table;
              && "root" in t && t["root"].Text?
              && if !g.root(t["root"].text) then p == t["root"].text
                 else "schema_source" in t && t["schema_source"].Text? && p == t["schema_source"].text && !g.schemaSource(p)
    ensures forall n :: Fault(g, name, value) != Some(VersionAhead(n))
  {
  }

  /** The typed reading of a faultless entry. */
  function Projected(g: Grammar, name: string, value: Value): (e: Entry)
    requires Fault(g, name, value) == None
    ensures e.name == name && g.Allows(e)
    ensures "root" in value.table && value.table["root"] == Text(e.root)
    ensures HasText(value.table, "schema_source", e.schemaSource) && HasText(value.table, "poll_backend", e.pollBackend)
  {
    Entry(name, value.table[ROOT_KEY].text,
          OptionalText(value.table, SCHEMA_SOURCE_KEY).value,
          OptionalText(value.table, POLL_BACKEND_KEY).value)
  }

  /** A registry's contents. */
  datatype Contents = Contents(document: Table, raw: map<string, Table>, entries: map<string, Entry>)
  {
    ghost predicate Valid(g: Grammar) {
      && Current(document)
      && raw.Keys <= entries.Keys
      && (forall n :: n in entries ==> entries[n].name == n && g.Allows(entries[n]))
    }
  }

  /** The document holds a registry, and `c` is it. */
  ghost predicate Loads(g: Grammar, document: Table, c: Contents) {
    && Section(document, VAULTS_KEY).Ok?
    && var section := Section(document, VAULTS_KEY).value;
       && c.document == document
       && c.raw.Keys == c.entries.Keys == section.Keys
       && (forall n :: n in section ==>
             && Fault(g, n, section[n]) == None
             && c.raw[n] == section[n].table
             && c.entries[n] == Projected(g, n, section[n]))
  }

  /** What a document must have under `vaults`, if anything: a table of legible
      entries. */
  predicate Registrable(g: Grammar, document: Table) {
    "vaults" in document ==>
      && document["vaults"].Sub?
      && forall n :: n in document["vaults"].table ==> Legible(g, n, document["vaults"].table[n])
  }

  /** Those documents, and no others, are registries. */
  lemma LoadableIff(g: Grammar, document: Table)
    ensures (exists c :: Loads(g, document, c)) <==> Registrable(g, document)
  {
    hide Loads, Registrable;
    if c :| Loads(g, document, c) {
      LoadsIsRegistrable(g, document, c);
    }
    if Registrable(g, document) {
      var c := RegistrableLoads(g, document);
    }
  }

  lemma LoadsIsRegistrable(g: Grammar, document: Table, c: Contents)
    requires Loads(g, document, c)
    ensures Registrable(g, document)
  {
    hide Fault, Projected, Legible;
    forall n | n in Section(document, VAULTS_KEY).value
      ensures Legible(g, n, Section(document, VAULTS_KEY).value[n])
    {
      FaultsAre(g, n, Section(document, VAULTS_KEY).value[n]);
    }
  }

  lemma RegistrableLoads(g: Grammar, document: Table) returns (c: Contents)
    requires Registrable(g, document)
    ensures Loads(g, document, c)
  {
    hide Fault, Projected, Legible;
    var section := Section(document, VAULTS_KEY).value;
    forall n | n in section ensures Fault(g, n, section[n]) == None && section[n].Sub? {
      FaultsAre(g, n, section[n]);
      LegibleIsATable(g, n, section[n]);
    }
    c := Contents(document, map n | n in section :: section[n].table,
                  map n | n in section :: Projected(g, n, section[n]));
  }

  lemma LegibleIsATable(g: Grammar, name: string, value: Value)
    requires Legible(g, name, value)
    ensures value.Sub?
  {
  }

  /** An entry's table: the one it was read from, unmodelled keys and all, with
      the modelled keys written over it. */
  function EntryTable(c: Contents, name: string): (t: Table)
    requires name in c.entries
    ensures forall k :: k !in MODELLED ==>
              && (k in t <==> name in c.raw && k in c.raw[name])
              && (k in t ==> t[k] == c.raw[name][k])
    ensures ROOT_KEY in t && t[ROOT_KEY] == Text(c.entries[name].root)
    ensures OptionalText(t, SCHEMA_SOURCE_KEY) == Ok(c.entries[name].schemaSource)
    ensures OptionalText(t, POLL_BACKEND_KEY) == Ok(c.entries[name].pollBackend)
  {
    var e := c.entries[name];
    var own: Table := if name in c.raw then c.raw[name] else map[];
    WithOptional(WithOptional(own[ROOT_KEY := Text(e.root)], SCHEMA_SOURCE_KEY, e.schemaSource),
                 POLL_BACKEND_KEY, e.pollBackend)
  }

  function Rendered(c: Contents): Table {
    Stamped(c.document[VAULTS_KEY := Sub(VaultSection(c))])
  }

  function VaultSection(c: Contents): (section: Table)
    ensures section.Keys == c.entries.Keys
    ensures forall n :: n in section ==> section[n] == Sub(EntryTable(c, n))
  {
    map n | n in c.entries :: Sub(EntryTable(c, n))
  }

  // ----- what a rewrite keeps

  /** What was rendered can be read back, as `ReadBack`. */
  lemma RenderedLoads(g: Grammar, c: Contents)
    requires c.Valid(g)
    ensures Loads(g, Rendered(c), ReadBack(c))
  {
    hide EntryTable, Fault, Projected, VaultSection, Rendered, Section, OptionalText, WithOptional;
    RenderedSection(c);
    SectionReadsBack(g, c);
  }

  function ReadBack(c: Contents): Contents {
    Contents(Rendered(c), map n | n in c.entries :: EntryTable(c, n), c.entries)
  }

  /** Whatever reads what was rendered finds exactly the entries there were. */
  lemma RoundTrip(g: Grammar, c: Contents, d: Contents)
    requires c.Valid(g) && Loads(g, Rendered(c), d)
    ensures d == ReadBack(c)
  {
    hide Loads, ReadBack, Rendered;
    RenderedLoads(g, c);
    LoadsAsOne(g, Rendered(c), d, ReadBack(c));
  }

  /** A document is one registry at most. */
  lemma LoadsAsOne(g: Grammar, document: Table, c: Contents, d: Contents)
    requires Loads(g, document, c) && Loads(g, document, d)
    ensures c == d
  {
    hide Fault, Projected, Section;
    assert c.raw == d.raw;
    assert c.entries == d.entries;
  }

  lemma SectionReadsBack(g: Grammar, c: Contents)
    requires c.Valid(g)
    ensures var section := VaultSection(c);
            forall n :: n in c.entries ==> Fault(g, n, section[n]) == None && Projected(g, n, section[n]) == c.entries[n]
  {
    hide EntryTable, Fault, Projected, VaultSection, Section, OptionalText, WithOptional;
    var section := VaultSection(c);
    forall n | n in c.entries
      ensures Fault(g, n, section[n]) == None && Projected(g, n, section[n]) == c.entries[n]
    {
      EntryReadsBack(g, c, n);
    }
  }

  lemma RenderedSection(c: Contents)
    ensures Section(Rendered(c), VAULTS_KEY) == Ok(VaultSection(c)) && Current(Rendered(c))
  {
    hide VaultSection, EntryTable;
  }

  lemma EntryReadsBack(g: Grammar, c: Contents, name: string)
    requires c.Valid(g) && name in c.entries
    ensures Fault(g, name, Sub(EntryTable(c, name))) == None
    ensures Projected(g, name, Sub(EntryTable(c, name))) == c.entries[name]
  {
    hide EntryTable, OptionalText;
  }

  /** Every top-level key but the two this build owns is as it was read, there or
      not there. */
  lemma TopLevelKeysSurvive(c: Contents, key: string)
    requires key != VAULTS_KEY && key != VERSION_KEY
    ensures key in Rendered(c) <==> key in c.document
    ensures key in Rendered(c) ==> Rendered(c)[key] == c.document[key]
  {
  }

  /** With nothing changed a rewrite gives back the tree that was read, save for
      an empty section where there was none. */
  lemma UntouchedRewrite(g: Grammar, document: Table, c: Contents)
    requires Current(document) && Loads(g, document, c)
    ensures Rendered(c) == if VAULTS_KEY in document then document else document[VAULTS_KEY := Sub(map[])]
  {
    hide EntryTable, Fault, Projected, VaultSection;
    var section := Section(document, VAULTS_KEY).value;
    forall n | n in section ensures Sub(EntryTable(c, n)) == section[n] {
      EntryIsUntouched(g, c, n, section[n]);
    }
    assert VaultSection(c) == section;
  }

  lemma EntryIsUntouched(g: Grammar, c: Contents, name: string, value: Value)
    requires Fault(g, name, value) == None && name in c.entries && name in c.raw
    requires c.raw[name] == value.table && c.entries[name] == Projected(g, name, value)
    ensures Sub(EntryTable(c, name)) == value
  {
    hide EntryTable;
    var t := EntryTable(c, name);
    forall k ensures (k in t <==> k in value.table) && (k in t ==> t[k] == value.table[k]) {
    }
    assert t == value.table;
  }

  /** Rendering again changes nothing. */
  lemma RenderingSettles(c: Contents)
    ensures Rendered(c.(document := Rendered(c))) == Rendered(c)
  {
    hide EntryTable, VaultSection;
    SameSection(c, c.(document := Rendered(c)));
    StampedTwice(c.document, Sub(VaultSection(c)));
  }

  lemma SameSection(c: Contents, d: Contents)
    requires d.raw == c.raw && d.entries == c.entries
    ensures VaultSection(d) == VaultSection(c)
  {
    hide WithOptional;
    assert forall n :: n in c.entries ==> EntryTable(d, n) == EntryTable(c, n);
  }

  lemma StampedTwice(t: Table, vaults: Value)
    ensures Stamped(Stamped(t[VAULTS_KEY := vaults])[VAULTS_KEY := vaults]) == Stamped(t[VAULTS_KEY := vaults])
  {
  }

  // ----- changes

  datatype Change = Insert(entry: Entry) | Amend(entry: Entry) | Remove(name: string)
  {
    function Name(): string {
      if Remove? then name else entry.name
    }

    /** Whether what was registered under the name ends here. */
    predicate EndsWhatWas() {
      Insert? || Remove?
    }

    predicate Allowed(g: Grammar) {
      Remove? || g.Allows(entry)
    }
  }

  function Changed(c: Contents, change: Change): Contents {
    match change
    case Insert(e) => c.(raw := c.raw - {e.name}, entries := c.entries[e.name := e])
    case Amend(e) => c.(entries := c.entries[e.name := e])
    case Remove(n) => c.(raw := c.raw - {n}, entries := c.entries - {n})
  }

  function ChangedAll(c: Contents, changes: seq<Change>): Contents {
    if changes == [] then c
    else Changed(ChangedAll(c, changes[..|changes| - 1]), changes[|changes| - 1])
  }

  /** The entries alone: what a caller who sees no file would expect. */
  function EntriesAfter(entries: map<string, Entry>, changes: seq<Change>): map<string, Entry> {
    if changes == [] then entries
    else
      var before := EntriesAfter(entries, changes[..|changes| - 1]);
      match changes[|changes| - 1]
      case Insert(e) => before[e.name := e]
      case Amend(e) => before[e.name := e]
      case Remove(n) => before - {n}
  }

  ghost predicate AllAllowed(g: Grammar, changes: seq<Change>) {
    forall i :: 0 <= i < |changes| ==> changes[i].Allowed(g)
  }

  /** Nothing in `changes` ends what was registered under `name`. */
  predicate Continues(changes: seq<Change>, name: string) {
    forall i :: 0 <= i < |changes| ==> !(changes[i].EndsWhatWas() && changes[i].Name() == name)
  }

  lemma {:induction false} ChangesKeep(g: Grammar, c: Contents, changes: seq<Change>)
    requires c.Valid(g) && AllAllowed(g, changes)
    ensures ChangedAll(c, changes).Valid(g)
    ensures ChangedAll(c, changes).document == c.document
    ensures ChangedAll(c, changes).entries == EntriesAfter(c.entries, changes)
  {
    if changes != [] {
      ChangesKeep(g, c, changes[..|changes| - 1]);
      assert changes[|changes| - 1].Allowed(g);
    }
  }

  /** The table an entry was read from is kept exactly until the name is inserted
      over or removed, and never comes back. */
  lemma {:induction false} TablesLastUntilEnded(c: Contents, changes: seq<Change>, name: string)
    ensures name in ChangedAll(c, changes).raw <==> name in c.raw && Continues(changes, name)
    ensures name in ChangedAll(c, changes).raw ==> ChangedAll(c, changes).raw[name] == c.raw[name]
  {
    if changes != [] {
      var n := |changes| - 1;
      TablesLastUntilEnded(c, changes[..n], name);
      assert changes == changes[..n] + [changes[n]];
    }
  }

  /** From one file to the next, through any changes: the entries are those the
      changes give, every other top-level key is as it was, and an entry has an
      unmodelled key exactly where the file had it under that name and no change
      ended what was registered there. */
  lemma RewriteRetains(g: Grammar, document: Table, c: Contents, changes: seq<Change>, again: Contents)
    requires Current(document) && Loads(g, document, c) && AllAllowed(g, changes)
    requires Loads(g, Rendered(ChangedAll(c, changes)), again)
    ensures again.entries == EntriesAfter(c.entries, changes)
    ensures forall key :: key != VAULTS_KEY && key != VERSION_KEY ==>
              && (key in again.document <==> key in document)
              && (key in document ==> again.document[key] == document[key])
    ensures EntriesKeep(c, changes, again)
  {
    var d := ChangedAll(c, changes);
    ChangesKeep(g, c, changes);
    RoundTrip(g, d, again);
    forall name, key | name in again.raw && key !in MODELLED
      ensures key in again.raw[name] <==> name in c.raw && Continues(changes, name) && key in c.raw[name]
      ensures key in again.raw[name] ==> again.raw[name][key] == c.raw[name][key]
    {
      TablesLastUntilEnded(c, changes, name);
      assert again.raw[name] == EntryTable(d, name);
    }
    forall name | name in c.raw && Continues(changes, name) ensures name in again.raw {
      TablesLastUntilEnded(c, changes, name);
    }
  }

  /** An entry of `again` has an unmodelled key exactly where `c` had it under that
      name and no change ended what was registered there; and nothing that goes on
      is lost. */
  ghost predicate EntriesKeep(c: Contents, changes: seq<Change>, again: Contents) {
    && (forall name, key :: name in again.raw && key !in MODELLED ==>
          && (key in again.raw[name] <==> name in c.raw && Continues(changes, name) && key in c.raw[name])
          && (key in again.raw[name] ==> again.raw[name][key] == c.raw[name][key]))
    && (forall name :: name in c.raw && Continues(changes, name) ==> name in again.raw)
  }

  /** From one file to the next and on to a third. */
  lemma EntriesKeepOn(c: Contents, xs: seq<Change>, d: Contents, ys: seq<Change>, e: Contents)
    requires EntriesKeep(c, xs, d) && EntriesKeep(d, ys, e)
    ensures EntriesKeep(c, xs + ys, e)
  {
    forall name ensures Continues(xs + ys, name) <==> Continues(xs, name) && Continues(ys, name) {
      ContinuesAcross(xs, ys, name);
    }
    hide Continues;
  }

  lemma ContinuesAcross(xs: seq<Change>, ys: seq<Change>, name: string)
    ensures Continues(xs + ys, name) <==> Continues(xs, name) && Continues(ys, name)
  {
    var all := xs + ys;
    assert forall i :: 0 <= i < |xs| ==> all[i] == xs[i];
    assert forall i :: 0 <= i < |ys| ==> all[|xs| + i] == ys[i];
  }

  /** Why an amendment is not an insertion: with a key this build does not model,
      the one keeps it and the other does not. */
  lemma InsertingForgets(g: Grammar, document: Table, c: Contents, e: Entry, key: string)
    requires Current(document) && Loads(g, document, c) && g.Allows(e)
    requires e.name in c.raw && key in c.raw[e.name] && key !in MODELLED
    ensures key in EntryTable(Changed(c, Amend(e)), e.name)
    ensures key !in EntryTable(Changed(c, Insert(e)), e.name)
    ensures key !in EntryTable(ChangedAll(c, [Remove(e.name), Amend(e)]), e.name)
  {
    var changes := [Remove(e.name), Amend(e)];
    assert changes[..1][..0] == [] && changes[..1][0] == changes[0];
    assert ChangedAll(c, changes[..1]) == Changed(c, Remove(e.name));
  }

  // ----- the registry as it is held and changed

  class Registry {
    var document: Table
    var raw: map<string, Table>
    var entries: map<string, Entry>

    ghost function Holds(): Contents
      reads this
    {
      Contents(document, raw, entries)
    }

    constructor (document: Table, raw: map<string, Table>, entries: map<string, Entry>)
      ensures Holds() == Contents(document, raw, entries)
    {
      this.document, this.raw, this.entries := document, raw, entries;
    }

    method Insert(entry: Entry) returns (displaced: Option<Entry>)
      modifies this
      ensures Holds() == Changed(old(Holds()), Change.Insert(entry))
      ensures entry.name in old(entries) ==> displaced == Some(old(entries)[entry.name])
      ensures entry.name !in old(entries) ==> displaced == None
    {
      raw := raw - {entry.name};
      displaced := if entry.name in entries then Some(entries[entry.name]) else None;
      entries := entries[entry.name := entry];
    }

    method Amend(entry: Entry) returns (displaced: Option<Entry>)
      modifies this
      ensures Holds() == Changed(old(Holds()), Change.Amend(entry))
      ensures entry.name in old(entries) ==> displaced == Some(old(entries)[entry.name])
      ensures entry.name !in old(entries) ==> displaced == None
    {
      displaced := if entry.name in entries then Some(entries[entry.name]) else None;
      entries := entries[entry.name := entry];
    }

    method Remove(name: string) returns (removed: Option<Entry>)
      modifies this
      ensures Holds() == Changed(old(Holds()), Change.Remove(name))
      ensures name in old(entries) ==> removed == Some(old(entries)[name])
      ensures name !in old(entries) ==> removed == None
    {
      raw := raw - {name};
      removed := if name in entries then Some(entries[name]) else None;
      entries := entries - {name};
    }

    /** The registry as text. The section lands in the document held. */
    method Render(codec: Codec) returns (text: Option<Bytes>)
      modifies this
      ensures Holds() == old(Holds()).(document := Rendered(old(Holds())))
      ensures text == codec.show(Rendered(old(Holds())))
    {
      var section: Table := map[];
      var todo := entries.Keys;
      while todo != {}
        invariant todo <= entries.Keys && section.Keys == entries.Keys - todo
        invariant forall n :: n in section ==> section[n] == Sub(EntryTable(Holds(), n))
        decreases todo
      {
        var name :| name in todo;
        var entry := entries[name];
        var table: Table := if name in raw then raw[name] else map[];
        table := table[ROOT_KEY := Text(entry.root)];
        table := WithOptional(table, SCHEMA_SOURCE_KEY, entry.schemaSource);
        table := WithOptional(table, POLL_BACKEND_KEY, entry.pollBackend);
        section := section[name := Sub(table)];
        todo := todo - {name};
      }
      assert section == VaultSection(Holds());
      document := document[VAULTS_KEY := Sub(section)];
      document := document[VERSION_KEY := Integer(SCHEMA_VERSION)];
      text := codec.show(document);
    }
  }

  /** `e` is what is wrong with some part of the document. */
  ghost predicate AtFault(g: Grammar, document: Table, e: Error) {
    match Section(document, VAULTS_KEY)
    case Err(error) => e == error
    case Ok(section) => exists n :: n in section && Fault(g, n, section[n]) == Some(e)
  }

  /** Read a registry: all of it, or the fault of one of its entries. */
  method Load(g: Grammar, codec: Codec, bytes: Option<Bytes>) returns (r: Result<Registry>)
    ensures Read(codec, bytes).Err? ==> r == Err(Read(codec, bytes).error)
    ensures Read(codec, bytes).Ok? ==> (r.Ok? <==> Registrable(g, Read(codec, bytes).value))
    ensures bytes == None ==> r.Ok? && r.value.Holds() == Contents(map["version" := Integer(1)], map[], map[])
    ensures r.Ok? ==>
              && fresh(r.value)
              && Read(codec, bytes).Ok?
              && Loads(g, Read(codec, bytes).value, r.value.Holds())
              && r.value.Holds().Valid(g)
    ensures Read(codec, bytes).Ok? && r.Err? ==>
              AtFault(g, Read(codec, bytes).value, r.error)
  {
    var read := Read(codec, bytes);
    if read.Err? {
      return Err(read.error);
    }
    var document := read.value;
    var found := Section(document, VAULTS_KEY);
    if found.Err? {
      return Err(found.error);
    }
    var section := found.value;
    var raw: map<string, Table> := map[];
    var entries: map<string, Entry> := map[];
    var todo := section.Keys;
    while todo != {}
      invariant todo <= section.Keys && raw.Keys == entries.Keys == section.Keys - todo
      invariant forall n :: n in entries ==>
                  && Fault(g, n, section[n]) == None
                  && raw[n] == section[n].table && entries[n] == Projected(g, n, section[n])
      decreases todo
    {
      var name :| name in todo;
      var fault := Fault(g, name, section[name]);
      if fault.Some? {
        return Err(fault.value);
      }
      raw := raw[name := section[name].table];
      entries := entries[name := Projected(g, name, section[name])];
      todo := todo - {name};
    }
    var registry := new Registry(document, raw, entries);
    r := Ok(registry);
  }
}
