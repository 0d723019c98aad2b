/**
 What opening makes of a database: the verdict over its shape, the schema a build
 writes, and what creating from that schema leaves behind.
 */
module Verdicts {
  import opened Prelude
  import opened Database

  /** One statement of a schema: its text, and what running it does, if it runs. */
  datatype Statement = Statement(text: string, run: Content -> Option<Content>)

  /** A schema, and the two digests taken over statement lists and over objects.
      Nothing is asked of either digest. */
  datatype Schema = Schema(
    version: int,
    statements: seq<Statement>,
    digestOfTexts: seq<string> -> string,
    digestOfObjects: map<string, Object> -> string)
  {
    /** The digest of the statements' texts, in order. */
    function Fingerprint(): (taken: string)
      ensures exists texts: seq<string> ::
                && |texts| == |statements| && (forall i :: 0 <= i < |texts| ==> texts[i] == statements[i].text)
                && taken == digestOfTexts(texts)
    {
      digestOfTexts(seq(|statements|, i requires 0 <= i < |statements| => statements[i].text))
    }
  }

  datatype Reason =
    | Fingerprint(found: Option<Value>)
    | Version(found: Option<Value>)
    | Damage
    | ClientSays(detail: string)

  datatype Verdict = Fresh | Usable | ClientFirst | Unfit(reason: Reason)

  // ----- the verdict

  /** Everything a database must say of itself to be this build's. */
  predicate Agrees(c: Content, s: Schema) {
    && HasMeta(c)
    && STORE_SCHEMA_VERSION in c.meta && c.meta[STORE_SCHEMA_VERSION] == Whole(s.version)
    && DDL_FINGERPRINT in c.meta && c.meta[DDL_FINGERPRINT] == Words(s.Fingerprint())
    && SCHEMA_DIGEST in c.meta && c.meta[SCHEMA_DIGEST] == Words(s.digestOfObjects(c.objects))
    && STORE_EPOCH in c.meta && c.meta[STORE_EPOCH].Words?
  }

  /** The verdict, read by read, when every read answers. */
  function Judge(c: Content, s: Schema, unfinished: Option<string>): Verdict {
    if c.objects == map[] then Fresh
    else if !HasMeta(c) then Unfit(Damage)
    else match Fetch(c, STORE_SCHEMA_VERSION, Integers)
      case Broke(_) => Unfit(Damage)
      case Got(version) =>
        if version != Some(Whole(s.version)) then Unfit(Version(version))
        else match Fetch(c, DDL_FINGERPRINT, Texts)
          case Broke(_) => Unfit(Damage)
          case Got(taken) =>
            if taken != Some(Words(s.Fingerprint())) then Unfit(Fingerprint(taken))
            else if unfinished.Some? && unfinished.value in c.meta then ClientFirst
            else JudgeSchema(c, s)
  }

  function JudgeSchema(c: Content, s: Schema): Verdict {
    match Fetch(c, SCHEMA_DIGEST, Texts)
    case Broke(_) => Unfit(Damage)
    case Got(recorded) =>
      if recorded != Some(Words(s.digestOfObjects(c.objects))) then Unfit(Damage)
      else match Fetch(c, STORE_EPOCH, Texts)
        case Broke(_) => Unfit(Damage)
        case Got(epoch) => if epoch == None then Unfit(Damage) else Usable
  }

  /** A database is called usable exactly when it agrees on all five readings and
      no unfinished build is marked. */
  lemma UsableIff(c: Content, s: Schema, unfinished: Option<string>)
    ensures Judge(c, s, unfinished) == Usable <==>
              Agrees(c, s) && !(unfinished.Some? && unfinished.value in c.meta)
  {
  }

  /** The meta table is there, and both pins that say which schema it is agree. */
  predicate Shaped(c: Content, s: Schema) {
    && "meta" in c.objects && c.objects["meta"].Table?
    && PinnedAt(c, "store_schema_version", Whole(s.version))
    && PinnedAt(c, "ddl_fingerprint", Words(s.Fingerprint()))
  }

  predicate PinnedAt(c: Content, key: string, value: Value) {
    key in c.meta && c.meta[key] == value
  }

  /** A pin of its type that says something else, or that is not there. */
  predicate Differs(c: Content, key: string, kind: Kind, pin: Value, found: Option<Value>) {
    if found == None then key !in c.meta
    else PinnedAt(c, key, found.value) && found.value != pin && (if kind.Integers? then found.value.Whole? else found.value.Words?)
  }

  predicate Marked(c: Content, unfinished: Option<string>) {
    unfinished.Some? && unfinished.value in c.meta
  }

  /** The schema is the one it was created with, and it says which life this is. */
  predicate SchemaStands(c: Content, s: Schema) {
    && PinnedAt(c, "schema_digest", Words(s.digestOfObjects(c.objects)))
    && "store_epoch" in c.meta && c.meta["store_epoch"].Words?
  }

  /** Every verdict, by what the database says of itself: the order of the readings
      decides which of several faults is named, and a marked build is the client's
      to judge before its schema is. */
  lemma JudgeIs(c: Content, s: Schema, unfinished: Option<string>)
    ensures Judge(c, s, unfinished) == Fresh <==> c.objects == map[]
    ensures forall found :: Judge(c, s, unfinished) == Unfit(Version(found)) <==>
              && "meta" in c.objects && c.objects["meta"].Table?
              && Differs(c, "store_schema_version", Integers, Whole(s.version), found)
    ensures forall found :: Judge(c, s, unfinished) == Unfit(Fingerprint(found)) <==>
              && "meta" in c.objects && c.objects["meta"].Table?
              && PinnedAt(c, "store_schema_version", Whole(s.version))
              && Differs(c, "ddl_fingerprint", Texts, Words(s.Fingerprint()), found)
    ensures Judge(c, s, unfinished) == ClientFirst <==> Shaped(c, s) && Marked(c, unfinished)
    ensures Judge(c, s, unfinished) == Usable <==> Shaped(c, s) && !Marked(c, unfinished) && SchemaStands(c, s)
    ensures forall detail :: Judge(c, s, unfinished) != Unfit(ClientSays(detail))
    ensures Agrees(c, s) <==> Shaped(c, s) && SchemaStands(c, s)
  {
  }

  /** A verdict of an unfinished build puts the schema digest and the epoch off,
      and nothing else: without the mark it is a verdict over those two. */
  lemma ClientFirstPutsOff(c: Content, s: Schema, key: string)
    ensures Judge(c, s, Some(key)) == ClientFirst <==> Shaped(c, s) && key in c.meta
    ensures Judge(c, s, Some(key)) == ClientFirst ==>
              Judge(c, s, None) == (if SchemaStands(c, s) then Usable else Unfit(Damage))
    ensures Judge(c, s, Some(key)) != ClientFirst ==> Judge(c, s, None) == Judge(c, s, Some(key))
    ensures !Judge(c, s, None).ClientFirst?
  {
  }

  // ----- creating

  /** The client: its own pinned scalars, its judgment, the mark of its unfinished
      builds, and the statement a suite makes fail. */
  datatype Client = Client(
    record: Content -> Option<Content>,
    adopt: Content -> Adoption,
    unfinished: Option<string>,
    armed: nat -> Option<DriverError>)
  {
    /** Recording leaves the objects, and the ceremony's own keys, as they were. */
    ghost predicate RecordsItsOwn() {
      forall c :: record(c).Some? ==> LeavesMechanics(c, record(c).value)
    }
  }

  datatype Adoption = Keep | Discard(detail: string) | Refuse

  predicate LeavesMechanics(c: Content, d: Content) {
    && d.objects == c.objects
    && (forall k :: k in MECHANICS ==> (k in d.meta <==> k in c.meta) && (k in c.meta ==> d.meta[k] == c.meta[k]))
  }

  function RunAll(statements: seq<Statement>, c: Content): Option<Content> {
    if statements == [] then Some(c)
    else match RunAll(statements[..|statements| - 1], c)
         case None => None
         case Some(d) => statements[|statements| - 1].run(d)
  }

  /** The list runs in order: its first part, and then the rest on what that left. */
  lemma {:induction false} RunsInOrder(a: seq<Statement>, b: seq<Statement>, c: Content)
    ensures RunAll(a + b, c) == if RunAll(a, c).Some? then RunAll(b, RunAll(a, c).value) else None
    ensures |a| == 1 ==> RunAll(a, c) == a[0].run(c)
  {
    if |a| == 1 {
      assert a[..0] == [];
    }
    if b != [] {
      var n := |a| + |b| - 1;
      assert (a + b)[..n] == a + b[..|b| - 1];
      RunsInOrder(a, b[..|b| - 1], c);
    } else {
      assert a + b == a;
    }
  }

  /** What the schema's three pins make of a database its statements have run in. */
  function Pinned(c: Content, s: Schema): Option<Content> {
    if !HasMeta(c) then None
    else Some(c.(meta := c.meta[STORE_SCHEMA_VERSION := Whole(s.version)]
                               [DDL_FINGERPRINT := Words(s.Fingerprint())]
                               [SCHEMA_DIGEST := Words(s.digestOfObjects(c.objects))]))
  }

  function Sealed(c: Content, client: Client, epoch: string): Option<Content> {
    match client.record(c)
    case None => None
    case Some(d) => Put(d, STORE_EPOCH, Words(epoch))
  }

  /** What creating commits. */
  function Built(c: Content, s: Schema, client: Client, epoch: string): Option<Content> {
    match RunAll(s.statements, c)
    case None => None
    case Some(ran) =>
      match Pinned(ran, s)
      case None => None
      case Some(pinned) => Sealed(pinned, client, epoch)
  }

  /** What is created is what the next open of the same schema calls usable, for a
      client that records only its own. */
  lemma BuiltAgrees(c: Content, s: Schema, client: Client, epoch: string)
    requires Built(c, s, client, epoch).Some? && client.RecordsItsOwn()
    ensures Agrees(Built(c, s, client, epoch).value, s)
    ensures Built(c, s, client, epoch).value.meta[STORE_EPOCH] == Words(epoch)
    ensures Built(c, s, client, epoch).value.objects == RunAll(s.statements, c).value.objects
  {
    var pinned := Pinned(RunAll(s.statements, c).value, s).value;
    assert LeavesMechanics(pinned, client.record(pinned).value);
  }

  predicate KeepsPins(c: Content, d: Content) {
    forall k :: k in {STORE_SCHEMA_VERSION, DDL_FINGERPRINT, SCHEMA_DIGEST} && k in c.meta ==>
      k in d.meta && d.meta[k] == c.meta[k]
  }

  /** Exactly when a creation settles: the client's recording leaves the digest of
      the objects where the statements left it. One that does not, by making an
      object of its own, is rebuilt at the next open, and so is the rebuild. */
  lemma SettlesIff(c: Content, s: Schema, client: Client, epoch: string)
    requires Built(c, s, client, epoch).Some?
    requires var pinned := Pinned(RunAll(s.statements, c).value, s).value; KeepsPins(pinned, client.record(pinned).value)
    ensures var ran, built := RunAll(s.statements, c).value, Built(c, s, client, epoch).value;
            && (Judge(built, s, None) == Usable <==> s.digestOfObjects(built.objects) == s.digestOfObjects(ran.objects))
            && (Judge(built, s, None) != Usable ==> Judge(built, s, None) == Unfit(Damage))
  {
    var pinned := Pinned(RunAll(s.statements, c).value, s).value;
    var d := client.record(pinned).value;
    assert d.meta[STORE_SCHEMA_VERSION] == pinned.meta[STORE_SCHEMA_VERSION];
    assert d.meta[DDL_FINGERPRINT] == pinned.meta[DDL_FINGERPRINT];
    assert d.meta[SCHEMA_DIGEST] == pinned.meta[SCHEMA_DIGEST];
  }
}
