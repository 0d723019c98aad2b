/**
 The open ceremony: connect, judge what is there, and create, reuse or rebuild it.
 Any step may be refused by the environment, and the process may die at any step.
 */
module Ceremony {
  import opened Prelude
  import opened Database
  import opened Verdicts
  import opened Lifetimes

  /** How one step goes. */
  datatype Luck = Fine | Fails(error: DriverError) | Dies

  /** How an operation ends. One that died leaves what was on the disk. */
  datatype Ended<+T> = Done(value: T) | Failed(error: DbError) | Died

  datatype Outcome = Created | Reused | RebuiltFromZero(reason: Reason)

  datatype Reply = Answered(value: Option<Value>) | Refused(error: DriverError) | Killed

  /** What is heard of a step: a driver reports damage of a damaged file only, and
      a value of the wrong type only where there is one. */
  function Heard(luck: Luck, file: File): (heard: Luck)
    ensures heard.Fails? && IsDamaged(heard.error) ==> file.Unreadable? || file.rotten
    ensures heard.Fails? ==> IsDamaged(heard.error) || Environmental(heard.error)
    ensures luck.Dies? || (luck.Fails? && Environmental(luck.error)) ==> heard == luck
    ensures heard == Fine || heard == luck
  {
    if luck.Fails? && !Environmental(luck.error) && !(IsDamaged(luck.error) && (file.Unreadable? || file.rotten))
    then Fine
    else luck
  }

  /** No step of these was refused by the environment, and the process lived. */
  ghost predicate Unrefused(script: nat -> Luck, from: nat, to: nat) {
    forall k :: from <= k < to ==> !script(k).Dies? && !(script(k).Fails? && Environmental(script(k).error))
  }

  /** The process died at the last of these steps. */
  ghost predicate DiedAt(script: nat -> Luck, from: nat, to: nat) {
    from < to && script(to - 1).Dies?
  }

  /** The last of these steps was refused, and this is how that is reported. */
  ghost predicate RefusedAt(script: nat -> Luck, from: nat, to: nat, e: DbError) {
    from < to && script(to - 1).Fails? && e == SqlError(script(to - 1).error)
  }

  /** A step on the files was refused, or the path is no place for a database. */
  ghost predicate Barred(script: nat -> Luck, from: nat, to: nat, named: bool, takesWal: bool, e: DbError) {
    || (e == Lifecycle && (!named || (from < to && script(to - 1).Fails?)))
    || (e == Damaged && !takesWal)
  }

  /** The environment refused. */
  ghost predicate Thwarted(script: nat -> Luck, from: nat, to: nat, named: bool, takesWal: bool, e: DbError) {
    Barred(script, from, to, named, takesWal, e) || RefusedAt(script, from, to, e)
  }

  /** How what a creation is given can itself make it fail. */
  ghost predicate Unmade(c: Content, schema: Schema, client: Client, e: DbError) {
    || Forced(client, |schema.statements|, e)
    || match RunAll(schema.statements, c)
       case None => e == Sql
       case Some(ran) => Unsealed(ran, schema, client, e)
  }

  ghost predicate Forced(client: Client, count: nat, e: DbError) {
    exists i :: 0 <= i < count && client.armed(i).Some? && e == SqlError(client.armed(i).value)
  }

  ghost predicate Unsealed(ran: Content, schema: Schema, client: Client, e: DbError) {
    match Pinned(ran, schema)
    case None => e == Sql
    case Some(pinned) =>
      match client.record(pinned)
      case None => e == Declined
      case Some(recorded) => e == Sql && !HasMeta(recorded)
  }

  /** What is said of the later steps is said of all of them. */
  lemma LaterSteps(script: nat -> Luck, a: nat, b: nat, c: nat)
    requires a <= b <= c && Unrefused(script, a, b)
    ensures Unrefused(script, b, c) ==> Unrefused(script, a, c)
    ensures DiedAt(script, b, c) ==> DiedAt(script, a, c)
    ensures forall named, takesWal, e ::
              Thwarted(script, b, c, named, takesWal, e) ==> Thwarted(script, a, c, named, takesWal, e)
  {
  }

  function RebuildOrFail(error: DriverError): (r: Ended<Verdict>)
    ensures r == Done(Unfit(Damage)) || r == Failed(Sql)
  {
    match DamageOrFail(error)
    case None => Done(Unfit(Damage))
    case Some(refused) => Failed(refused)
  }

  /** `file` is what a lawful trail makes of the first, and no epoch still to be
      drawn has been seen. */
  ghost predicate History(file: File, first: File, trail: seq<Event>, mints: nat -> string, drawn: nat) {
    && file == After(first, trail)
    && Lawful(first, trail)
    && (forall j, k :: 0 <= j < k ==> mints(j) != mints(k))
    && (forall k :: k >= drawn ==> !Shown(first, trail, Words(mints(k))))
  }

  lemma HistoryGrows(file: File, first: File, trail: seq<Event>, mints: nat -> string, drawn: nat, e: Event, drawn': nat)
    requires History(file, first, trail, mints, drawn) && Allowed(first, trail, e) && drawn <= drawn'
    requires forall k :: k >= drawn' ==> Epoch(Next(file, e)) != Some(Words(mints(k)))
    ensures History(Next(file, e), first, trail + [e], mints, drawn')
  {
    hide Next, Allowed, Epoch, Shown, Lawful;
    var more := trail + [e];
    assert more[..|trail|] == trail;
    LawfulGrows(first, trail, e);
    forall k | k >= drawn' ensures !Shown(first, more, Words(mints(k))) {
      ShownGrows(first, trail, e, Words(mints(k)));
    }
  }

  lemma LawfulGrows(first: File, trail: seq<Event>, e: Event)
    requires Lawful(first, trail) && Allowed(first, trail, e)
    ensures Lawful(first, trail + [e])
  {
    hide Allowed;
    var more := trail + [e];
    forall k | 0 <= k < |more| ensures Allowed(first, more[..k], more[k]) {
      assert more[..k] == trail[..k];
      assert trail[..|trail|] == trail;
    }
  }

  lemma ShownGrows(first: File, trail: seq<Event>, e: Event, epoch: Value)
    ensures Shown(first, trail + [e], epoch) <==>
              Shown(first, trail, epoch) || Epoch(After(first, trail + [e])) == Some(epoch)
  {
    hide Epoch, After;
    var more := trail + [e];
    assert more[..|more|] == more;
    assert forall n :: 0 <= n <= |trail| ==> more[..n] == trail[..n];
  }

  lemma HistoryDrawn(file: File, first: File, trail: seq<Event>, mints: nat -> string, drawn: nat, drawn': nat)
    requires History(file, first, trail, mints, drawn) && drawn <= drawn'
    ensures History(file, first, trail, mints, drawn')
  {
    hide After, Lawful, Shown;
  }

  lemma HistoryDiscarded(file: File, first: File, trail: seq<Event>, mints: nat -> string, drawn: nat, s: Schema,
                         reason: Reason)
    requires History(file, first, trail, mints, drawn) && Justified(file, s, reason)
    ensures History(Db(BLANK, false), first, trail + [Discarded(s, reason)], mints, drawn)
  {
    hide After, Lawful, Shown;
    HistoryGrows(file, first, trail, mints, drawn, Discarded(s, reason), drawn);
  }

  /** A write, or rot, under an epoch already seen. */
  lemma HistoryGoesOn(file: File, first: File, trail: seq<Event>, mints: nat -> string, drawn: nat, e: Event)
    requires History(file, first, trail, mints, drawn) && Allowed(first, trail, e) && Within(e)
    ensures History(Next(file, e), first, trail + [e], mints, drawn)
  {
    hide After, Lawful, Next, Epoch, Allowed;
    EventAdvances(first, trail, e);
    assert trail[..|trail|] == trail;
    forall k | k >= drawn ensures Epoch(Next(file, e)) != Some(Words(mints(k))) {
      assert !Shown(first, trail, Words(mints(k)));
    }
    HistoryGrows(file, first, trail, mints, drawn, e, drawn);
  }

  lemma HistoryMade(file: File, first: File, trail: seq<Event>, mints: nat -> string, drawn: nat, c: Content)
    requires History(file, first, trail, mints, drawn) && Empty(file)
    requires STORE_EPOCH in c.meta && c.meta[STORE_EPOCH] == Words(mints(drawn))
    ensures History(Db(c, file.rotten), first, trail + [Made(c)], mints, drawn + 1)
  {
    hide After, Lawful, Shown;
    HistoryGrows(file, first, trail, mints, drawn, Made(c), drawn + 1);
  }

  const STEPS_TO_REMOVE: nat := 4

  /** The database at one path, and the process that opens it. */
  class Store {
    var file: File
    /** How many steps have been taken, and how each one goes. */
    var at: nat
    const script: nat -> Luck
    /** How many epochs have been drawn, and what each draw gives. */
    var drawn: nat
    const mints: nat -> string

    /** Whether the path names a file, and whether SQLite will keep a write-ahead
        log beside it. */
    const named: bool
    const takesWal: bool

    ghost const first: File
    ghost var trail: seq<Event>

    /** The path's history is lawful, what is there is what it made, and no epoch
        still to be drawn has been seen. */
    ghost predicate Valid()
      reads this
    {
      History(file, first, trail, mints, drawn)
    }

    constructor (file: File, named: bool, takesWal: bool, script: nat -> Luck, mints: nat -> string)
      requires forall j, k :: 0 <= j < k ==> mints(j) != mints(k)
      requires forall k :: Epoch(file) != Some(Words(mints(k)))
      ensures Valid() && this.file == file && first == file && trail == []
      ensures this.named == named && this.takesWal == takesWal && this.script == script && this.mints == mints
      ensures at == 0 && drawn == 0
    {
      assert forall k :: !Shown(file, [], Words(mints(k)));
      this.file, this.script, this.mints, at, drawn := file, script, mints, 0, 0;
      this.named, this.takesWal := named, takesWal;
      first, trail := file, [];
    }

    /** Nothing more is going to go wrong. */
    ghost predicate Calm()
      reads this`at
    {
      named && takesWal && forall k :: k >= at ==> script(k).Fine?
    }

    method Ask() returns (luck: Luck)
      modifies this`at
      ensures luck == Heard(script(old(at)), file) && at == old(at) + 1
      ensures old(Calm()) ==> luck.Fine? && Calm()
      ensures luck.Fine? || (luck.Fails? && IsDamaged(luck.error)) ==> Unrefused(script, old(at), at)
      ensures luck.Dies? ==> DiedAt(script, old(at), at)
      ensures luck.Fails? ==>
                && RefusedAt(script, old(at), at, SqlError(luck.error))
                && Thwarted(script, old(at), at, named, takesWal, Lifecycle)
    {
      luck := Heard(script(at), file);
      at := at + 1;
    }

    // ----- judging

    /** Connect: a database, or not one at all. */
    method Connect() returns (connected: Ended<bool>)
      modifies this`at
      ensures connected.Died? ==> DiedAt(script, old(at), at)
      ensures connected.Failed? && at <= old(at) + 1 ==>
                connected.error == Lifecycle && Barred(script, old(at), at, named, takesWal, Lifecycle)
      ensures connected.Failed? && at > old(at) + 1 ==>
                || RefusedAt(script, old(at), at, connected.error)
                || (connected.error == Damaged && !takesWal)
      ensures connected.Failed? ==> Thwarted(script, old(at), at, named, takesWal, connected.error)
      ensures connected == Done(true) ==> file.Db? && named && takesWal
      ensures connected == Done(false) ==> file.Unreadable? || file.rotten
      ensures connected.Done? ==> named && Unrefused(script, old(at), at)
      ensures at >= old(at) && (connected == Done(true) ==> at == old(at) + 4)
      ensures old(Calm()) ==> Calm() && connected == Done(file.Db?)
    {
      if !named { return Failed(Lifecycle); }
      var luck := Ask();  // opening the file
      if luck != Fine { return if luck.Dies? then Died else Failed(Lifecycle); }
      luck := Ask();  // the busy timeout
      if luck != Fine { return if luck.Dies? then Died else Failed(SqlError(luck.error)); }
      luck := Ask();  // the journal mode, the first read of the file
      if file.Unreadable? && luck.Fine? { luck := Fails(SqliteFailure(NOT_A_DATABASE)); }
      match luck {
        case Dies => return Died;
        case Fails(error) =>
          match DamageOrFail(error) {
            case None => return Done(false);
            case Some(refused) => return Failed(refused);
          }
        case Fine =>
      }
      if !takesWal { return Failed(Damaged); }
      luck := Ask();  // the settings of the connection
      if luck != Fine { return if luck.Dies? then Died else Failed(SqlError(luck.error)); }
      return Done(true);
    }

    /** Read one pinned scalar. */
    method ReadMeta(key: string, kind: Kind) returns (reply: Reply)
      requires file.Db?
      modifies this`at
      ensures reply.Killed? ==> DiedAt(script, old(at), at)
      ensures reply.Refused? ==> Fetch(file.content, key, kind) == Broke(reply.error) || script(old(at)) == Fails(reply.error)
      ensures reply.Refused? && RebuildOrFail(reply.error).Done? ==>
                (Fetch(file.content, key, kind) == Broke(reply.error) || file.rotten) && Unrefused(script, old(at), at)
      ensures reply.Refused? && RebuildOrFail(reply.error).Failed? ==>
                RefusedAt(script, old(at), at, Sql) && Fetch(file.content, key, kind) != Broke(reply.error)
      ensures reply.Answered? ==> Fetch(file.content, key, kind) == Got(reply.value)
      ensures reply.Refused? ==>
                || Fetch(file.content, key, kind) == Broke(reply.error)
                || Environmental(reply.error)
                || (IsDamaged(reply.error) && file.rotten)
      ensures at == old(at) + 1
      ensures reply.Answered? || (reply.Refused? && !Environmental(reply.error)) ==> Unrefused(script, old(at), at)
      ensures old(Calm()) ==> Calm() && !reply.Killed?
      ensures old(Calm()) && reply.Refused? ==> Fetch(file.content, key, kind) == Broke(reply.error)
    {
      var luck := Ask();
      match luck {
        case Dies => return Killed;
        case Fails(error) => return Refused(error);
        case Fine =>
      }
      match Fetch(file.content, key, kind) {
        case Got(value) => return Answered(value);
        case Broke(error) => return Refused(error);
      }
    }

    /** Count something in the schema, or look for a key. */
    method Query() returns (answered: Option<Ended<Verdict>>)
      requires file.Db?
      modifies this`at
      ensures answered == Some(Died) ==> DiedAt(script, old(at), at)
      ensures answered == Some(Failed(Sql)) ==> RefusedAt(script, old(at), at, Sql)
      ensures answered.Some? ==> answered.value.Died? || answered.value == Failed(Sql)
                                 || (answered.value == Done(Unfit(Damage)) && file.rotten)
      ensures at == old(at) + 1
      ensures answered == None || answered.value.Done? ==> Unrefused(script, old(at), at)
      ensures old(Calm()) ==> Calm() && answered == None
    {
      var luck := Ask();
      match luck {
        case Dies => return Some(Died);
        case Fails(error) => return Some(RebuildOrFail(error));
        case Fine => return None;
      }
    }

    /** Decide whether a database is the one a schema writes. Nothing is changed, a
        refusal of the environment is a refusal, and what is answered is the verdict
        over the contents, or the damage a rotten file shows. */
    method Inspect(schema: Schema, unfinished: Option<string>) returns (verdict: Ended<Verdict>)
      requires file.Db?
      modifies this`at
      ensures verdict.Died? ==> DiedAt(script, old(at), at)
      ensures verdict.Failed? ==> RefusedAt(script, old(at), at, Sql) && Thwarted(script, old(at), at, named, takesWal, Sql)
      ensures verdict.Done? ==>
                || verdict.value == Judge(file.content, schema, unfinished)
                || (verdict.value == Unfit(Damage) && file.rotten)
      ensures verdict.Failed? ==> verdict.error == Sql
      ensures at >= old(at) && (verdict.Done? ==> Unrefused(script, old(at), at))
      ensures verdict == Done(Usable) ==> at == old(at) + if unfinished.Some? then 8 else 7
      ensures old(Calm()) ==> Calm() && verdict == Done(Judge(file.content, schema, unfinished))
    {
      hide Fetch, Heard, HasMeta, JudgeSchema, RebuildOrFail, IsDamaged, Environmental, SqlError, Calm;
      var refused := Query();
      if refused.Some? { return refused.value; }
      if file.content.objects == map[] { return Done(Fresh); }

      refused := Query();
      if refused.Some? { return refused.value; }
      if !HasMeta(file.content) { return Done(Unfit(Damage)); }

      var reply := ReadMeta(STORE_SCHEMA_VERSION, Integers);
      match reply {
        case Killed => return Died;
        case Refused(error) => return RebuildOrFail(error);
        case Answered(version) =>
          if version != Some(Whole(schema.version)) { return Done(Unfit(Version(version))); }
      }

      reply := ReadMeta(DDL_FINGERPRINT, Texts);
      match reply {
        case Killed => return Died;
        case Refused(error) => return RebuildOrFail(error);
        case Answered(taken) =>
          if taken != Some(Words(schema.Fingerprint())) { return Done(Unfit(Fingerprint(taken))); }
      }

      if unfinished.Some? {
        refused := Query();
        if refused.Some? { return refused.value; }
        if unfinished.value in file.content.meta { return Done(ClientFirst); }
      }
      verdict := InspectSchema(schema);
    }

    method InspectSchema(schema: Schema) returns (verdict: Ended<Verdict>)
      requires file.Db?
      modifies this`at
      ensures verdict.Died? ==> DiedAt(script, old(at), at)
      ensures verdict.Failed? ==> RefusedAt(script, old(at), at, Sql)
      ensures verdict.Done? ==>
                verdict.value == JudgeSchema(file.content, schema) || (verdict.value == Unfit(Damage) && file.rotten)
      ensures verdict.Failed? ==> verdict.error == Sql
      ensures at >= old(at) && (verdict.Done? ==> Unrefused(script, old(at), at))
      ensures verdict == Done(Usable) ==> at == old(at) + 3
      ensures old(Calm()) ==> Calm() && verdict == Done(JudgeSchema(file.content, schema))
    {
      hide Fetch, Heard;
      var reply := ReadMeta(SCHEMA_DIGEST, Texts);
      if reply.Killed? { return Died; }
      if reply.Refused? { return RebuildOrFail(reply.error); }
      var recorded := reply.value;
      var refused := Query();
      if refused.Some? { return refused.value; }
      if recorded != Some(Words(schema.digestOfObjects(file.content.objects))) { return Done(Unfit(Damage)); }

      reply := ReadMeta(STORE_EPOCH, Texts);
      if reply.Killed? { return Died; }
      if reply.Refused? { return RebuildOrFail(reply.error); }
      return Done(if reply.value == None then Unfit(Damage) else Usable);
    }

    // ----- creating

    /** Run the whole statement list and record what was run, in one transaction:
        all of it is there afterwards, or none. */
    method Create(schema: Schema, client: Client) returns (r: Ended<()>)
      requires Valid() && Empty(file)
      modifies this
      ensures r.Died? ==> DiedAt(script, old(at), at)
      ensures r.Failed? ==>
                || (RefusedAt(script, old(at), at, r.error) && Thwarted(script, old(at), at, named, takesWal, r.error))
                || Unmade(old(file.content), schema, client, r.error)
      ensures Valid()
      ensures r.Done? ==>
                && file.Db? && file.rotten == old(file.rotten)
                && trail == old(trail) + [Made(file.content)]
                && Built(old(file.content), schema, client, mints(old(drawn))) == Some(file.content)
      ensures !r.Done? ==> file == old(file) && trail == old(trail)
      ensures at >= old(at) && (r.Done? ==> Unrefused(script, old(at), at))
      ensures r.Done? ==> at == old(at) + |schema.statements| + 5 && RanUnarmed(client, |schema.statements|)
      ensures old(Calm()) && Unarmed(client) ==>
                Calm() && (r.Done? <==> Built(old(file.content), schema, client, mints(old(drawn))).Some?)
    {
      hide Heard, History, RunAll, Pinned, Sealed;
      var luck := Ask();  // opening the transaction
      if luck != Fine { return if luck.Dies? then Died else Failed(SqlError(luck.error)); }
      var ran := RunStatements(schema, client);
      if ran.Died? { return Died; }
      if ran.Failed? { return Failed(ran.error); }
      var sealed := Seal(schema, client, ran.value);
      HistoryDrawn(file, first, trail, mints, old(drawn), drawn);
      if sealed.Died? { return Died; }
      if sealed.Failed? { return Failed(sealed.error); }
      luck := Ask();  // the commit
      if luck != Fine { return if luck.Dies? then Died else Failed(SqlError(luck.error)); }
      HistoryMade(file, first, trail, mints, drawn - 1, sealed.value);
      file := Db(sealed.value, file.rotten);
      trail := trail + [Made(sealed.value)];
      return Done(());
    }

    /** The statement list, in order, in the transaction that is open. */
    method RunStatements(schema: Schema, client: Client) returns (r: Ended<Content>)
      requires file.Db?
      modifies this`at
      ensures r.Died? ==> DiedAt(script, old(at), at)
      ensures r.Failed? ==>
                || RefusedAt(script, old(at), at, r.error)
                || Forced(client, |schema.statements|, r.error)
                || (r.error == Sql && RunAll(schema.statements, file.content).None?)
      ensures r.Done? ==> RunAll(schema.statements, file.content) == Some(r.value)
      ensures at >= old(at) && (r.Done? ==> Unrefused(script, old(at), at))
      ensures r.Done? ==> at == old(at) + |schema.statements| && RanUnarmed(client, |schema.statements|)
      ensures old(Calm()) && Unarmed(client) ==>
                Calm() && (r.Done? <==> RunAll(schema.statements, file.content).Some?)
    {
      hide Heard, RunAll;
      var n := |schema.statements|;
      var staged := file.content;
      NoStatements(file.content);
      for i := 0 to n
        invariant RunAll(schema.statements[..i], file.content) == Some(staged)
        invariant at == old(at) + i && Unrefused(script, old(at), at) && RanUnarmed(client, i)
        invariant old(Calm()) ==> Calm()
      {
        OneMoreStatement(schema.statements, i, file.content);
        if client.armed(i).Some? { return Failed(SqlError(client.armed(i).value)); }
        var luck := Ask();
        if luck != Fine { return if luck.Dies? then Died else Failed(SqlError(luck.error)); }
        var ran := schema.statements[i].run(staged);
        if ran == None {
          StoppedShort(schema.statements, i + 1, file.content);
          return Failed(Sql);
        }
        staged := ran.value;
      }
      assert schema.statements[..n] == schema.statements;
      return Done(staged);
    }

    /** The pins, the client's own record, and a new epoch last of all. */
    method Seal(schema: Schema, client: Client, ran: Content) returns (r: Ended<Content>)
      modifies this`at, this`drawn
      ensures r.Died? ==> DiedAt(script, old(at), at)
      ensures r.Failed? ==> RefusedAt(script, old(at), at, r.error) || Unsealed(ran, schema, client, r.error)
      ensures drawn >= old(drawn)
      ensures at >= old(at) && (r.Done? ==> at == old(at) + 3 && Unrefused(script, old(at), at))
      ensures r.Done? ==>
                && drawn == old(drawn) + 1
                && Pinned(ran, schema).Some?
                && Sealed(Pinned(ran, schema).value, client, mints(old(drawn))) == Some(r.value)
                && STORE_EPOCH in r.value.meta && r.value.meta[STORE_EPOCH] == Words(mints(old(drawn)))
      ensures old(Calm()) ==>
                && Calm()
                && (r.Done? <==>
                      && Pinned(ran, schema).Some?
                      && Sealed(Pinned(ran, schema).value, client, mints(old(drawn))).Some?)
    {
      hide Heard;
      var luck := Ask();  // the digest of the objects
      if luck != Fine { return if luck.Dies? then Died else Failed(SqlError(luck.error)); }
      var digest := schema.digestOfObjects(ran.objects);
      luck := Ask();  // writing the pins
      if luck != Fine { return if luck.Dies? then Died else Failed(SqlError(luck.error)); }
      var pinned := Put(ran, STORE_SCHEMA_VERSION, Whole(schema.version));
      if pinned == None { return Failed(Sql); }
      pinned := Put(pinned.value, DDL_FINGERPRINT, Words(schema.Fingerprint()));
      pinned := Put(pinned.value, SCHEMA_DIGEST, Words(digest));
      var recorded := client.record(pinned.value);
      if recorded == None { return Failed(Declined); }
      luck := Ask();  // drawing and writing the epoch
      if luck != Fine { return if luck.Dies? then Died else Failed(SqlError(luck.error)); }
      var epoch := mints(drawn);
      drawn := drawn + 1;
      var sealed := Put(recorded.value, STORE_EPOCH, Words(epoch));
      if sealed == None { return Failed(Sql); }
      return Done(sealed.value);
    }

    // ----- opening

    /** Remove the file and whatever a journal left beside it. */
    method RemoveDatabase(ghost schema: Schema, ghost reason: Reason) returns (r: Ended<()>)
      requires Valid() && Justified(file, schema, reason)
      modifies this
      ensures r.Died? ==> DiedAt(script, old(at), at)
      ensures r.Failed? ==> r.error == Lifecycle && Barred(script, old(at), at, named, takesWal, Lifecycle)
      ensures Valid() && drawn == old(drawn)
      ensures r.Done? ==> named && file == Db(BLANK, false) && trail == old(trail) + [Discarded(schema, reason)]
      ensures !named ==> r == Failed(Lifecycle) && file == old(file)
      ensures !r.Done? ==>
                || (file == old(file) && trail == old(trail))
                || (file == Db(BLANK, false) && trail == old(trail) + [Discarded(schema, reason)])
      ensures at >= old(at) && (r.Done? ==> at == old(at) + 4 && Unrefused(script, old(at), at))
      ensures old(Calm()) ==> Calm() && r.Done?
    {
      hide History, Heard, Justified;
      if !named { return Failed(Lifecycle); }
      for i := 0 to STEPS_TO_REMOVE
        invariant Valid() && drawn == old(drawn)
        invariant i == 0 ==> file == old(file) && trail == old(trail)
        invariant at == old(at) + i && Unrefused(script, old(at), at)
        invariant i > 0 ==> file == Db(BLANK, false) && trail == old(trail) + [Discarded(schema, reason)]
        invariant old(Calm()) ==> Calm()
      {
        var luck := Ask();
        if luck != Fine { return if luck.Dies? then Died else Failed(Lifecycle); }
        if i == 0 {
          HistoryDiscarded(file, first, trail, mints, drawn, schema, reason);
          file := Db(BLANK, false);
          trail := trail + [Discarded(schema, reason)];
        }
      }
      return Done(());
    }

    /** Remove the database and create it again. However it ends, what was there is
        still there, or it has been discarded for the reason given. */
    method Rebuild(schema: Schema, client: Client, ghost reason: Reason) returns (r: Ended<()>)
      requires Valid() && Justified(file, schema, reason)
      modifies this
      ensures r.Died? ==> DiedAt(script, old(at), at)
      ensures r.Failed? ==>
                || Thwarted(script, old(at), at, named, takesWal, r.error)
                || Unmade(BLANK, schema, client, r.error)
      ensures Valid()
      ensures r.Done? ==> named && takesWal
      ensures at >= old(at) && (r.Done? ==> Unrefused(script, old(at), at))
      ensures r.Done? ==>
                && file.Db? && !file.rotten
                && trail == old(trail) + [Discarded(schema, reason), Made(file.content)]
                && Built(BLANK, schema, client, mints(old(drawn))) == Some(file.content)
      ensures !r.Done? ==>
                || (file == old(file) && trail == old(trail))
                || (file == Db(BLANK, false) && trail == old(trail) + [Discarded(schema, reason)])
      ensures old(Calm()) && Unarmed(client) ==>
                Calm() && (r.Done? <==> Built(BLANK, schema, client, mints(old(drawn))).Some?)
    {
      hide History, Heard, Justified, Built;
      var removed := RemoveDatabase(schema, reason);
      if !removed.Done? { return removed; }
      var connected := Connect();
      if connected.Died? { return Died; }
      if connected.Failed? { return Failed(connected.error); }
      if !connected.value { return Failed(Damaged); }
      r := Create(schema, client);
    }

    /** Open, or create, the database. What is handed back agrees with the schema;
        what was there is reused or, for a reason that holds of it, rebuilt; and a
        database the schema agrees with, that reads without damage, and that the
        client keeps, is left exactly as it stands. */
    method Open(schema: Schema, client: Client) returns (r: Ended<Outcome>)
      requires Valid()
      modifies this
      ensures r.Died? ==> DiedAt(script, old(at), at)
      ensures r.Failed? ==>
                || Thwarted(script, old(at), at, named, takesWal, r.error)
                || (r.error == Declined && old(file).Db? && client.adopt(old(file).content) == Refuse)
                || (Empty(old(file)) && Unmade(old(file).content, schema, client, r.error))
                || Unmade(BLANK, schema, client, r.error)
      ensures Valid()
      ensures r.Done? ==> named && takesWal
      ensures at >= old(at) && (r.Done? ==> Unrefused(script, old(at), at))
      ensures r.Done? && client.RecordsItsOwn() ==> file.Db? && Agrees(file.content, schema)
      ensures r == Done(Reused) ==>
                && file == old(file) && trail == old(trail)
                && file.Db? && Agrees(file.content, schema) && client.adopt(file.content) == Keep
      ensures r == Done(Created) ==>
                && Empty(old(file)) && file.Db? && trail == old(trail) + [Made(file.content)]
                && Built(old(file.content), schema, client, mints(old(drawn))) == Some(file.content)
      ensures r.Done? && r.value.RebuiltFromZero? ==>
                && Justified(old(file), schema, r.value.reason)
                && ClientsOwn(old(file), client, r.value.reason)
                && file.Db? && !file.rotten && trail == old(trail) + [Discarded(schema, r.value.reason), Made(file.content)]
                && Built(BLANK, schema, client, mints(old(drawn))) == Some(file.content)
      ensures !r.Done? ==>
                || (file == old(file) && trail == old(trail))
                || exists reason ::
                     && Justified(old(file), schema, reason) && ClientsOwn(old(file), client, reason)
                     && file == Db(BLANK, false) && trail == old(trail) + [Discarded(schema, reason)]
      ensures KeptAsItIs(old(file), schema, client) ==>
                && file == old(file) && trail == old(trail)
                && (r.Done? ==> r == Done(Reused))
                && (old(Calm()) ==> r == Done(Reused))
      // a build the client judges, marked unfinished or whole: its refusal leaves what
      // is there, and its word is the reason
      ensures old(file).Db? && !old(file).rotten && Asked(old(file).content, schema, client)
              && client.adopt(old(file).content) == Refuse ==>
                file == old(file) && trail == old(trail) && !r.Done? && (old(Calm()) ==> r == Failed(Declined))
      ensures old(Calm()) && Unarmed(client) && old(file).Db? && Asked(old(file).content, schema, client)
              && client.adopt(old(file).content).Discard?
              && Built(BLANK, schema, client, mints(old(drawn))).Some? ==>
                r == Done(RebuiltFromZero(ClientSays(client.adopt(old(file).content).detail)))
      ensures old(Calm()) && Unarmed(client) && old(file).Db? && Shaped(old(file).content, schema)
              && Marked(old(file).content, client.unfinished) && !SchemaStands(old(file).content, schema)
              && client.adopt(old(file).content) == Keep
              && Built(BLANK, schema, client, mints(old(drawn))).Some? ==>
                r == Done(RebuiltFromZero(Damage))
      ensures old(Calm()) && Unarmed(client) ==> Calm()
      ensures old(Calm()) && Unarmed(client) ==>
                match CourseOf(old(file), schema, client)
                case Reuses => r == Done(Reused)
                case Creates =>
                  if Built(old(file.content), schema, client, mints(old(drawn))).Some? then r == Done(Created) else !r.Done?
                case Rebuilds(reason) =>
                  if Built(BLANK, schema, client, mints(old(drawn))).Some? then r == Done(RebuiltFromZero(reason))
                  else !r.Done?
                case Declines => r == Failed(Declined)
    {
      hide History, Heard, Built, Agrees, Judge, Shaped, Marked, SchemaStands, Unrefused, Unmade, DiedAt, RefusedAt, Barred, Thwarted, Asked;
      hide Calm, Unarmed, Empty, Client.RecordsItsOwn;
      if file.Db? { AskedIs(file.content, schema, client); }
      var luck := Ask();  // the directory it sits in
      if luck != Fine { return if luck.Dies? then Died else Failed(Lifecycle); }
      ghost var mark := at;
      var connected := Connect();
      LaterSteps(script, old(at), mark, at);
      if connected.Died? { return Died; }
      if connected.Failed? { return Failed(connected.error); }
      mark := at;
      if !connected.value {
        r := RebuildFor(schema, client, Damage);
        LaterSteps(script, old(at), mark, at);
        return;
      }

      var verdict := Inspect(schema, client.unfinished);
      LaterSteps(script, old(at), mark, at);
      if verdict.Died? { return Died; }
      if verdict.Failed? { return Failed(verdict.error); }
      mark := at;
      VerdictsAreJustified(file, schema, client.unfinished);
      VerdictsAreJustified(file, schema, None);
      match verdict.value {
        case Fresh =>
          var made := Create(schema, client);
          LaterSteps(script, old(at), mark, at);
          if made.Died? { return Died; }
          if made.Failed? { return Failed(made.error); }
          if client.RecordsItsOwn() { BuiltAgrees(old(file.content), schema, client, mints(old(drawn))); }
          return Done(Created);
        case Unfit(reason) =>
          r := RebuildFor(schema, client, reason);
          LaterSteps(script, old(at), mark, at);
          return;
        case Usable =>
        case ClientFirst =>
      }
      match client.adopt(file.content) {
        case Refuse => return Failed(Declined);
        case Discard(detail) =>
          r := RebuildFor(schema, client, ClientSays(detail));
          LaterSteps(script, old(at), mark, at);
          return;
        case Keep =>
      }
      if verdict.value.ClientFirst? {
        var again := Inspect(schema, None);
        LaterSteps(script, old(at), mark, at);
        if again.Died? { return Died; }
        if again.Failed? { return Failed(again.error); }
        mark := at;
        if again.value.Unfit? {
          r := RebuildFor(schema, client, again.value.reason);
          LaterSteps(script, old(at), mark, at);
          return;
        }
      }
      return Done(Reused);
    }

    /** Rebuild on the way through an open. */
    method RebuildFor(schema: Schema, client: Client, reason: Reason) returns (r: Ended<Outcome>)
      requires Valid() && Justified(file, schema, reason)
      modifies this
      ensures r.Died? ==> DiedAt(script, old(at), at)
      ensures r.Failed? ==>
                || Thwarted(script, old(at), at, named, takesWal, r.error)
                || Unmade(BLANK, schema, client, r.error)
      ensures Valid()
      ensures r.Done? ==> named && takesWal
      ensures at >= old(at) && (r.Done? ==> Unrefused(script, old(at), at))
      ensures r.Done? ==>
                && r == Done(RebuiltFromZero(reason))
                && file.Db? && !file.rotten && trail == old(trail) + [Discarded(schema, reason), Made(file.content)]
                && Built(BLANK, schema, client, mints(old(drawn))) == Some(file.content)
                && (client.RecordsItsOwn() ==> Agrees(file.content, schema))
      ensures !r.Done? ==>
                || (file == old(file) && trail == old(trail))
                || (file == Db(BLANK, false) && trail == old(trail) + [Discarded(schema, reason)])
      ensures old(Calm()) && Unarmed(client) ==>
                Calm() && (r.Done? <==> Built(BLANK, schema, client, mints(old(drawn))).Some?)
    {
      hide History, Justified, Built, Agrees;
      var rebuilt := Rebuild(schema, client, reason);
      if rebuilt.Died? { return Died; }
      if rebuilt.Failed? { return Failed(rebuilt.error); }
      if client.RecordsItsOwn() { BuiltAgrees(BLANK, schema, client, mints(old(drawn))); }
      return Done(RebuiltFromZero(reason));
    }

    // ----- after opening

    /** A write: the generation and the work in one transaction. Without a counter
        it is refused. */
    method Write(work: Work) returns (r: Ended<int>)
      requires Valid() && (file.Db? ==> LeavesIdentity(file.content, work(file.content)))
      modifies this
      ensures r.Died? ==> DiedAt(script, old(at), at)
      ensures r.Failed? ==> RefusedAt(script, old(at), at, r.error) || (r.error == Sql && Generation(old(file)).None?)
      ensures Valid() && drawn == old(drawn)
      ensures r.Done? ==>
                && old(file).Db? && Generation(old(file)).Some? && r.value == Generation(old(file)).value + 1
                && Generation(file) == Some(r.value) && Epoch(file) == Epoch(old(file))
                && file == Db(Written(old(file).content, work), old(file).rotten)
                && file.content.meta["write_generation"] == Whole(r.value)
                && trail == old(trail) + [Wrote(work)]
      ensures !r.Done? ==> file == old(file) && trail == old(trail)
      ensures Generation(old(file)).None? ==> !r.Done?
      ensures r.Done? ==> at == old(at) + 2 && Unrefused(script, old(at), at)
      ensures old(Calm()) && Generation(old(file)).Some? ==> r.Done?
    {
      hide History, Heard;
      var luck := Ask();  // taking the generation
      if luck != Fine { return if luck.Dies? then Died else Failed(SqlError(luck.error)); }
      if Generation(file).None? { return Failed(Sql); }
      luck := Ask();  // the work, and the commit
      if luck != Fine { return if luck.Dies? then Died else Failed(SqlError(luck.error)); }
      HistoryAllowsWrite(file, first, trail, mints, drawn, work);
      HistoryGoesOn(file, first, trail, mints, drawn, Wrote(work));
      WrittenKeepsEpoch(file, work);
      file := Db(Written(file.content, work), file.rotten);
      trail := trail + [Wrote(work)];
      return Done(Generation(file).value);
    }

    /** Set or remove one of the client's own keys. It moves no counter. */
    method PinOwn(key: string, value: Option<Value>) returns (r: Ended<()>)
      requires Valid() && key !in MECHANICS && key != WRITE_GENERATION
      modifies this
      ensures r.Died? ==> DiedAt(script, old(at), at)
      ensures r.Failed? ==>
                || RefusedAt(script, old(at), at, r.error)
                || (r.error == Sql && (old(file).Unreadable? || !HasMeta(old(file).content)))
      ensures Valid() && drawn == old(drawn)
      ensures r.Done? ==>
                && old(file).Db? && HasMeta(old(file).content)
                && file == Db(Pin(old(file).content, key, value), old(file).rotten)
                && Epoch(file) == Epoch(old(file)) && Generation(file) == Generation(old(file))
                && trail == old(trail) + [Repinned(key, value)]
      ensures !r.Done? ==> file == old(file) && trail == old(trail)
      ensures r.Done? ==> at == old(at) + 1 && Unrefused(script, old(at), at)
      ensures old(Calm()) && old(file).Db? && HasMeta(old(file).content) ==> r.Done?
    {
      hide History, Heard;
      var luck := Ask();
      if luck != Fine { return if luck.Dies? then Died else Failed(SqlError(luck.error)); }
      if file.Unreadable? || !HasMeta(file.content) { return Failed(Sql); }
      HistoryGoesOn(file, first, trail, mints, drawn, Repinned(key, value));
      file := Db(Pin(file.content, key, value), file.rotten);
      trail := trail + [Repinned(key, value)];
      return Done(());
    }

    /** The disk goes bad under the file. */
    method Rot()
      requires Valid()
      modifies this
      ensures Valid() && drawn == old(drawn)
      ensures file == Next(old(file), Rotted) && trail == old(trail) + [Rotted]
    {
      hide History;
      HistoryAllowsRot(first, trail);
      HistoryGoesOn(file, first, trail, mints, drawn, Rotted);
      file := if file.Db? then Db(file.content, true) else file;
      trail := trail + [Rotted];
    }
  }

  lemma HistoryAllowsRot(first: File, trail: seq<Event>)
    ensures Allowed(first, trail, Rotted)
  {
  }

  lemma HistoryAllowsWrite(file: File, first: File, trail: seq<Event>, mints: nat -> string, drawn: nat, work: Work)
    requires History(file, first, trail, mints, drawn) && Generation(file).Some?
    requires LeavesIdentity(file.content, work(file.content))
    ensures Allowed(first, trail, Wrote(work))
  {
    hide After, Lawful, Shown;
  }

  lemma WrittenKeepsEpoch(file: File, work: Work)
    requires file.Db? && LeavesIdentity(file.content, work(file.content)) && Generation(file).Some?
    ensures Epoch(Db(Written(file.content, work), file.rotten)) == Epoch(file)
    ensures Generation(Db(Written(file.content, work), file.rotten)) == Some(Generation(file).value + 1)
  {
    assert STORE_EPOCH in MECHANICS + {WRITE_GENERATION};
  }

  /** A client's reason is one the client gave. */
  ghost predicate ClientsOwn(file: File, client: Client, reason: Reason) {
    reason.ClientSays? ==> file.Db? && client.adopt(file.content) == Discard(reason.detail)
  }

  /** The database a schema agrees with, reads without damage, and the client keeps. */
  predicate KeptAsItIs(file: File, schema: Schema, client: Client) {
    file.Db? && !file.rotten && Agrees(file.content, schema) && client.adopt(file.content) == Keep
  }

  lemma VerdictsAreJustified(file: File, schema: Schema, unfinished: Option<string>)
    requires file.Db?
    ensures var verdict := Judge(file.content, schema, unfinished);
            && (verdict.Unfit? ==> !verdict.reason.ClientSays? && Justified(file, schema, verdict.reason))
            && (verdict.Fresh? <==> Empty(file))
            && (verdict.Usable? ==> Agrees(file.content, schema))
            && (verdict.ClientFirst? ==>
                  Judge(file.content, schema, None).Usable? || Judge(file.content, schema, None).Unfit?)
            && (Agrees(file.content, schema) ==> Judge(file.content, schema, None).Usable? && (verdict.Usable? || verdict.ClientFirst?))
            && (Judge(file.content, schema, None).Usable? ==> Agrees(file.content, schema))
  {
    UsableIff(file.content, schema, unfinished);
    UsableIff(file.content, schema, None);
    if unfinished.Some? { ClientFirstPutsOff(file.content, schema, unfinished.value); }
  }

  /** None of the first statements was made to fail. */
  ghost predicate RanUnarmed(client: Client, count: nat) {
    forall k :: 0 <= k < count ==> client.armed(k) == None
  }

  /** No statement is made to fail. */
  ghost predicate Unarmed(client: Client) {
    forall k :: client.armed(k) == None
  }

  datatype Course = Creates | Reuses | Rebuilds(reason: Reason) | Declines

  /** What an open comes to when every step of it goes well. */
  function CourseOf(file: File, schema: Schema, client: Client): Course {
    if file.Unreadable? then Rebuilds(Damage)
    else match Judge(file.content, schema, client.unfinished)
      case Fresh => Creates
      case Unfit(reason) => Rebuilds(reason)
      case Usable => Adopted(file.content, client, Reuses)
      case ClientFirst =>
        Adopted(file.content, client,
                match Judge(file.content, schema, None) case Unfit(reason) => Rebuilds(reason) case _ => Reuses)
  }

  function Adopted(c: Content, client: Client, kept: Course): Course {
    match client.adopt(c)
    case Keep => kept
    case Discard(detail) => Rebuilds(ClientSays(detail))
    case Refuse => Declines
  }

  /** The client is asked: about a build of this schema that is whole, or marked
      unfinished. */
  predicate Asked(c: Content, s: Schema, client: Client) {
    Shaped(c, s) && (Marked(c, client.unfinished) || SchemaStands(c, s))
  }

  lemma AskedIs(c: Content, s: Schema, client: Client)
    ensures Asked(c, s, client) <==>
              Judge(c, s, client.unfinished) == Usable || Judge(c, s, client.unfinished) == ClientFirst
    ensures Shaped(c, s) && Marked(c, client.unfinished) <==> Judge(c, s, client.unfinished) == ClientFirst
    ensures Shaped(c, s) && Marked(c, client.unfinished) && !SchemaStands(c, s) ==> Judge(c, s, None) == Unfit(Damage)
  {
    hide Judge, Shaped, Marked, SchemaStands, Agrees, Differs;
    JudgeIs(c, s, client.unfinished);
    if client.unfinished.Some? {
      ClientFirstPutsOff(c, s, client.unfinished.value);
    }
    JudgeIs(c, s, None);
    MarkIsGone(c);
  }

  /** An open that goes well reuses what is there exactly when it agrees with the
      schema and the client keeps it, creates exactly when nothing is there, is
      declined exactly where the client is asked and refuses, and rebuilds for the
      reason that is the first to hold. */
  lemma CourseIs(file: File, schema: Schema, client: Client)
    ensures CourseOf(file, schema, client) == Reuses <==>
              file.Db? && Agrees(file.content, schema) && client.adopt(file.content) == Keep
    ensures CourseOf(file, schema, client) == Creates <==> Empty(file)
    ensures CourseOf(file, schema, client) == Declines <==>
              file.Db? && Asked(file.content, schema, client) && client.adopt(file.content) == Refuse
    ensures forall detail :: CourseOf(file, schema, client) == Rebuilds(ClientSays(detail)) <==>
              file.Db? && Asked(file.content, schema, client) && client.adopt(file.content) == Discard(detail)
    ensures forall found :: CourseOf(file, schema, client) == Rebuilds(Version(found)) <==>
              && file.Db? && "meta" in file.content.objects && file.content.objects["meta"].Table?
              && Differs(file.content, "store_schema_version", Integers, Whole(schema.version), found)
    ensures forall found :: CourseOf(file, schema, client) == Rebuilds(Fingerprint(found)) <==>
              && file.Db? && "meta" in file.content.objects && file.content.objects["meta"].Table?
              && PinnedAt(file.content, "store_schema_version", Whole(schema.version))
              && Differs(file.content, "ddl_fingerprint", Texts, Words(schema.Fingerprint()), found)
    ensures CourseOf(file, schema, client).Rebuilds? ==>
              Justified(file, schema, CourseOf(file, schema, client).reason)
  {
    if file.Db? {
      hide Judge, Shaped, Marked, SchemaStands, Agrees, Differs;
      JudgeIs(file.content, schema, client.unfinished);
      JudgeIs(file.content, schema, None);
      VerdictsAreJustified(file, schema, client.unfinished);
      VerdictsAreJustified(file, schema, None);
      MarkIsGone(file.content);
    }
  }

  lemma MarkIsGone(c: Content)
    ensures !Marked(c, None)
  {
  }

  lemma NoStatements(c: Content)
    ensures RunAll([], c) == Some(c)
  {
  }

  lemma {:induction false} StoppedShort(statements: seq<Statement>, i: nat, c: Content)
    requires i <= |statements| && RunAll(statements[..i], c) == None
    ensures RunAll(statements, c) == None
    decreases |statements| - i
  {
    if i < |statements| {
      assert statements[..i + 1][..i] == statements[..i];
      StoppedShort(statements, i + 1, c);
    } else {
      assert statements[..i] == statements;
    }
  }

  lemma OneMoreStatement(statements: seq<Statement>, i: nat, c: Content)
    requires i < |statements| && RunAll(statements[..i], c).Some?
    ensures RunAll(statements[..i + 1], c) == statements[i].run(RunAll(statements[..i], c).value)
  {
    assert statements[..i + 1][..i] == statements[..i];
  }

  // ----- a creation that never settles

  /** A client that makes an object of its own while recording. */
  function Straying(name: string): Client {
    Client((c: Content) => Some(c.(objects := c.objects[name := NotATable("")])), c => Keep, None, k => None)
  }

  /** The statements run and make the meta table, and the digest tells the objects
      they leave from those with the client's own among them. */
  ghost predicate Unsettling(s: Schema, name: string) {
    && name != META
    && RunAll(s.statements, BLANK).Some? && HasMeta(RunAll(s.statements, BLANK).value)
    && var objects := RunAll(s.statements, BLANK).value.objects;
       s.digestOfObjects(objects[name := NotATable("")]) != s.digestOfObjects(objects)
  }

  /** What such a client has created, its next open rebuilds; and it can. */
  lemma StrayIsRebuilt(s: Schema, name: string, epoch: string)
    requires Unsettling(s, name)
    ensures var built := Built(BLANK, s, Straying(name), epoch);
            built.Some? && CourseOf(Db(built.value, false), s, Straying(name)) == Rebuilds(Damage)
  {
    var client := Straying(name);
    var ran := RunAll(s.statements, BLANK).value;
    var pinned := Pinned(ran, s).value;
    assert client.record(pinned) == Some(pinned.(objects := pinned.objects[name := NotATable("")]));
    hide Judge;
    SettlesIff(BLANK, s, client, epoch);
  }

  /** Open after open, with nothing going wrong, is a rebuild for damage. */
  method OpenOverAndOver(store: Store, s: Schema, name: string, times: nat) returns (outcomes: seq<Ended<Outcome>>)
    requires store.Valid() && store.Calm() && Unsettling(s, name)
    requires exists epoch :: Some(store.file) == Stray(s, name, epoch)
    modifies store
    ensures |outcomes| == times && forall i :: 0 <= i < times ==> outcomes[i] == Done(RebuiltFromZero(Damage))
  {
    hide Built, CourseOf, History, RunAll, Straying;
    outcomes := [];
    for i := 0 to times
      invariant store.Valid() && store.Calm()
      invariant exists epoch :: Some(store.file) == Stray(s, name, epoch)
      invariant |outcomes| == i && forall k :: 0 <= k < i ==> outcomes[k] == Done(RebuiltFromZero(Damage))
    {
      ghost var epoch :| Some(store.file) == Stray(s, name, epoch);
      StrayIsRebuilt(s, name, epoch);
      ghost var next := store.mints(store.drawn);
      StrayIsRebuilt(s, name, next);
      StrayIsUnarmed(name);
      var outcome := store.Open(s, Straying(name));
      assert Some(store.file) == Stray(s, name, next);
      outcomes := outcomes + [outcome];
    }
  }

  /** What a straying client's creation leaves at the path. */
  ghost function Stray(s: Schema, name: string, epoch: string): Option<File> {
    match Built(BLANK, s, Straying(name), epoch)
    case Some(c) => Some(Db(c, false))
    case None => None
  }

  lemma StrayIsUnarmed(name: string)
    ensures Unarmed(Straying(name))
  {
  }

  /** There are such schemas: one statement, and a digest that notices. */
  lemma UnsettlingExists(name: string) returns (s: Schema)
    requires name != META
    ensures Unsettling(s, name)
  {
    var create := Statement("CREATE TABLE meta", (c: Content) => Some(c.(objects := c.objects[META := Table("")])));
    s := Schema(1, [create], texts => "", (objects: map<string, Object>) => if name in objects then "more" else "");
    assert s.statements[..0] == [];
    assert RunAll([], BLANK) == Some(BLANK);
    assert RunAll(s.statements, BLANK) == create.run(BLANK);
  }
}
