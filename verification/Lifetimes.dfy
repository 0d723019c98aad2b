/**
 What a database's path lives through, and what a consumer that recorded an epoch
 and a generation may conclude when it comes back.
 */
module Lifetimes {
  import opened Prelude
  import opened Database
  import opened Verdicts

  /** What changes a database: a discard, on some schema's judgment; a creation; a
      committed write; a client's own key set or removed, which counts as no write;
      and rot, which makes reads report damage. */
  datatype Event =
    | Discarded(schema: Schema, reason: Reason)
    | Made(content: Content)
    | Wrote(work: Work)
    | Repinned(key: string, value: Option<Value>)
    | Rotted

  function Next(file: File, e: Event): File {
    match e
    case Discarded(_, _) => Db(BLANK, false)
    case Made(content) => Db(content, file.Db? && file.rotten)
    case Wrote(work) => if file.Db? then file.(content := Written(file.content, work)) else file
    case Repinned(key, value) => if file.Db? then file.(content := Pin(file.content, key, value)) else file
    case Rotted => if file.Db? then file.(rotten := true) else file
  }

  function After(first: File, trail: seq<Event>): File {
    if trail == [] then first else Next(After(first, trail[..|trail| - 1]), trail[|trail| - 1])
  }

  /** What justifies a discard: the client asked, or the file cannot be read, or
      what it says of itself is not what the schema writes. */
  ghost predicate Justified(file: File, s: Schema, reason: Reason) {
    || reason.ClientSays?
    || file.Unreadable?
    || file.rotten
    || Judge(file.content, s, None) == Unfit(reason)
  }

  /** A database in which nothing was ever made. */
  predicate Empty(file: File) {
    file.Db? && file.content.objects == map[]
  }

  /** The epochs a trail has shown, the first file's among them. */
  ghost predicate Shown(first: File, trail: seq<Event>, epoch: Value) {
    exists n :: 0 <= n <= |trail| && Epoch(After(first, trail[..n])) == Some(epoch)
  }

  /** One event after a trail: a discard is justified, a creation is in an empty
      database and under an epoch never shown before, a write counts and leaves the ceremony's keys
      alone, and so does a client's own key. */
  ghost predicate Allowed(first: File, trail: seq<Event>, e: Event) {
    var file := After(first, trail);
    match e
    case Discarded(s, reason) => Justified(file, s, reason)
    case Made(content) =>
      Empty(file) && STORE_EPOCH in content.meta && !Shown(first, trail, content.meta[STORE_EPOCH])
    case Wrote(work) => Generation(file).Some? && LeavesIdentity(file.content, work(file.content))
    case Repinned(key, _) => key !in MECHANICS && key != WRITE_GENERATION
    case Rotted => true
  }

  ghost predicate Lawful(first: File, trail: seq<Event>) {
    forall k :: 0 <= k < |trail| ==> Allowed(first, trail[..k], trail[k])
  }

  /** A database that agrees with a schema and has not rotted is never discarded on
      that schema's judgment: only the client's own word does that. */
  lemma AgreeingIsNeverDiscarded(file: File, s: Schema, reason: Reason)
    requires file.Db? && !file.rotten && Agrees(file.content, s)
    ensures Justified(file, s, reason) <==> reason.ClientSays?
  {
    UsableIff(file.content, s, None);
  }

  lemma DiscardedHasNone(file: File, e: Event)
    requires e.Discarded?
    ensures Epoch(Next(file, e)) == None
  {
  }

  lemma MadeIsNew(first: File, trail: seq<Event>, e: Event, i: nat)
    requires Allowed(first, trail, e) && e.Made? && i <= |trail|
    ensures Epoch(After(first, trail[..i])) != Epoch(Next(After(first, trail), e))
  {
    hide After;
  }

  /** An event that leaves a database the one it was. */
  predicate Within(e: Event) {
    e.Wrote? || e.Repinned? || e.Rotted?
  }

  /** A change of the contents, counted or not. */
  predicate Changes(e: Event) {
    e.Wrote? || e.Repinned?
  }

  lemma EventAdvances(first: File, trail: seq<Event>, e: Event)
    requires Allowed(first, trail, e) && Within(e)
    ensures var file := After(first, trail);
            && Epoch(Next(file, e)) == Epoch(file)
            && (Generation(file).Some? ==>
                  Generation(Next(file, e)) == Some(Generation(file).value + (if e.Wrote? then 1 else 0)))
            && (file.Db? ==> Next(file, e).Db? && Next(file, e).content == Applied(file.content, e))
  {
    hide After;
    if e.Wrote? {
      assert STORE_EPOCH in MECHANICS + {WRITE_GENERATION};
    }
  }

  /** What one change makes of the contents. */
  function Applied(c: Content, e: Event): Content {
    match e
    case Wrote(work) => Written(c, work)
    case Repinned(key, value) => Pin(c, key, value)
    case _ => c
  }

  /** Between two moments with the same epoch nothing was discarded or made. */
  lemma {:induction false} SameEpochSameLife(first: File, trail: seq<Event>, i: nat, j: nat)
    requires Lawful(first, trail) && i <= j <= |trail|
    requires Epoch(After(first, trail[..i])).Some?
    requires Epoch(After(first, trail[..j])) == Epoch(After(first, trail[..i]))
    ensures forall k :: i <= k < j ==> Within(trail[k])
    decreases j
  {
    hide Next, Epoch, Allowed;
    if i < j {
      var before := After(first, trail[..j - 1]);
      assert trail[..j][..j - 1] == trail[..j - 1];
      assert Allowed(first, trail[..j - 1], trail[j - 1]);
      assert trail[..j - 1][..i] == trail[..i];
      var e := trail[j - 1];
      if e.Discarded? {
        DiscardedHasNone(before, e);
      } else if e.Made? {
        MadeIsNew(first, trail[..j - 1], e, i);
      } else {
        EventAdvances(first, trail[..j - 1], e);
        SameEpochSameLife(first, trail, i, j - 1);
      }
    }
  }

  /** A replaced epoch never returns: once it is not the database's, it never is
      again. */
  lemma ReplacedEpochsStayGone(first: File, trail: seq<Event>, i: nat, j: nat, k: nat)
    requires Lawful(first, trail) && i <= j <= k <= |trail|
    requires Epoch(After(first, trail[..i])).Some?
    requires Epoch(After(first, trail[..j])) != Epoch(After(first, trail[..i]))
    ensures Epoch(After(first, trail[..k])) != Epoch(After(first, trail[..i]))
  {
    if Epoch(After(first, trail[..k])) == Epoch(After(first, trail[..i])) {
      SameEpochSameLife(first, trail, i, k);
      LifeGoesOn(first, trail, i, j);
    }
  }

  /** The changes made since the database there now was created, in order. */
  function Story(trail: seq<Event>): seq<Event> {
    if trail == [] then []
    else
      var before, e := Story(trail[..|trail| - 1]), trail[|trail| - 1];
      if !Within(e) then [] else if Changes(e) then before + [e] else before
  }

  /** How many of them took a generation. */
  function Counted(story: seq<Event>): nat {
    if story == [] then 0
    else Counted(story[..|story| - 1]) + (if story[|story| - 1].Wrote? then 1 else 0)
  }

  function Folded(c: Content, story: seq<Event>): Content {
    if story == [] then c else Applied(Folded(c, story[..|story| - 1]), story[|story| - 1])
  }

  /** Within one life the changes only grow, the epoch stays, the counter counts the
      writes among the new ones, and the contents are those changes made to what
      was there. */
  lemma {:induction false} LifeGoesOn(first: File, trail: seq<Event>, i: nat, j: nat)
    requires Lawful(first, trail) && i <= j <= |trail|
    requires forall k :: i <= k < j ==> Within(trail[k])
    ensures var a, b := After(first, trail[..i]), After(first, trail[..j]);
            var s, t := Story(trail[..i]), Story(trail[..j]);
            && Epoch(a) == Epoch(b) && s <= t
            && (Generation(a).Some? ==> Generation(b) == Some(Generation(a).value + Counted(t[|s|..])))
            && (a.Db? ==> b.Db? && b.content == Folded(a.content, t[|s|..]))
    decreases j
  {
    hide Next, Epoch, Generation, Allowed, Applied, Folded, Counted;
    var s, t := Story(trail[..i]), Story(trail[..j]);
    if i < j {
      var e, u := trail[j - 1], Story(trail[..j - 1]);
      assert trail[..j][..j - 1] == trail[..j - 1];
      assert Allowed(first, trail[..j - 1], e);
      LifeGoesOn(first, trail, i, j - 1);
      EventAdvances(first, trail[..j - 1], e);
      if Changes(e) {
        assert t == u + [e];
        assert t[|s|..] == u[|s|..] + [e];
        OneMoreChange(After(first, trail[..i]), u[|s|..], e);
      } else {
        RotChangesNothing(After(first, trail[..j - 1]), e);
      }
    } else {
      assert t[|s|..] == [];
      NoChange(After(first, trail[..i]));
    }
  }

  lemma OneMoreChange(file: File, story: seq<Event>, e: Event)
    ensures Counted(story + [e]) == Counted(story) + (if e.Wrote? then 1 else 0)
    ensures file.Db? ==> Folded(file.content, story + [e]) == Applied(Folded(file.content, story), e)
  {
    assert (story + [e])[..|story|] == story;
  }

  lemma NoChange(file: File)
    ensures Counted([]) == 0 && (file.Db? ==> Folded(file.content, []) == file.content)
  {
  }

  lemma RotChangesNothing(file: File, e: Event)
    requires e.Rotted?
    ensures file.Db? ==> Applied(file.content, e) == file.content
  {
  }

  /** A story begins where the database there now was made, or took another's place:
      its contents are what stood then with every change of the story made to it. */
  lemma StoryOfALife(first: File, trail: seq<Event>, k: nat)
    requires Lawful(first, trail) && k < |trail| && !Within(trail[k])
    requires forall j :: k < j < |trail| ==> Within(trail[j])
    ensures var made := After(first, trail[..k + 1]);
            made.Db? ==> After(first, trail).Db? && After(first, trail).content == Folded(made.content, Story(trail))
  {
    hide Next, Allowed, Applied, Folded, Counted, Generation, Epoch;
    LifeGoesOn(first, trail, k + 1, |trail|);
    assert trail[..|trail|] == trail;
    assert trail[..k + 1][..k] == trail[..k];
    assert Story(trail)[0..] == Story(trail);
  }

  /** What a consumer knows that read an epoch and a generation and comes back to the
      same epoch: the changes it saw are a prefix of those made since, the contents
      are the new ones made to what it saw, and exactly as many of those were writes
      as the generation has moved. */
  lemma PositionNamesAPrefix(first: File, trail: seq<Event>, i: nat, j: nat)
    requires Lawful(first, trail) && i <= j <= |trail|
    requires Epoch(After(first, trail[..i])).Some?
    requires Epoch(After(first, trail[..j])) == Epoch(After(first, trail[..i]))
    requires Generation(After(first, trail[..i])).Some?
    ensures var a, b := After(first, trail[..i]), After(first, trail[..j]);
            var s, t := Story(trail[..i]), Story(trail[..j]);
            && s <= t && a.Db? && b.Db? && b.content == Folded(a.content, t[|s|..])
            && Generation(b) == Some(Generation(a).value + Counted(t[|s|..]))
            && (Generation(a) == Generation(b) ==>
                  a.content.rows == b.content.rows && a.content.objects == b.content.objects)
  {
    hide Next, Epoch, Folded, Counted, Story;
    SameEpochSameLife(first, trail, i, j);
    LifeGoesOn(first, trail, i, j);
    var a := After(first, trail[..i]);
    var since := Story(trail[..j])[|Story(trail[..i])|..];
    UncountedKeepRows(a.content, since);
  }

  lemma {:induction false} UncountedKeepRows(c: Content, story: seq<Event>)
    ensures Counted(story) == 0 ==> Folded(c, story).rows == c.rows && Folded(c, story).objects == c.objects
  {
    if story != [] {
      UncountedKeepRows(c, story[..|story| - 1]);
    }
  }
}
