/**
 The registry under the locked read-modify-write: what its entries are after any
 run of concurrent changes to the file that holds them.
 */
module RegistryRuns {
  import opened Prelude
  import opened Document
  import opened Registry
  import FileSystem
  import Protocol = MutateProtocol
  import MutateRuns

  /** What each caller makes of the entries it is shown: changes, or a refusal. */
  type Plan = (Protocol.CallId, map<string, Entry>) -> Option<seq<Change>>

  datatype Setting = Setting(grammar: Grammar, codec: Codec, plan: Plan)
  {
    ghost predicate Sound() {
      codec.Faithful() && forall c, es :: plan(c, es).Some? ==> AllAllowed(grammar, plan(c, es).value)
    }
  }

  /** `bytes` hold the registry `c`. */
  ghost predicate Holds(s: Setting, bytes: Option<Bytes>, c: Contents) {
    Read(s.codec, bytes) == Ok(c.document) && Loads(s.grammar, c.document, c)
  }

  /** `bytes` load as `c`, the caller has changes to make, and the outcome renders
      as `after`. */
  ghost predicate Applies(s: Setting, call: Protocol.CallId, bytes: Option<Bytes>, c: Contents, after: Bytes) {
    && Holds(s, bytes, c)
    && s.plan(call, c.entries).Some?
    && s.codec.show(Rendered(ChangedAll(c, s.plan(call, c.entries).value))) == Some(after)
  }

  /** The edits of the guarded file are registry changes: loaded, applied and
      rendered, or refused. */
  ghost predicate EditsRegistry(s: Setting, edit: Protocol.Edit) {
    forall call, bytes, after :: edit(call, bytes) == Protocol.Render(after) <==>
      exists c :: Applies(s, call, bytes, c, after)
  }

  /** The entries after the plans of `calls`, carried out one after another with
      nothing in between and no file at all. */
  function Served(s: Setting, entries: map<string, Entry>, calls: seq<Protocol.CallId>): map<string, Entry> {
    if calls == [] then entries
    else
      var before := Served(s, entries, calls[..|calls| - 1]);
      match s.plan(calls[|calls| - 1], before)
      case None => before
      case Some(changes) => EntriesAfter(before, changes)
  }

  /** All the changes those plans come to, in order. */
  function AllChanges(s: Setting, entries: map<string, Entry>, calls: seq<Protocol.CallId>): seq<Change> {
    if calls == [] then []
    else
      var n := |calls| - 1;
      match s.plan(calls[n], Served(s, entries, calls[..n]))
      case None => AllChanges(s, entries, calls[..n])
      case Some(changes) => AllChanges(s, entries, calls[..n]) + changes
  }

  /** `c` has the top-level keys of `d`, but for the two that are rewritten. */
  ghost predicate SameForeignKeys(c: Contents, d: Contents) {
    forall key :: key != VAULTS_KEY && key != VERSION_KEY ==>
      && (key in c.document <==> key in d.document)
      && (key in c.document ==> c.document[key] == d.document[key])
  }

  /** One replacement carries out one plan, whole. */
  lemma OneChangeLands(s: Setting, call: Protocol.CallId, bytes: Option<Bytes>, c: Contents, after: Bytes)
    returns (d: Contents)
    requires s.Sound() && c.Valid(s.grammar) && Holds(s, bytes, c)
    requires exists x :: Applies(s, call, bytes, x, after)
    ensures Holds(s, Some(after), d) && d.Valid(s.grammar)
    ensures s.plan(call, c.entries).Some?
    ensures d.entries == EntriesAfter(c.entries, s.plan(call, c.entries).value)
    ensures SameForeignKeys(d, c) && EntriesKeep(c, s.plan(call, c.entries).value, d)
  {
    hide Loads, Rendered, ChangedAll, EntriesAfter, EntriesKeep;
    var x :| Applies(s, call, bytes, x, after);
    LoadsAsOne(s.grammar, c.document, c, x);
    var changes := s.plan(call, c.entries).value;
    var changed := ChangedAll(c, changes);
    ChangesKeep(s.grammar, c, changes);
    RenderedLoads(s.grammar, changed);
    RenderedSection(changed);
    RewriteRetains(s.grammar, c.document, c, changes, ReadBack(changed));
    d := ReadBack(changed);
  }

  lemma KeptAsRead(s: Setting, c: Contents)
    ensures EntriesKeep(c, [], c)
  {
  }

  lemma {:induction false} ChangesLand(s: Setting, w: Protocol.World, log: seq<Protocol.Commit>, first: Contents)
    returns (last: Contents)
    requires s.Sound() && EditsRegistry(s, w.edit) && Protocol.Chained(w, log)
    requires !w.initial.Alien? && Holds(s, Protocol.Found(w.initial), first) && first.Valid(s.grammar)
    ensures !Protocol.After(w.initial, log).Alien?
    ensures Holds(s, Protocol.Found(Protocol.After(w.initial, log)), last) && last.Valid(s.grammar)
    ensures last.entries == Served(s, first.entries, MutateRuns.Authors(log))
    ensures SameForeignKeys(last, first)
    ensures EntriesKeep(first, AllChanges(s, first.entries, MutateRuns.Authors(log)), last)
  {
    hide EntriesKeep, Holds, Applies, EntriesAfter, Setting.Sound, Changed, ChangedAll, Contents.Valid;
    if log == [] {
      last := first;
      KeptAsRead(s, first);
    } else {
      var n := |log| - 1;
      assert MutateRuns.Authors(log)[..n] == MutateRuns.Authors(log[..n]);
      forall k | 0 <= k < n ensures Protocol.Follows(w, log[..n][..k], log[..n][k]) {
        assert log[..n][..k] == log[..k];
        assert Protocol.Follows(w, log[..k], log[k]);
      }
      var c := ChangesLand(s, w, log[..n], first);
      assert Protocol.Follows(w, log[..n], log[n]);
      last := OneChangeLands(s, log[n].call, log[n].before, c, log[n].after);
      EntriesKeepOn(first, AllChanges(s, first.entries, MutateRuns.Authors(log[..n])), c,
                    s.plan(log[n].call, c.entries).value, last);
    }
  }

  /** Whatever the interleaving, whoever dies and whenever the power goes: the file
      always loads, its entries are those the plans of the calls whose renames stand
      give when carried out one at a time in that order, no key of a newer build is
      lost from the top level, and inside an entry one is lost exactly where some
      plan ended what was registered under that name. */
  lemma EveryChangeLands(s: Setting, w: Protocol.World, states: seq<Protocol.State>, steps: seq<Protocol.Step>,
                         first: Contents)
    returns (last: Contents)
    requires s.Sound() && EditsRegistry(s, w.edit) && MutateRuns.Run(w, states, steps)
    requires !w.initial.Alien? && Holds(s, Protocol.Found(w.initial), first)
    ensures var d := states[|steps|].disk;
            && d.fs.WellFormed()
            && !Protocol.ViewNow(w, d).Alien?
            && Holds(s, Protocol.Found(Protocol.ViewNow(w, d)), last)
            && last.entries == Served(s, first.entries, MutateRuns.Authors(d.log))
            && SameForeignKeys(last, first)
            && EntriesKeep(first, AllChanges(s, first.entries, MutateRuns.Authors(d.log)), last)
  {
    hide EntriesKeep, AllChanges, Setting.Sound, EditsRegistry, SameForeignKeys;
    var d := states[|steps|].disk;
    MutateRuns.NoLostUpdate(w, states, steps);
    MutateRuns.ChainIsReplay(w, d.log);
    last := ChangesLand(s, w, d.log, first);
  }
}
