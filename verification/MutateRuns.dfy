/**
 What every run of the locked read-modify-write guarantees: mutual exclusion, no
 lost update, replacement whole or not at all across a power cut, what each
 outcome says of the file, and what a sweep may remove.
 */
module MutateRuns {
  import opened Prelude
  import opened FileSystem
  import opened MutateProtocol

  /** A system before its first call: no call, no lock, the file's bytes on the
      disk, and anything at all at every other name. */
  ghost predicate Starts(w: World, s: State) {
    && s.disk.fs.WellFormed() && |s.disk.fs.past| == 1
    && s.disk.log == [] && s.disk.marks == [0]
    && s.calls == map[] && s.threads == map[] && s.locks == map[]
    && ViewNow(w, s.disk) == w.initial
    && WholeIn(w, s.disk, s.disk.fs.Dir(), 0)
  }

  ghost predicate Takes(w: World, s: State, step: Step, t: State) {
    WellFormed(s.disk) && Enabled(w, s, step) && t == Do(w, s, step)
  }

  /** `states` is a run: each state comes of the one before by one step. */
  ghost predicate Run(w: World, states: seq<State>, steps: seq<Step>) {
    && |states| == |steps| + 1
    && Starts(w, states[0])
    && (forall i :: 0 <= i < |steps| ==> Takes(w, states[i], steps[i], states[i + 1]))
  }

  lemma {:induction false} RunKeeps(w: World, states: seq<State>, steps: seq<Step>)
    requires Run(w, states, steps)
    ensures Inv(w, states[|steps|])
  {
    var n := |steps|;
    if n == 0 {
      assert WholeIn(w, states[0].disk, states[0].disk.fs.past[0], 0);
    } else {
      assert Takes(w, states[n - 1], steps[n - 1], states[n]);
      RunKeeps(w, states[..n], steps[..n - 1]);
      Preserves(w, states[n - 1], steps[n - 1]);
    }
  }

  /** At most one call is past its recheck, at every moment of every run. */
  lemma MutualExclusion(w: World, states: seq<State>, steps: seq<Step>, c: CallId, d: CallId)
    requires Run(w, states, steps)
    requires c in states[|steps|].calls && states[|steps|].calls[c].Critical()
    requires d in states[|steps|].calls && states[|steps|].calls[d].Critical()
    ensures c == d
  {
    RunKeeps(w, states, steps);
    Exclusive(w, states[|steps|], c, d);
  }

  // ----- no lost update

  /** The file after the edits of `calls`, run one after another with nothing in
      between: the serial reading of a run. */
  function Replay(w: World, calls: seq<CallId>): View {
    if calls == [] then w.initial
    else
      var before := Replay(w, calls[..|calls| - 1]);
      if before.Alien? then Alien
      else match w.edit(calls[|calls| - 1], Found(before))
           case Render(after) => Holds(after)
           case Refuse => before
  }

  function Authors(log: seq<Commit>): (calls: seq<CallId>)
    ensures |calls| == |log|
  {
    seq(|log|, i requires 0 <= i < |log| => log[i].call)
  }

  lemma {:induction false} ChainIsReplay(w: World, log: seq<Commit>)
    requires Chained(w, log)
    ensures After(w.initial, log) == Replay(w, Authors(log))
  {
    if log != [] {
      var n := |log| - 1;
      assert Authors(log)[..n] == Authors(log[..n]);
      forall k | 0 <= k < n ensures Follows(w, log[..n][..k], log[..n][k]) {
        assert log[..n][..k] == log[..k];
        assert Follows(w, log[..k], log[k]);
      }
      ChainIsReplay(w, log[..n]);
      assert Follows(w, log[..n], log[n]);
    }
  }

  /** What a reader finds at the name is what the edits made so far give when run
      one at a time, in the order their renames landed: none is lost and none is
      applied to anything but what the one before it put in place. */
  lemma NoLostUpdate(w: World, states: seq<State>, steps: seq<Step>)
    requires Run(w, states, steps)
    ensures var d := states[|steps|].disk;
            && d.fs.WellFormed()
            && ViewNow(w, d) == Replay(w, Authors(d.log))
            && Chained(w, d.log)
  {
    RunKeeps(w, states, steps);
    var d := states[|steps|].disk;
    assert WholeIn(w, d, d.fs.Dir(), |d.log|);
    assert d.log[..|d.log|] == d.log;
    ChainIsReplay(w, d.log);
  }

  /** A rename is the only step that adds to the edits made, it adds the edit of
      the bytes standing at the name just then, and only a power cut takes any away. */
  lemma OnlyPublishCommits(w: World, s: State, step: Step)
    requires Inv(w, s) && Enabled(w, s, step) && !step.PowerCut?
    ensures Do(w, s, step).disk.log ==
            if step.Publish?
            then s.disk.log + [Commit(step.c, Found(ViewNow(w, s.disk)), s.calls[step.c].after)]
            else s.disk.log
    ensures step.Publish? ==>
              && Uncommitted(s.disk.log, step.c)
              && w.edit(step.c, Found(ViewNow(w, s.disk))) == Render(s.calls[step.c].after)
  {
    hide Whole, Chained, Control, NameHeld;
    if step.Publish? {
      assert CallHolds(w, s.disk, step.c, s.calls[step.c]);
    }
  }

  /** No edit is made twice. */
  lemma {:induction false} EachCallOnce(w: World, states: seq<State>, steps: seq<Step>)
    requires Run(w, states, steps)
    ensures Distinct(states[|steps|].disk.log)
  {
    hide Inv, Do, Enabled;
    var n := |steps|;
    if n > 0 {
      assert Takes(w, states[n - 1], steps[n - 1], states[n]);
      RunKeeps(w, states[..n], steps[..n - 1]);
      EachCallOnce(w, states[..n], steps[..n - 1]);
      StepStaysDistinct(w, states[n - 1], steps[n - 1]);
    }
  }

  predicate Distinct(log: seq<Commit>) {
    forall i, j :: 0 <= i < j < |log| ==> log[i].call != log[j].call
  }

  lemma StepStaysDistinct(w: World, s: State, step: Step)
    requires Inv(w, s) && Enabled(w, s, step) && Distinct(s.disk.log)
    ensures Distinct(Do(w, s, step).disk.log)
  {
    if !step.PowerCut? {
      hide Inv, Do;
      OnlyPublishCommits(w, s, step);
    }
  }

  // ----- power cuts

  /** Whatever a power cut leaves is the whole file after some number of the
      replacements, and every replacement a call was told is in place is among
      them; so is the replacement of every call that was told so before. */
  lemma CutLeavesItWhole(w: World, states: seq<State>, steps: seq<Step>, survivor: Fs, kept: nat)
    requires Run(w, states, steps)
    requires Survives(states[|steps|].disk.fs, survivor, kept)
    ensures var s := states[|steps|];
            && WellFormed(s.disk) && survivor.WellFormed()
            && var n := s.disk.marks[kept];
            && n <= |s.disk.log|
            && ViewIn(survivor, survivor.Dir(), w.file) == Replay(w, Authors(s.disk.log[..n]))
            && (forall c :: c in s.calls ==> SafeAt(s.disk.log, n, c, s.calls[c]))
  {
    hide Control, NameHeld, Chained, Replay, WholeIn;
    RunKeeps(w, states, steps);
    var s := states[|steps|];
    CutShows(w, s, survivor, kept);
    forall c | c in s.calls ensures SafeAt(s.disk.log, s.disk.marks[kept], c, s.calls[c]) {
      assert CallHolds(w, s.disk, c, s.calls[c]);
    }
  }

  /** A call told its replacement is in place has it among the first `n`. */
  predicate SafeAt(log: seq<Commit>, n: nat, c: CallId, pc: Pc)
    requires n <= |log|
  {
    (pc.Returning? || pc.Finished?) && pc.outcome.Replaced? ==>
      1 <= pc.outcome.commit <= n && log[pc.outcome.commit - 1].call == c
  }

  // ----- outcomes

  /** What an outcome says at the moment it is decided: a failure, a refusal and
      an unchanged file left no replacement behind; an unconfirmed one has its
      bytes at the name, where every reader sees them, and a directory state
      without them that a power cut may still leave. */
  lemma OutcomesMeanWhatTheySay(w: World, states: seq<State>, steps: seq<Step>, c: CallId)
    requires Run(w, states, steps)
    requires c in states[|steps|].calls && states[|steps|].calls[c].Returning?
    ensures var s := states[|steps|];
            && s.disk.fs.WellFormed()
            && match s.calls[c].outcome
               case Replaced(k) => 1 <= k <= |s.disk.log| && s.disk.log[k - 1].call == c
               case Unconfirmed(k) =>
                 && 1 <= k == |s.disk.log| && s.disk.log[k - 1].call == c && s.disk.marks != [] && s.disk.marks[0] < k
                 && ViewNow(w, s.disk) == Holds(s.disk.log[k - 1].after)
               case Unchanged(found) =>
                 && Uncommitted(s.disk.log, c) && ViewNow(w, s.disk) == Holds(found)
                 && w.edit(c, Some(found)) == Render(found)
               case _ => Uncommitted(s.disk.log, c)
  {
    RunKeeps(w, states, steps);
    var s := states[|steps|];
    assert CallHolds(w, s.disk, c, s.calls[c]);
    assert WholeIn(w, s.disk, s.disk.fs.Dir(), |s.disk.log|);
    assert s.disk.log[..|s.disk.log|] == s.disk.log;
  }

  lemma CutShows(w: World, s: State, survivor: Fs, kept: nat)
    requires Inv(w, s) && Survives(s.disk.fs, survivor, kept)
    ensures survivor.WellFormed()
    ensures ViewIn(survivor, survivor.Dir(), w.file) == Replay(w, Authors(s.disk.log[..s.disk.marks[kept]]))
  {
    CutKeepsData(w, s.disk, survivor, kept);
    var e := Cut(s.disk, survivor, kept);
    assert WholeIn(w, e, e.fs.Dir(), e.marks[0]);
    assert e.log[..e.marks[0]] == e.log;
    ChainIsReplay(w, e.log);
  }

  // ----- sweeps

  /** A sweep removes a regular file wearing the temporary prefix that no living
      call is writing; never the lock and never the file itself. */
  lemma SweepTakesOnlyLeftovers(w: World, states: seq<State>, steps: seq<Step>, c: CallId, name: string)
    requires Run(w, states, steps)
    requires WellFormed(states[|steps|].disk) && Enabled(w, states[|steps|], Remove(c, name))
    ensures var s := states[|steps|];
            && name != LockName(w.file) && name != w.file
            && name in s.disk.fs.Dir() && s.disk.fs.Dir()[name].Regular?
            && (forall d :: d in s.calls && s.calls[d].OwnsTemp() ==>
                  s.calls[d].temp != name && s.disk.fs.Dir()[name] != Regular(s.calls[d].ino))
  {
    hide Whole, Chained;
    RunKeeps(w, states, steps);
    var s := states[|steps|];
    TempNamesStandApart(w.file, 0, 0);
    assert CallHolds(w, s.disk, c, s.calls[c]);
    assert name in Leftovers(w.file, s.disk.fs.Dir());
    forall d | d in s.calls ensures !s.calls[d].OwnsTemp() {
      if s.calls[d].OwnsTemp() {
        Exclusive(w, s, c, d);
      }
    }
  }

  /** A call gives the lock up on its sixty-fourth lost recheck, and no sooner. */
  lemma GivesUpAtSixtyFour(w: World, s: State, c: CallId)
    requires Inv(w, s) && WellFormed(s.disk) && Enabled(w, s, Recheck(c))
    requires Identity(s.disk.fs.Dir(), LockName(w.file)) != Some(s.calls[c].lock)
    ensures Do(w, s, Recheck(c)).calls[c] ==
            if s.calls[c].attempt + 1 == 64 then Finished(Failed)
            else if s.calls[c].attempt < 64 then Opening(s.calls[c].attempt + 1)
            else Finished(Failed)
  {
    hide Inv;
  }

  /** Once swept, a temporary name is met only where something that is no regular
      file stands at it: a dead writer's residue never wedges a write. */
  lemma SweptNamesAreFree(w: World, states: seq<State>, steps: seq<Step>, c: CallId, pid: nat, serial: nat)
    requires Run(w, states, steps)
    requires c in states[|steps|].calls && states[|steps|].calls[c].Creating?
    ensures var fs := states[|steps|].disk.fs;
            && fs.past != []
            && var temp := TempName(w.file, pid, serial);
            temp in fs.Dir() ==> !fs.Dir()[temp].Regular?
  {
    RunKeeps(w, states, steps);
    var s := states[|steps|];
    TempNamesStandApart(w.file, pid, serial);
    assert CallHolds(w, s.disk, c, s.calls[c]);
    assert TempName(w.file, pid, serial) !in Leftovers(w.file, s.disk.fs.Dir());
  }

  /** A call waiting for the lock waits for another thread's call, never for one
      its own thread is inside of. */
  lemma NoThreadWaitsOnItself(w: World, states: seq<State>, steps: seq<Step>, c: CallId)
    requires Run(w, states, steps)
    requires var s := states[|steps|]; c in s.calls && s.calls[c].Waiting? && s.calls[c].handle in s.locks
    ensures var s := states[|steps|];
            var holder := s.locks[s.calls[c].handle];
            && holder in s.calls && s.calls[holder].Live()
            && holder in s.threads && c in s.threads && s.threads[holder] != s.threads[c]
  {
    RunKeeps(w, states, steps);
  }
}
