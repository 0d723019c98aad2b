/**
 When what a mutation reported outlives a power cut: exactly which directory
 states a cut can bring back, and which of them the calls were told about.
 */
module MutateDurability {
  import opened Prelude
  import opened FileSystem
  import opened MutateProtocol
  import opened MutateRuns

  // ----- replacements are real, and directory states miss none

  /** A call about to replace the file has other bytes to put there. */
  predicate Changing(pc: Pc) {
    pc.Creating? || pc.Filling? || pc.Renaming? ==> pc.before != Some(pc.after)
  }

  /** Every replacement put other bytes in place, and from one directory state to
      the next there is one more of them at most. */
  ghost predicate Steady(s: State) {
    && (forall k :: 0 <= k < |s.disk.log| ==> s.disk.log[k].before != Some(s.disk.log[k].after))
    && (forall k :: 0 < k < |s.disk.marks| ==> s.disk.marks[k] <= s.disk.marks[k - 1] + 1)
    && (forall c :: c in s.calls ==> Changing(s.calls[c]))
  }

  lemma OwnStepStaysSteady(w: World, s: State, step: Step)
    requires Inv(w, s) && Steady(s) && Enabled(w, s, step) && OwnStep(step)
    ensures Steady(Do(w, s, step))
  {
    hide Chained, Control, NameHeld, CallsHold, WholeIn, ViewNow, Leftovers, TempName, Identity, LocksAfter;
    assert Changing(PcAfter(w, s.disk, s.calls[step.c], step));
    hide Changing, PcAfter;
  }

  lemma StepStaysSteady(w: World, s: State, step: Step)
    requires Inv(w, s) && Steady(s) && Enabled(w, s, step)
    ensures Steady(Do(w, s, step))
  {
    hide Chained, Control, NameHeld, CallsHold, WholeIn, ViewNow, Leftovers, Identity;
    if OwnStep(step) {
      OwnStepStaysSteady(w, s, step);
    }
  }

  lemma {:induction false} RunStaysSteady(w: World, states: seq<State>, steps: seq<Step>)
    requires Run(w, states, steps)
    ensures Steady(states[|steps|])
  {
    hide Inv, Do, Enabled, Steady;
    var n := |steps|;
    if n > 0 {
      assert Takes(w, states[n - 1], steps[n - 1], states[n]);
      RunKeeps(w, states[..n], steps[..n - 1]);
      RunStaysSteady(w, states[..n], steps[..n - 1]);
      StepStaysSteady(w, states[n - 1], steps[n - 1]);
    } else {
      StartsSteady(w, states[0]);
    }
  }

  lemma StartsSteady(w: World, s: State)
    requires Starts(w, s)
    ensures Steady(s)
  {
  }

  // ----- what stands, and what a cut leaves

  /** No rename has landed since the directory was last synced. */
  predicate Synced(d: Disk) {
    d.marks != [] && d.marks[0] == |d.log|
  }

  /** The last rename, if there was one, is followed by no sync of the directory
      and no cut. */
  predicate Unsynced(steps: seq<Step>) {
    steps != []
    && var last := steps[|steps| - 1];
       last.Publish? || (!last.SyncParent? && !last.PowerCut? && Unsynced(steps[..|steps| - 1]))
  }

  lemma SyncedStep(w: World, s: State, step: Step)
    requires Inv(w, s) && Enabled(w, s, step)
    ensures WellFormed(s.disk) && var t := Do(w, s, step);
            if step.Publish? then t.disk.marks != [] && !Synced(t.disk)
            else if step.SyncParent? || step.PowerCut? then Synced(t.disk)
            else Synced(t.disk) <==> Synced(s.disk)
  {
    hide Chained, Control, NameHeld, CallsHold, WholeIn, ViewNow, Leftovers, TempName, Identity, LocksAfter, PcAfter;
  }

  /** A run's steps say whether its directory is synced. */
  lemma {:induction false} SyncedIff(w: World, states: seq<State>, steps: seq<Step>)
    requires Run(w, states, steps)
    ensures Synced(states[|steps|].disk) <==> !Unsynced(steps)
  {
    hide Inv, Do, Enabled, Synced;
    var n := |steps|;
    if n > 0 {
      assert Takes(w, states[n - 1], steps[n - 1], states[n]);
      RunKeeps(w, states[..n], steps[..n - 1]);
      SyncedIff(w, states[..n], steps[..n - 1]);
      SyncedStep(w, states[n - 1], steps[n - 1]);
    } else {
      StartsSynced(w, states[0]);
    }
  }

  lemma StartsSynced(w: World, s: State)
    requires Starts(w, s)
    ensures Synced(s.disk)
  {
  }

  /** Every power cut leaves `view` at the name. */
  ghost predicate Outlives(w: World, fs: Fs, view: View) {
    forall survivor: Fs, kept: nat :: Survives(fs, survivor, kept) && survivor.WellFormed() ==>
      ViewIn(survivor, survivor.Dir(), w.file) == view
  }

  /** The disk after a power cut that kept directory state `k` and every byte. */
  function CleanCut(fs: Fs, k: nat): Fs
    requires k < |fs.past|
  {
    Fs(map i | i in fs.files :: fs.files[i].(synced := true), [fs.past[k]], fs.next)
  }

  /** Of an unsynced directory some state shows the file without its last
      replacement and with every one before. */
  lemma {:induction false} OneBehind(marks: seq<nat>, length: nat, k: nat) returns (j: nat)
    requires k < |marks| && marks[0] < length <= marks[k]
    requires forall i :: 0 < i < |marks| ==> marks[i] <= marks[i - 1] + 1
    ensures j < k && marks[j] == length - 1
  {
    if marks[k - 1] < length {
      j := k - 1;
    } else {
      j := OneBehind(marks, length, k - 1);
    }
  }

  lemma LastReplacementShows(w: World, log: seq<Commit>)
    requires Chained(w, log) && log != []
    ensures var n := |log| - 1;
            && Replay(w, Authors(log)) == Holds(log[n].after)
            && !Replay(w, Authors(log[..n])).Alien?
            && log[n].before == Found(Replay(w, Authors(log[..n])))
  {
    var n := |log| - 1;
    assert Follows(w, log[..n], log[n]);
    ChainIsReplay(w, log);
    forall k | 0 <= k < n ensures Follows(w, log[..n][..k], log[..n][k]) {
      assert log[..n][..k] == log[..k];
      assert Follows(w, log[..k], log[k]);
    }
    ChainIsReplay(w, log[..n]);
  }

  /** A cut takes the last replacement away: some survivor shows something else
      than what stands. */
  lemma UnsyncedCanBeLost(w: World, s: State) returns (survivor: Fs, kept: nat)
    requires Inv(w, s) && Steady(s) && !Synced(s.disk)
    ensures Survives(s.disk.fs, survivor, kept) && survivor.WellFormed()
    ensures s.disk.log != []
    ensures ViewIn(survivor, survivor.Dir(), w.file) == Replay(w, Authors(s.disk.log[..|s.disk.log| - 1]))
    ensures ViewIn(survivor, survivor.Dir(), w.file) != ViewNow(w, s.disk)
  {
    hide Control, NameHeld, CallsHold, WholeIn, Replay, Chained, ViewIn, Authors;
    var d := s.disk;
    kept := OneBehind(d.marks, |d.log|, |d.marks| - 1);
    survivor := CleanCut(d.fs, kept);
    assert Survives(d.fs, survivor, kept);
    CutShows(w, s, survivor, kept);
    LastReplacementShows(w, d.log);
    Standing(w, s);
  }

  lemma Standing(w: World, s: State)
    requires Inv(w, s)
    ensures ViewNow(w, s.disk) == Replay(w, Authors(s.disk.log))
  {
    hide Control, NameHeld, CallsHold;
    assert WholeIn(w, s.disk, s.disk.fs.Dir(), |s.disk.log|);
    assert s.disk.log[..|s.disk.log|] == s.disk.log;
    ChainIsReplay(w, s.disk.log);
  }

  lemma SyncedOutlives(w: World, s: State)
    requires Inv(w, s) && Synced(s.disk)
    ensures Outlives(w, s.disk.fs, ViewNow(w, s.disk))
  {
    hide Control, NameHeld, CallsHold, Replay, Chained, ViewIn, Authors;
    Standing(w, s);
    forall survivor: Fs, kept: nat | Survives(s.disk.fs, survivor, kept) && survivor.WellFormed()
      ensures ViewIn(survivor, survivor.Dir(), w.file) == ViewNow(w, s.disk)
    {
      CutShows(w, s, survivor, kept);
      assert s.disk.marks[kept] == |s.disk.log|;
      assert s.disk.log[..|s.disk.log|] == s.disk.log;
    }
  }

  /** What readers find at the name outlives every power cut exactly when no rename
      has landed since the directory was last synced, or cut back: which is what
      the steps of the run say. */
  lemma StandingOutlivesIff(w: World, states: seq<State>, steps: seq<Step>)
    requires Run(w, states, steps)
    ensures var d := states[|steps|].disk;
            && WellFormed(d)
            && (Outlives(w, d.fs, ViewNow(w, d)) <==> Synced(d))
            && (Synced(d) <==> !Unsynced(steps))
  {
    hide Synced, Unsynced, Steady, Outlives, Survives;
    RunKeeps(w, states, steps);
    RunStaysSteady(w, states, steps);
    SyncedIff(w, states, steps);
    var s := states[|steps|];
    if Synced(s.disk) {
      SyncedOutlives(w, s);
    } else {
      LostIsNotOutlived(w, s);
    }
  }

  lemma LostIsNotOutlived(w: World, s: State)
    requires Inv(w, s) && Steady(s) && !Synced(s.disk)
    ensures !Outlives(w, s.disk.fs, ViewNow(w, s.disk))
  {
    hide Inv, Steady, Synced, Survives;
    var survivor, kept := UnsyncedCanBeLost(w, s);
  }

  /** A mutation that changes nothing syncs nothing. The bytes it reports are sure
      to outlive a power cut exactly when the last rename, whoever's it was, has
      been followed by a sync of the directory. */
  lemma UnchangedSurvivesIff(w: World, states: seq<State>, steps: seq<Step>, c: CallId)
    requires Run(w, states, steps)
    requires c in states[|steps|].calls && states[|steps|].calls[c].Returning?
    requires states[|steps|].calls[c].outcome.Unchanged?
    ensures var s := states[|steps|];
            && (Outlives(w, s.disk.fs, Holds(s.calls[c].outcome.found)) <==> Synced(s.disk))
            && (Synced(s.disk) <==> !Unsynced(steps))
  {
    hide Outlives, Synced, Unsynced;
    StandingOutlivesIff(w, states, steps);
    OutcomesMeanWhatTheySay(w, states, steps, c);
  }

  /** What the author of the last replacement was told, against what a cut can
      take: told that it is in place, it is synced; and while it is not, its
      author is still syncing, was told so, or died unanswered. */
  lemma AuthorsAreTold(w: World, states: seq<State>, steps: seq<Step>)
    requires Run(w, states, steps) && states[|steps|].disk.log != []
    ensures var s := states[|steps|];
            var author := s.disk.log[|s.disk.log| - 1].call;
            && author in s.calls
            && var pc := s.calls[author];
            && ((pc.Returning? || pc.Finished?) && pc.outcome.Replaced? ==> Synced(s.disk))
            && (pc.Syncing? || (pc.Returning? && pc.outcome.Unconfirmed?) ==> !Synced(s.disk))
            && (!Synced(s.disk) ==>
                  pc.Syncing? || pc.Dead? || ((pc.Returning? || pc.Finished?) && pc.outcome.Unconfirmed?))
  {
    hide Control, NameHeld, Whole, Chained;
    RunKeeps(w, states, steps);
    EachCallOnce(w, states, steps);
    var s := states[|steps|];
    var author := s.disk.log[|s.disk.log| - 1].call;
    assert CallHolds(w, s.disk, author, s.calls[author]);
    assert Whole(w, s.disk);
  }

  /** Only the call whose rename was the last syncs the directory. */
  lemma SyncIsTheAuthors(w: World, states: seq<State>, steps: seq<Step>, c: CallId)
    requires Run(w, states, steps)
    requires WellFormed(states[|steps|].disk) && Enabled(w, states[|steps|], SyncParent(c))
    ensures Latest(states[|steps|].disk.log, c)
  {
    hide Control, NameHeld, Whole, Chained;
    RunKeeps(w, states, steps);
    assert CallHolds(w, states[|steps|].disk, c, states[|steps|].calls[c]);
  }
}
