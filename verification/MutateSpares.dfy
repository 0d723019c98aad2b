/**
 What every run of the locked read-modify-write leaves alone: each other file of the
 directory, its lock and its temporaries.
 */
module MutateSpares {
  import opened Prelude
  import opened FileSystem
  import opened MutateProtocol
  import opened MutateRuns

  /** `name` leads, in every state the directory may come back to, where it led. */
  ghost predicate LeadsAsFirst(first: Fs, fs: Fs, name: string)
    requires first.past != []
  {
    forall k :: 0 <= k < |fs.past| ==>
      && (name in fs.past[k] <==> name in first.Dir())
      && (name in fs.past[k] ==> fs.past[k][name] == first.Dir()[name])
  }

  /** No name elsewhere has moved, no file that was on the disk has changed, and what
      a call writes into is newer than any of them. */
  ghost predicate Spared(w: World, first: Fs, s: State)
    requires first.past != []
  {
    && (forall name :: Elsewhere(w.file, name) ==> LeadsAsFirst(first, s.disk.fs, name))
    && (forall i :: i in first.files && first.files[i].synced ==>
          i in s.disk.fs.files && s.disk.fs.files[i] == first.files[i])
    && (forall i :: i in first.files ==> i < first.next) && first.next <= s.disk.fs.next
    && (forall c :: c in s.calls && s.calls[c].OwnsTemp() ==> first.next <= s.calls[c].ino)
  }

  /** The names a step may touch are not elsewhere. */
  ghost predicate Touches(w: World, d: Disk, e: Disk)
    requires d.fs.past != [] && e.fs.past != []
  {
    forall k :: 0 <= k < |e.fs.past| ==>
      e.fs.past[k] in d.fs.past || SameElsewhere(w.file, d.fs.Dir(), e.fs.past[k])
  }

  ghost predicate SameElsewhere(file: string, a: Directory, b: Directory) {
    forall name :: Elsewhere(file, name) ==>
      (name in b <==> name in a) && (name in b ==> b[name] == a[name])
  }

  lemma OwnStepTouches(w: World, s: State, step: Step)
    requires Inv(w, s) && Enabled(w, s, step) && OwnStep(step)
    ensures Do(w, s, step).disk.fs.past != [] && Touches(w, s.disk, Do(w, s, step).disk)
  {
    hide Whole, Chained, Control, NameHeld, LocksAfter, PcAfter, Elsewhere, TempName, LockName, IsTemp;
    var pc := s.calls[step.c];
    assert CallHolds(w, s.disk, step.c, pc);
    OwnNamesAreNotElsewhere(w.file);
    match step {
      case Remove(_, name) => TempsAreNotElsewhere(w.file, name);
      case CreateTemp(_, pid, serial) =>
        TempNamesStandApart(w.file, pid, serial);
        TempsAreNotElsewhere(w.file, TempName(w.file, pid, serial));
      case Publish(_) => TempsAreNotElsewhere(w.file, pc.temp);
      case Clean(_) => TempsAreNotElsewhere(w.file, pc.temp);
      case _ =>
    }
  }

  lemma TempsAreNotElsewhere(file: string, name: string)
    requires IsTemp(file, name)
    ensures !Elsewhere(file, name)
  {
    SweptNamesStartSo(file, name);
  }

  lemma OwnNamesAreNotElsewhere(file: string)
    ensures !Elsewhere(file, file) && !Elsewhere(file, LockName(file))
  {
  }

  /** A call writes into its own temporary's file and into new ones. */
  lemma OwnStepWrites(w: World, first: Fs, s: State, step: Step)
    requires first.past != [] && Inv(w, s) && Enabled(w, s, step) && OwnStep(step) && Spared(w, first, s)
    ensures var t := Do(w, s, step);
            && s.disk.fs.next <= t.disk.fs.next
            && (forall i :: i in s.disk.fs.files && i < first.next ==>
                  i in t.disk.fs.files && t.disk.fs.files[i] == s.disk.fs.files[i])
            && step.c in t.calls && (t.calls[step.c].OwnsTemp() ==> first.next <= t.calls[step.c].ino)
  {
    hide Whole, Chained, Control, NameHeld, LocksAfter, Elsewhere, TempName, LockName, IsTemp, Leftovers, Identity, ViewNow;
  }

  lemma OthersStay(w: World, s: State, step: Step)
    requires Inv(w, s) && Enabled(w, s, step) && OwnStep(step)
    ensures s.disk.fs.past != [] && step.c in s.calls && Do(w, s, step).calls.Keys == s.calls.Keys
    ensures forall c :: c in s.calls && c != step.c ==> Do(w, s, step).calls[c] == s.calls[c]
  {
    hide Whole, Chained, Control, NameHeld, CallsHold, CanStep, PcAfter, DiskAfter, LocksAfter;
  }

  lemma OwnStepSpares(w: World, first: Fs, s: State, step: Step)
    requires first.past != [] && Inv(w, s) && Enabled(w, s, step) && OwnStep(step) && Spared(w, first, s)
    ensures Spared(w, first, Do(w, s, step))
  {
    hide Inv, Do, Enabled, Elsewhere;
    InvIsWellFormed(w, s);
    OwnStepTouches(w, s, step);
    OwnStepWrites(w, first, s, step);
    OthersStay(w, s, step);
    var t := Do(w, s, step);
    TouchesSpares(w, first, s.disk.fs, s.disk, t.disk);
  }

  lemma TouchesSpares(w: World, first: Fs, fs: Fs, d: Disk, e: Disk)
    requires first.past != [] && d.fs == fs && fs.past != [] && e.fs.past != [] && Touches(w, d, e)
    requires forall name :: Elsewhere(w.file, name) ==> LeadsAsFirst(first, fs, name)
    ensures forall name :: Elsewhere(w.file, name) ==> LeadsAsFirst(first, e.fs, name)
  {
    hide Elsewhere;
    forall name | Elsewhere(w.file, name) ensures LeadsAsFirst(first, e.fs, name) {
      assert LeadsAsFirst(first, fs, name);
      forall k | 0 <= k < |e.fs.past|
        ensures (name in e.fs.past[k] <==> name in first.Dir()) && (name in e.fs.past[k] ==> e.fs.past[k][name] == first.Dir()[name])
      {
        if e.fs.past[k] in fs.past {
          var j :| 0 <= j < |fs.past| && fs.past[j] == e.fs.past[k];
        } else {
          assert SameElsewhere(w.file, fs.Dir(), e.fs.past[k]);
        }
      }
    }
  }

  lemma OtherStepSpares(w: World, first: Fs, s: State, step: Step)
    requires first.past != [] && Inv(w, s) && Enabled(w, s, step) && !OwnStep(step) && Spared(w, first, s)
    ensures Spared(w, first, Do(w, s, step))
  {
    hide Whole, Chained, Control, NameHeld, CallsHold, LocksAfter, Elsewhere, LockName;
    OwnNamesAreNotElsewhere(w.file);
    var t := Do(w, s, step);
    assert Touches(w, s.disk, t.disk);
    TouchesSpares(w, first, s.disk.fs, s.disk, t.disk);
  }

  lemma {:induction false} RunIsSpared(w: World, states: seq<State>, steps: seq<Step>)
    requires Run(w, states, steps)
    ensures states[0].disk.fs.past != [] && Spared(w, states[0].disk.fs, states[|steps|])
  {
    hide Inv, Do, Enabled, Spared;
    var n, first := |steps|, states[0].disk.fs;
    assert first.past != [] by { assert Starts(w, states[0]); }
    if n > 0 {
      assert Takes(w, states[n - 1], steps[n - 1], states[n]);
      RunKeeps(w, states[..n], steps[..n - 1]);
      RunIsSpared(w, states[..n], steps[..n - 1]);
      if OwnStep(steps[n - 1]) {
        OwnStepSpares(w, first, states[n - 1], steps[n - 1]);
      } else {
        OtherStepSpares(w, first, states[n - 1], steps[n - 1]);
      }
    } else {
      FirstIsSpared(w, states[0]);
    }
  }

  lemma FirstIsSpared(w: World, s: State)
    requires Starts(w, s)
    ensures Spared(w, s.disk.fs, s)
  {
    hide Elsewhere;
  }

  /** Whatever the interleaving, the deaths and the cuts: every other guarded file of
      the directory, its lock and each of its temporaries lead where they led at
      first, and a file that was on the disk then holds what it held. */
  lemma RunSparesOthers(w: World, states: seq<State>, steps: seq<Step>, g: string, pid: nat, serial: nat)
    requires Run(w, states, steps) && Undotted(w.file) && Another(w.file, g)
    ensures var first, fs := states[0].disk.fs, states[|steps|].disk.fs;
            && first.past != [] && fs.past != []
            && (forall name :: name in {g, LockName(g), TempName(g, pid, serial)} ==>
                  && (name in fs.Dir() <==> name in first.Dir())
                  && (name in fs.Dir() ==> fs.Dir()[name] == first.Dir()[name]))
            && (forall i :: i in first.files && first.files[i].synced ==> i in fs.files && fs.files[i] == first.files[i])
  {
    hide Elsewhere, Another, LockName, TempName, Inv;
    RunKeeps(w, states, steps);
    RunIsSpared(w, states, steps);
    OthersAreElsewhere(w.file, g, pid, serial);
    var first, fs := states[0].disk.fs, states[|steps|].disk.fs;
    assert fs.past != [] by { InvIsWellFormed(w, states[|steps|]); }
    forall name | name in {g, LockName(g), TempName(g, pid, serial)}
      ensures (name in fs.Dir() <==> name in first.Dir()) && (name in fs.Dir() ==> fs.Dir()[name] == first.Dir()[name])
    {
      assert LeadsAsFirst(first, fs, name);
    }
  }

  lemma InvIsWellFormed(w: World, s: State)
    requires Inv(w, s)
    ensures WellFormed(s.disk)
  {
  }
}
