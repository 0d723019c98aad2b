/**
 Runs, from a directory with nothing in it, that show what the protocol does not
 promise: what a cut can take from a call that reported success, and what a lock
 name given away at the wrong moment lets in.
 */
module MutateCounterexamples {
  import opened Prelude
  import opened FileSystem
  import opened MutateProtocol
  import opened MutateRuns
  import opened MutateDurability

  // ----- building a run

  ghost predicate Ends(w: World, states: seq<State>, steps: seq<Step>, s: State) {
    Run(w, states, steps) && states[|steps|] == s
  }

  lemma Then(w: World, states: seq<State>, steps: seq<Step>, s: State, step: Step, t: State)
    returns (states': seq<State>, steps': seq<Step>)
    requires Ends(w, states, steps, s) && Takes(w, s, step, t)
    ensures Ends(w, states', steps', t) && steps' == steps + [step]
  {
    hide Takes, Starts;
    states', steps' := states + [t], steps + [step];
  }

  /** No number a call holds is one a new file would get. */
  ghost predicate NumbersKnown(s: State) {
    && (forall i :: i in s.locks ==> i < s.disk.fs.next)
    && (forall c :: c in s.calls && s.calls[c].Waiting? ==> s.calls[c].handle < s.disk.fs.next)
  }

  lemma OwnStepKnowsNumbers(w: World, s: State, step: Step)
    requires Inv(w, s) && NumbersKnown(s) && Enabled(w, s, step) && OwnStep(step)
    ensures NumbersKnown(Do(w, s, step))
  {
    hide Whole, Chained, NameHeld, CallsHold, Leftovers, ViewNow, TempName, Identity, LocksAfter, DiskAfter, PcAfter;
    var pc := s.calls[step.c];
    var pc' := PcAfter(w, s.disk, pc, step);
    OwnStepNumbers(w, s, step);
    LocksAre(s.locks, step.c, pc, pc');
  }

  lemma LocksAre(locks: map<nat, CallId>, c: CallId, pc: Pc, pc': Pc)
    ensures forall i :: i in LocksAfter(locks, c, pc, pc') ==>
              i in locks || (pc'.Locked() && !pc.Locked() && i == pc'.lock)
  {
  }

  /** A call waits for a file that is there, and locks what it waited for. */
  lemma OwnStepNumbers(w: World, s: State, step: Step)
    requires WellFormed(s.disk) && Enabled(w, s, step) && OwnStep(step)
    ensures var pc, pc' := s.calls[step.c], PcAfter(w, s.disk, s.calls[step.c], step);
            var next := DiskAfter(w, s.disk, s.calls[step.c], step).fs.next;
            && s.disk.fs.next <= next
            && (pc'.Waiting? ==> pc'.handle < next)
            && (pc'.Locked() && !pc.Locked() ==> pc.Waiting? && pc'.lock == pc.handle)
  {
    hide Leftovers, ViewNow, TempName, Identity, LocksAfter;
  }

  lemma StepKnowsNumbers(w: World, s: State, step: Step)
    requires Inv(w, s) && NumbersKnown(s) && Enabled(w, s, step)
    ensures NumbersKnown(Do(w, s, step))
  {
    hide Whole, Chained, NameHeld, CallsHold, Leftovers, ViewNow, TempName;
    if OwnStep(step) {
      OwnStepKnowsNumbers(w, s, step);
    }
  }

  lemma {:induction false} RunKnowsNumbers(w: World, states: seq<State>, steps: seq<Step>)
    requires Run(w, states, steps)
    ensures NumbersKnown(states[|steps|])
  {
    hide Inv, Do, Enabled;
    var n := |steps|;
    if n > 0 {
      assert Takes(w, states[n - 1], steps[n - 1], states[n]);
      RunKeeps(w, states[..n], steps[..n - 1]);
      RunKnowsNumbers(w, states[..n], steps[..n - 1]);
      StepKnowsNumbers(w, states[n - 1], steps[n - 1]);
    }
  }

  // ----- stretches of a run

  lemma WellFormedAt(w: World, states: seq<State>, steps: seq<Step>, s: State)
    requires Ends(w, states, steps, s)
    ensures WellFormed(s.disk) && Inv(w, s)
  {
    RunKeeps(w, states, steps);
  }

  /** The state `s` with call `c` at `pc`, the disk at `d` and the locks at `locks`. */
  function At(s: State, c: CallId, pc: Pc, d: Disk, locks: map<nat, CallId>): State {
    State(d, s.calls[c := pc], s.threads, locks)
  }

  lemma AsItIs(s: State, c: CallId)
    requires c in s.calls
    ensures At(s, c, s.calls[c], s.disk, s.locks) == s
  {
    assert s.calls[c := s.calls[c]] == s.calls;
  }

  /** One more step of `c`'s own. */
  lemma Goes(w: World, states: seq<State>, steps: seq<Step>, s: State, c: CallId, pc: Pc, d: Disk,
             locks: map<nat, CallId>, step: Step, pc': Pc, d': Disk)
    returns (states': seq<State>, steps': seq<Step>)
    requires Ends(w, states, steps, At(s, c, pc, d, locks)) && WellFormed(d)
    requires OwnStep(step) && step.c == c && CanStep(d, locks, pc, step)
    requires PcAfter(w, d, pc, step) == pc' && DiskAfter(w, d, pc, step) == d'
    ensures Ends(w, states', steps', At(s, c, pc', d', LocksAfter(locks, c, pc, pc'))) && WellFormed(d')
    ensures steps' == steps + [step]
  {
    hide Ends, CanStep, PcAfter, DiskAfter, LocksAfter, WellFormed;
    var t := At(s, c, pc', d', LocksAfter(locks, c, pc, pc'));
    assert s.calls[c := pc][c := pc'] == s.calls[c := pc'];
    states', steps' := Then(w, states, steps, At(s, c, pc, d, locks), step, t);
    WellFormedAt(w, states', steps', t);
  }

  lemma Enters(w: World, states: seq<State>, steps: seq<Step>, s: State, c: CallId, thread: nat)
    returns (states': seq<State>, steps': seq<Step>, t: State)
    requires Ends(w, states, steps, s) && c !in s.calls && !Busy(s, thread)
    ensures Ends(w, states', steps', t)
    ensures t == s.(calls := s.calls[c := Opening(0)], threads := s.threads[c := thread])
    ensures steps' == steps + [Enter(c, thread)]
  {
    WellFormedAt(w, states, steps, s);
    t := s.(calls := s.calls[c := Opening(0)], threads := s.threads[c := thread]);
    assert Takes(w, s, Enter(c, thread), t);
    states', steps' := Then(w, states, steps, s, Enter(c, thread), t);
  }

  function LockNumber(w: World, d: Disk): nat
    requires d.fs.past != []
  {
    var name := LockName(w.file);
    if name in d.fs.Dir() && d.fs.Dir()[name].Regular? then d.fs.Dir()[name].ino else d.fs.next
  }

  function LockedDisk(w: World, d: Disk): Disk
    requires d.fs.past != []
  {
    if LockName(w.file) in d.fs.Dir() then d else Moved(d, Create(d.fs, LockName(w.file)))
  }

  /** A call whose lock nobody holds, on a lock name that is free or a regular
      file's, gets the lock and rechecks it. */
  lemma GetsTheLock(w: World, states: seq<State>, steps: seq<Step>, s: State, c: CallId)
    returns (states': seq<State>, steps': seq<Step>, t: State)
    requires Ends(w, states, steps, s) && c in s.calls && s.calls[c] == Opening(0)
    requires s.disk.fs.past != [] && (LockName(w.file) in s.disk.fs.Dir() ==> s.disk.fs.Dir()[LockName(w.file)].Regular?)
    requires LockNumber(w, s.disk) !in s.locks
    ensures Ends(w, states', steps', t)
    ensures var n := LockNumber(w, s.disk); t == At(s, c, Listing(n), LockedDisk(w, s.disk), s.locks[n := c])
    ensures steps' == steps + [OpenLock(c), Acquire(c), Recheck(c)]
  {
    hide Ends, Inv, LockName, WellFormed, CanStep, PcAfter, DiskAfter, LockNumber, LockedDisk, LocksAfter;
    WellFormedAt(w, states, steps, s);
    AsItIs(s, c);
    var n, d, locks := LockNumber(w, s.disk), LockedDisk(w, s.disk), s.locks[LockNumber(w, s.disk) := c];
    OpensTheLock(w, s.disk, s.locks, c);
    LocksTaken(s.locks, c, n);
    states', steps' := Goes(w, states, steps, s, c, Opening(0), s.disk, s.locks, OpenLock(c), Waiting(0, n), d);
    LocksAndRechecks(w, s.disk, s.locks, c);
    states', steps' := Goes(w, states', steps', s, c, Waiting(0, n), d, s.locks, Acquire(c), Rechecking(0, n), d);
    states', steps' := Goes(w, states', steps', s, c, Rechecking(0, n), d, locks, Recheck(c), Listing(n), d);
    t := At(s, c, Listing(n), d, locks);
  }

  lemma LocksTaken(locks: map<nat, CallId>, c: CallId, n: nat)
    ensures LocksAfter(locks, c, Opening(0), Waiting(0, n)) == locks
    ensures LocksAfter(locks, c, Waiting(0, n), Rechecking(0, n)) == locks[n := c]
    ensures LocksAfter(locks[n := c], c, Rechecking(0, n), Listing(n)) == locks[n := c]
  {
  }

  lemma OpensTheLock(w: World, d: Disk, locks: map<nat, CallId>, c: CallId)
    requires WellFormed(d) && (LockName(w.file) in d.fs.Dir() ==> d.fs.Dir()[LockName(w.file)].Regular?)
    ensures CanStep(d, locks, Opening(0), OpenLock(c))
    ensures PcAfter(w, d, Opening(0), OpenLock(c)) == Waiting(0, LockNumber(w, d))
    ensures DiskAfter(w, d, Opening(0), OpenLock(c)) == LockedDisk(w, d)
    ensures LockedDisk(w, d).fs.past != []
  {
    hide LockName;
  }

  lemma LocksAndRechecks(w: World, d0: Disk, locks: map<nat, CallId>, c: CallId)
    requires d0.fs.past != [] && (LockName(w.file) in d0.fs.Dir() ==> d0.fs.Dir()[LockName(w.file)].Regular?)
    requires WellFormed(LockedDisk(w, d0)) && LockNumber(w, d0) !in locks
    ensures var n, d := LockNumber(w, d0), LockedDisk(w, d0);
            && CanStep(d, locks, Waiting(0, n), Acquire(c))
            && PcAfter(w, d, Waiting(0, n), Acquire(c)) == Rechecking(0, n) && DiskAfter(w, d, Waiting(0, n), Acquire(c)) == d
            && CanStep(d, locks[n := c], Rechecking(0, n), Recheck(c))
            && PcAfter(w, d, Rechecking(0, n), Recheck(c)) == Listing(n) && DiskAfter(w, d, Rechecking(0, n), Recheck(c)) == d
  {
    hide LockName;
  }

  /** With nothing to sweep, it reads what stands. */
  lemma ReadsWhatStands(w: World, states: seq<State>, steps: seq<Step>, s: State, c: CallId)
    returns (states': seq<State>, steps': seq<Step>, t: State)
    requires Ends(w, states, steps, s) && c in s.calls && s.calls[c].Listing? && WellFormed(s.disk)
    requires Leftovers(w.file, s.disk.fs.Dir()) == {} && !ViewNow(w, s.disk).Alien?
    ensures Ends(w, states', steps', t)
    ensures t == At(s, c, Deciding(s.calls[c].lock, Found(ViewNow(w, s.disk))), s.disk, s.locks)
    ensures steps' == steps + [List(c), Swept(c), Read(c)]
  {
    hide Ends, ViewNow, Leftovers;
    AsItIs(s, c);
    var n, found, d, l := s.calls[c].lock, Found(ViewNow(w, s.disk)), s.disk, s.locks;
    states', steps' := Goes(w, states, steps, s, c, Listing(n), d, l, List(c), Sweeping(n, {}), d);
    states', steps' := Goes(w, states', steps', s, c, Sweeping(n, {}), d, l, Swept(c), Reading(n), d);
    states', steps' := Goes(w, states', steps', s, c, Reading(n), d, l, Read(c), Deciding(n, found), d);
    t := At(s, c, Deciding(n, found), d, l);
  }

  /** The disk once a replacement's temporary has been filled and synced. */
  function FilledDisk(w: World, d: Disk, bytes: Bytes): (filled: Disk)
    requires d.fs.past != []
    ensures filled.fs.past != [] && filled.log == d.log && filled.marks == d.marks + [|d.log|]
    ensures filled.fs.past == d.fs.past + [d.fs.Dir()[TempName(w.file, 0, 0) := Regular(d.fs.next)]]
    ensures d.fs.next in filled.fs.files && filled.fs.files[d.fs.next] == File(bytes, true)
  {
    var created := Moved(d, Create(d.fs, TempName(w.file, 0, 0)));
    assert d.fs.next in created.fs.files;
    created.(fs := SyncFile(Write(created.fs, d.fs.next, bytes), d.fs.next))
  }

  /** It fills a temporary and syncs it. */
  lemma FillsATemporary(w: World, states: seq<State>, steps: seq<Step>, s: State, c: CallId, after: Bytes)
    returns (states': seq<State>, steps': seq<Step>, t: State)
    requires Ends(w, states, steps, s) && c in s.calls && s.calls[c].Deciding? && WellFormed(s.disk)
    requires w.edit(c, s.calls[c].before) == Render(after) && s.calls[c].before != Some(after)
    requires TempName(w.file, 0, 0) !in s.disk.fs.Dir()
    ensures Ends(w, states', steps', t)
    ensures var pc := s.calls[c];
            t == At(s, c, Renaming(pc.lock, pc.before, after, TempName(w.file, 0, 0), s.disk.fs.next),
                    FilledDisk(w, s.disk, after), s.locks)
  {
    assert s.disk.fs.past != [];
    hide Ends, TempName, WellFormed, LocksAfter;
    AsItIs(s, c);
    var n, before, l, temp, ino := s.calls[c].lock, s.calls[c].before, s.locks, TempName(w.file, 0, 0), s.disk.fs.next;
    var d := s.disk;
    var d1 := Moved(d, Create(d.fs, temp));
    var d2 := d1.(fs := Write(d1.fs, ino, after));
    var creating, filling := Creating(n, before, after), Filling(n, before, after, temp, ino);
    NoLockMoves(l, c, creating, filling);
    NoLockMoves(l, c, filling, filling);
    states', steps' := Decides(w, states, steps, s, c, after);
    states', steps' := Goes(w, states', steps', s, c, creating, d, l, CreateTemp(c, 0, 0), filling, d1);
    assert after[..|after|] == after;
    states', steps' := Goes(w, states', steps', s, c, filling, d1, l, WritePart(c, |after|), filling, d2);
    states', steps', t := SyncsTemp(w, states', steps', s, c, after);
  }

  lemma NoLockMoves(locks: map<nat, CallId>, c: CallId, pc: Pc, pc': Pc)
    requires pc.Locked() <==> pc'.Locked()
    ensures LocksAfter(locks, c, pc, pc') == locks
  {
  }

  lemma Decides(w: World, states: seq<State>, steps: seq<Step>, s: State, c: CallId, after: Bytes)
    returns (states': seq<State>, steps': seq<Step>)
    requires Ends(w, states, steps, s) && c in s.calls && s.calls[c].Deciding? && WellFormed(s.disk)
    requires w.edit(c, s.calls[c].before) == Render(after) && s.calls[c].before != Some(after)
    ensures Ends(w, states', steps', At(s, c, Creating(s.calls[c].lock, s.calls[c].before, after), s.disk, s.locks))
  {
    hide Ends, WellFormed;
    AsItIs(s, c);
    var n, before := s.calls[c].lock, s.calls[c].before;
    states', steps' := Goes(w, states, steps, s, c, Deciding(n, before), s.disk, s.locks, Decide(c),
                            Creating(n, before, after), s.disk);
  }

  lemma SyncsTemp(w: World, states: seq<State>, steps: seq<Step>, s: State, c: CallId, after: Bytes)
    returns (states': seq<State>, steps': seq<Step>, t: State)
    requires c in s.calls && s.calls[c].Deciding? && s.disk.fs.past != []
    requires var pc, temp, ino := s.calls[c], TempName(w.file, 0, 0), s.disk.fs.next;
             var d1 := Moved(s.disk, Create(s.disk.fs, temp));
             var d2 := d1.(fs := Write(d1.fs, ino, after));
             WellFormed(d2) && Ends(w, states, steps, At(s, c, Filling(pc.lock, pc.before, after, temp, ino), d2, s.locks))
    ensures Ends(w, states', steps', t)
    ensures var pc := s.calls[c];
            t == At(s, c, Renaming(pc.lock, pc.before, after, TempName(w.file, 0, 0), s.disk.fs.next),
                    FilledDisk(w, s.disk, after), s.locks)
  {
    hide Ends, TempName, WellFormed;
    var pc, temp, ino := s.calls[c], TempName(w.file, 0, 0), s.disk.fs.next;
    var d1 := Moved(s.disk, Create(s.disk.fs, temp));
    var d2 := d1.(fs := Write(d1.fs, ino, after));
    var d3 := FilledDisk(w, s.disk, after);
    states', steps' := Goes(w, states, steps, s, c, Filling(pc.lock, pc.before, after, temp, ino), d2, s.locks, SyncTemp(c),
                            Renaming(pc.lock, pc.before, after, temp, ino), d3);
    t := At(s, c, Renaming(pc.lock, pc.before, after, temp, ino), d3, s.locks);
  }

  /** It renames the temporary onto the file, fails to sync the directory, and
      returns. */
  lemma PublishesUnconfirmed(w: World, states: seq<State>, steps: seq<Step>, s: State, c: CallId)
    returns (states': seq<State>, steps': seq<Step>, t: State)
    requires Ends(w, states, steps, s) && c in s.calls && s.calls[c].Renaming? && WellFormed(s.disk)
    requires s.calls[c].temp in s.disk.fs.Dir()
    ensures Ends(w, states', steps', t)
    ensures var pc := s.calls[c];
            t == At(s, c, Finished(Unconfirmed(|s.disk.log| + 1)),
                    Published(w, s.disk, pc.temp, Commit(c, pc.before, pc.after)), s.locks - {pc.lock})
    ensures steps' == steps + [Publish(c), Fault(c), Leave(c)]
  {
    assert s.disk.fs.past != [];
    hide Ends, WellFormed;
    AsItIs(s, c);
    var pc, d, l := s.calls[c], s.disk, s.locks;
    var d' := Published(w, d, pc.temp, Commit(c, pc.before, pc.after));
    var told := Unconfirmed(|d.log| + 1);
    Publishing(w, d, l, pc, c);
    hide CanStep, PcAfter, DiskAfter, LocksAfter, Published;
    states', steps' := Goes(w, states, steps, s, c, pc, d, l, Publish(c), Syncing(pc.lock), d');
    Returns(w, d', l, c, pc.lock);
    states', steps' := Goes(w, states', steps', s, c, Syncing(pc.lock), d', l, Fault(c), Returning(pc.lock, told), d');
    states', steps' := Goes(w, states', steps', s, c, Returning(pc.lock, told), d', l, Leave(c), Finished(told), d');
    t := At(s, c, Finished(told), d', l - {pc.lock});
  }

  lemma Publishing(w: World, d: Disk, locks: map<nat, CallId>, pc: Pc, c: CallId)
    requires WellFormed(d) && pc.Renaming? && pc.temp in d.fs.Dir()
    ensures CanStep(d, locks, pc, Publish(c)) && PcAfter(w, d, pc, Publish(c)) == Syncing(pc.lock)
    ensures DiskAfter(w, d, pc, Publish(c)) == Published(w, d, pc.temp, Commit(c, pc.before, pc.after))
    ensures LocksAfter(locks, c, pc, Syncing(pc.lock)) == locks
    ensures |DiskAfter(w, d, pc, Publish(c)).log| == |d.log| + 1
  {
  }

  lemma Returns(w: World, d: Disk, locks: map<nat, CallId>, c: CallId, n: nat)
    requires WellFormed(d)
    ensures var told := Unconfirmed(|d.log|);
            && CanStep(d, locks, Syncing(n), Fault(c))
            && PcAfter(w, d, Syncing(n), Fault(c)) == Returning(n, told) && DiskAfter(w, d, Syncing(n), Fault(c)) == d
            && LocksAfter(locks, c, Syncing(n), Returning(n, told)) == locks
            && CanStep(d, locks, Returning(n, told), Leave(c))
            && PcAfter(w, d, Returning(n, told), Leave(c)) == Finished(told)
            && DiskAfter(w, d, Returning(n, told), Leave(c)) == d
            && LocksAfter(locks, c, Returning(n, told), Finished(told)) == locks - {n}
  {
  }

  // ----- what a cut takes from a call that succeeded

  /** Call 0 puts `after` in the file; every other call leaves it as it is. */
  function OneWriter(file: string, after: Bytes): World {
    World(file,
          (c: CallId, before: Option<Bytes>) =>
            if c == 0 then Render(after) else match before case Some(b) => Render(b) case None => Refuse,
          Absent)
  }

  const NOTHING: State := State(Disk(Fs(map[], [map[]], 0), [], [0]), map[], map[], map[])

  /** For every file and every content: call 0 replaces the file, cannot sync the
      directory and says so; call 1 finds nothing to change and reports success;
      and a power cut leaves no file at all. */
  lemma SuccessCanBeLost(file: string, after: Bytes)
    returns (states: seq<State>, steps: seq<Step>, s: State, survivor: Fs, t: State)
    ensures var w := OneWriter(file, after);
            && Ends(w, states, steps, s)
            && 0 in s.calls && s.calls[0] == Finished(Unconfirmed(1))
            && 1 in s.calls && s.calls[1].Returning? && s.calls[1].outcome == Unchanged(after)
            && WellFormed(s.disk) && ViewNow(w, s.disk) == Holds(after)
            && Takes(w, s, PowerCut(survivor, 0), t)
            && WellFormed(t.disk) && ViewNow(w, t.disk) == Absent
  {
    var w := OneWriter(file, after);
    states, steps, s := FirstWriterDone(w, after);
    hide Ends, Inv, WellFormed, Takes, ViewNow, Both;
    assert 0 in s.calls && s.calls[0] == Finished(Unconfirmed(1));
    states, steps, s := SecondWriterReads(w, after, states, steps, s);
    states, steps, s := SeesNoChange(w, after, states, steps, s);
    survivor, t := FirstStateComesBack(w, states, steps, s);
  }

  lemma SeesNoChange(w: World, after: Bytes, states: seq<State>, steps: seq<Step>, s: State)
    returns (states': seq<State>, steps': seq<Step>, t: State)
    requires Ends(w, states, steps, s) && 1 in s.calls && s.calls[1] == Deciding(0, Some(after))
    requires w.edit(1, Some(after)) == Render(after)
    ensures Ends(w, states', steps', t) && t == At(s, 1, Returning(0, Unchanged(after)), s.disk, s.locks)
  {
    hide Ends, Inv;
    WellFormedAt(w, states, steps, s);
    assert s.disk.fs.past != [];
    hide WellFormed;
    AsItIs(s, 1);
    states', steps' := Goes(w, states, steps, s, 1, s.calls[1], s.disk, s.locks, Decide(1),
                            Returning(0, Unchanged(after)), s.disk);
    t := At(s, 1, Returning(0, Unchanged(after)), s.disk, s.locks);
  }

  /** A cut that brings back the directory as it was at first: with nothing in it. */
  lemma FirstStateComesBack(w: World, states: seq<State>, steps: seq<Step>, s: State) returns (survivor: Fs, t: State)
    requires Ends(w, states, steps, s) && s.disk.fs.past != [] && s.disk.fs.past[0] == map[]
    ensures Takes(w, s, PowerCut(survivor, 0), t) && WellFormed(t.disk) && ViewNow(w, t.disk) == Absent
  {
    WellFormedAt(w, states, steps, s);
    hide Ends, Inv;
    survivor := CleanCut(s.disk.fs, 0);
    t := AllDead(s, Cut(s.disk, survivor, 0));
    assert Survives(s.disk.fs, survivor, 0);
    assert t.disk.fs.Dir() == map[];
  }

  /** The directory with the lock file in it, and the guarded file. */
  function Both(file: string): Directory {
    map[LockName(file) := Regular(0), file := Regular(1)]
  }

  lemma NothingToSweep(file: string)
    ensures Leftovers(file, map[LockName(file) := Regular(0)]) == {} && Leftovers(file, Both(file)) == {}
  {
    TempNamesStandApart(file, 0, 0);
    hide LockName, TempName, IsTemp;
  }

  lemma FirstWriterDone(w: World, after: Bytes) returns (states: seq<State>, steps: seq<Step>, s: State)
    requires w.initial == Absent && w.edit(0, None) == Render(after)
    ensures Ends(w, states, steps, s)
    ensures s.calls == map[0 := Finished(Unconfirmed(1))] && s.threads == map[0 := 0] && s.locks == map[]
    ensures s.disk.fs.past != [] && s.disk.fs.past[0] == map[] && s.disk.fs.Dir() == Both(w.file)
    ensures 1 in s.disk.fs.files && s.disk.fs.files[1] == File(after, true) && w.file != LockName(w.file)
  {
    hide Ends, TempName, LockName, Inv, WellFormed, FilledDisk, Published, Both;
    var d: Disk;
    states, steps, s, d := FirstWriterFills(w, after);
    WellFormedAt(w, states, steps, s);
    FilledLooks(w, d, after);
    states, steps, s := PublishesUnconfirmed(w, states, steps, s, 0);
    assert s.calls == map[0 := Finished(Unconfirmed(1))];
  }

  lemma FilledLooks(w: World, d: Disk, after: Bytes)
    requires d.fs.past == [map[], map[LockName(w.file) := Regular(0)]] && d.fs.next == 1
    ensures TempName(w.file, 0, 0) in FilledDisk(w, d, after).fs.Dir() && w.file != LockName(w.file)
    ensures forall commit ::
              var fs := Published(w, FilledDisk(w, d, after), TempName(w.file, 0, 0), commit).fs;
              && fs.past != [] && fs.past[0] == map[] && fs.Dir() == Both(w.file)
              && 1 in fs.files && fs.files[1] == File(after, true)
  {
    TempNamesStandApart(w.file, 0, 0);
    hide TempName, LockName, FilledDisk, IsTemp;
    var temp := TempName(w.file, 0, 0);
    var filled := FilledDisk(w, d, after);
    assert filled.fs.Dir() == map[LockName(w.file) := Regular(0), temp := Regular(1)];
    assert (filled.fs.Dir() - {temp})[w.file := Regular(1)] == Both(w.file);
  }

  lemma FirstWriterFills(w: World, after: Bytes)
    returns (states: seq<State>, steps: seq<Step>, s: State, d: Disk)
    requires w.initial == Absent && w.edit(0, None) == Render(after)
    ensures Ends(w, states, steps, s)
    ensures d.fs.past == [map[], map[LockName(w.file) := Regular(0)]] && d.fs.next == 1 && d.log == []
    ensures s.disk == FilledDisk(w, d, after) && s.threads == map[0 := 0] && s.locks == map[0 := 0]
    ensures s.calls == map[0 := Renaming(0, None, after, TempName(w.file, 0, 0), 1)]
  {
    hide Ends, TempName, LockName, Leftovers, IsTemp, Inv, FilledDisk, LockedDisk, WellFormed;
    states, steps, s := FirstWriterReads(w);
    WellFormedAt(w, states, steps, s);
    d := s.disk;
    TempIsNew(w.file);
    states, steps, s := FillsATemporary(w, states, steps, s, 0, after);
    assert s.calls == map[0 := Renaming(0, None, after, TempName(w.file, 0, 0), 1)];
  }

  lemma TempIsNew(file: string)
    ensures TempName(file, 0, 0) !in map[LockName(file) := Regular(0)]
  {
    TempNamesStandApart(file, 0, 0);
  }

  lemma FirstWriterReads(w: World) returns (states: seq<State>, steps: seq<Step>, s: State)
    requires w.initial == Absent
    ensures Ends(w, states, steps, s)
    ensures s.calls == map[0 := Deciding(0, None)] && s.threads == map[0 := 0] && s.locks == map[0 := 0]
    ensures s.disk.fs.past == [map[], map[LockName(w.file) := Regular(0)]] && s.disk.fs.next == 1
    ensures s.disk.log == []
  {
    hide Ends, LockName, Leftovers, Inv, LockedDisk, WellFormed, ViewNow;
    states, steps, s := FirstWriterIn(w);
    WellFormedAt(w, states, steps, s);
    NothingStands(w, s.disk);
    states, steps, s := ReadsWhatStands(w, states, steps, s, 0);
    assert s.calls == map[0 := Deciding(0, None)];
  }

  lemma NothingStands(w: World, d: Disk)
    requires WellFormed(d) && d.fs.past == [map[], map[LockName(w.file) := Regular(0)]]
    ensures Leftovers(w.file, d.fs.Dir()) == {} && ViewNow(w, d) == Absent
  {
    NothingToSweep(w.file);
    TempNamesStandApart(w.file, 0, 0);
    hide LockName, TempName, IsTemp, Leftovers;
  }

  lemma SecondWriterReads(w: World, after: Bytes, states: seq<State>, steps: seq<Step>, s: State)
    returns (states': seq<State>, steps': seq<Step>, t: State)
    requires Ends(w, states, steps, s)
    requires s.calls == map[0 := Finished(Unconfirmed(1))] && s.threads == map[0 := 0] && s.locks == map[]
    requires s.disk.fs.past != [] && s.disk.fs.Dir() == Both(w.file) && w.file != LockName(w.file)
    requires 1 in s.disk.fs.files && s.disk.fs.files[1] == File(after, true)
    ensures Ends(w, states', steps', t)
    ensures t.disk == s.disk && 0 in t.calls && t.calls[0] == s.calls[0]
    ensures 1 in t.calls && t.calls[1] == Deciding(0, Some(after))
    ensures WellFormed(t.disk) && ViewNow(w, t.disk) == Holds(after)
  {
    NothingToSweep(w.file);
    hide Ends, LockName, Leftovers;
    states', steps', t := Enters(w, states, steps, s, 1, 1);
    states', steps', t := GetsTheLock(w, states', steps', t, 1);
    WellFormedAt(w, states', steps', t);
    states', steps', t := ReadsWhatStands(w, states', steps', t, 1);
  }

  /** From nothing, call 0 gets the lock. */
  lemma FirstWriterIn(w: World) returns (states: seq<State>, steps: seq<Step>, s: State)
    requires w.initial == Absent
    ensures Ends(w, states, steps, s)
    ensures s == State(LockedDisk(w, NOTHING.disk), map[0 := Listing(0)], map[0 := 0], map[0 := 0])
    ensures s.disk.fs.past == [map[], map[LockName(w.file) := Regular(0)]] && s.disk.fs.next == 1
    ensures s.disk.log == [] && s.disk.marks == [0, 0] && s.disk.fs.files == map[0 := File([], false)]
  {
    hide Ends, LockName;
    StartsFromNothing(w);
    states, steps, s := Enters(w, [NOTHING], [], NOTHING, 0, 0);
    states, steps, s := GetsTheLock(w, states, steps, s, 0);
    assert s.calls == map[0 := Listing(0)];
  }

  lemma StartsFromNothing(w: World)
    requires w.initial == Absent
    ensures Ends(w, [NOTHING], [], NOTHING)
  {
  }

  // ----- what a lock name given away lets in

  /** Why the foreign actor must leave the lock name alone once a call is past its
      recheck: were the name given to a new file then, the next call to come would
      lock that one, find the name leading to it, and join the first inside. */
  lemma RestraintIsNeeded(w: World, states: seq<State>, steps: seq<Step>, s: State, c: CallId, d: CallId)
    returns (s0: State, s1: State, s2: State, s3: State)
    requires Ends(w, states, steps, s) && c in s.calls && s.calls[c].Critical()
    requires d in s.calls && s.calls[d] == Opening(0)
    requires s.disk.fs.past != []
    ensures s0 == s.(disk := Moved(s.disk, Create(s.disk.fs, LockName(w.file))))
    ensures Takes(w, s0, OpenLock(d), s1) && Takes(w, s1, Acquire(d), s2) && Takes(w, s2, Recheck(d), s3)
    ensures c in s3.calls && d in s3.calls && s3.calls[c].Critical() && s3.calls[d].Critical() && c != d
  {
    hide Inv, Takes, Run;
    RunKeeps(w, states, steps);
    RunKnowsNumbers(w, states, steps);
    s0, s1, s2, s3 := Joins(w, s, c, d);
  }

  lemma Joins(w: World, s: State, c: CallId, d: CallId) returns (s0: State, s1: State, s2: State, s3: State)
    requires Inv(w, s) && c in s.calls && s.calls[c].Critical()
    requires d in s.calls && s.calls[d] == Opening(0) && s.disk.fs.next !in s.locks
    ensures s.disk.fs.past != [] && s0 == s.(disk := Moved(s.disk, Create(s.disk.fs, LockName(w.file))))
    ensures Takes(w, s0, OpenLock(d), s1) && Takes(w, s1, Acquire(d), s2) && Takes(w, s2, Recheck(d), s3)
    ensures c in s3.calls && d in s3.calls && s3.calls[c].Critical() && s3.calls[d].Critical() && c != d
  {
    hide Whole, Chained, Control, NameHeld, CallsHold, LockName, Leftovers, TempName, ViewNow;
    var number := s.disk.fs.next;
    s0 := s.(disk := Moved(s.disk, Create(s.disk.fs, LockName(w.file))));
    s1 := s0.(calls := s0.calls[d := Waiting(0, number)]);
    assert Takes(w, s0, OpenLock(d), s1);
    s2 := s1.(calls := s1.calls[d := Rechecking(0, number)], locks := s1.locks[number := d]);
    assert Takes(w, s1, Acquire(d), s2);
    s3 := s2.(calls := s2.calls[d := Listing(number)]);
    assert Takes(w, s2, Recheck(d), s3);
  }

  /** And two calls do come to stand so: from nothing, in any world whose file is
      absent, one gets the lock and the other begins. One new file at the lock name
      then puts both past their recheck at once. */
  lemma TwoCanGetIn(w: World)
    returns (states: seq<State>, steps: seq<Step>, s: State, s0: State, s1: State, s2: State, s3: State)
    requires w.initial == Absent
    ensures Ends(w, states, steps, s) && s.disk.fs.past != []
    ensures s0 == s.(disk := Moved(s.disk, Create(s.disk.fs, LockName(w.file))))
    ensures Takes(w, s0, OpenLock(1), s1) && Takes(w, s1, Acquire(1), s2) && Takes(w, s2, Recheck(1), s3)
    ensures 0 in s3.calls && 1 in s3.calls && s3.calls[0].Critical() && s3.calls[1].Critical()
  {
    hide Ends, Takes;
    states, steps, s := FirstWriterIn(w);
    states, steps, s := Enters(w, states, steps, s, 1, 1);
    s0, s1, s2, s3 := RestraintIsNeeded(w, states, steps, s, 0, 1);
  }
}
