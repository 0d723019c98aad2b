/**
 The locked read-modify-write of one machine-local file, as a transition system:
 any number of `mutate` calls, in any number of processes, interleaved at every
 system call; a foreign actor that may replace the lock file; processes that die
 and power that goes at any moment.

 What a call does to the bytes it read — load them, apply the caller's change,
 render the outcome — is `edit`, one function for the whole system; a refusal of
 any of the three is `Refuse`.
 */
module MutateProtocol {
  import opened Prelude
  import opened FileSystem

  type CallId = nat

  datatype Edited = Render(bytes: Bytes) | Refuse

  type Edit = (CallId, Option<Bytes>) -> Edited

  /** What `mutate` returned. `Replaced` and `Unconfirmed` carry how many
      replacements the file had seen once this one was in place. */
  datatype Outcome =
    | Replaced(commit: nat)
    | Unchanged(found: Bytes)
    | Refused
    | Nested
    | Failed
    | Unconfirmed(commit: nat)

  const LOCK_ATTEMPTS: nat := 64

  /** Where one call stands. `lock` is the inode it holds an exclusive flock on. */
  datatype Pc =
    | Opening(attempt: nat)
    | Waiting(attempt: nat, handle: nat)
    | Rechecking(attempt: nat, lock: nat)
    | Listing(lock: nat)
    | Sweeping(lock: nat, todo: set<string>)
    | Reading(lock: nat)
    | Deciding(lock: nat, before: Option<Bytes>)
    | Creating(lock: nat, before: Option<Bytes>, after: Bytes)
    | Filling(lock: nat, before: Option<Bytes>, after: Bytes, temp: string, ino: nat)
    | Renaming(lock: nat, before: Option<Bytes>, after: Bytes, temp: string, ino: nat)
    | Cleaning(lock: nat, temp: string, ino: nat)
    | Syncing(lock: nat)
    | Returning(lock: nat, outcome: Outcome)
    | Finished(outcome: Outcome)
    | Dead
  {
    predicate Live() { !Finished? && !Dead? }

    /** Holding a lock, rechecked or not. */
    predicate Locked() { Live() && !Opening? && !Waiting? }

    /** Holding a lock whose name has been rechecked: the critical section. */
    predicate Critical() { Locked() && !Rechecking? }

    predicate OwnsTemp() { Filling? || Renaming? || Cleaning? }
  }

  /** One replacement: who made it, what it read, what it put in place. */
  datatype Commit = Commit(call: CallId, before: Option<Bytes>, after: Bytes)

  /** What is on the disk, and what of the file's history it shows. */
  datatype Disk = Disk(
    fs: Fs,
    log: seq<Commit>,
    // for each state the directory has had since its last fsync, how many
    // replacements it shows
    marks: seq<nat>)

  datatype State = State(
    disk: Disk,
    calls: map<CallId, Pc>,
    threads: map<CallId, nat>,
    locks: map<nat, CallId>)

  /** The setting a system runs in: the file guarded, what each call does to it,
      and what stood at its name to begin with. */
  datatype World = World(file: string, edit: Edit, initial: View)

  /** Each state the directory has had shows a number of the replacements made. */
  ghost predicate WellFormed(d: Disk) {
    && d.fs.WellFormed()
    && |d.marks| == |d.fs.past|
    && (forall k :: 0 <= k < |d.marks| ==> d.marks[k] <= |d.log|)
  }

  function ViewNow(w: World, d: Disk): View
    requires d.fs.WellFormed()
  {
    ViewIn(d.fs, d.fs.Dir(), w.file)
  }

  /** What the file holds after the replacements in `log`. */
  function After(initial: View, log: seq<Commit>): View {
    if log == [] then initial else Holds(log[|log| - 1].after)
  }

  function Found(view: View): Option<Bytes>
    requires !view.Alien?
  {
    if view.Holds? then Some(view.bytes) else None
  }

  /** The regular files whose names a sweep takes for leftovers. */
  function Leftovers(file: string, dir: Directory): set<string> {
    set name | name in dir && dir[name].Regular? && IsTemp(file, name)
  }

  // ----- steps on the disk

  /** The directory changed without the file being replaced. */
  function Moved(d: Disk, fs: Fs): Disk {
    d.(fs := fs, marks := d.marks + [|d.log|])
  }

  function Published(w: World, d: Disk, temp: string, commit: Commit): Disk
    requires d.fs.past != [] && temp in d.fs.Dir()
  {
    Disk(Rename(d.fs, temp, w.file), d.log + [commit], d.marks + [|d.log| + 1])
  }

  function ParentSynced(d: Disk): Disk
    requires d.fs.past != []
  {
    d.(fs := SyncDir(d.fs), marks := [|d.log|])
  }

  function Cut(d: Disk, survivor: Fs, kept: nat): Disk
    requires kept < |d.marks| && d.marks[kept] <= |d.log|
  {
    Disk(survivor, d.log[..d.marks[kept]], [d.marks[kept]])
  }

  // ----- steps of the system

  datatype Step =
    | Enter(c: CallId, thread: nat)
    | OpenLock(c: CallId)
    | Acquire(c: CallId)
    | Recheck(c: CallId)
    | List(c: CallId)
    | Remove(c: CallId, name: string)
    | Swept(c: CallId)
    | Read(c: CallId)
    | Decide(c: CallId)
    | CreateTemp(c: CallId, pid: nat, serial: nat)
    | WritePart(c: CallId, upTo: nat)
    | SyncTemp(c: CallId)
    | Publish(c: CallId)
    | Clean(c: CallId)
    | SyncParent(c: CallId)
    | Leave(c: CallId)
    | Fault(c: CallId)
    | Kill(c: CallId)
    | Plant
    | Replant(entry: Option<Entry>)
    | PowerCut(survivor: Fs, kept: nat)

  /** The foreign actor's one restraint: it leaves the lock name alone while a
      call is past its recheck. */
  ghost predicate NobodyCritical(s: State) {
    forall c :: c in s.calls ==> !s.calls[c].Critical()
  }

  ghost predicate Busy(s: State, thread: nat) {
    exists d :: d in s.calls && s.calls[d].Live() && d in s.threads && s.threads[d] == thread
  }

  /** Which steps a call can take next. */
  ghost predicate CanStep(d: Disk, locks: map<nat, CallId>, pc: Pc, step: Step)
    requires d.fs.past != []
  {
    match step
    case OpenLock(_) => pc.Opening?
    case Acquire(_) => pc.Waiting? && pc.handle !in locks
    case Recheck(_) => pc.Rechecking?
    case List(_) => pc.Listing?
    case Remove(_, name) => pc.Sweeping? && name in pc.todo
    case Swept(_) => pc.Sweeping? && pc.todo == {}
    case Read(_) => pc.Reading?
    case Decide(_) => pc.Deciding?
    case CreateTemp(_, _, _) => pc.Creating?
    case WritePart(_, upTo) => pc.Filling? && upTo <= |pc.after|
    case SyncTemp(_) => pc.Filling? && pc.ino in d.fs.files && d.fs.files[pc.ino].bytes == pc.after
    case Publish(_) => pc.Renaming? && pc.temp in d.fs.Dir()
    case Clean(_) => pc.Cleaning?
    case SyncParent(_) => pc.Syncing?
    case Leave(_) => pc.Returning?
    case Fault(_) => pc.Live() && !pc.Deciding? && !pc.Returning?
    case _ => false
  }

  /** The steps a call takes by its own program. */
  predicate OwnStep(step: Step) {
    !step.Enter? && !step.Kill? && !step.Plant? && !step.Replant? && !step.PowerCut?
  }

  ghost predicate Enabled(w: World, s: State, step: Step)
    requires WellFormed(s.disk)
  {
    if OwnStep(step) then step.c in s.calls && CanStep(s.disk, s.locks, s.calls[step.c], step)
    else CanHappen(s, step)
  }

  /** The steps that come to a call, or to everyone. */
  ghost predicate CanHappen(s: State, step: Step)
    requires !OwnStep(step)
  {
    match step
    case Enter(c, _) => c !in s.calls
    case Kill(c) => c in s.calls && s.calls[c].Live()
    case Plant => NobodyCritical(s)
    case Replant(entry) =>
      && NobodyCritical(s)
      && (entry.Some? && entry.value.Regular? ==> entry.value.ino in s.disk.fs.files)
    case PowerCut(survivor, kept) => Survives(s.disk.fs, survivor, kept)
  }

  /** Where a call's own step leaves the disk. */
  ghost function DiskAfter(w: World, d: Disk, pc: Pc, step: Step): Disk
    requires WellFormed(d) && CanStep(d, map[], pc, step)
  {
    match step
    case OpenLock(_) =>
      if LockName(w.file) in d.fs.Dir() then d else Moved(d, Create(d.fs, LockName(w.file)))
    case Remove(_, name) => Moved(d, Unlink(d.fs, name))
    case CreateTemp(_, pid, serial) =>
      var temp := TempName(w.file, pid, serial);
      if temp in d.fs.Dir() then d else Moved(d, Create(d.fs, temp))
    case WritePart(_, upTo) => d.(fs := Write(d.fs, pc.ino, pc.after[..upTo]))
    case SyncTemp(_) => d.(fs := SyncFile(d.fs, pc.ino))
    case Publish(c) => Published(w, d, pc.temp, Commit(c, pc.before, pc.after))
    case Clean(_) => Moved(d, Unlink(d.fs, pc.temp))
    case SyncParent(_) => ParentSynced(d)
    case _ => d
  }

  /** Where a call's own step leaves the call. */
  ghost function PcAfter(w: World, d: Disk, pc: Pc, step: Step): Pc
    requires WellFormed(d) && CanStep(d, map[], pc, step)
  {
    match step
    case OpenLock(_) =>
      var name := LockName(w.file);
      if name !in d.fs.Dir() then Waiting(pc.attempt, d.fs.next)
      else if d.fs.Dir()[name].Regular? then Waiting(pc.attempt, d.fs.Dir()[name].ino)
      else Finished(Failed)
    case Acquire(_) => Rechecking(pc.attempt, pc.handle)
    case Recheck(_) =>
      if Identity(d.fs.Dir(), LockName(w.file)) == Some(pc.lock) then Listing(pc.lock)
      else if pc.attempt + 1 < LOCK_ATTEMPTS then Opening(pc.attempt + 1)
      else Finished(Failed)
    case List(_) => Sweeping(pc.lock, Leftovers(w.file, d.fs.Dir()))
    case Remove(_, name) => Sweeping(pc.lock, pc.todo - {name})
    case Swept(_) => Reading(pc.lock)
    case Read(_) =>
      if ViewNow(w, d).Alien? then Returning(pc.lock, Failed)
      else Deciding(pc.lock, Found(ViewNow(w, d)))
    case Decide(c) =>
      var edited := w.edit(c, pc.before);
      if edited.Refuse? then Returning(pc.lock, Refused)
      else if pc.before == Some(edited.bytes) then Returning(pc.lock, Unchanged(edited.bytes))
      else Creating(pc.lock, pc.before, edited.bytes)
    case CreateTemp(_, pid, serial) =>
      var temp := TempName(w.file, pid, serial);
      if temp in d.fs.Dir() then Returning(pc.lock, Failed)
      else Filling(pc.lock, pc.before, pc.after, temp, d.fs.next)
    case WritePart(_, _) => pc
    case SyncTemp(_) => Renaming(pc.lock, pc.before, pc.after, pc.temp, pc.ino)
    case Publish(_) => Syncing(pc.lock)
    case Clean(_) => Returning(pc.lock, Failed)
    case SyncParent(_) => Returning(pc.lock, Replaced(|d.log|))
    case Leave(_) => Finished(pc.outcome)
    case Fault(_) =>
      if pc.Opening? || pc.Waiting? || pc.Rechecking? then Finished(Failed)
      else if pc.Filling? || pc.Renaming? then Cleaning(pc.lock, pc.temp, pc.ino)
      else if pc.Syncing? then Returning(pc.lock, Unconfirmed(|d.log|))
      else Returning(pc.lock, Failed)
  }

  /** The locks once `c` goes from `pc` to `pc'`: a lock is taken with the step
      that starts to hold it and dropped with the handle. */
  function LocksAfter(locks: map<nat, CallId>, c: CallId, pc: Pc, pc': Pc): map<nat, CallId> {
    if pc.Locked() && !pc'.Locked() then locks - {pc.lock}
    else if !pc.Locked() && pc'.Locked() then locks[pc'.lock := c]
    else locks
  }

  ghost function Entered(s: State, c: CallId, thread: nat): State {
    // A thread inside a mutation of this file is refused a second one.
    var pc := if Busy(s, thread) then Finished(Nested) else Opening(0);
    s.(calls := s.calls[c := pc], threads := s.threads[c := thread])
  }

  /** A process dies: its handles close, and its locks go with them. */
  ghost function Killed(s: State, c: CallId): State
    requires c in s.calls
  {
    s.(calls := s.calls[c := Dead], locks := LocksAfter(s.locks, c, s.calls[c], Dead))
  }

  /** The power goes: every live call dies with its locks. */
  ghost function AllDead(s: State, d: Disk): State {
    s.(disk := d,
       calls := map c | c in s.calls :: if s.calls[c].Live() then Dead else s.calls[c],
       locks := map[])
  }

  function Replanted(w: World, fs: Fs, entry: Option<Entry>): Fs
    requires fs.past != []
  {
    if entry.None? then Unlink(fs, LockName(w.file)) else SetEntry(fs, LockName(w.file), entry.value)
  }

  ghost function Advanced(w: World, s: State, step: Step): State
    requires WellFormed(s.disk) && Enabled(w, s, step) && OwnStep(step)
  {
    var pc := s.calls[step.c];
    var pc' := PcAfter(w, s.disk, pc, step);
    State(DiskAfter(w, s.disk, pc, step), s.calls[step.c := pc'], s.threads, LocksAfter(s.locks, step.c, pc, pc'))
  }

  ghost function Happened(w: World, s: State, step: Step): State
    requires WellFormed(s.disk) && !OwnStep(step) && CanHappen(s, step)
  {
    match step
    case Enter(c, thread) => Entered(s, c, thread)
    case Kill(c) => Killed(s, c)
    case Plant => s.(disk := Moved(s.disk, Create(s.disk.fs, LockName(w.file))))
    case Replant(entry) => s.(disk := Moved(s.disk, Replanted(w, s.disk.fs, entry)))
    case PowerCut(survivor, kept) => AllDead(s, Cut(s.disk, survivor, kept))
  }

  ghost function Do(w: World, s: State, step: Step): State
    requires WellFormed(s.disk) && Enabled(w, s, step)
  {
    if OwnStep(step) then Advanced(w, s, step) else Happened(w, s, step)
  }

  // ----- the invariant

  /** The control half: who holds which lock, and what the lock name leads to. */
  ghost predicate Control(w: World, s: State) {
    && (forall i :: i in s.locks ==>
          s.locks[i] in s.calls && s.calls[s.locks[i]].Locked() && s.calls[s.locks[i]].lock == i)
    && (forall c :: c in s.calls && s.calls[c].Locked() ==>
          s.calls[c].lock in s.locks && s.locks[s.calls[c].lock] == c)
    && s.calls.Keys == s.threads.Keys
    && (forall c, d :: c in s.calls && d in s.calls && s.calls[c].Live() && s.calls[d].Live() && c != d ==>
          s.threads[c] != s.threads[d])
  }

  /** A rechecked lock is on the file the lock name leads to. */
  ghost predicate NameHeld(w: World, s: State)
    requires s.disk.fs.past != []
  {
    forall c :: c in s.calls && s.calls[c].Critical() ==>
      Identity(s.disk.fs.Dir(), LockName(w.file)) == Some(s.calls[c].lock)
  }

  /** `dir` shows the file whole, as the first `mark` replacements left it, with
      its bytes on the disk. */
  ghost predicate WholeIn(w: World, d: Disk, dir: Directory, mark: nat)
    requires w.file in dir && dir[w.file].Regular? ==> dir[w.file].ino in d.fs.files
    requires mark <= |d.log|
  {
    && ViewIn(d.fs, dir, w.file) == After(w.initial, d.log[..mark])
    && (w.file in dir && dir[w.file].Regular? ==> d.fs.files[dir[w.file].ino].synced)
  }

  /** Every state the directory has had since its last fsync shows it whole. */
  ghost predicate Whole(w: World, d: Disk)
    requires WellFormed(d)
  {
    && d.marks[|d.marks| - 1] == |d.log|
    && (forall j, k :: 0 <= j <= k < |d.marks| ==> d.marks[j] <= d.marks[k])
    && (forall k :: 0 <= k < |d.fs.past| ==> WholeIn(w, d, d.fs.past[k], d.marks[k]))
  }

  /** No update is lost: each replacement is the edit of exactly what the one
      before it put in place. */
  ghost predicate Chained(w: World, log: seq<Commit>) {
    forall k :: 0 <= k < |log| ==> Follows(w, log[..k], log[k])
  }

  ghost predicate Follows(w: World, log: seq<Commit>, next: Commit) {
    && !After(w.initial, log).Alien?
    && next.before == Found(After(w.initial, log))
    && w.edit(next.call, next.before) == Render(next.after)
  }

  ghost predicate Data(w: World, d: Disk) {
    WellFormed(d) && Whole(w, d) && Chained(w, d.log)
  }

  ghost predicate Uncommitted(log: seq<Commit>, c: CallId) {
    forall k :: 0 <= k < |log| ==> log[k].call != c
  }

  ghost predicate Latest(log: seq<Commit>, c: CallId) {
    log != [] && log[|log| - 1].call == c
  }

  ghost predicate NeverTarget(w: World, fs: Fs, ino: nat) {
    forall k :: 0 <= k < |fs.past| && w.file in fs.past[k] ==> fs.past[k][w.file] != Regular(ino)
  }

  /** What `c` read is what the file still holds. */
  ghost predicate Basis(w: World, d: Disk, c: CallId, before: Option<Bytes>)
    requires WellFormed(d)
  {
    && !ViewNow(w, d).Alien? && before == Found(ViewNow(w, d))
    && Uncommitted(d.log, c)
  }

  ghost predicate TempHeld(w: World, fs: Fs, temp: string, ino: nat)
    requires fs.past != []
  {
    && IsTemp(w.file, temp)
    && temp in fs.Dir() && fs.Dir()[temp] == Regular(ino)
    && NeverTarget(w, fs, ino)
  }

  ghost predicate NoLeftovers(w: World, fs: Fs)
    requires fs.past != []
  {
    Leftovers(w.file, fs.Dir()) == {}
  }

  /** The data half, for one call: what each point of the protocol relies on. */
  ghost predicate CallHolds(w: World, d: Disk, c: CallId, pc: Pc)
    requires WellFormed(d)
  {
    match pc
    case Opening(_) => Uncommitted(d.log, c)
    case Waiting(_, _) => Uncommitted(d.log, c)
    case Rechecking(_, _) => Uncommitted(d.log, c)
    case Listing(_) => Uncommitted(d.log, c)
    case Sweeping(_, todo) => Uncommitted(d.log, c) && Leftovers(w.file, d.fs.Dir()) == todo
    case Reading(_) => Uncommitted(d.log, c) && NoLeftovers(w, d.fs)
    case Deciding(_, before) => Basis(w, d, c, before) && NoLeftovers(w, d.fs)
    case Creating(_, before, after) =>
      Basis(w, d, c, before) && NoLeftovers(w, d.fs) && w.edit(c, before) == Render(after)
    case Filling(_, before, after, temp, ino) =>
      Basis(w, d, c, before) && TempHeld(w, d.fs, temp, ino) && w.edit(c, before) == Render(after)
    case Renaming(_, before, after, temp, ino) =>
      && Basis(w, d, c, before) && TempHeld(w, d.fs, temp, ino) && w.edit(c, before) == Render(after)
      && d.fs.files[ino] == File(after, true)
    case Cleaning(_, temp, ino) => Uncommitted(d.log, c) && TempHeld(w, d.fs, temp, ino)
    case Syncing(_) => Latest(d.log, c) && d.marks[0] < |d.log|
    case Returning(_, outcome) =>
      && OutcomeHolds(d, c, outcome)
      && (outcome.Unchanged? ==>
            ViewNow(w, d) == Holds(outcome.found) && w.edit(c, Some(outcome.found)) == Render(outcome.found))
      && (outcome.Unconfirmed? ==> outcome.commit == |d.log| && Latest(d.log, c) && d.marks[0] < |d.log|)
    case Finished(outcome) => OutcomeHolds(d, c, outcome)
    case Dead => true
  }

  /** What a call's outcome says of the replacements made. */
  ghost predicate OutcomeHolds(d: Disk, c: CallId, outcome: Outcome)
    requires WellFormed(d)
  {
    match outcome
    case Replaced(k) => 1 <= k <= d.marks[0] && d.log[k - 1].call == c
    case Unconfirmed(_) => true
    case _ => Uncommitted(d.log, c)
  }

  ghost predicate CallsHold(w: World, s: State)
    requires WellFormed(s.disk)
  {
    && (forall k :: 0 <= k < |s.disk.log| ==> s.disk.log[k].call in s.calls)
    && (forall c :: c in s.calls ==> CallHolds(w, s.disk, c, s.calls[c]))
  }

  ghost predicate Inv(w: World, s: State) {
    Data(w, s.disk) && Control(w, s) && NameHeld(w, s) && CallsHold(w, s)
  }

  // ----- every step keeps it

  /** Two calls past their recheck are one call. */
  lemma Exclusive(w: World, s: State, c: CallId, d: CallId)
    requires s.disk.fs.past != [] && Control(w, s) && NameHeld(w, s)
    requires c in s.calls && d in s.calls && s.calls[c].Critical() && s.calls[d].Critical()
    ensures c == d
  {
  }

  // ----- the disk: directory changes that leave the file alone

  lemma MovedKeepsData(w: World, d: Disk, fs: Fs)
    requires Data(w, d) && fs.WellFormed()
    requires |fs.past| == |d.fs.past| + 1 && fs.past[..|d.fs.past|] == d.fs.past
    requires forall i :: i in d.fs.files ==> i in fs.files && fs.files[i] == d.fs.files[i]
    requires w.file in fs.Dir() <==> w.file in d.fs.Dir()
    requires w.file in fs.Dir() ==> fs.Dir()[w.file] == d.fs.Dir()[w.file]
    ensures Data(w, Moved(d, fs))
    ensures ViewNow(w, Moved(d, fs)) == ViewNow(w, d)
  {
    var e := Moved(d, fs);
    forall k | 0 <= k < |e.fs.past| ensures WholeIn(w, e, e.fs.past[k], e.marks[k]) {
      var j := if k == |d.fs.past| then k - 1 else k;
      assert WholeIn(w, d, d.fs.past[j], d.marks[j]);
      assert k < |d.fs.past| ==> e.fs.past[k] == fs.past[..|d.fs.past|][k];
    }
  }

  lemma PublishedKeepsData(w: World, d: Disk, temp: string, ino: nat, commit: Commit)
    requires Data(w, d) && TempHeld(w, d.fs, temp, ino)
    requires d.fs.files[ino] == File(commit.after, true)
    requires Basis(w, d, commit.call, commit.before) && w.edit(commit.call, commit.before) == Render(commit.after)
    ensures Data(w, Published(w, d, temp, commit))
  {
    PublishedIsWhole(w, d, temp, ino, commit);
    PublishedIsChained(w, d, commit);
  }

  lemma PublishedIsWhole(w: World, d: Disk, temp: string, ino: nat, commit: Commit)
    requires WellFormed(d) && Whole(w, d) && TempHeld(w, d.fs, temp, ino)
    requires d.fs.files[ino] == File(commit.after, true)
    ensures WellFormed(Published(w, d, temp, commit)) && Whole(w, Published(w, d, temp, commit))
  {
    var e := Published(w, d, temp, commit);
    forall k | 0 <= k < |e.fs.past| ensures WholeIn(w, e, e.fs.past[k], e.marks[k]) {
      if k < |d.fs.past| {
        assert WholeIn(w, d, d.fs.past[k], d.marks[k]);
        assert e.log[..e.marks[k]] == d.log[..d.marks[k]];
      } else {
        assert e.log[..e.marks[k]] == e.log;
      }
    }
  }

  lemma PublishedIsChained(w: World, d: Disk, commit: Commit)
    requires WellFormed(d) && Whole(w, d) && Chained(w, d.log)
    requires Basis(w, d, commit.call, commit.before) && w.edit(commit.call, commit.before) == Render(commit.after)
    ensures Chained(w, d.log + [commit])
  {
    var log := d.log + [commit];
    assert d.log[..|d.log|] == d.log;
    assert WholeIn(w, d, d.fs.Dir(), |d.log|);
    forall k | 0 <= k < |log| ensures Follows(w, log[..k], log[k]) {
      assert log[..k] == d.log[..k];
    }
  }

  lemma ParentSyncedKeepsData(w: World, d: Disk)
    requires Data(w, d)
    ensures Data(w, ParentSynced(d))
    ensures ViewNow(w, ParentSynced(d)) == ViewNow(w, d)
  {
    assert WholeIn(w, d, d.fs.Dir(), |d.log|);
  }

  /** Writing or syncing a file that never stood at the name. */
  lemma FileChangeKeepsData(w: World, d: Disk, ino: nat, file: File)
    requires Data(w, d) && NeverTarget(w, d.fs, ino) && ino in d.fs.files
    ensures Data(w, d.(fs := d.fs.(files := d.fs.files[ino := file])))
    ensures ViewNow(w, d.(fs := d.fs.(files := d.fs.files[ino := file]))) == ViewNow(w, d)
  {
    var e := d.(fs := d.fs.(files := d.fs.files[ino := file]));
    forall k | 0 <= k < |e.fs.past| ensures WholeIn(w, e, e.fs.past[k], e.marks[k]) {
      assert WholeIn(w, d, d.fs.past[k], d.marks[k]);
    }
  }

  lemma CutKeepsData(w: World, d: Disk, survivor: Fs, kept: nat)
    requires Data(w, d) && Survives(d.fs, survivor, kept)
    ensures Data(w, Cut(d, survivor, kept))
  {
    var e := Cut(d, survivor, kept);
    assert WholeIn(w, d, d.fs.past[kept], d.marks[kept]);
    assert e.log[..e.marks[0]] == d.log[..d.marks[kept]];
    forall k | 0 <= k < |e.log| ensures Follows(w, e.log[..k], e.log[k]) {
      assert e.log[..k] == d.log[..k];
    }
  }

  // ----- the calls

  /** A call outside the critical section relies on nothing another one moves. */
  lemma BystanderHolds(w: World, d: Disk, e: Disk, c: CallId, pc: Pc)
    requires WellFormed(d) && WellFormed(e) && CallHolds(w, d, c, pc) && !pc.Critical()
    requires d.marks[0] <= e.marks[0]
    requires d.log <= e.log && Uncommitted(e.log[|d.log|..], c)
    ensures CallHolds(w, e, c, pc)
  {
    assert Uncommitted(d.log, c) ==> Uncommitted(e.log, c) by {
      forall k | 0 <= k < |e.log| && Uncommitted(d.log, c) ensures e.log[k].call != c {
        if k >= |d.log| {
          assert e.log[k] == e.log[|d.log|..][k - |d.log|];
        }
      }
    }
  }

  /** What one call's own step does for that call and to everyone else: the data
      stays whole, the log grows by that call alone, and the file the lock name
      leads to changes only where it led nowhere. */
  ghost predicate StepFits(w: World, d: Disk, e: Disk, c: CallId, pc': Pc)
    requires WellFormed(d)
  {
    && Data(w, e)
    && CallHolds(w, e, c, pc')
    && d.marks[0] <= e.marks[0]
    && d.log <= e.log && (forall k :: |d.log| <= k < |e.log| ==> e.log[k].call == c)
    && (LockName(w.file) in d.fs.Dir() ==>
          Identity(e.fs.Dir(), LockName(w.file)) == Identity(d.fs.Dir(), LockName(w.file)))
  }

  lemma OpenLockFits(w: World, d: Disk, c: CallId, pc: Pc)
    requires Data(w, d) && CallHolds(w, d, c, pc) && pc.Opening?
    ensures StepFits(w, d, DiskAfter(w, d, pc, OpenLock(c)), c, PcAfter(w, d, pc, OpenLock(c)))
  {
    hide Whole, Chained;
    TempNamesStandApart(w.file, 0, 0);
    if LockName(w.file) !in d.fs.Dir() {
      MovedKeepsData(w, d, Create(d.fs, LockName(w.file)));
    }
  }

  lemma RemoveFits(w: World, d: Disk, c: CallId, pc: Pc, name: string)
    requires Data(w, d) && CallHolds(w, d, c, pc) && pc.Sweeping? && name in pc.todo
    ensures StepFits(w, d, DiskAfter(w, d, pc, Remove(c, name)), c, PcAfter(w, d, pc, Remove(c, name)))
  {
    hide Whole, Chained;
    TempNamesStandApart(w.file, 0, 0);
    MovedKeepsData(w, d, Unlink(d.fs, name));
  }

  lemma CreateTempFits(w: World, d: Disk, c: CallId, pc: Pc, pid: nat, serial: nat)
    requires Data(w, d) && CallHolds(w, d, c, pc) && pc.Creating?
    ensures StepFits(w, d, DiskAfter(w, d, pc, CreateTemp(c, pid, serial)), c, PcAfter(w, d, pc, CreateTemp(c, pid, serial)))
  {
    hide Whole, Chained;
    TempNamesStandApart(w.file, pid, serial);
    var temp := TempName(w.file, pid, serial);
    if temp !in d.fs.Dir() {
      var fs := Create(d.fs, temp);
      MovedKeepsData(w, d, fs);
      assert NeverTarget(w, fs, d.fs.next);
    }
  }

  lemma WritePartFits(w: World, d: Disk, c: CallId, pc: Pc, upTo: nat)
    requires Data(w, d) && CallHolds(w, d, c, pc) && pc.Filling? && upTo <= |pc.after|
    ensures StepFits(w, d, DiskAfter(w, d, pc, WritePart(c, upTo)), c, PcAfter(w, d, pc, WritePart(c, upTo)))
  {
    hide Whole, Chained;
    FileChangeKeepsData(w, d, pc.ino, File(pc.after[..upTo], false));
  }

  lemma SyncTempFits(w: World, d: Disk, c: CallId, pc: Pc)
    requires Data(w, d) && CallHolds(w, d, c, pc) && CanStep(d, map[], pc, SyncTemp(c))
    ensures StepFits(w, d, DiskAfter(w, d, pc, SyncTemp(c)), c, PcAfter(w, d, pc, SyncTemp(c)))
  {
    hide Whole, Chained;
    FileChangeKeepsData(w, d, pc.ino, File(pc.after, true));
  }

  lemma PublishFits(w: World, d: Disk, c: CallId, pc: Pc)
    requires Data(w, d) && CallHolds(w, d, c, pc) && CanStep(d, map[], pc, Publish(c))
    ensures StepFits(w, d, DiskAfter(w, d, pc, Publish(c)), c, PcAfter(w, d, pc, Publish(c)))
  {
    hide Whole, Chained;
    TempNamesStandApart(w.file, 0, 0);
    PublishedKeepsData(w, d, pc.temp, pc.ino, Commit(c, pc.before, pc.after));
  }

  lemma CleanFits(w: World, d: Disk, c: CallId, pc: Pc)
    requires Data(w, d) && CallHolds(w, d, c, pc) && pc.Cleaning?
    ensures StepFits(w, d, DiskAfter(w, d, pc, Clean(c)), c, PcAfter(w, d, pc, Clean(c)))
  {
    hide Whole, Chained;
    TempNamesStandApart(w.file, 0, 0);
    MovedKeepsData(w, d, Unlink(d.fs, pc.temp));
    assert pc.temp != LockName(w.file);
    assert Uncommitted(Moved(d, Unlink(d.fs, pc.temp)).log, c);
  }

  lemma SyncParentFits(w: World, d: Disk, c: CallId, pc: Pc)
    requires Data(w, d) && CallHolds(w, d, c, pc) && pc.Syncing?
    ensures StepFits(w, d, DiskAfter(w, d, pc, SyncParent(c)), c, PcAfter(w, d, pc, SyncParent(c)))
  {
    hide Whole, Chained;
    ParentSyncedKeepsData(w, d);
  }

  /** The steps that leave the disk alone. */
  lemma QuietFits(w: World, d: Disk, c: CallId, pc: Pc, step: Step)
    requires Data(w, d) && CallHolds(w, d, c, pc) && CanStep(d, map[], pc, step)
    requires step.Acquire? || step.Recheck? || step.List? || step.Swept? || step.Read? || step.Decide? || step.Leave? || step.Fault?
    requires step.c == c
    ensures StepFits(w, d, d, c, PcAfter(w, d, pc, step))
  {
    hide Whole, Chained;
    if step.Decide? && pc.before.Some? && w.edit(c, pc.before) == Render(pc.before.value) {
      assert w.edit(c, Some(pc.before.value)) == Render(pc.before.value);
    }
  }

  lemma OwnStepFits(w: World, d: Disk, c: CallId, pc: Pc, step: Step)
    requires Data(w, d) && CallHolds(w, d, c, pc) && CanStep(d, map[], pc, step) && step.c == c
    ensures StepFits(w, d, DiskAfter(w, d, pc, step), c, PcAfter(w, d, pc, step))
  {
    match step
    case OpenLock(_) => OpenLockFits(w, d, c, pc);
    case Remove(_, name) => RemoveFits(w, d, c, pc, name);
    case CreateTemp(_, pid, serial) => CreateTempFits(w, d, c, pc, pid, serial);
    case WritePart(_, upTo) => WritePartFits(w, d, c, pc, upTo);
    case SyncTemp(_) => SyncTempFits(w, d, c, pc);
    case Publish(_) => PublishFits(w, d, c, pc);
    case Clean(_) => CleanFits(w, d, c, pc);
    case SyncParent(_) => SyncParentFits(w, d, c, pc);
    case _ => QuietFits(w, d, c, pc, step);
  }

  // ----- control

  /** How a call moves between points as far as its lock goes. */
  ghost predicate LockMove(w: World, d: Disk, locks: map<nat, CallId>, pc: Pc, pc': Pc)
    requires d.fs.past != []
  {
    && pc.Live()
    && (pc.Locked() && pc'.Locked() ==> pc'.lock == pc.lock)
    && (!pc.Locked() && pc'.Locked() ==> pc'.lock !in locks)
    && (pc'.Critical() ==> pc.Critical() || Identity(d.fs.Dir(), LockName(w.file)) == Some(pc'.lock))
  }

  lemma OwnStepMoves(w: World, d: Disk, locks: map<nat, CallId>, pc: Pc, step: Step)
    requires WellFormed(d) && CanStep(d, locks, pc, step)
    ensures LockMove(w, d, locks, pc, PcAfter(w, d, pc, step))
    ensures pc.Critical() ==> PcAfter(w, d, pc, step).Critical() || PcAfter(w, d, pc, step).Finished?
    ensures !pc.Critical() && LockName(w.file) in d.fs.Dir() ==> DiskAfter(w, d, pc, step) == d
  {
  }

  lemma ControlKept(w: World, s: State, e: Disk, c: CallId, pc': Pc)
    requires s.disk.fs.past != [] && e.fs.past != []
    requires Control(w, s) && NameHeld(w, s) && c in s.calls
    requires LockMove(w, s.disk, s.locks, s.calls[c], pc')
    requires LockName(w.file) in s.disk.fs.Dir() ==>
               Identity(e.fs.Dir(), LockName(w.file)) == Identity(s.disk.fs.Dir(), LockName(w.file))
    ensures var t := State(e, s.calls[c := pc'], s.threads, LocksAfter(s.locks, c, s.calls[c], pc'));
            Control(w, t) && NameHeld(w, t)
  {
    LocksKept(w, s, e, c, pc');
    NameKept(w, s, e, c, pc');
  }

  lemma LocksKept(w: World, s: State, e: Disk, c: CallId, pc': Pc)
    requires s.disk.fs.past != []
    requires Control(w, s) && c in s.calls && LockMove(w, s.disk, s.locks, s.calls[c], pc')
    ensures Control(w, State(e, s.calls[c := pc'], s.threads, LocksAfter(s.locks, c, s.calls[c], pc')))
  {
    hide Identity;
  }

  lemma NameKept(w: World, s: State, e: Disk, c: CallId, pc': Pc)
    requires s.disk.fs.past != [] && e.fs.past != []
    requires NameHeld(w, s) && c in s.calls && LockMove(w, s.disk, s.locks, s.calls[c], pc')
    requires LockName(w.file) in s.disk.fs.Dir() ==>
               Identity(e.fs.Dir(), LockName(w.file)) == Identity(s.disk.fs.Dir(), LockName(w.file))
    ensures NameHeld(w, State(e, s.calls[c := pc'], s.threads, LocksAfter(s.locks, c, s.calls[c], pc')))
  {
    hide LocksAfter;
  }

  /** A step that moves the disk is taken inside the critical section, where the
      others rely on nothing of it, or while nobody is there. */
  lemma CallsKept(w: World, s: State, e: Disk, c: CallId, pc': Pc)
    requires Data(w, s.disk) && Control(w, s) && NameHeld(w, s) && CallsHold(w, s)
    requires c in s.calls && StepFits(w, s.disk, e, c, pc')
    requires s.calls[c].Critical() || LockName(w.file) !in s.disk.fs.Dir() || e == s.disk
    ensures CallsHold(w, s.(disk := e, calls := s.calls[c := pc']))
  {
    hide CallHolds, Whole, Chained, Control, NameHeld;
    forall d | d in s.calls && d != c ensures CallHolds(w, e, d, s.calls[d]) {
      OtherHolds(w, s, e, c, pc', d);
    }
    LoggedCallsKnown(w, s, e, c, pc');
  }

  lemma OtherHolds(w: World, s: State, e: Disk, c: CallId, pc': Pc, d: CallId)
    requires Data(w, s.disk) && Control(w, s) && NameHeld(w, s) && CallsHold(w, s)
    requires c in s.calls && d in s.calls && d != c && StepFits(w, s.disk, e, c, pc')
    requires s.calls[c].Critical() || LockName(w.file) !in s.disk.fs.Dir() || e == s.disk
    ensures CallHolds(w, e, d, s.calls[d])
  {
    if e != s.disk {
      Alone(w, s, c, d);
      assert Uncommitted(e.log[|s.disk.log|..], d);
      BystanderHolds(w, s.disk, e, d, s.calls[d]);
    }
  }

  lemma LoggedCallsKnown(w: World, s: State, e: Disk, c: CallId, pc': Pc)
    requires WellFormed(s.disk) && CallsHold(w, s) && c in s.calls && StepFits(w, s.disk, e, c, pc')
    ensures forall k :: 0 <= k < |e.log| ==> e.log[k].call in s.calls
  {
    forall k | 0 <= k < |e.log| ensures e.log[k].call in s.calls {
      if k < |s.disk.log| {
        assert e.log[k] == s.disk.log[k];
      }
    }
  }

  lemma Alone(w: World, s: State, c: CallId, d: CallId)
    requires s.disk.fs.past != [] && Control(w, s) && NameHeld(w, s)
    requires c in s.calls && d in s.calls && d != c
    requires s.calls[c].Critical() || LockName(w.file) !in s.disk.fs.Dir()
    ensures !s.calls[d].Critical()
  {
    if s.calls[c].Critical() && s.calls[d].Critical() {
      Exclusive(w, s, c, d);
    }
  }

  lemma OwnStepKeeps(w: World, s: State, step: Step)
    requires Inv(w, s) && Enabled(w, s, step) && OwnStep(step)
    ensures Inv(w, Advanced(w, s, step))
  {
    hide CallHolds, Whole, Chained, Control, NameHeld, DiskAfter, PcAfter;
    var c, d, pc := step.c, s.disk, s.calls[step.c];
    assert CanStep(d, map[], pc, step);
    OwnStepFits(w, d, c, pc, step);
    OwnStepMoves(w, d, s.locks, pc, step);
    var e, pc' := DiskAfter(w, d, pc, step), PcAfter(w, d, pc, step);
    ControlKept(w, s, e, c, pc');
    CallsKept(w, s, e, c, pc');
    var t := Advanced(w, s, step);
    assert CallsHold(w, t) by {
      var u := s.(disk := e, calls := s.calls[c := pc']);
      assert t.disk == u.disk && t.calls == u.calls;
    }
  }

  lemma EnterControls(w: World, s: State, c: CallId, thread: nat)
    requires s.disk.fs.past != [] && Control(w, s) && NameHeld(w, s) && c !in s.calls
    ensures Control(w, Entered(s, c, thread)) && NameHeld(w, Entered(s, c, thread))
  {
  }

  lemma EnterKeeps(w: World, s: State, c: CallId, thread: nat)
    requires Inv(w, s) && c !in s.calls
    ensures Inv(w, Entered(s, c, thread))
  {
    hide Whole, Chained, Control, NameHeld;
    EnterControls(w, s, c, thread);
    var t := Entered(s, c, thread);
    assert Uncommitted(t.disk.log, c);
    assert CallHolds(w, t.disk, c, t.calls[c]);
  }

  lemma KillKeeps(w: World, s: State, c: CallId)
    requires Inv(w, s) && c in s.calls && s.calls[c].Live()
    ensures Inv(w, Killed(s, c))
  {
    hide Whole, Chained;
    ControlKept(w, s, s.disk, c, Dead);
  }

  lemma ForeignKeeps(w: World, s: State, fs: Fs)
    requires Inv(w, s) && NobodyCritical(s) && fs.WellFormed()
    requires |fs.past| == |s.disk.fs.past| + 1 && fs.past[..|s.disk.fs.past|] == s.disk.fs.past
    requires forall i :: i in s.disk.fs.files ==> i in fs.files && fs.files[i] == s.disk.fs.files[i]
    requires w.file in fs.Dir() <==> w.file in s.disk.fs.Dir()
    requires w.file in fs.Dir() ==> fs.Dir()[w.file] == s.disk.fs.Dir()[w.file]
    ensures Inv(w, s.(disk := Moved(s.disk, fs)))
  {
    MovedKeepsData(w, s.disk, fs);
    forall d | d in s.calls ensures CallHolds(w, Moved(s.disk, fs), d, s.calls[d]) {
      BystanderHolds(w, s.disk, Moved(s.disk, fs), d, s.calls[d]);
    }
  }

  lemma PowerCutKeeps(w: World, s: State, survivor: Fs, kept: nat)
    requires Inv(w, s) && Survives(s.disk.fs, survivor, kept)
    ensures Inv(w, AllDead(s, Cut(s.disk, survivor, kept)))
  {
    hide Whole, Chained;
    CutKeepsData(w, s.disk, survivor, kept);
    var t := AllDead(s, Cut(s.disk, survivor, kept));
    forall c | c in t.calls ensures CallHolds(w, t.disk, c, t.calls[c]) {
      if t.calls[c].Finished? {
        FinishedSurvivesCut(w, s.disk, survivor, kept, c, s.calls[c]);
      }
    }
  }

  lemma FinishedSurvivesCut(w: World, d: Disk, survivor: Fs, kept: nat, c: CallId, pc: Pc)
    requires Data(w, d) && Survives(d.fs, survivor, kept) && pc.Finished? && CallHolds(w, d, c, pc)
    requires WellFormed(Cut(d, survivor, kept))
    ensures CallHolds(w, Cut(d, survivor, kept), c, pc)
  {
  }

  lemma PlantKeeps(w: World, s: State)
    requires Inv(w, s) && NobodyCritical(s)
    ensures Inv(w, s.(disk := Moved(s.disk, Create(s.disk.fs, LockName(w.file)))))
  {
    TempNamesStandApart(w.file, 0, 0);
    ForeignKeeps(w, s, Create(s.disk.fs, LockName(w.file)));
  }

  lemma ReplantKeeps(w: World, s: State, entry: Option<Entry>)
    requires Inv(w, s) && Enabled(w, s, Replant(entry))
    ensures Inv(w, s.(disk := Moved(s.disk, Replanted(w, s.disk.fs, entry))))
  {
    TempNamesStandApart(w.file, 0, 0);
    ForeignKeeps(w, s, Replanted(w, s.disk.fs, entry));
  }

  lemma Preserves(w: World, s: State, step: Step)
    requires Inv(w, s) && Enabled(w, s, step)
    ensures Inv(w, Do(w, s, step))
  {
    if OwnStep(step) {
      OwnStepKeeps(w, s, step);
    } else {
      OtherStepKeeps(w, s, step);
    }
  }

  lemma OtherStepKeeps(w: World, s: State, step: Step)
    requires Inv(w, s) && !OwnStep(step) && CanHappen(s, step)
    ensures Inv(w, Happened(w, s, step))
  {
    match step
    case Enter(c, thread) => EnterKeeps(w, s, c, thread);
    case Kill(c) => KillKeeps(w, s, c);
    case Plant => PlantKeeps(w, s);
    case Replant(entry) => ReplantKeeps(w, s, entry);
    case PowerCut(survivor, kept) => PowerCutKeeps(w, s, survivor, kept);
  }
}
