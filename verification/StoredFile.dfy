/**
 One process's own reading of the protocol, in its program's order: take the
 lock, sweep, read, edit, write a temporary, fsync it, rename it, fsync the
 directory. Every system call may fail where `faults` says so, and a foreign
 actor may replace the lock file between the lock and its recheck where
 `disturb` says so.

 `trail` keeps every state the disk passed through, so that a claim about a
 power cut at any moment is a claim about all of `trail`.
 */
module StoredFile {
  import opened Prelude
  import opened FileSystem
  import opened MutateProtocol

  datatype Landed = Done | NotWritten | MutationUnconfirmed

  /** What a foreign actor does to the lock name between a lock and its recheck. */
  datatype Disturbance = Calm | Removed | Planted | Linked(to: nat)

  datatype LockResult = Taken | SystemRefused | ReplacedEveryTime

  datatype Mutated = Ok(written: bool) | NestedMutation | ApplyRefused | Io | Confirmless

  /** Every state the directory has had since its last fsync shows one of
      `views` at `file`, with its bytes on the disk. */
  ghost predicate ShowsOnly(fs: Fs, file: string, views: set<View>) {
    && fs.WellFormed()
    && (forall k :: 0 <= k < |fs.past| ==> Shows(fs, fs.past[k], file, views))
  }

  ghost predicate Shows(fs: Fs, dir: Directory, file: string, views: set<View>)
    requires file in dir && dir[file].Regular? ==> dir[file].ino in fs.files
  {
    && ViewIn(fs, dir, file) in views
    && (file in dir && dir[file].Regular? ==> fs.files[dir[file].ino].synced)
  }

  /** A power cut leaves one of the views the disk shows, and nothing besides. */
  lemma CutShowsOne(fs: Fs, file: string, views: set<View>, survivor: Fs, kept: nat)
    requires ShowsOnly(fs, file, views) && Survives(fs, survivor, kept)
    ensures survivor.WellFormed() && ViewIn(survivor, survivor.Dir(), file) in views
  {
    assert Shows(fs, fs.past[kept], file, views);
  }

  /** The directory changed at names other than `file`. */
  ghost predicate OnlyElsewhere(before: Fs, after: Fs, file: string) {
    && before.WellFormed() && after.WellFormed()
    && before.past <= after.past
    && (forall i :: i in before.files ==> i in after.files)
    && (forall k :: |before.past| <= k < |after.past| ==>
          (file in after.past[k] <==> file in before.Dir())
          && (file in before.Dir() ==> after.past[k][file] == before.Dir()[file]))
  }

  lemma ElsewhereShows(before: Fs, after: Fs, file: string, views: set<View>)
    requires ShowsOnly(before, file, views) && OnlyElsewhere(before, after, file)
    requires forall k :: 0 <= k < |before.past| && file in before.past[k] && before.past[k][file].Regular? ==>
               after.files[before.past[k][file].ino] == before.files[before.past[k][file].ino]
    ensures ShowsOnly(after, file, views)
    ensures ViewIn(after, after.Dir(), file) == ViewIn(before, before.Dir(), file)
  {
    forall k | 0 <= k < |after.past| ensures Shows(after, after.past[k], file, views) {
      var j := if k < |before.past| then k else |before.past| - 1;
      assert Shows(before, before.past[j], file, views);
    }
  }

  /** Only the file at `ino` changed, and no name moved. */
  ghost predicate Refilled(before: Fs, after: Fs, ino: nat) {
    && after.past == before.past && after.next == before.next
    && after.files.Keys == before.files.Keys
    && (forall i :: i in before.files && i != ino ==> after.files[i] == before.files[i])
  }

  /** `name` leads where it did. */
  ghost predicate SameAt(before: Fs, after: Fs, name: string) {
    && before.past != [] && after.past != []
    && (name in after.Dir() <==> name in before.Dir())
    && (name in after.Dir() ==> after.Dir()[name] == before.Dir()[name])
  }

  /** Nothing that is not `file`'s own is different: every name elsewhere leads where
      it did, and every file there was holds what it held. */
  ghost predicate Spares(before: Fs, after: Fs, file: string) {
    && (forall name :: Elsewhere(file, name) ==> SameAt(before, after, name))
    && Unwritten(before, after)
  }

  ghost predicate Unwritten(before: Fs, after: Fs) {
    forall i :: i in before.files ==> i in after.files && after.files[i] == before.files[i]
  }

  /** So every other guarded file is as it was, and so are its lock and each of its
      temporaries. */
  lemma SparedOthers(before: Fs, after: Fs, file: string, g: string, pid: nat, serial: nat)
    requires Spares(before, after, file) && Undotted(file) && Another(file, g)
    ensures SameAt(before, after, g) && SameAt(before, after, LockName(g))
    ensures SameAt(before, after, TempName(g, pid, serial))
    ensures before.WellFormed() && after.WellFormed() ==>
              ViewIn(after, after.Dir(), g) == ViewIn(before, before.Dir(), g)
  {
    OthersAreElsewhere(file, g, pid, serial);
  }

  lemma SparesOn(a: Fs, b: Fs, c: Fs, file: string)
    requires Spares(a, b, file) && Spares(b, c, file)
    ensures Spares(a, c, file)
  {
    forall name | Elsewhere(file, name) ensures SameAt(a, c, name) {
      assert SameAt(a, b, name) && SameAt(b, c, name);
    }
  }

  /** What an exclusive creation and a rename need of the names they use. */
  predicate Clear(dir: Directory, file: string, temp: string) {
    temp !in dir && (file in dir ==> !dir[file].Link?)
  }

  predicate Lockable(dir: Directory, file: string) {
    LockName(file) in dir ==> dir[LockName(file)].Regular?
  }

  /** Whatever stands at the names a mutation uses is a regular file. */
  predicate NothingForeign(dir: Directory, file: string, temp: string) {
    && Lockable(dir, file)
    && (file in dir ==> dir[file].Regular?)
    && (temp in dir ==> dir[temp].Regular?)
  }

  /** What a mutation answers when nothing goes wrong. */
  function Answer(edit: Option<Bytes> -> Edited, was: View): Mutated
    requires !was.Alien?
  {
    match edit(Found(was))
    case Refuse => ApplyRefused
    case Render(bytes) => Ok(Found(was) != Some(bytes))
  }

  /** None of these calls failed. */
  ghost predicate Faultless(faults: nat -> bool, from: nat, to: nat) {
    forall k :: from <= k < to ==> !faults(k)
  }

  lemma FaultlessOn(faults: nat -> bool, a: nat, b: nat, c: nat)
    requires a <= b <= c
    ensures Faultless(faults, a, c) <==> Faultless(faults, a, b) && Faultless(faults, b, c)
  {
  }

  class Writer {
    var fs: Fs
    var calls: nat
    var serial: nat
    var mutating: seq<string>
    var held: Option<nat>
    const pid: nat
    const faults: nat -> bool
    const disturb: nat -> Disturbance
    ghost var trail: seq<Fs>

    constructor (fs: Fs, pid: nat, faults: nat -> bool, disturb: nat -> Disturbance)
      ensures this.fs == fs && this.pid == pid && this.faults == faults && this.disturb == disturb
      ensures calls == 0 && serial == 0 && mutating == [] && held == None && trail == [fs]
    {
      this.fs, this.pid, this.faults, this.disturb := fs, pid, faults, disturb;
      calls, serial, mutating, held, trail := 0, 0, [], None, [fs];
    }

    /** No system call fails, and nobody touches the lock file in between. */
    ghost predicate Smooth() {
      (forall k :: !faults(k)) && (forall a :: disturb(a) == Calm)
    }

    method SystemCall() returns (ok: bool)
      modifies this`calls
      ensures ok == !faults(old(calls)) && calls == old(calls) + 1
      ensures ok <==> Faultless(faults, old(calls), calls)
    {
      ok := !faults(calls);
      calls := calls + 1;
    }

    method Become(next: Fs)
      modifies this`fs, this`trail
      ensures fs == next && trail == old(trail) + [next]
    {
      fs := next;
      trail := trail + [next];
    }

    /** Put `bytes` in the file at `ino` and get them onto the disk. */
    method Fill(ino: nat, bytes: Bytes) returns (ok: bool)
      requires ino in fs.files && fs.WellFormed()
      modifies this`fs, this`calls, this`trail
      ensures Refilled(old(fs), fs, ino)
      ensures ok ==> fs.files[ino] == File(bytes, true)
      ensures Smooth() ==> ok
      ensures calls >= old(calls) && (ok <==> Faultless(faults, old(calls), calls)) && (ok ==> calls == old(calls) + 2)
      ensures old(trail) < trail
      ensures forall k :: |old(trail)| <= k < |trail| ==> Refilled(old(fs), trail[k], ino)
    {
      ok := SystemCall();
      if !ok {
        // A write that fails may have landed in part.
        Become(Write(fs, ino, bytes[..|bytes| / 2]));
        return;
      }
      Become(Write(fs, ino, bytes));
      ok := SystemCall();
      if ok {
        Become(SyncFile(fs, ino));
      }
    }

    /** Replace `file` with `bytes`. At every moment of it, whatever the power
        leaves is one of the `olds` or the whole of `bytes`: `Done` leaves only
        `bytes`, `NotWritten` only the `olds`, and `MutationUnconfirmed` says the
        new bytes are already what a reader finds. */
    method WriteAtomically(file: string, bytes: Bytes, ghost olds: set<View>) returns (r: Landed)
      requires ShowsOnly(fs, file, olds)
      modifies this`fs, this`calls, this`trail, this`serial
      ensures old(trail) <= trail
      ensures forall k :: |old(trail)| <= k < |trail| ==> ShowsOnly(trail[k], file, olds + {Holds(bytes)})
      ensures r.Done? ==> ShowsOnly(fs, file, {Holds(bytes)})
      ensures r.NotWritten? ==>
                ShowsOnly(fs, file, olds) && ViewIn(fs, fs.Dir(), file) == old(ViewIn(fs, fs.Dir(), file))
      ensures r.MutationUnconfirmed? ==>
                ShowsOnly(fs, file, olds + {Holds(bytes)}) && ViewIn(fs, fs.Dir(), file) == Holds(bytes)
      ensures fs.WellFormed() && old(fs).WellFormed() && SameAt(old(fs), fs, LockName(file))
      ensures Smooth() && Clear(old(fs).Dir(), file, TempName(file, pid, old(serial))) ==> r.Done?
      // where nothing stands in the way, it is done exactly when each of six calls is
      ensures calls >= old(calls) && (r.Done? ==> calls == old(calls) + 6)
      ensures Clear(old(fs).Dir(), file, TempName(file, pid, old(serial))) ==> (r.Done? <==> Faultless(faults, old(calls), calls))
      ensures Spares(old(fs), fs, file)
      // a link is refused, and so is a name that is taken, and nothing is changed
      ensures !Clear(old(fs).Dir(), file, TempName(file, pid, old(serial))) ==> r.NotWritten? && fs == old(fs)
      // no name is tried twice
      ensures serial == old(serial) + (if file in old(fs).Dir() && old(fs).Dir()[file].Link? then 0 else 1)
      // what this call created it removes, unless the removal is refused
      ensures var temp := TempName(file, pid, old(serial));
              temp in fs.Dir() ==> temp in old(fs).Dir() || (r.NotWritten? && calls > 0 && faults(calls - 1))
    {
      hide TempName, LockName, IsTemp, TempPrefix, ShowsOnly, Faultless;
      assert fs.WellFormed() by { ShownIsWellFormed(fs, file, olds); }
      if file in fs.Dir() && fs.Dir()[file].Link? {
        return NotWritten;
      }
      var temp := TempName(file, pid, serial);
      TempNamesStandApart(file, pid, serial);
      ElsewhereIsNot(file, temp);
      hide Elsewhere;
      serial := serial + 1;
      var ok := SystemCall();
      if !ok || temp in fs.Dir() {
        return NotWritten;
      }
      ghost var mark := calls;
      r := CreateAndLand(file, temp, bytes, olds);
      FaultlessOn(faults, old(calls), mark, calls);
    }

    /** Past the exclusive creation: the temporary is this call's own. */
    method CreateAndLand(file: string, temp: string, bytes: Bytes, ghost olds: set<View>) returns (r: Landed)
      requires ShowsOnly(fs, file, olds) && fs.WellFormed() && temp !in fs.Dir()
      requires temp != file && temp != LockName(file) && file != LockName(file)
      modifies this`fs, this`calls, this`trail
      ensures old(trail) <= trail
      ensures forall k :: |old(trail)| <= k < |trail| ==> ShowsOnly(trail[k], file, olds + {Holds(bytes)})
      ensures r.Done? ==> ShowsOnly(fs, file, {Holds(bytes)})
      ensures r.NotWritten? ==>
                ShowsOnly(fs, file, olds) && ViewIn(fs, fs.Dir(), file) == old(ViewIn(fs, fs.Dir(), file))
      ensures r.MutationUnconfirmed? ==>
                ShowsOnly(fs, file, olds + {Holds(bytes)}) && ViewIn(fs, fs.Dir(), file) == Holds(bytes)
      ensures fs.WellFormed() && Unwritten(old(fs), fs)
      ensures forall name :: name != file && name != temp ==> SameAt(old(fs), fs, name)
      ensures Smooth() ==> r.Done?
      ensures calls >= old(calls) && (r.Done? <==> Faultless(faults, old(calls), calls)) && (r.Done? ==> calls == old(calls) + 5)
      ensures temp in fs.Dir() ==> r.NotWritten? && calls > 0 && faults(calls - 1)
    {
      hide LockName, Faultless;
      var ino := fs.next;
      CreateShows(fs, file, temp, olds);
      MoreShow(Create(fs, temp), file, olds, olds + {Holds(bytes)});
      Become(Create(fs, temp));
      hide ShowsOnly, Shows;
      assert forall k :: 0 <= k < |fs.past| && file in fs.past[k] ==> fs.past[k][file] != Regular(ino);
      ghost var created := fs;
      assert forall name :: name != temp ==> SameAt(old(fs), created, name);
      var landed := Land(file, temp, ino, bytes, olds);
      ghost var mark := calls;
      assert Unwritten(old(fs), fs);
      forall name | name != file && name != temp ensures SameAt(old(fs), fs, name) {
        assert SameAt(old(fs), created, name);
        assert SameAt(created, fs, name);
      }
      if !landed {
        ShownIsWellFormed(fs, file, olds);
        return NotWritten;
      }
      ShownIsWellFormed(fs, file, olds + {Holds(bytes)});
      ghost var landing := fs;
      r := SyncParent(file, bytes, olds);
      FaultlessOn(faults, old(calls), mark, calls);
      ShownIsWellFormed(fs, file, olds + {Holds(bytes)});
      forall name | name != file && name != temp ensures SameAt(old(fs), fs, name) {
        assert SameAt(old(fs), landing, name);
        assert SameAt(landing, fs, name);
      }
    }

    /** Fill the temporary and rename it onto `file`; where either fails the
        temporary is this call's own to remove, and a removal that fails too is
        let pass. */
    method Land(file: string, temp: string, ino: nat, bytes: Bytes, ghost olds: set<View>) returns (ok: bool)
      requires ShowsOnly(fs, file, olds) && temp != file && temp != LockName(file) && file != LockName(file)
      requires temp in fs.Dir() && fs.Dir()[temp] == Regular(ino)
      requires forall k :: 0 <= k < |fs.past| && file in fs.past[k] ==> fs.past[k][file] != Regular(ino)
      modifies this`fs, this`calls, this`trail
      ensures old(fs).WellFormed()
      ensures ok ==> ShowsOnly(fs, file, olds + {Holds(bytes)}) && ViewIn(fs, fs.Dir(), file) == Holds(bytes)
      ensures !ok ==> ShowsOnly(fs, file, olds) && ViewIn(fs, fs.Dir(), file) == old(ViewIn(fs, fs.Dir(), file))
      ensures old(trail) <= trail
      ensures forall k :: |old(trail)| <= k < |trail| ==> ShowsOnly(trail[k], file, olds + {Holds(bytes)})
      ensures SameAt(old(fs), fs, LockName(file))
      ensures Smooth() ==> ok
      ensures calls >= old(calls) && (ok <==> Faultless(faults, old(calls), calls)) && (ok ==> calls == old(calls) + 3)
      ensures forall name :: name != file && name != temp ==> SameAt(old(fs), fs, name)
      ensures forall i :: i in old(fs).files && i != ino ==> i in fs.files && fs.files[i] == old(fs).files[i]
      ensures temp in fs.Dir() ==> !ok && calls > 0 && faults(calls - 1)
    {
      hide Faultless;
      ghost var before := fs;
      ok := Fill(ino, bytes);
      ghost var mark := calls;
      ghost var filled := fs;
      forall k | |old(trail)| <= k < |trail| ensures ShowsOnly(trail[k], file, olds + {Holds(bytes)}) {
        FillShows(before, trail[k], file, ino, olds);
        MoreShow(trail[k], file, olds, olds + {Holds(bytes)});
      }
      FillShows(before, filled, file, ino, olds);
      if ok {
        ok := SystemCall();
      }
      FaultlessOn(faults, old(calls), mark, calls);
      ghost var past := calls;
      if ok {
        RenameShows(filled, file, temp, bytes, olds);
        Become(Rename(fs, temp, file));
      } else {
        var removed := SystemCall();
        FaultlessOn(faults, old(calls), past, calls);
        if removed {
          UnlinkShows(fs, file, temp, olds);
          Become(Unlink(fs, temp));
          MoreShow(fs, file, olds, olds + {Holds(bytes)});
        }
      }
    }

    /** Past the rename: get the directory onto the disk, or say it is not
        known to be there. */
    method SyncParent(file: string, bytes: Bytes, ghost olds: set<View>) returns (r: Landed)
      requires ShowsOnly(fs, file, olds + {Holds(bytes)}) && ViewIn(fs, fs.Dir(), file) == Holds(bytes)
      modifies this`fs, this`calls, this`trail
      ensures r.Done? || r.MutationUnconfirmed?
      ensures fs.files == old(fs).files
      ensures Smooth() ==> r.Done?
      ensures calls >= old(calls) && (r.Done? <==> Faultless(faults, old(calls), calls)) && (r.Done? ==> calls == old(calls) + 2)
      ensures r.Done? ==> ShowsOnly(fs, file, {Holds(bytes)})
      ensures ShowsOnly(fs, file, olds + {Holds(bytes)}) && ViewIn(fs, fs.Dir(), file) == Holds(bytes)
      ensures old(trail) <= trail
      ensures forall k :: |old(trail)| <= k < |trail| ==> ShowsOnly(trail[k], file, olds + {Holds(bytes)})
      ensures old(fs).WellFormed() && fs.Dir() == old(fs).Dir()
    {
      hide Faultless;
      var ok := SystemCall();
      ghost var mark := calls;
      if !ok {
        return MutationUnconfirmed;
      }
      ok := SystemCall();
      FaultlessOn(faults, old(calls), mark, calls);
      if !ok {
        return MutationUnconfirmed;
      }
      assert Shows(fs, fs.Dir(), file, olds + {Holds(bytes)});
      Become(SyncDir(fs));
      r := Done;
    }

    /** Remove every temporary an interrupted writer left beside `file`. */
    method SweepTemporaries(file: string, ghost views: set<View>) returns (ok: bool)
      requires ShowsOnly(fs, file, views)
      modifies this`fs, this`calls, this`trail
      ensures ShowsOnly(fs, file, views) && old(fs).WellFormed()
      ensures ViewIn(fs, fs.Dir(), file) == old(ViewIn(fs, fs.Dir(), file))
      ensures ok ==> fs.Dir() == old(fs).Dir() - Leftovers(file, old(fs).Dir())
      ensures Smooth() ==> ok
      ensures calls >= old(calls) && (ok <==> Faultless(faults, old(calls), calls))
      ensures ok ==> calls == old(calls) + 1 + |Leftovers(file, old(fs).Dir())|
      ensures fs.Dir().Keys <= old(fs).Dir().Keys
      ensures fs.files == old(fs).files && Spares(old(fs), fs, file)
      ensures forall name :: name in old(fs).Dir() && name !in Leftovers(file, old(fs).Dir()) ==>
                name in fs.Dir() && fs.Dir()[name] == old(fs).Dir()[name]
      ensures old(trail) <= trail
      ensures forall k :: |old(trail)| <= k < |trail| ==> ShowsOnly(trail[k], file, views)
    {
      TempNamesStandApart(file, 0, 0);
      NoneElsewhereIsSwept(file, fs.Dir());
      hide Elsewhere, Faultless, Leftovers;
      ok := SystemCall();
      if !ok {
        return;
      }
      ghost var before := fs.Dir();
      var todo := Leftovers(file, fs.Dir());
      ghost var all := todo;
      while todo != {}
        invariant ShowsOnly(fs, file, views)
        invariant ViewIn(fs, fs.Dir(), file) == old(ViewIn(fs, fs.Dir(), file))
        invariant todo <= all && fs.Dir() == before - (all - todo)
        invariant ok && Faultless(faults, old(calls), calls) && calls == old(calls) + 1 + |all| - |todo|
        invariant fs.files == old(fs).files
        invariant old(trail) <= trail
        invariant forall k :: |old(trail)| <= k < |trail| ==> ShowsOnly(trail[k], file, views)
        decreases |todo|
      {
        var name :| name in todo;
        ghost var mark := calls;
        ok := SystemCall();
        FaultlessOn(faults, old(calls), mark, calls);
        if !ok {
          return;
        }
        UnlinkShows(fs, file, name, views);
        Become(Unlink(fs, name));
        todo := todo - {name};
        assert fs.Dir() == before - (all - todo);
      }
      assert all - todo == all;
    }

    /** Take the exclusive lock and recheck its name, over again while the name
        has been given to another file. The lock settled for is on the file the
        name leads to; giving up means the name was replaced on every attempt. */
    method LockWhere(file: string, ghost views: set<View>) returns (r: LockResult)
      requires ShowsOnly(fs, file, views)
      modifies this`fs, this`calls, this`trail, this`held
      ensures ShowsOnly(fs, file, views) && old(fs).WellFormed()
      ensures ViewIn(fs, fs.Dir(), file) == old(ViewIn(fs, fs.Dir(), file))
      ensures r.Taken? ==> held.Some? && Identity(fs.Dir(), LockName(file)) == held
      ensures !r.Taken? ==> held == old(held)
      ensures calls >= old(calls) && (r.SystemRefused? || Faultless(faults, old(calls), calls))
      ensures r.Taken? ==> exists a :: 0 <= a < 64 && !disturb(a).Removed? && !disturb(a).Planted?
      ensures r.ReplacedEveryTime? ==> forall a :: 0 <= a < 64 ==> !disturb(a).Calm?
      ensures !Lockable(old(fs).Dir(), file) ==> r.SystemRefused? && fs == old(fs)
      ensures Spares(old(fs), fs, file)
      ensures Smooth() && Lockable(old(fs).Dir(), file) ==>
                r.Taken? && forall name :: name != LockName(file) ==> SameAt(old(fs), fs, name)
      ensures old(trail) <= trail
      ensures forall k :: |old(trail)| <= k < |trail| ==> ShowsOnly(trail[k], file, views)
    {
      assert fs.WellFormed();
      assert Faultless(faults, calls, calls);
      hide ShowsOnly, ViewIn, Identity, Faultless;
      for attempt := 0 to LOCK_ATTEMPTS
        invariant ShowsOnly(fs, file, views) && fs.WellFormed() && held == old(held)
        invariant ViewIn(fs, fs.Dir(), file) == old(ViewIn(fs, fs.Dir(), file))
        invariant forall a :: 0 <= a < attempt ==> !disturb(a).Calm?
        invariant calls >= old(calls) && Faultless(faults, old(calls), calls)
        invariant attempt == 0 ==> fs == old(fs)
        invariant attempt > 0 ==> !Smooth() && Lockable(old(fs).Dir(), file)
        invariant Spares(old(fs), fs, file)
        invariant old(trail) <= trail
        invariant forall k :: |old(trail)| <= k < |trail| ==> ShowsOnly(trail[k], file, views)
      {
        ghost var before := fs;
        ghost var mark := calls;
        var settled := TryLock(file, attempt, views);
        SparesOn(old(fs), before, fs, file);
        FaultlessOn(faults, old(calls), mark, calls);
        if settled.Some? {
          return settled.value;
        }
      }
      r := ReplacedEveryTime;
    }

    /** One attempt: nothing where the name turned out to lead elsewhere. */
    method TryLock(file: string, attempt: nat, ghost views: set<View>) returns (r: Option<LockResult>)
      requires ShowsOnly(fs, file, views)
      modifies this`fs, this`calls, this`trail, this`held
      ensures ShowsOnly(fs, file, views) && fs.WellFormed() && old(fs).WellFormed()
      ensures ViewIn(fs, fs.Dir(), file) == old(ViewIn(fs, fs.Dir(), file))
      ensures r == Some(Taken) ==> held.Some? && Identity(fs.Dir(), LockName(file)) == held
      ensures r != Some(Taken) ==> held == old(held)
      ensures calls >= old(calls) && (r != Some(SystemRefused) ==> Faultless(faults, old(calls), calls) && calls == old(calls) + 3)
      ensures r == None ==> !disturb(attempt).Calm?
      ensures r == Some(Taken) ==> !disturb(attempt).Removed? && !disturb(attempt).Planted?
      ensures r != Some(ReplacedEveryTime)
      ensures !Lockable(old(fs).Dir(), file) ==> r == Some(SystemRefused) && fs == old(fs)
      ensures Spares(old(fs), fs, file)
      ensures Smooth() && Lockable(old(fs).Dir(), file) ==>
                r == Some(Taken) && forall name :: name != LockName(file) ==> SameAt(old(fs), fs, name)
      ensures old(trail) <= trail
      ensures forall k :: |old(trail)| <= k < |trail| ==> ShowsOnly(trail[k], file, views)
    {
      assert fs.WellFormed();
      hide ShowsOnly, ViewIn, Faultless;
      var open := OpenLockFile(file, views);
      if open.None? {
        return Some(SystemRefused);
      }
      var handle := open.value;
      ghost var mark := calls;
      var ok := SystemCall();
      FaultlessOn(faults, old(calls), mark, calls);
      ghost var taken := calls;
      if !ok {
        return Some(SystemRefused);
      }
      Disturb(file, attempt, views);
      ok := SystemCall();
      FaultlessOn(faults, old(calls), taken, calls);
      if !ok {
        return Some(SystemRefused);
      }
      if Identity(fs.Dir(), LockName(file)) == Some(handle) {
        held := Some(handle);
        return Some(Taken);
      }
      r := None;
    }

    /** Open the lock file, creating it where nothing is; a link is refused. */
    method OpenLockFile(file: string, ghost views: set<View>) returns (handle: Option<nat>)
      requires ShowsOnly(fs, file, views)
      modifies this`fs, this`calls, this`trail
      ensures ShowsOnly(fs, file, views) && fs.WellFormed() && old(fs).WellFormed()
      ensures ViewIn(fs, fs.Dir(), file) == old(ViewIn(fs, fs.Dir(), file))
      ensures handle.Some? ==> LockName(file) in fs.Dir() && fs.Dir()[LockName(file)] == Regular(handle.value)
      ensures !Lockable(old(fs).Dir(), file) ==> handle == None && fs == old(fs)
      ensures calls == old(calls) + 1 && (handle.Some? ==> Faultless(faults, old(calls), calls))
      ensures Spares(old(fs), fs, file)
      ensures Smooth() && Lockable(old(fs).Dir(), file) ==>
                handle.Some? && forall name :: name != LockName(file) ==> SameAt(old(fs), fs, name)
      ensures old(trail) <= trail
      ensures forall k :: |old(trail)| <= k < |trail| ==> ShowsOnly(trail[k], file, views)
    {
      hide Shows, ViewIn;
      var name := LockName(file);
      TempNamesStandApart(file, 0, 0);
      var ok := SystemCall();
      if !ok {
        return None;
      }
      if name !in fs.Dir() {
        CreateShows(fs, file, name, views);
        Become(Create(fs, name));
      } else if !fs.Dir()[name].Regular? {
        return None;
      }
      handle := Some(fs.Dir()[name].ino);
    }

    method Disturb(file: string, attempt: nat, ghost views: set<View>)
      requires ShowsOnly(fs, file, views) && LockName(file) in fs.Dir()
      modifies this`fs, this`trail
      ensures ShowsOnly(fs, file, views) && fs.WellFormed() && old(fs).WellFormed()
      ensures ViewIn(fs, fs.Dir(), file) == old(ViewIn(fs, fs.Dir(), file))
      ensures fs == match disturb(attempt)
                    case Calm => old(fs)
                    case Removed => Unlink(old(fs), LockName(file))
                    case Planted => Create(old(fs), LockName(file))
                    case Linked(to) => SetEntry(old(fs), LockName(file), Link(to))
      ensures Spares(old(fs), fs, file)
      ensures old(trail) <= trail
      ensures forall k :: |old(trail)| <= k < |trail| ==> ShowsOnly(trail[k], file, views)
    {
      var name := LockName(file);
      TempNamesStandApart(file, 0, 0);
      match disturb(attempt)
      case Calm =>
      case Removed =>
        UnlinkShows(fs, file, name, views);
        Become(Unlink(fs, name));
      case Planted =>
        CreateShows(fs, file, name, views);
        Become(Create(fs, name));
      case Linked(to) =>
        ElsewhereShows(fs, SetEntry(fs, name, Link(to)), file, views);
        Become(SetEntry(fs, name, Link(to)));
    }

    /** Drop the lock's handle and leave the innermost mutation of `file`. */
    method Leave(file: string)
      requires file in mutating
      modifies this`mutating, this`held
      ensures held == None
      ensures exists i :: 0 <= i < |old(mutating)| && old(mutating)[i] == file
                && file !in old(mutating)[i + 1..]
                && mutating == old(mutating)[..i] + old(mutating)[i + 1..]
    {
      held := None;
      var i := |mutating| - 1;
      while mutating[i] != file
        invariant 0 <= i < |mutating| && mutating == old(mutating)
        invariant file !in mutating[i + 1..]
        invariant file in mutating[..i + 1]
        decreases i
      {
        i := i - 1;
      }
      mutating := mutating[..i] + mutating[i + 1..];
    }

    /** Read `file`, hand the reading to `edit`, and write back what it leaves,
        all under one lock. */
    method Mutate(file: string, edit: Option<Bytes> -> Edited, ghost olds: set<View>) returns (r: Mutated)
      requires ShowsOnly(fs, file, olds) && held == None
      modifies this`fs, this`calls, this`trail, this`serial, this`held, this`mutating
      ensures mutating == old(mutating) && held == None
      ensures r.NestedMutation? <==> file in mutating
      ensures old(fs).WellFormed()
      ensures var was := old(ViewIn(fs, fs.Dir(), file));
              && ShowsOnly(fs, file, Left(r, edit, was, olds))
              && Explains(r, edit, was, ViewIn(fs, fs.Dir(), file))
              && (forall k :: |old(trail)| <= k < |trail| ==> ShowsOnly(trail[k], file, AtRisk(edit, was, olds)))
      ensures old(trail) <= trail
      ensures calls >= old(calls) && (r.Ok? || r.ApplyRefused? ==> Faultless(faults, old(calls), calls))
      ensures Spares(old(fs), fs, file)
      ensures Smooth() && file !in old(mutating) && NothingForeign(old(fs).Dir(), file, TempName(file, pid, old(serial))) ==>
                r == Answer(edit, old(ViewIn(fs, fs.Dir(), file)))
    {
      if file in mutating {
        return NestedMutation;
      }
      mutating := mutating + [file];
      r := MutateLocked(file, edit, olds);
      Leave(file);
      assert file !in old(mutating);
      assert mutating == old(mutating);
    }

    method MutateLocked(file: string, edit: Option<Bytes> -> Edited, ghost olds: set<View>) returns (r: Mutated)
      requires ShowsOnly(fs, file, olds)
      modifies this`fs, this`calls, this`trail, this`serial, this`held
      requires held == None
      ensures !r.NestedMutation? && (!r.Io? ==> held.Some?) && old(fs).WellFormed()
      ensures var was := old(ViewIn(fs, fs.Dir(), file));
              && ShowsOnly(fs, file, Left(r, edit, was, olds))
              && Explains(r, edit, was, ViewIn(fs, fs.Dir(), file))
              && (forall k :: |old(trail)| <= k < |trail| ==> ShowsOnly(trail[k], file, AtRisk(edit, was, olds)))
      ensures old(trail) <= trail
      ensures calls >= old(calls) && (r.Ok? || r.ApplyRefused? ==> Faultless(faults, old(calls), calls))
      ensures Spares(old(fs), fs, file)
      ensures Smooth() && NothingForeign(old(fs).Dir(), file, TempName(file, pid, old(serial))) ==>
                r == Answer(edit, old(ViewIn(fs, fs.Dir(), file)))
    {
      ghost var was := ViewIn(fs, fs.Dir(), file);
      TempNamesStandApart(file, pid, serial);
      ghost var temp := TempName(file, pid, serial);
      hide TempName, LockName, IsTemp, TempPrefix, Shows, Explains, Left, AtRisk, Elsewhere, Leftovers, Faultless;
      var locked := LockWhere(file, olds);
      if !locked.Taken? {
        TrailAtRisk(trail, |old(trail)|, file, edit, was, olds);
        RefusedIsExplained(edit, was, olds);
        return Io;
      }
      assert Smooth() && Lockable(old(fs).Dir(), file) ==> SameAt(old(fs), fs, temp) && SameAt(old(fs), fs, file);
      ghost var before := fs;
      ghost var mark := calls;
      SweptClears(fs.Dir(), file, temp);
      var ok := SweepTemporaries(file, olds);
      SparesOn(old(fs), before, fs, file);
      FaultlessOn(faults, old(calls), mark, calls);
      mark := calls;
      if ok {
        ok := SystemCall();
      }
      FaultlessOn(faults, old(calls), mark, calls);
      TrailAtRisk(trail, |old(trail)|, file, edit, was, olds);
      if !ok || ViewIn(fs, fs.Dir(), file).Alien? {
        RefusedIsExplained(edit, was, olds);
        return Io;
      }
      assert Smooth() && NothingForeign(old(fs).Dir(), file, temp) ==> Clear(fs.Dir(), file, temp);
      hide Clear, Lockable, NothingForeign, SameAt, ShowsOnly;
      before := fs;
      mark := calls;
      r := EditAndWrite(file, edit, olds);
      SparesOn(old(fs), before, fs, file);
      FaultlessOn(faults, old(calls), mark, calls);
    }

    /** Hand the reading to `edit` and write back what it leaves. */
    method EditAndWrite(file: string, edit: Option<Bytes> -> Edited, ghost olds: set<View>) returns (r: Mutated)
      requires ShowsOnly(fs, file, olds) && !ViewIn(fs, fs.Dir(), file).Alien?
      requires held.Some?
      modifies this`fs, this`calls, this`trail, this`serial
      ensures !r.NestedMutation? && old(fs).WellFormed()
      ensures var was := old(ViewIn(fs, fs.Dir(), file));
              && ShowsOnly(fs, file, Left(r, edit, was, olds))
              && Explains(r, edit, was, ViewIn(fs, fs.Dir(), file))
              && (forall k :: |old(trail)| <= k < |trail| ==> ShowsOnly(trail[k], file, AtRisk(edit, was, olds)))
      ensures old(trail) <= trail
      ensures calls >= old(calls) && (r.Ok? || r.ApplyRefused? ==> Faultless(faults, old(calls), calls))
      ensures Spares(old(fs), fs, file)
      ensures Smooth() && Clear(old(fs).Dir(), file, TempName(file, pid, old(serial))) ==>
                r == Answer(edit, old(ViewIn(fs, fs.Dir(), file)))
    {
      var before := Found(ViewIn(fs, fs.Dir(), file));
      var edited := edit(before);
      if edited.Refuse? {
        return ApplyRefused;
      }
      if before == Some(edited.bytes) {
        return Ok(false);
      }
      var landed := WriteAtomically(file, edited.bytes, olds);
      r := match landed
        case Done => Ok(true)
        case NotWritten => Io
        case MutationUnconfirmed => Confirmless;
    }
  }

  lemma ElsewhereIsNot(file: string, temp: string)
    requires IsTemp(file, temp)
    ensures forall name :: Elsewhere(file, name) ==> name != file && name != temp
  {
    SweptNamesStartSo(file, temp);
  }

  lemma NoneElsewhereIsSwept(file: string, dir: Directory)
    ensures forall name :: Elsewhere(file, name) ==> name !in Leftovers(file, dir)
  {
    forall name | Elsewhere(file, name) ensures name !in Leftovers(file, dir) {
      SweptNamesStartSo(file, name);
    }
  }

  lemma SweptClears(dir: Directory, file: string, temp: string)
    requires IsTemp(file, temp)
    ensures (temp in dir ==> dir[temp].Regular?) && (file in dir ==> !dir[file].Link?) ==>
              Clear(dir - Leftovers(file, dir), file, temp)
  {
  }

  /** What a mutation's answer says of the bytes found and the bytes standing. */
  ghost predicate Explains(r: Mutated, edit: Option<Bytes> -> Edited, was: View, now: View) {
    match r
    case Ok(written) =>
      && !was.Alien? && edit(Found(was)).Render? && now == Holds(edit(Found(was)).bytes)
      && written == (now != was)
    case Confirmless =>
      !was.Alien? && edit(Found(was)).Render? && now == Holds(edit(Found(was)).bytes) && now != was
    case ApplyRefused => !was.Alien? && edit(Found(was)).Refuse? && now == was
    case _ => now == was
  }

  /** What a power cut may leave at any moment of a mutation. */
  ghost function AtRisk(edit: Option<Bytes> -> Edited, was: View, olds: set<View>): set<View> {
    if !was.Alien? && edit(Found(was)).Render? then olds + {Holds(edit(Found(was)).bytes)} else olds
  }

  /** What a power cut may leave once a mutation has answered. */
  ghost function Left(r: Mutated, edit: Option<Bytes> -> Edited, was: View, olds: set<View>): set<View> {
    match r
    case Ok(true) => AtRisk(edit, was, {})
    case Confirmless => AtRisk(edit, was, olds)
    case _ => olds
  }

  lemma RefusedIsExplained(edit: Option<Bytes> -> Edited, was: View, olds: set<View>)
    ensures Explains(Io, edit, was, was) && Left(Io, edit, was, olds) == olds
  {
  }

  lemma TrailAtRisk(trail: seq<Fs>, from: nat, file: string, edit: Option<Bytes> -> Edited, was: View, olds: set<View>)
    requires forall k :: from <= k < |trail| ==> ShowsOnly(trail[k], file, olds)
    ensures forall k :: from <= k < |trail| ==> ShowsOnly(trail[k], file, AtRisk(edit, was, olds))
  {
    forall k | from <= k < |trail| ensures ShowsOnly(trail[k], file, AtRisk(edit, was, olds)) {
      MoreShow(trail[k], file, olds, AtRisk(edit, was, olds));
    }
  }

  lemma ShownIsWellFormed(fs: Fs, file: string, views: set<View>)
    requires ShowsOnly(fs, file, views)
    ensures fs.WellFormed()
  {
  }

  lemma FillShows(before: Fs, after: Fs, file: string, ino: nat, olds: set<View>)
    requires ShowsOnly(before, file, olds) && ino in before.files
    requires Refilled(before, after, ino)
    requires forall k :: 0 <= k < |before.past| && file in before.past[k] ==> before.past[k][file] != Regular(ino)
    ensures ShowsOnly(after, file, olds)
    ensures ViewIn(after, after.Dir(), file) == ViewIn(before, before.Dir(), file)
  {
    ElsewhereShows(before, after, file, olds);
  }

  lemma MoreShow(fs: Fs, file: string, views: set<View>, more: set<View>)
    requires ShowsOnly(fs, file, views) && views <= more
    ensures ShowsOnly(fs, file, more)
  {
    forall k | 0 <= k < |fs.past| ensures Shows(fs, fs.past[k], file, more) {
      assert Shows(fs, fs.past[k], file, views);
    }
  }

  lemma CreateShows(fs: Fs, file: string, temp: string, olds: set<View>)
    requires ShowsOnly(fs, file, olds) && temp != file
    ensures ShowsOnly(Create(fs, temp), file, olds)
    ensures ViewIn(Create(fs, temp), Create(fs, temp).Dir(), file) == ViewIn(fs, fs.Dir(), file)
    ensures var after := Create(fs, temp);
            forall k :: 0 <= k < |after.past| && file in after.past[k] ==> after.past[k][file] != Regular(fs.next)
  {
    ElsewhereShows(fs, Create(fs, temp), file, olds);
  }

  lemma UnlinkShows(fs: Fs, file: string, name: string, olds: set<View>)
    requires ShowsOnly(fs, file, olds) && name != file
    ensures ShowsOnly(Unlink(fs, name), file, olds)
    ensures ViewIn(Unlink(fs, name), Unlink(fs, name).Dir(), file) == ViewIn(fs, fs.Dir(), file)
  {
    ElsewhereShows(fs, Unlink(fs, name), file, olds);
  }

  lemma RenameShows(fs: Fs, file: string, temp: string, bytes: Bytes, olds: set<View>)
    requires ShowsOnly(fs, file, olds) && temp in fs.Dir() && fs.Dir()[temp].Regular?
    requires fs.files[fs.Dir()[temp].ino] == File(bytes, true)
    ensures ShowsOnly(Rename(fs, temp, file), file, olds + {Holds(bytes)})
    ensures ViewIn(Rename(fs, temp, file), Rename(fs, temp, file).Dir(), file) == Holds(bytes)
  {
    var after := Rename(fs, temp, file);
    forall k | 0 <= k < |after.past| ensures Shows(after, after.past[k], file, olds + {Holds(bytes)}) {
      if k < |fs.past| {
        assert Shows(fs, fs.past[k], file, olds);
      }
    }
  }
}
