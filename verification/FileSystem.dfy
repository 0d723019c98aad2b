/**
 One config directory, as a file system keeps it: inodes apart from the names
 that reach them, and what a reader sees now apart from what a power cut leaves.

 - `past` holds every state of the directory since its last fsync, oldest first;
   the last of them is the directory as it stands. A power cut leaves any one.
 - A file is `synced` from its fsync until it is written again. A power cut
   leaves a synced file's bytes and arbitrary bytes in any other.

 An inode number is never handed out twice (`next`), which is what holding a
 handle on a file guarantees about the numbers compared here.
 */
module FileSystem {
  import opened Prelude
  import opened Numerals

  /** What a name leads to: a file, a link leading to one, or anything else. */
  datatype Entry = Regular(ino: nat) | Link(to: nat) | Other

  type Directory = map<string, Entry>

  datatype File = File(bytes: Bytes, synced: bool)

  datatype Fs = Fs(files: map<nat, File>, past: seq<Directory>, next: nat) {
    predicate WellFormed() {
      && past != []
      && (forall i :: i in files ==> i < next)
      && (forall k, name :: 0 <= k < |past| && name in past[k] && past[k][name].Regular?
            ==> past[k][name].ino in files)
    }

    function Dir(): Directory
      requires past != []
    {
      past[|past| - 1]
    }
  }

  /** What a reader of one name meets: nothing, a file's bytes, or no file. */
  datatype View = Absent | Holds(bytes: Bytes) | Alien

  function ViewIn(fs: Fs, dir: Directory, name: string): View
    requires name in dir && dir[name].Regular? ==> dir[name].ino in fs.files
  {
    if name !in dir then Absent
    else if dir[name].Regular? then Holds(fs.files[dir[name].ino].bytes)
    else Alien
  }

  /** The file a stat of `name` answers with; a stat follows a link. */
  function Identity(dir: Directory, name: string): Option<nat> {
    if name !in dir then None
    else match dir[name]
      case Regular(ino) => Some(ino)
      case Link(to) => Some(to)
      case Other => None
  }

  // ----- what a writer does to it

  function SetEntry(fs: Fs, name: string, entry: Entry): Fs
    requires fs.past != []
  {
    fs.(past := fs.past + [fs.Dir()[name := entry]])
  }

  function Unlink(fs: Fs, name: string): Fs
    requires fs.past != []
  {
    fs.(past := fs.past + [fs.Dir() - {name}])
  }

  /** A new empty file at `name`; its inode is `fs.next`. */
  function Create(fs: Fs, name: string): Fs
    requires fs.past != []
  {
    SetEntry(fs.(files := fs.files[fs.next := File([], false)], next := fs.next + 1), name, Regular(fs.next))
  }

  function Write(fs: Fs, ino: nat, bytes: Bytes): Fs {
    fs.(files := fs.files[ino := File(bytes, false)])
  }

  function SyncFile(fs: Fs, ino: nat): Fs
    requires ino in fs.files
  {
    fs.(files := fs.files[ino := fs.files[ino].(synced := true)])
  }

  function Rename(fs: Fs, from: string, to: string): Fs
    requires fs.past != [] && from in fs.Dir()
  {
    fs.(past := fs.past + [(fs.Dir() - {from})[to := fs.Dir()[from]]])
  }

  function SyncDir(fs: Fs): Fs
    requires fs.past != []
  {
    fs.(past := [fs.Dir()])
  }

  /** Whether a power cut over `before` can leave `after`, keeping the
      directory's state number `kept`. */
  ghost predicate Survives(before: Fs, after: Fs, kept: nat) {
    && kept < |before.past|
    && after.past == [before.past[kept]]
    && after.next == before.next
    && after.files.Keys == before.files.Keys
    && (forall i :: i in before.files && before.files[i].synced ==> after.files[i] == before.files[i])
    && (forall i :: i in after.files ==> after.files[i].synced)
  }

  // ----- the names one guarded file takes beside itself

  function LockName(file: string): string {
    "." + file + ".lock"
  }

  function TempPrefix(file: string): string {
    "." + file + ".tmp-"
  }

  function TempName(file: string, pid: nat, serial: nat): string {
    TempPrefix(file) + Digits(pid) + "-" + Digits(serial)
  }

  predicate IsTemp(file: string, name: string) {
    TempPrefix(file) <= name
  }

  /** What a sweep takes: the names that start so, and no others. */
  lemma SweptNamesStartSo(file: string, name: string)
    ensures IsTemp(file, name) <==> ("." + file + ".tmp-") <= name
  {
  }

  /** The sweep's test takes every temporary and neither the lock nor the file. */
  lemma TempNamesStandApart(file: string, pid: nat, serial: nat)
    ensures IsTemp(file, TempName(file, pid, serial))
    ensures !IsTemp(file, LockName(file)) && !IsTemp(file, file)
    ensures LockName(file) != file
  {
    assert TempPrefix(file)[|file| + 2] == 't';
    assert LockName(file)[|file| + 2] == 'l';
  }

  /** No two temporaries of a file share a name, unless one process gave one serial
      twice. */
  lemma TempNamesAreApart(file: string, pid: nat, serial: nat, pid': nat, serial': nat)
    ensures TempName(file, pid, serial) == TempName(file, pid', serial') <==> pid == pid' && serial == serial'
  {
    if TempName(file, pid, serial) == TempName(file, pid', serial') {
      var a, b := Digits(pid) + "-" + Digits(serial), Digits(pid') + "-" + Digits(serial');
      assert a == TempName(file, pid, serial)[|TempPrefix(file)|..];
      assert b == TempName(file, pid', serial')[|TempPrefix(file)|..];
      OneDash(Digits(pid), Digits(serial), Digits(pid'), Digits(serial'));
      DigitsSayWhich(pid, pid');
      DigitsSayWhich(serial, serial');
    }
  }

  predicate AllDigits(s: string) {
    forall c :: c in s ==> IsDigit(c)
  }

  lemma OneDash(a: string, b: string, c: string, d: string)
    requires AllDigits(a) && AllDigits(b) && AllDigits(c) && AllDigits(d) && a + "-" + b == c + "-" + d
    ensures a == c && b == d
  {
    DashIsAt(a, b);
    DashIsAt(c, d);
    assert (a + "-" + b)[|a|] == '-' && (c + "-" + d)[|a|] == '-';
    assert a == (a + "-" + b)[..|a|] && b == (a + "-" + b)[|a| + 1..];
    assert c == (c + "-" + d)[..|c|] && d == (c + "-" + d)[|c| + 1..];
  }

  lemma DashIsAt(a: string, b: string)
    requires AllDigits(a) && AllDigits(b)
    ensures forall i :: 0 <= i < |a + "-" + b| ==> ((a + "-" + b)[i] == '-' <==> i == |a|)
  {
    var s := a + "-" + b;
    forall i | 0 <= i < |s| ensures s[i] == '-' <==> i == |a| {
      assert i < |a| ==> s[i] == a[i] && a[i] in a;
      assert i > |a| ==> s[i] == b[i - |a| - 1] && b[i - |a| - 1] in b;
    }
  }

  // ----- what the names of one guarded file leave to the others

  /** The name of a file in its own right: it starts with no dot. */
  predicate Undotted(g: string) {
    g == "" || g[0] != '.'
  }

  /** Another guarded file, and not one named for `file` and a temporary. */
  predicate Another(file: string, g: string) {
    g != file && Undotted(g) && !(file + ".tmp-" <= g)
  }

  /** A name no mutation of `file` has to do with. */
  predicate Elsewhere(file: string, name: string) {
    name != file && name != "." + file + ".lock" && !("." + file + ".tmp-" <= name)
  }

  /** Every other guarded file is elsewhere, and so are its lock and each of its
      temporaries. */
  lemma OthersAreElsewhere(file: string, g: string, pid: nat, serial: nat)
    requires Undotted(file) && Another(file, g)
    ensures Elsewhere(file, g) && Elsewhere(file, LockName(g)) && Elsewhere(file, TempName(g, pid, serial))
  {
    LocksAreElsewhere(file, g);
    TempsAreElsewhere(file, g, pid, serial);
  }

  lemma LocksAreElsewhere(file: string, g: string)
    requires Undotted(file) && Another(file, g)
    ensures Elsewhere(file, LockName(g))
  {
    assert LockName(g)[0] == '.';
    LocksAreApart(file, g);
    TailOfPrefix(file);
    if "." + file + ".tmp-" <= "." + g + ".lock" {
      TakenFrom(file, g, ".lock");
      LastIsFrom(file + ".tmp-", g, ".lock", |file| + 5 - |g|);
    }
  }

  /** Different files have different locks. */
  lemma LocksAreApart(file: string, g: string)
    ensures LockName(file) == LockName(g) <==> file == g
  {
    assert LockName(file)[1..|LockName(file)| - 5] == file;
    assert LockName(g)[1..|LockName(g)| - 5] == g;
  }

  lemma TailOfPrefix(file: string)
    ensures var over := file + ".tmp-"; over[|over| - 1] == '-' && over[|over| - 2] == 'p' && over[..|over| - 5] == file
  {
  }

  /** The last two characters of something cut off inside `rest`. */
  lemma LastIsFrom(over: string, g: string, rest: string, n: nat)
    requires 0 < n <= |rest| && over == g + rest[..n]
    ensures |over| == |g| + n && over[|over| - 1] == rest[n - 1]
    ensures n >= 2 ==> over[|over| - 2] == rest[n - 2]
    ensures n >= 5 ==> over[..|over| - 5] == g + rest[..n - 5]
  {
  }

  /** What starts as a temporary of `file` and goes on from `g` either starts with
      all of it in `g`, or ends inside what `g` is followed by. */
  lemma TakenFrom(file: string, g: string, rest: string)
    requires "." + file + ".tmp-" <= "." + g + rest
    ensures file + ".tmp-" <= g || (|g| <= |file| + 5 <= |g| + |rest| && file + ".tmp-" == g + rest[..|file| + 5 - |g|])
  {
    var over, all := file + ".tmp-", g + rest;
    assert ("." + file + ".tmp-")[1..] == over && ("." + g + rest)[1..] == all;
    assert over <= all;
    if |over| <= |g| {
      assert over == all[..|over|] == g[..|over|];
    } else {
      assert over == all[..|over|] == g + rest[..|over| - |g|];
    }
  }

  lemma TempsAreElsewhere(file: string, g: string, pid: nat, serial: nat)
    requires Undotted(file) && Another(file, g)
    ensures Elsewhere(file, TempName(g, pid, serial))
  {
    var p, q := Digits(pid), Digits(serial);
    assert TempName(g, pid, serial) == "." + g + (".tmp-" + p + "-" + q);
    hide Digits, TempName;
    TempEndsInADigit(g, p, q);
    TempIsNotTaken(file, g, p, q);
  }

  lemma TempEndsInADigit(g: string, p: string, q: string)
    requires AllDigits(q) && q != ""
    ensures var name := "." + g + (".tmp-" + p + "-" + q); name[0] == '.' && IsDigit(name[|name| - 1])
  {
    var name := "." + g + (".tmp-" + p + "-" + q);
    assert name[|name| - 1] == q[|q| - 1];
  }

  lemma TempIsNotTaken(file: string, g: string, p: string, q: string)
    requires Another(file, g) && AllDigits(p) && AllDigits(q) && p != ""
    ensures !("." + file + ".tmp-" <= "." + g + (".tmp-" + p + "-" + q))
  {
    var rest := ".tmp-" + p + "-" + q;
    TailOfPrefix(file);
    if "." + file + ".tmp-" <= "." + g + rest {
      TakenFrom(file, g, rest);
      var n := |file| + 5 - |g|;
      LastIsFrom(file + ".tmp-", g, rest, n);
      DashesAreAt(p, q, n - 1);
    }
  }

  /** A temporary's name, after its file's, has a dash in two places only. */
  lemma DashesAreAt(p: string, q: string, i: nat)
    requires AllDigits(p) && AllDigits(q) && p != ""
    requires i < |".tmp-" + p + "-" + q|
    ensures var rest := ".tmp-" + p + "-" + q;
            rest[i] == '-' ==> (i == 4 || (i == |p| + 5 && rest[i - 1] in p))
  {
    var rest := ".tmp-" + p + "-" + q;
    DashIsAt(p, q);
    if i >= 5 {
      assert rest[i] == (p + "-" + q)[i - 5];
      if i == |p| + 5 {
        assert rest[i - 1] == p[|p| - 1];
      }
    }
  }
}
