/**
 Forward-slash paths as strings of any kind of character: splitting at a
 separator, joining, and how the two undo each other.
 */
module Paths {
  import opened Prelude

  /** The parts of `s` between separators; the empty string has one, empty. */
  function Split<T(==)>(s: seq<T>, sep: T): (parts: seq<seq<T>>)
    ensures |parts| >= 1
  {
    if s == [] then [[]]
    else
      var rest := Split(s[1..], sep);
      if s[0] == sep then [[]] + rest else [[s[0]] + rest[0]] + rest[1..]
  }

  function Join<T>(parts: seq<seq<T>>, sep: T): seq<T> {
    if parts == [] then []
    else if |parts| == 1 then parts[0]
    else parts[0] + [sep] + Join(parts[1..], sep)
  }

  lemma {:induction false} JoinOfSplit<T>(s: seq<T>, sep: T)
    ensures Join(Split(s, sep), sep) == s
    ensures forall p :: p in Split(s, sep) ==> sep !in p
  {
    if s != [] {
      JoinOfSplit(s[1..], sep);
      var rest := Split(s[1..], sep);
      if s[0] == sep {
        assert ([[]] + rest)[1..] == rest;
      } else {
        var parts := [[s[0]] + rest[0]] + rest[1..];
        assert parts[1..] == rest[1..];
        assert Join(parts, sep) == [s[0]] + Join(rest, sep);
      }
    }
  }

  /** A separator between two strings is where their parts meet. */
  lemma {:induction false} SplitAcross<T>(a: seq<T>, b: seq<T>, sep: T)
    ensures Split(a + [sep] + b, sep) == Split(a, sep) + Split(b, sep)
  {
    var s := a + [sep] + b;
    if a == [] {
      assert s[1..] == b;
    } else {
      assert s[1..] == a[1..] + [sep] + b;
      SplitAcross(a[1..], b, sep);
    }
  }

  lemma {:induction false} SplitOfPlain<T>(p: seq<T>, sep: T)
    requires sep !in p
    ensures Split(p, sep) == [p]
  {
    if p != [] {
      SplitOfPlain(p[1..], sep);
      assert [p[0]] + p[1..] == p;
    }
  }

  lemma {:induction false} SplitOfJoin<T>(parts: seq<seq<T>>, sep: T)
    requires parts != [] && forall p :: p in parts ==> sep !in p
    ensures Split(Join(parts, sep), sep) == parts
  {
    SplitOfPlain(parts[0], sep);
    if |parts| > 1 {
      SplitOfJoin(parts[1..], sep);
      SplitAcross(parts[0], Join(parts[1..], sep), sep);
      assert [parts[0]] + parts[1..] == parts;
    }
  }

  lemma {:induction false} JoinAcross<T>(a: seq<seq<T>>, b: seq<seq<T>>, sep: T)
    requires a != [] && b != []
    ensures Join(a + b, sep) == Join(a, sep) + [sep] + Join(b, sep)
  {
    if |a| == 1 {
      assert (a + b)[1..] == b;
    } else {
      assert (a + b)[1..] == a[1..] + b;
      JoinAcross(a[1..], b, sep);
    }
  }

  /** Where the last separator stands. */
  function LastIndex<T(==)>(s: seq<T>, sep: T): (r: Option<nat>)
    ensures r.None? ==> sep !in s
    ensures r.Some? ==> r.value < |s| && s[r.value] == sep && sep !in s[r.value + 1..]
  {
    if s == [] then None
    else if s[|s| - 1] == sep then Some(|s| - 1)
    else
      var r := LastIndex(s[..|s| - 1], sep);
      assert s == s[..|s| - 1] + [s[|s| - 1]];
      assert r.Some? ==> s[r.value + 1..] == s[..|s| - 1][r.value + 1..] + [s[|s| - 1]];
      r
  }

  lemma LastIndexIs<T>(a: seq<T>, b: seq<T>, sep: T)
    requires sep !in b
    ensures LastIndex(a + [sep] + b, sep) == Some(|a|)
  {
    var s := a + [sep] + b;
    assert s[|a|] == sep;
    assert s[|a| + 1..] == b;
    forall i | 0 <= i < |a| && s[i] == sep ensures s[|a|] in s[i + 1..] {
      assert s[i + 1..][|a| - i - 1] == s[|a|];
    }
  }

  // ----- vault-relative paths

  const SLASH: char := '/'

  function Components(path: string): seq<string> {
    if path == "" then [] else Split(path, SLASH)
  }

  /** The directory holding `rel`; the vault root is the empty string. */
  function ParentOf(rel: string): string {
    match LastIndex(rel, SLASH)
    case Some(at) => rel[..at]
    case None => ""
  }

  function JoinName(dir: string, name: string): string {
    if dir == "" then name else dir + "/" + name
  }

  function Depth(dir: string): nat {
    |Components(dir)|
  }

  /** A part of a normalized path: a name, and neither `.` nor `..`. */
  predicate PlainName(p: string) {
    p != "" && p != "." && p != ".." && SLASH !in p
  }

  predicate Plain(parts: seq<string>) {
    forall p :: p in parts ==> PlainName(p)
  }

  predicate Normal(path: string) {
    Plain(Components(path))
  }

  lemma NormalIsJoin(path: string)
    requires Normal(path)
    ensures path == Join(Components(path), SLASH)
  {
    JoinOfSplit(path, SLASH);
  }

  lemma ParentOfJoined(dir: string, name: string)
    requires SLASH !in name
    ensures ParentOf(JoinName(dir, name)) == dir
  {
    if dir != "" {
      assert JoinName(dir, name) == dir + [SLASH] + name;
      LastIndexIs(dir, name, SLASH);
    }
  }

  /** What a path ends in: what follows its last separator. */
  function LastPart(path: string): string {
    match LastIndex(path, SLASH)
    case Some(at) => path[at + 1..]
    case None => path
  }

  lemma LastPartOfJoined(dir: string, name: string)
    requires SLASH !in name
    ensures LastPart(JoinName(dir, name)) == name
  {
    if dir != "" {
      assert JoinName(dir, name) == dir + [SLASH] + name;
      LastIndexIs(dir, name, SLASH);
    }
  }
}
