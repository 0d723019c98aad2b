/**
 The contract digest of a generated tree: what the writer records as it writes,
 and the byte stream it feeds the hash, read back as the tree it came from.

 Names and targets are byte strings. Their order is that of a sorted set, as
 bytes compare.
 */
module TreeDigest {
  import opened Prelude
  import opened Digest
  import opened Paths

  type Name = Bytes

  /** A path's record: what it is, and the bytes that say so. */
  datatype Node =
    | Dir(path: Name)
    | File(path: Name, digest: Bytes)
    | Link(path: Name, target: Name)

  const D: byte := 0x64
  const F: byte := 0x66
  const L: byte := 0x6c

  /** What one node adds to the stream. */
  function Record(n: Node): Bytes {
    match n
    case Dir(path) => Framed(path) + [D]
    case File(path, digest) => Framed(path) + [F] + digest
    case Link(path, target) => Framed(path) + [L] + Framed(target)
  }

  function Stream(nodes: seq<Node>): Bytes {
    if nodes == [] then [] else Record(nodes[0]) + Stream(nodes[1..])
  }

  /** A node whose lengths fit their eight bytes and whose digest is 32 long. */
  predicate Sound(n: Node) {
    && |n.path| < TWO_64
    && (n.File? ==> |n.digest| == 32)
    && (n.Link? ==> |n.target| < TWO_64)
  }

  predicate AllSound(nodes: seq<Node>) {
    forall i :: 0 <= i < |nodes| ==> Sound(nodes[i])
  }

  // ----- reading the stream back

  function Pow256(n: nat): nat {
    if n == 0 then 1 else 256 * Pow256(n - 1)
  }

  lemma {:induction false} BigEndianInjective(m: nat, n: nat, width: nat)
    requires m < Pow256(width) && n < Pow256(width)
    requires Fips180.BigEndian(m, width) == Fips180.BigEndian(n, width)
    ensures m == n
  {
    if width > 0 {
      var a, b := Fips180.BigEndian(m, width), Fips180.BigEndian(n, width);
      assert a[..width - 1] == Fips180.BigEndian(m / 256, width - 1);
      assert b[..width - 1] == Fips180.BigEndian(n / 256, width - 1);
      assert a[width - 1] == (m % 256) as byte && b[width - 1] == (n % 256) as byte;
      BigEndianInjective(m / 256, n / 256, width - 1);
    }
  }

  lemma EightBytesHold()
    ensures Pow256(8) == TWO_64
  {
    assert Pow256(4) == 0x1_0000_0000;
    assert Pow256(6) == 0x1_0000_0000_0000;
  }

  /** A framed string ends where its length says, whatever follows it. */
  lemma FramedIsSelfDelimiting(a: Bytes, s: Bytes, b: Bytes, t: Bytes)
    requires |a| < TWO_64 && |b| < TWO_64
    requires Framed(a) + s == Framed(b) + t
    ensures a == b && s == t
  {
    hide Fips180.BigEndian, Pow256;
    var x, y := Framed(a) + s, Framed(b) + t;
    assert x[..8] == Fips180.BigEndian(|a|, 8) && y[..8] == Fips180.BigEndian(|b|, 8);
    EightBytesHold();
    BigEndianInjective(|a|, |b|, 8);
    assert x[8..8 + |a|] == a && y[8..8 + |b|] == b;
    assert x[8 + |a|..] == s && y[8 + |b|..] == t;
  }

  lemma RecordIsSelfDelimiting(m: Node, s: Bytes, n: Node, t: Bytes)
    requires Sound(m) && Sound(n) && Record(m) + s == Record(n) + t
    ensures m == n && s == t
  {
    hide Framed;
    var restM, restN := AfterPath(m) + s, AfterPath(n) + t;
    RecordSplits(m, s);
    RecordSplits(n, t);
    FramedIsSelfDelimiting(m.path, restM, n.path, restN);
    RestIsSelfDelimiting(m, s, n, t);
  }

  lemma RestIsSelfDelimiting(m: Node, s: Bytes, n: Node, t: Bytes)
    requires Sound(m) && Sound(n) && m.path == n.path && AfterPath(m) + s == AfterPath(n) + t
    ensures m == n && s == t
  {
    hide Framed;
    var restM, restN := AfterPath(m) + s, AfterPath(n) + t;
    assert restM[0] == restN[0];
    match m
    case Dir(_) =>
      assert restM[1..] == s && restN[1..] == t;
    case File(_, digest) =>
      assert restM[1..33] == digest && restM[33..] == s;
      assert restN[1..33] == n.digest && restN[33..] == t;
    case Link(_, target) =>
      assert restM[1..] == Framed(target) + s && restN[1..] == Framed(n.target) + t;
      FramedIsSelfDelimiting(target, s, n.target, t);
  }

  function AfterPath(n: Node): Bytes {
    match n
    case Dir(_) => [D]
    case File(_, digest) => [F] + digest
    case Link(_, target) => [L] + Framed(target)
  }

  lemma RecordSplits(n: Node, s: Bytes)
    ensures Record(n) + s == Framed(n.path) + (AfterPath(n) + s)
  {
    hide Framed;
  }

  /** Equal streams are of equal nodes, in equal order. */
  lemma {:induction false} StreamInjective(ms: seq<Node>, ns: seq<Node>)
    requires AllSound(ms) && AllSound(ns) && Stream(ms) == Stream(ns)
    ensures ms == ns
  {
    if ms == [] || ns == [] {
      RecordIsNotEmpty(ms);
      RecordIsNotEmpty(ns);
    } else {
      RecordIsSelfDelimiting(ms[0], Stream(ms[1..]), ns[0], Stream(ns[1..]));
      StreamInjective(ms[1..], ns[1..]);
    }
  }

  lemma RecordIsNotEmpty(ns: seq<Node>)
    ensures Stream(ns) == [] <==> ns == []
  {
    if ns != [] {
      assert |Record(ns[0])| >= 9;
    }
  }

  // ----- sorted order

  predicate Less(a: Name, b: Name) {
    b != [] && (a == [] || a[0] < b[0] || (a[0] == b[0] && Less(a[1..], b[1..])))
  }

  lemma {:induction false} LessIsTotal(a: Name, b: Name)
    requires a != b
    ensures Less(a, b) || Less(b, a)
  {
    if a != [] && b != [] && a[0] == b[0] {
      assert a == [a[0]] + a[1..] && b == [b[0]] + b[1..];
      LessIsTotal(a[1..], b[1..]);
    }
  }

  lemma {:induction false} LessIsTransitive(a: Name, b: Name, c: Name)
    requires Less(a, b) && Less(b, c)
    ensures Less(a, c)
  {
    if a != [] && a[0] == b[0] == c[0] {
      LessIsTransitive(a[1..], b[1..], c[1..]);
    }
  }

  lemma {:induction false} LessIsIrreflexive(a: Name)
    ensures !Less(a, a)
  {
    if a != [] {
      LessIsIrreflexive(a[1..]);
    }
  }

  /** The names of a set, in order, each once. */
  ghost predicate Lists(names: seq<Name>, s: set<Name>) {
    && (forall i, j :: 0 <= i < j < |names| ==> Less(names[i], names[j]))
    && (forall n :: n in names <==> n in s)
  }

  lemma {:induction false} LeastExists(s: set<Name>) returns (least: Name)
    requires s != {}
    ensures least in s && forall n :: n in s && n != least ==> Less(least, n)
    decreases |s|
  {
    var some :| some in s;
    if s == {some} {
      least := some;
    } else {
      var rest := s - {some};
      assert some !in rest && rest != {};
      least := LeastExists(rest);
      if Less(some, least) {
        forall n | n in s && n != some ensures Less(some, n) {
          if n != least {
            LessIsTransitive(some, least, n);
          }
        }
        least := some;
      } else {
        LessIsTotal(some, least);
      }
    }
  }

  /** A sorted set has one listing, which is what makes its digest its own. */
  lemma {:induction false} ListingIsUnique(a: seq<Name>, b: seq<Name>, s: set<Name>)
    requires Lists(a, s) && Lists(b, s)
    ensures a == b
    decreases |a|
  {
    ListsNothing(a, s);
    ListsNothing(b, s);
    if a != [] {
      assert a[0] in a && b[0] in b;
      if a[0] != b[0] {
        HeadIsLeast(a, b[0]);
        HeadIsLeast(b, a[0]);
        LessIsTransitive(a[0], b[0], a[0]);
        LessIsIrreflexive(a[0]);
      }
      TailLists(a, s);
      TailLists(b, s);
      ListingIsUnique(a[1..], b[1..], s - {a[0]});
    }
  }

  lemma ListsNothing(a: seq<Name>, s: set<Name>)
    requires Lists(a, s)
    ensures a == [] <==> s == {}
  {
    if a != [] {
      assert a[0] in a;
    }
    if s != {} {
      var n :| n in s;
      assert n in a;
    }
  }

  lemma HeadIsLeast(a: seq<Name>, n: Name)
    requires a != [] && n in a && n != a[0] && forall i, j :: 0 <= i < j < |a| ==> Less(a[i], a[j])
    ensures Less(a[0], n)
  {
  }

  lemma TailLists(a: seq<Name>, s: set<Name>)
    requires a != [] && Lists(a, s)
    ensures Lists(a[1..], s - {a[0]})
  {
    hide Less;
    forall n ensures n in a[1..] <==> n in s - {a[0]} {
      if n in a[1..] {
        var i :| 0 <= i < |a| - 1 && a[1..][i] == n;
        assert Less(a[0], a[i + 1]);
        LessIsIrreflexive(n);
      }
    }
  }

  /** The names of a sorted set, in the order it is walked. */
  method Sorted(s: set<Name>) returns (names: seq<Name>)
    ensures Lists(names, s)
  {
    names := [];
    var rest := s;
    while rest != {}
      invariant rest <= s && Lists(names, s - rest)
      invariant forall n, r :: n in names && r in rest ==> Less(n, r)
      decreases |rest|
    {
      ghost var least := LeastExists(rest);
      var next :| next in rest && forall n :: n in rest && n != next ==> Less(next, n);
      var more := names + [next];
      forall n ensures n in more <==> n in s - (rest - {next}) {
      }
      forall n, r | n in more && r in rest - {next} ensures Less(n, r) {
      }
      rest := rest - {next};
      names := more;
    }
    assert s - rest == s;
  }

  // ----- the writer

  /** Everything a generation recorded: its directories, the digest of each
      file's bytes, and the target of each link. */
  datatype Tree = Tree(dirs: set<Name>, files: map<Name, Bytes>, links: map<Name, Name>) {
    ghost predicate Sized() {
      && (forall d :: d in dirs ==> |d| < TWO_64)
      && (forall f :: f in files ==> |f| < TWO_64 && |files[f]| == 32)
      && (forall l :: l in links ==> |l| < TWO_64 && |links[l]| < TWO_64)
    }
  }

  function Nodes(t: Tree, dirs: seq<Name>, files: seq<Name>, links: seq<Name>): (nodes: seq<Node>)
    requires (forall f :: f in files ==> f in t.files) && (forall l :: l in links ==> l in t.links)
    ensures |nodes| == |dirs| + |files| + |links|
  {
    seq(|dirs|, i requires 0 <= i < |dirs| => Dir(dirs[i]))
    + seq(|files|, i requires 0 <= i < |files| => assert files[i] in files; File(files[i], t.files[files[i]]))
    + seq(|links|, i requires 0 <= i < |links| => assert links[i] in links; Link(links[i], t.links[links[i]]))
  }

  /** `stream` is what the digest of `t` is taken over. */
  ghost predicate IsPreImage(t: Tree, stream: Bytes) {
    exists dirs, files, links ::
      && Lists(dirs, t.dirs) && Lists(files, t.files.Keys) && Lists(links, t.links.Keys)
      && stream == Stream(Nodes(t, dirs, files, links))
  }

  lemma NodesAt(t: Tree, dirs: seq<Name>, files: seq<Name>, links: seq<Name>, i: nat)
    requires (forall f :: f in files ==> f in t.files) && (forall l :: l in links ==> l in t.links)
    requires i < |dirs| + |files| + |links|
    ensures Nodes(t, dirs, files, links)[i] ==
            if i < |dirs| then Dir(dirs[i])
            else if i < |dirs| + |files| then File(files[i - |dirs|], t.files[files[i - |dirs|]])
            else Link(links[i - |dirs| - |files|], t.links[links[i - |dirs| - |files|]])
  {
  }

  lemma AfterPathIs(n: Node)
    ensures n.Dir? ==> AfterPath(n) == [D]
    ensures n.File? ==> AfterPath(n) == [F] + n.digest
    ensures n.Link? ==> AfterPath(n) == [L] + Framed(n.target)
  {
  }

  lemma NodesAreSound(t: Tree, dirs: seq<Name>, files: seq<Name>, links: seq<Name>)
    requires t.Sized() && Lists(dirs, t.dirs) && Lists(files, t.files.Keys) && Lists(links, t.links.Keys)
    ensures AllSound(Nodes(t, dirs, files, links))
  {
    var nodes := Nodes(t, dirs, files, links);
    forall i | 0 <= i < |nodes| ensures Sound(nodes[i]) {
      NodesAt(t, dirs, files, links, i);
      if i < |dirs| {
        assert dirs[i] in dirs;
      } else if i < |dirs| + |files| {
        assert files[i - |dirs|] in files;
      } else {
        assert links[i - |dirs| - |files|] in links;
      }
    }
  }

  /** How many nodes of each kind a list has shows where the next kind starts. */
  lemma SectionsAgree(t: Tree, d: seq<Name>, f: seq<Name>, l: seq<Name>,
                      u: Tree, d': seq<Name>, f': seq<Name>, l': seq<Name>)
    requires (forall x :: x in f ==> x in t.files) && (forall x :: x in l ==> x in t.links)
    requires (forall x :: x in f' ==> x in u.files) && (forall x :: x in l' ==> x in u.links)
    requires Nodes(t, d, f, l) == Nodes(u, d', f', l')
    ensures d == d' && f == f' && l == l'
    ensures forall x :: x in f ==> t.files[x] == u.files[x]
    ensures forall x :: x in l ==> t.links[x] == u.links[x]
  {
    hide Nodes;
    var ns := Nodes(t, d, f, l);
    var files, files' := |d| + |f|, |d'| + |f'|;
    forall i: nat | i < |ns| ensures Below(i, |d|) <==> Below(i, |d'|) {
      NodesAt(t, d, f, l, i);
      NodesAt(u, d', f', l', i);
    }
    forall i: nat | i < |ns| ensures Below(i, files) <==> Below(i, files') {
      NodesAt(t, d, f, l, i);
      NodesAt(u, d', f', l', i);
    }
    SameBound(|ns|, |d|, |d'|);
    SameBound(|ns|, files, files');
    forall i | 0 <= i < |d| ensures d[i] == d'[i] {
      NodesAt(t, d, f, l, i);
      NodesAt(u, d', f', l', i);
    }
    forall i | 0 <= i < |f| ensures f[i] == f'[i] && t.files[f[i]] == u.files[f[i]] {
      NodesAt(t, d, f, l, |d| + i);
      NodesAt(u, d', f', l', |d| + i);
    }
    forall i | 0 <= i < |l| ensures l[i] == l'[i] && t.links[l[i]] == u.links[l[i]] {
      NodesAt(t, d, f, l, |d| + |f| + i);
      NodesAt(u, d', f', l', |d| + |f| + i);
    }
  }

  predicate Below(i: nat, n: nat) {
    i < n
  }

  lemma SameBound(n: nat, a: nat, b: nat)
    requires a <= n && b <= n && forall i: nat :: i < n ==> (Below(i, a) <==> Below(i, b))
    ensures a == b
  {
    assert !Below(a, a) && !Below(b, b);
  }

  /** The byte stream under a tree's digest names one tree: the same directories,
      the same file at every path with the same digest, the same target at every
      link. */
  lemma PreImageNamesOneTree(t: Tree, u: Tree, stream: Bytes)
    requires t.Sized() && u.Sized() && IsPreImage(t, stream) && IsPreImage(u, stream)
    ensures t == u
  {
    hide Less, Stream, Nodes;
    var d, f, l :| Lists(d, t.dirs) && Lists(f, t.files.Keys) && Lists(l, t.links.Keys)
      && stream == Stream(Nodes(t, d, f, l));
    var d', f', l' :| Lists(d', u.dirs) && Lists(f', u.files.Keys) && Lists(l', u.links.Keys)
      && stream == Stream(Nodes(u, d', f', l'));
    NodesAreSound(t, d, f, l);
    NodesAreSound(u, d', f', l');
    StreamInjective(Nodes(t, d, f, l), Nodes(u, d', f', l'));
    SectionsAgree(t, d, f, l, u, d', f', l');
    SameTree(t, u, d, f, l);
  }

  lemma SameTree(t: Tree, u: Tree, d: seq<Name>, f: seq<Name>, l: seq<Name>)
    requires Lists(d, t.dirs) && Lists(f, t.files.Keys) && Lists(l, t.links.Keys)
    requires Lists(d, u.dirs) && Lists(f, u.files.Keys) && Lists(l, u.links.Keys)
    requires forall x :: x in f ==> t.files[x] == u.files[x]
    requires forall x :: x in l ==> t.links[x] == u.links[x]
    ensures t == u
  {
    hide Less;
    assert forall x :: x in t.dirs <==> x in u.dirs;
    assert forall x :: x in t.files.Keys <==> x in u.files.Keys;
    assert forall x :: x in t.links.Keys <==> x in u.links.Keys;
    assert t.files.Keys == u.files.Keys && t.links.Keys == u.links.Keys;
    assert t.dirs == u.dirs && t.files == u.files && t.links == u.links;
  }

  lemma {:induction false} StreamOfBoth(a: seq<Node>, b: seq<Node>)
    ensures Stream(a + b) == Stream(a) + Stream(b)
  {
    if a == [] {
      assert a + b == b;
    } else {
      assert (a + b)[1..] == a[1..] + b;
      StreamOfBoth(a[1..], b);
    }
  }

  lemma StreamMore(ns: seq<Node>, n: Node)
    ensures Stream(ns + [n]) == Stream(ns) + Record(n)
  {
    StreamOfBoth(ns, [n]);
    assert Stream([n]) == Record(n) + Stream([]);
  }

  /** A tree has one pre-image. */
  lemma PreImageIsOne(t: Tree, a: Bytes, b: Bytes)
    requires IsPreImage(t, a) && IsPreImage(t, b)
    ensures a == b
  {
    hide Less, Stream, Nodes;
    var d, f, l :| Lists(d, t.dirs) && Lists(f, t.files.Keys) && Lists(l, t.links.Keys)
      && a == Stream(Nodes(t, d, f, l));
    var d', f', l' :| Lists(d', t.dirs) && Lists(f', t.files.Keys) && Lists(l', t.links.Keys)
      && b == Stream(Nodes(t, d', f', l'));
    ListingIsUnique(d, d', t.dirs);
    ListingIsUnique(f, f', t.files.Keys);
    ListingIsUnique(l, l', t.links.Keys);
  }

  lemma OnePreImage(t: Tree, dirs: seq<Name>, files: seq<Name>, links: seq<Name>)
    requires Lists(dirs, t.dirs) && Lists(files, t.files.Keys) && Lists(links, t.links.Keys)
    ensures IsPreImage(t, Stream(Nodes(t, dirs, files, links)))
    ensures forall other :: IsPreImage(t, other) ==> other == Stream(Nodes(t, dirs, files, links))
  {
    hide Less, Stream, Nodes;
    forall other | IsPreImage(t, other) ensures other == Stream(Nodes(t, dirs, files, links)) {
      PreImageIsOne(t, other, Stream(Nodes(t, dirs, files, links)));
    }
  }

  const SEPARATOR: byte := 0x2f

  /** Every directory on the way to `parts`, the last included, going on from
      `prefix`. */
  function Ancestors(prefix: Name, parts: seq<Name>): set<Name>
    decreases |parts|
  {
    if parts == [] then {}
    else
      var next := if prefix == [] then parts[0] else prefix + [SEPARATOR] + parts[0];
      {next} + Ancestors(next, parts[1..])
  }

  lemma AncestorsStep(dirs: set<Name>, prefix: Name, parts: seq<Name>, i: nat)
    requires i < |parts|
    ensures var next := if prefix == [] then parts[i] else prefix + [SEPARATOR] + parts[i];
            dirs + Ancestors(prefix, parts[i..]) == (dirs + {next}) + Ancestors(next, parts[i + 1..])
  {
    assert parts[i..][1..] == parts[i + 1..];
  }

  lemma {:induction false} AncestorsHoldWhole(prefix: Name, parts: seq<Name>)
    requires parts != [] && (prefix != [] || parts[0] != [])
    ensures (if prefix == [] then Join(parts, SEPARATOR) else prefix + [SEPARATOR] + Join(parts, SEPARATOR))
              in Ancestors(prefix, parts)
    decreases |parts|
  {
    var next := if prefix == [] then parts[0] else prefix + [SEPARATOR] + parts[0];
    if |parts| > 1 {
      AncestorsHoldWhole(next, parts[1..]);
      assert prefix == [] || next + [SEPARATOR] + Join(parts[1..], SEPARATOR)
                             == prefix + [SEPARATOR] + (parts[0] + [SEPARATOR] + Join(parts[1..], SEPARATOR));
    }
  }

  /** A directory that does not start with a separator is among its ancestors. */
  lemma RecordedWhole(rel: Name)
    requires rel != [] && rel[0] != SEPARATOR
    ensures rel in Ancestors([], Split(rel, SEPARATOR))
  {
    JoinOfSplit(rel, SEPARATOR);
    AncestorsHoldWhole([], Split(rel, SEPARATOR));
  }

  lemma AncestorsEnd()
    ensures forall prefix :: Ancestors(prefix, []) == {}
  {
  }

  /** The directory holding `rel` is recorded, unless it is the root's own name
      or spelled from it. */
  predicate ParentRecorded(rel: Name, dirs: set<Name>) {
    var slash := LastIndex(rel, SEPARATOR);
    slash.Some? && slash.value > 0 && rel[0] != SEPARATOR ==> rel[..slash.value] in dirs
  }

  /** The directory part of a path, empty for a name at the root. */
  function ParentPart(rel: Name): Name {
    var slash := LastIndex(rel, SEPARATOR);
    if slash.Some? then rel[..slash.value] else []
  }

  /** Whether there is a directory to put something in. */
  predicate HasDir(dirs: set<Name>, rel: Name, made: bool) {
    rel == [] || rel in dirs || made
  }

  /** The directories recorded once `rel` has been asked for. */
  function WithDir(dirs: set<Name>, rel: Name, made: bool): set<Name> {
    dirs + (if rel == [] || rel in dirs || !made then {} else Ancestors([], Split(rel, SEPARATOR)))
  }

  /** No ancestor is longer than what it is an ancestor of. */
  lemma {:induction false} AncestorsAreShort(prefix: Name, parts: seq<Name>)
    ensures forall a :: a in Ancestors(prefix, parts) ==>
              |a| <= |Join(parts, SEPARATOR)| + (if prefix == [] then 0 else |prefix| + 1)
    decreases |parts|
  {
    if parts != [] {
      var next := if prefix == [] then parts[0] else prefix + [SEPARATOR] + parts[0];
      AncestorsAreShort(next, parts[1..]);
      if |parts| == 1 {
        assert Ancestors(next, parts[1..]) == {};
      }
    }
  }

  lemma DirsStayShort(dirs: set<Name>, rel: Name, made: bool)
    requires |rel| < TWO_64 && forall d :: d in dirs ==> |d| < TWO_64
    ensures forall d :: d in WithDir(dirs, rel, made) ==> |d| < TWO_64
  {
    JoinOfSplit(rel, SEPARATOR);
    AncestorsAreShort([], Split(rel, SEPARATOR));
  }

  /** What it has recorded: names and targets as long as a string can be, and
      digests as long as a digest is. */
  class Writer {
    var tree: Tree

    ghost predicate Valid()
      reads this
    {
      tree.Sized()
    }

    constructor ()
      ensures Valid() && tree == Tree({}, map[], map[])
    {
      tree := Tree({}, map[], map[]);
    }

    /** Create `rel` and every ancestor of it, recording each; `made` is what the
        file system answered. */
    method EnsureDir(rel: Name, made: bool) returns (ok: bool)
      requires Valid() && |rel| < TWO_64
      modifies this
      ensures Valid()
      ensures ok <==> HasDir(old(tree).dirs, rel, made)
      ensures tree == old(tree).(dirs := WithDir(old(tree).dirs, rel, made))
      ensures ok && rel != [] && rel[0] != SEPARATOR ==> rel in tree.dirs
    {
      hide Ancestors, Split;
      DirsStayShort(tree.dirs, rel, made);
      if rel == [] || rel in tree.dirs {
        return true;
      }
      if !made {
        return false;
      }
      if rel[0] != SEPARATOR {
        RecordedWhole(rel);
      }
      AncestorsEnd();
      var prefix: Name := [];
      var parts := Split(rel, SEPARATOR);
      assert parts[0..] == parts;
      for i := 0 to |parts|
        invariant tree.files == old(tree).files && tree.links == old(tree).links
        invariant tree.dirs + Ancestors(prefix, parts[i..]) == old(tree).dirs + Ancestors([], parts)
      {
        ghost var next := if prefix == [] then parts[i] else prefix + [SEPARATOR] + parts[i];
        AncestorsStep(tree.dirs, prefix, parts, i);
        if prefix != [] {
          prefix := prefix + [SEPARATOR];
        }
        prefix := prefix + parts[i];
        assert prefix == next;
        tree := tree.(dirs := tree.dirs + {prefix});
      }
      assert parts[|parts|..] == [];
      ok := true;
    }

    method Write(rel: Name, bytes: Bytes, made: bool, written: bool) returns (ok: bool)
      requires Valid() && |rel| < TWO_64
      modifies this
      ensures Valid()
      ensures ok <==> HasDir(old(tree).dirs, ParentPart(rel), made) && written && rel !in old(tree).files
      ensures 8 * |bytes| < TWO_64 ==>
                tree.files == (if HasDir(old(tree).dirs, ParentPart(rel), made) && written
                               then old(tree).files[rel := Fips180.Sha256(bytes)] else old(tree).files)
      ensures tree.links == old(tree).links && tree.dirs == WithDir(old(tree).dirs, ParentPart(rel), made)
      ensures ok ==> ParentRecorded(rel, tree.dirs)
    {
      hide Ancestors, Split, Fips180.Sha256;
      var slash := LastIndex(rel, SEPARATOR);
      if slash.Some? {
        ok := EnsureDir(rel[..slash.value], made);
        if !ok {
          return;
        }
      }
      if !written {
        return false;
      }
      var digest := HashPieces([bytes]);
      assert Concat([bytes]) == Concat([bytes][..0]) + bytes && Concat([]) + bytes == bytes;
      ok := rel !in tree.files;
      tree := tree.(files := tree.files[rel := digest]);
    }

    method Link(rel: Name, target: Name, made: bool, created: bool) returns (ok: bool)
      requires Valid() && |rel| < TWO_64 && |target| < TWO_64
      modifies this
      ensures Valid()
      ensures ok <==>
                && rel !in old(tree).links && rel !in old(tree).files
                && HasDir(old(tree).dirs, ParentPart(rel), made) && created
      ensures tree.links == if ok then old(tree).links[rel := target] else old(tree).links
      ensures tree.files == old(tree).files
      ensures tree.dirs == if rel in old(tree).links || rel in old(tree).files then old(tree).dirs
                           else WithDir(old(tree).dirs, ParentPart(rel), made)
      ensures ok ==> ParentRecorded(rel, tree.dirs)
    {
      if rel in tree.links || rel in tree.files {
        return false;
      }
      var slash := LastIndex(rel, SEPARATOR);
      if slash.Some? {
        ok := EnsureDir(rel[..slash.value], made);
        if !ok {
          return;
        }
      }
      if !created {
        return false;
      }
      tree := tree.(links := tree.links[rel := target]);
      ok := true;
    }

    /** SHA-256 of the one byte stream that names this tree. */
    method DigestTree() returns (out: Bytes)
      ensures |out| == 32 && exists stream :: IsPreImage(tree, stream)
      ensures forall stream :: IsPreImage(tree, stream) && 8 * |stream| < TWO_64 ==> out == Fips180.Sha256(stream)
    {
      hide *;
      var hasher := new Sha256();
      var dirs := Sorted(tree.dirs);
      var files := Sorted(tree.files.Keys);
      var links := Sorted(tree.links.Keys);
      ListsAll(dirs, tree.dirs);
      ListsAll(files, tree.files.Keys);
      ListsAll(links, tree.links.Keys);
      ghost var all := Nodes(tree, dirs, files, links);
      StreamOfNone(all);
      FeedDirs(hasher, dirs, files, links);
      FeedFiles(hasher, dirs, files, links);
      FeedLinks(hasher, dirs, files, links);
      assert all[..|all|] == all;
      OnePreImage(tree, dirs, files, links);
      out := hasher.Finish();
    }

    method FeedDirs(hasher: Sha256, dirs: seq<Name>, ghost files: seq<Name>, ghost links: seq<Name>)
      requires hasher.Valid() && hasher.absorbed == [] && hasher != (this as object)
      requires (forall f :: f in files ==> f in tree.files) && (forall l :: l in links ==> l in tree.links)
      modifies hasher, hasher.block
      ensures hasher.Valid() && hasher.absorbed == Stream(Nodes(tree, dirs, files, links)[..|dirs|])
    {
      hide *;
      ghost var all := Nodes(tree, dirs, files, links);
      StreamOfNone(all);
      for i := 0 to |dirs|
        invariant hasher.Valid() && hasher.absorbed == Stream(all[..i])
      {
        hasher.UpdateFramed(dirs[i]);
        hasher.Update([D]);
        NodesAt(tree, dirs, files, links, i);
        AfterPathIs(all[i]);
        Fed(all, i, dirs[i], [D]);
      }
    }

    method FeedFiles(hasher: Sha256, ghost dirs: seq<Name>, files: seq<Name>, ghost links: seq<Name>)
      requires hasher.Valid() && hasher != (this as object)
      requires (forall f :: f in files ==> f in tree.files) && (forall l :: l in links ==> l in tree.links)
      requires hasher.absorbed == Stream(Nodes(tree, dirs, files, links)[..|dirs|])
      modifies hasher, hasher.block
      ensures hasher.Valid() && hasher.absorbed == Stream(Nodes(tree, dirs, files, links)[..|dirs| + |files|])
    {
      hide *;
      ghost var all := Nodes(tree, dirs, files, links);
      for i := 0 to |files|
        invariant hasher.Valid() && hasher.absorbed == Stream(all[..|dirs| + i])
      {
        hasher.UpdateFramed(files[i]);
        hasher.Update([F]);
        hasher.Update(tree.files[files[i]]);
        NodesAt(tree, dirs, files, links, |dirs| + i);
        AfterPathIs(all[|dirs| + i]);
        Fed(all, |dirs| + i, files[i], [F] + tree.files[files[i]]);
        Regroup(Stream(all[..|dirs| + i]), Framed(files[i]), [F], tree.files[files[i]]);
      }
    }

    method FeedLinks(hasher: Sha256, ghost dirs: seq<Name>, ghost files: seq<Name>, links: seq<Name>)
      requires hasher.Valid() && hasher != (this as object)
      requires (forall f :: f in files ==> f in tree.files) && (forall l :: l in links ==> l in tree.links)
      requires hasher.absorbed == Stream(Nodes(tree, dirs, files, links)[..|dirs| + |files|])
      modifies hasher, hasher.block
      ensures hasher.Valid() && hasher.absorbed == Stream(Nodes(tree, dirs, files, links)[..|dirs| + |files| + |links|])
    {
      hide *;
      ghost var all := Nodes(tree, dirs, files, links);
      for i := 0 to |links|
        invariant hasher.Valid() && hasher.absorbed == Stream(all[..|dirs| + |files| + i])
      {
        hasher.UpdateFramed(links[i]);
        hasher.Update([L]);
        hasher.UpdateFramed(tree.links[links[i]]);
        NodesAt(tree, dirs, files, links, |dirs| + |files| + i);
        AfterPathIs(all[|dirs| + |files| + i]);
        Fed(all, |dirs| + |files| + i, links[i], [L] + Framed(tree.links[links[i]]));
        Regroup(Stream(all[..|dirs| + |files| + i]), Framed(links[i]), [L], Framed(tree.links[links[i]]));
      }
    }
  }

  /** The stream of a tree with one directory, one file and one link, byte for byte:
      in that order, each path behind its length, a letter for what it is, a file's
      digest bare and a link's target behind its length. */
  lemma StreamReads(d: Name, f: Name, digest: Bytes, l: Name, target: Name)
    ensures IsPreImage(Tree({d}, map[f := digest], map[l := target]),
                       Framed(d) + [0x64] + Framed(f) + [0x66] + digest + Framed(l) + [0x6c] + Framed(target))
  {
    hide Less, Framed;
    var t := Tree({d}, map[f := digest], map[l := target]);
    var nodes := Nodes(t, [d], [f], [l]);
    assert nodes == [Dir(d), File(f, digest), Link(l, target)];
    assert nodes[1..] == [File(f, digest), Link(l, target)] && nodes[1..][1..] == [Link(l, target)];
    assert nodes[1..][1..][1..] == [];
    var stream := Stream(nodes);
    assert Stream(nodes[1..][1..][1..]) == [];
    assert Stream(nodes[1..][1..]) == Framed(l) + [0x6c] + Framed(target);
    assert Stream(nodes[1..]) == Framed(f) + [0x66] + digest + Stream(nodes[1..][1..]);
    assert stream == Framed(d) + [0x64] + Stream(nodes[1..]);
    assert stream == Framed(d) + [0x64] + Framed(f) + [0x66] + digest + Framed(l) + [0x6c] + Framed(target);
    assert t.files.Keys == {f} && t.links.Keys == {l};
    ListsOne(d);
    ListsOne(f);
    ListsOne(l);
  }

  lemma ListsOne(n: Name)
    ensures Lists([n], {n})
  {
    assert [n][0] == n;
  }

  /** Two writers whose digests are taken over one stream hold one tree. */
  lemma WritersHoldOneTree(a: Writer, b: Writer, stream: Bytes)
    requires a.Valid() && b.Valid() && IsPreImage(a.tree, stream) && IsPreImage(b.tree, stream)
    ensures a.tree == b.tree
  {
    hide Tree.Sized;
    PreImageNamesOneTree(a.tree, b.tree, stream);
  }

  lemma Regroup(a: Bytes, b: Bytes, c: Bytes, d: Bytes)
    ensures a + b + c + d == a + b + (c + d)
  {
  }

  lemma StreamOfNone(ns: seq<Node>)
    ensures Stream(ns[..0]) == []
  {
  }

  lemma ListsAll(names: seq<Name>, s: set<Name>)
    requires Lists(names, s)
    ensures forall n :: n in names ==> n in s
  {
  }

  /** One more node's record fed. */
  lemma Fed(all: seq<Node>, i: nat, path: Name, after: Bytes)
    requires i < |all| && path == all[i].path && after == AfterPath(all[i])
    ensures Stream(all[..i + 1]) == Stream(all[..i]) + Framed(path) + after
  {
    hide Framed;
    assert all[..i + 1] == all[..i] + [all[i]];
    StreamMore(all[..i], all[i]);
    RecordSplits(all[i], []);
    assert Record(all[i]) + [] == Record(all[i]) && AfterPath(all[i]) + [] == AfterPath(all[i]);
    assert Stream(all[..i]) + (Framed(path) + after) == Stream(all[..i]) + Framed(path) + after;
  }
}
