/**
 Planning the symbolic links of a generated tree: relative targets that resolve
 to what they name, and directory links that no walk following them all can
 arrive back through.
 */
module Symlinks {
  import opened Prelude
  import opened Paths
  import opened LinkNames
  import opened Numerals

  // ----- relative spellings and their resolution

  function Repeat(s: string, n: nat): string {
    if n == 0 then "" else s + Repeat(s, n - 1)
  }

  /** How many leading parts two paths share. */
  function Common(a: seq<string>, b: seq<string>): (n: nat)
    ensures n <= |a| && n <= |b| && a[..n] == b[..n]
    ensures n < |a| && n < |b| ==> a[n] != b[n]
  {
    if a == [] || b == [] || a[0] != b[0] then 0
    else
      var n := 1 + Common(a[1..], b[1..]);
      assert a[..n] == [a[0]] + a[1..][..n - 1] && b[..n] == [b[0]] + b[1..][..n - 1];
      n
  }

  /** The spelling of `to` relative to the directory `fromDir`. */
  function Relative(fromDir: string, to: string): string {
    var from, there := Components(fromDir), Components(to);
    var common := Common(from, there);
    Repeat("../", |from| - common) + Join(there[common..], SLASH)
  }

  /** Where `parts` lead from the directory `stack`; nowhere in the vault once
      `..` runs off its front. */
  function Resolve(stack: seq<string>, parts: seq<string>): Option<seq<string>>
    decreases |parts|
  {
    if parts == [] then Some(stack)
    else if parts[0] == "" || parts[0] == "." then Resolve(stack, parts[1..])
    else if parts[0] == ".." then
      if stack == [] then None else Resolve(stack[..|stack| - 1], parts[1..])
    else Resolve(stack + [parts[0]], parts[1..])
  }

  function Resolved(linkRel: string, target: string): Option<string> {
    if target != "" && target[0] == SLASH then None
    else match Resolve(Components(ParentOf(linkRel)), Split(target, SLASH))
         case Some(stack) => Some(Join(stack, SLASH))
         case None => None
  }

  method ResolvedInVault(linkRel: string, target: string) returns (r: Option<string>)
    ensures r == Resolved(linkRel, target)
  {
    if target != "" && target[0] == SLASH {
      return None;
    }
    var stack := Components(ParentOf(linkRel));
    var parts := Split(target, SLASH);
    ghost var whole := Resolve(stack, parts);
    for i := 0 to |parts|
      invariant Resolve(stack, parts[i..]) == whole
    {
      assert parts[i..][1..] == parts[i + 1..];
      var part := parts[i];
      if part == "" || part == "." {
      } else if part == ".." {
        if stack == [] {
          return None;
        }
        stack := stack[..|stack| - 1];
      } else {
        stack := stack + [part];
      }
    }
    r := Some(Join(stack, SLASH));
  }

  lemma {:induction false} ResolveClimbs(stack: seq<string>, n: nat, rest: seq<string>)
    requires n <= |stack|
    ensures Resolve(stack, seq(n, _ => "..") + rest) == Resolve(stack[..|stack| - n], rest)
  {
    var parts := seq(n, _ => "..") + rest;
    if n == 0 {
      assert parts == rest && stack[..|stack|] == stack;
    } else {
      assert parts[1..] == seq(n - 1, _ => "..") + rest;
      ResolveClimbs(stack[..|stack| - 1], n - 1, rest);
      assert stack[..|stack| - 1][..|stack| - n] == stack[..|stack| - n];
    }
  }

  lemma {:induction false} ResolveDescends(stack: seq<string>, parts: seq<string>)
    requires Plain(parts)
    ensures Resolve(stack, parts) == Some(stack + parts)
    decreases |parts|
  {
    if parts == [] {
      assert stack + parts == stack;
    } else {
      assert PlainName(parts[0]) && Plain(parts[1..]);
      ResolveDescends(stack + [parts[0]], parts[1..]);
      assert stack + [parts[0]] + parts[1..] == stack + parts;
    }
  }

  lemma {:induction false} SplitClimb(n: nat, rest: string)
    ensures Split(Repeat("../", n) + rest, SLASH) == seq(n, _ => "..") + Split(rest, SLASH)
  {
    var s := Repeat("../", n) + rest;
    if n == 0 {
      assert s == rest;
    } else {
      var tail := Repeat("../", n - 1) + rest;
      assert s == ".." + [SLASH] + tail;
      SplitAcross("..", tail, SLASH);
      SplitOfPlain("..", SLASH);
      SplitClimb(n - 1, rest);
      assert [".."] + seq(n - 1, _ => "..") == seq(n, _ => "..");
    }
  }

  lemma RelativeIsNotAbsolute(dir: string, to: string)
    requires Normal(to)
    ensures Relative(dir, to) == "" || Relative(dir, to)[0] != SLASH
  {
    var from, there := Components(dir), Components(to);
    var rest := there[Common(from, there)..];
    if rest != [] {
      assert rest[0] in there && PlainName(rest[0]);
    }
  }

  /** Climbing to the shared directory and descending from it. */
  lemma ResolveRoute(from: seq<string>, there: seq<string>, common: nat)
    requires common <= |from| && common <= |there| && from[..common] == there[..common] && Plain(there)
    ensures Resolve(from, seq(|from| - common, _ => "..") + Split(Join(there[common..], SLASH), SLASH)) == Some(there)
  {
    hide Resolve;
    var rest := there[common..];
    ResolveClimbs(from, |from| - common, Split(Join(rest, SLASH), SLASH));
    if rest == [] {
      assert from[..common] == there;
      ResolveNothing(there);
    } else {
      forall p | p in rest ensures PlainName(p) {
        assert p in there;
      }
      SplitOfJoin(rest, SLASH);
      ResolveDescends(from[..common], rest);
      assert from[..common] + rest == there;
    }
  }

  lemma ResolveNothing(stack: seq<string>)
    ensures Resolve(stack, Split(Join([], SLASH), SLASH)) == Some(stack)
  {
    assert Split("", SLASH) == [""] && Resolve(stack, [""][1..]) == Some(stack);
  }

  /** A link's target spelled relative to its directory resolves to what it names:
      the printer and the resolver undo each other on every normalized path. */
  lemma RelativeResolves(dir: string, name: string, to: string)
    requires Normal(to) && SLASH !in name
    ensures Resolved(JoinName(dir, name), Relative(dir, to)) == Some(to)
  {
    var from, there := Components(dir), Components(to);
    var common := Common(from, there);
    ParentOfJoined(dir, name);
    RelativeIsNotAbsolute(dir, to);
    SplitClimb(|from| - common, Join(there[common..], SLASH));
    ResolveRoute(from, there, common);
    NormalIsJoin(to);
  }

  lemma {:induction false} ResolveEscapes(stack: seq<string>, n: nat, rest: seq<string>)
    requires n > |stack|
    ensures Resolve(stack, seq(n, _ => "..") + rest).None?
  {
    var parts := seq(n, _ => "..") + rest;
    assert parts[1..] == seq(n - 1, _ => "..") + rest;
    if stack != [] {
      ResolveEscapes(stack[..|stack| - 1], n - 1, rest);
    }
  }

  /** It climbs no further than it must: to the last directory the two paths share,
      and down from there. */
  lemma RelativeClimbsLeast(dir: string, to: string) returns (shared: nat)
    ensures var from, there := Components(dir), Components(to);
            && shared <= |from| && shared <= |there| && from[..shared] == there[..shared]
            && (shared < |from| && shared < |there| ==> from[shared] != there[shared])
            && Relative(dir, to) == Repeat("../", |from| - shared) + Join(there[shared..], '/')
  {
    shared := Common(Components(dir), Components(to));
  }

  /** A target climbing one level more than its link is deep leaves the vault,
      whatever follows the climb. */
  lemma ClimbingOutEscapes(dir: string, name: string, rest: string)
    requires SLASH !in name
    ensures Resolved(JoinName(dir, name), Repeat("../", Depth(dir) + 1) + rest).None?
  {
    ParentOfJoined(dir, name);
    SplitClimb(Depth(dir) + 1, rest);
    ResolveEscapes(Components(dir), Depth(dir) + 1, Split(rest, SLASH));
  }

  // ----- one directory inside another

  /** Whether `path` is `ancestor` or sits underneath it. */
  predicate IsInside(path: string, ancestor: string) {
    ancestor == "" || path == ancestor || ancestor + "/" <= path
  }

  /** On normalized paths, being inside is sharing all of the ancestor's parts. */
  lemma InsideIsPrefix(path: string, ancestor: string)
    requires Normal(path) && Normal(ancestor)
    ensures IsInside(path, ancestor) <==> Components(ancestor) <= Components(path)
  {
    var p, a := Components(path), Components(ancestor);
    NormalIsJoin(path);
    NormalIsJoin(ancestor);
    if IsInside(path, ancestor) && ancestor != "" && path != ancestor {
      var rest := path[|ancestor| + 1..];
      assert path == ancestor + [SLASH] + rest;
      SplitAcross(ancestor, rest, SLASH);
    }
    if a <= p && a != [] && a != p {
      var rest := p[|a|..];
      assert p == a + rest;
      JoinAcross(a, rest, SLASH);
      assert path == ancestor + [SLASH] + Join(rest, SLASH);
    }
  }

  // ----- directory links, and the walks that follow them

  /** A directory link: the directory holding it and the directory it names. */
  datatype DirLink = DirLink(held: string, names: string)

  /** A walk from the directory `from`: the links it follows, each held inside
      the directory the walk stands in by then. */
  ghost predicate Walk(links: seq<DirLink>, from: string, w: seq<nat>) {
    && (forall k :: 0 <= k < |w| ==> w[k] < |links|)
    && (forall k :: 0 <= k < |w| ==> IsInside(links[w[k]].held, Standing(links, from, w, k)))
  }

  /** Where a walk stands after its first `k` links. */
  ghost function Standing(links: seq<DirLink>, from: string, w: seq<nat>, k: nat): string {
    if 0 < k <= |w| && w[k - 1] < |links| then links[w[k - 1]].names else from
  }

  /** `dir` can be come to from `from`, descending subtrees and following links. */
  ghost predicate Reaches(links: seq<DirLink>, from: string, dir: string) {
    exists w :: Walk(links, from, w) && IsInside(dir, Standing(links, from, w, |w|))
  }

  /** No link's own directory can be come to through the link. */
  ghost predicate Acyclic(links: seq<DirLink>) {
    forall i :: 0 <= i < |links| ==> !Reaches(links, links[i].names, links[i].held)
  }

  // ----- the worklist that decides reachability

  ghost predicate Distinct(reached: seq<string>) {
    forall i, j :: 0 <= i < j < |reached| ==> reached[i] != reached[j]
  }

  ghost function NamesOf(links: seq<DirLink>): set<string> {
    set i | 0 <= i < |links| :: links[i].names
  }

  lemma {:induction false} DistinctIsBounded(reached: seq<string>, all: set<string>)
    requires Distinct(reached) && forall r :: r in reached ==> r in all
    ensures |reached| <= |all|
  {
    if reached != [] {
      var last := reached[|reached| - 1];
      var init := reached[..|reached| - 1];
      forall r | r in init ensures r in all - {last} {
      }
      DistinctIsBounded(init, all - {last});
    }
  }

  /** Everything already looked at leads only to what has been reached. */
  ghost predicate Expanded(links: seq<DirLink>, reached: seq<string>, here: string, upTo: nat)
    requires upTo <= |links|
  {
    forall i :: 0 <= i < upTo && IsInside(links[i].held, here) ==> links[i].names in reached
  }

  ghost predicate Reachable(links: seq<DirLink>, target: string, here: string) {
    exists w :: Walk(links, target, w) && Standing(links, target, w, |w|) == here
  }

  /** One more link followed. */
  lemma Extend(links: seq<DirLink>, from: string, w: seq<nat>, i: nat)
    requires Walk(links, from, w) && i < |links| && IsInside(links[i].held, Standing(links, from, w, |w|))
    ensures Walk(links, from, w + [i]) && Standing(links, from, w + [i], |w| + 1) == links[i].names
  {
    hide IsInside;
    var longer := w + [i];
    forall k | 0 <= k < |longer|
      ensures longer[k] < |links| && IsInside(links[longer[k]].held, Standing(links, from, longer, k))
    {
      if k < |w| {
        assert IsInside(links[w[k]].held, Standing(links, from, w, k));
      }
    }
  }

  lemma ReachableNext(links: seq<DirLink>, target: string, here: string, i: nat)
    requires Reachable(links, target, here) && i < |links| && IsInside(links[i].held, here)
    ensures Reachable(links, target, links[i].names)
  {
    hide IsInside;
    var w :| Walk(links, target, w) && Standing(links, target, w, |w|) == here;
    Extend(links, target, w, i);
    assert |w + [i]| == |w| + 1;
  }

  /** A set of directories closed under the links holds where every walk stands. */
  lemma {:induction false} ClosedHoldsWalks(links: seq<DirLink>, target: string, reached: seq<string>, w: seq<nat>)
    requires target in reached
    requires forall r :: r in reached ==> Expanded(links, reached, r, |links|)
    requires Walk(links, target, w)
    ensures Standing(links, target, w, |w|) in reached
  {
    hide IsInside;
    if w != [] {
      var init := w[..|w| - 1];
      forall k | 0 <= k < |init| ensures IsInside(links[init[k]].held, Standing(links, target, init, k)) {
        assert IsInside(links[w[k]].held, Standing(links, target, w, k));
        assert Standing(links, target, w, k) == Standing(links, target, init, k);
      }
      ClosedHoldsWalks(links, target, reached, init);
      assert Standing(links, target, init, |init|) == Standing(links, target, w, |w| - 1);
      assert IsInside(links[w[|w| - 1]].held, Standing(links, target, w, |w| - 1));
      assert Expanded(links, reached, Standing(links, target, init, |init|), |links|);
    }
  }

  /** What a worklist may hold: distinct directories, each reachable. */
  ghost predicate Worklist(links: seq<DirLink>, target: string, reached: seq<string>) {
    && Distinct(reached)
    && (forall r :: r in reached ==> r in NamesOf(links) + {target} && Reachable(links, target, r))
  }

  /** Follow every planned link held inside `here`. */
  method FollowFrom(planned: seq<DirLink>, ghost target: string, reached: seq<string>, here: string)
    returns (more: seq<string>)
    requires Worklist(planned, target, reached) && here in reached
    ensures Worklist(planned, target, more) && reached <= more
    ensures Expanded(planned, more, here, |planned|)
  {
    hide IsInside, Reachable;
    more := reached;
    for i := 0 to |planned|
      invariant Worklist(planned, target, more) && reached <= more
      invariant Expanded(planned, more, here, i)
    {
      var link := planned[i];
      if IsInside(link.held, here) && link.names !in more {
        ReachableNext(planned, target, here, i);
        assert link.names in NamesOf(planned);
        ghost var before := more;
        more := more + [link.names];
        assert forall r :: r in more ==> r in before || r == link.names;
      }
    }
  }

  /** Whether a link held in `dir` and naming `target` is one a walk re-enters:
      exactly whether `dir` is reachable from `target`. */
  method Reentered(dir: string, target: string, planned: seq<DirLink>) returns (r: bool)
    ensures r <==> Reaches(planned, target, dir)
  {
    hide IsInside, Worklist, Reachable;
    var reached := [target];
    var next := 0;
    StartingWorklist(planned, target);
    while next < |reached|
      invariant next <= |reached| && target in reached && Worklist(planned, target, reached)
      invariant forall k :: 0 <= k < next ==> Expanded(planned, reached, reached[k], |planned|)
      invariant forall k :: 0 <= k < next ==> !IsInside(dir, reached[k])
      decreases |NamesOf(planned) + {target}| - next
    {
      WorklistIsBounded(planned, target, reached);
      var here := reached[next];
      next := next + 1;
      if IsInside(dir, here) {
        HereReaches(planned, target, reached, here, dir);
        return true;
      }
      ghost var before := reached;
      reached := FollowFrom(planned, target, reached, here);
      assert forall r :: r in before ==> r in reached;
      assert forall k :: 0 <= k < next ==> reached[k] == before[k];
      WorklistIsBounded(planned, target, reached);
    }
    r := false;
    forall w | Walk(planned, target, w) ensures !IsInside(dir, Standing(planned, target, w, |w|)) {
      ClosedHoldsWalks(planned, target, reached, w);
    }
  }

  lemma StartingWorklist(links: seq<DirLink>, target: string)
    ensures Worklist(links, target, [target])
  {
    assert Walk(links, target, []) && Standing(links, target, [], 0) == target;
  }

  lemma WorklistIsBounded(links: seq<DirLink>, target: string, reached: seq<string>)
    requires Worklist(links, target, reached)
    ensures |reached| <= |NamesOf(links) + {target}|
  {
    DistinctIsBounded(reached, NamesOf(links) + {target});
  }

  lemma HereReaches(links: seq<DirLink>, target: string, reached: seq<string>, here: string, dir: string)
    requires Worklist(links, target, reached) && here in reached && IsInside(dir, here)
    ensures Reaches(links, target, dir)
  {
    hide IsInside;
  }

  // ----- adding one link keeps the set acyclic

  lemma StepInside(links: seq<DirLink>, from: string, w: seq<nat>, k: nat)
    requires Walk(links, from, w) && k < |w|
    ensures w[k] < |links| && IsInside(links[w[k]].held, Standing(links, from, w, k))
  {
  }

  lemma PrefixWalk(links: seq<DirLink>, from: string, w: seq<nat>, m: nat)
    requires Walk(links, from, w) && m <= |w|
    ensures Walk(links, from, w[..m]) && Standing(links, from, w[..m], m) == Standing(links, from, w, m)
  {
    hide IsInside;
    forall k | 0 <= k < m
      ensures w[..m][k] < |links| && IsInside(links[w[..m][k]].held, Standing(links, from, w[..m], k))
    {
      StepInside(links, from, w, k);
    }
  }

  lemma SuffixWalk(links: seq<DirLink>, from: string, w: seq<nat>, a: nat)
    requires Walk(links, from, w) && a < |w|
    ensures w[a] < |links| && Walk(links, links[w[a]].names, w[a + 1..])
    ensures Standing(links, links[w[a]].names, w[a + 1..], |w| - a - 1) == Standing(links, from, w, |w|)
  {
    hide IsInside;
    var sub := w[a + 1..];
    forall k | 0 <= k < |sub|
      ensures sub[k] < |links| && IsInside(links[sub[k]].held, Standing(links, links[w[a]].names, sub, k))
    {
      StepInside(links, from, w, a + 1 + k);
    }
  }

  /** A walk that follows none of the links past `n` is a walk of the first `n`. */
  lemma OldWalk(links: seq<DirLink>, n: nat, from: string, w: seq<nat>)
    requires n <= |links| && Walk(links, from, w) && forall k :: 0 <= k < |w| ==> w[k] < n
    ensures Walk(links[..n], from, w)
    ensures Standing(links[..n], from, w, |w|) == Standing(links, from, w, |w|)
  {
    hide IsInside;
    forall k | 0 <= k < |w| ensures IsInside(links[..n][w[k]].held, Standing(links[..n], from, w, k)) {
      assert IsInside(links[w[k]].held, Standing(links, from, w, k));
    }
  }

  /** One walk, a link, and another walk on from what the link names. */
  lemma {:induction false} JoinWalks(links: seq<DirLink>, from: string, v: seq<nat>, i: nat, w: seq<nat>)
    requires Walk(links, from, v) && i < |links| && Walk(links, links[i].names, w)
    requires IsInside(links[i].held, Standing(links, from, v, |v|))
    ensures Walk(links, from, v + [i] + w)
    ensures Standing(links, from, v + [i] + w, |v + [i] + w|) == Standing(links, links[i].names, w, |w|)
    decreases |w|
  {
    hide IsInside, Walk;
    Extend(links, from, v, i);
    if w == [] {
      assert v + [i] + w == v + [i];
    } else {
      var m := |w| - 1;
      var all := v + [i] + w[..m];
      PrefixWalk(links, links[i].names, w, m);
      JoinWalks(links, from, v, i, w[..m]);
      StepInside(links, links[i].names, w, m);
      Extend(links, from, all, w[m]);
      assert all + [w[m]] == v + [i] + w;
    }
  }

  /** The first and the last time a walk follows link `n`. */
  lemma {:induction false} FirstUse(w: seq<nat>, n: nat) returns (k: nat)
    requires n in w
    ensures k < |w| && w[k] == n && n !in w[..k]
  {
    if w[0] == n {
      k := 0;
    } else {
      k := FirstUse(w[1..], n);
      k := k + 1;
      assert w[..k] == [w[0]] + w[1..][..k - 1];
    }
  }

  lemma {:induction false} LastUse(w: seq<nat>, n: nat) returns (k: nat)
    requires n in w
    ensures k < |w| && w[k] == n && n !in w[k + 1..]
  {
    if w[|w| - 1] == n {
      k := |w| - 1;
    } else {
      k := LastUse(w[..|w| - 1], n);
      assert w[k + 1..] == w[..|w| - 1][k + 1..] + [w[|w| - 1]];
    }
  }

  /** The walk before link `n` is first followed, of the older links alone. */
  lemma HeadWalk(links: seq<DirLink>, n: nat, from: string, w: seq<nat>) returns (head: seq<nat>)
    requires n < |links| && Walk(links, from, w) && n in w
    requires forall k :: 0 <= k < |w| ==> w[k] <= n
    ensures Walk(links[..n], from, head) && IsInside(links[n].held, Standing(links[..n], from, head, |head|))
  {
    hide IsInside, Walk, Standing;
    var first := FirstUse(w, n);
    PrefixWalk(links, from, w, first);
    StepInside(links, from, w, first);
    head := w[..first];
    forall k | 0 <= k < |head| ensures head[k] < n {
      assert head[k] == w[k] && head[k] in head;
    }
    OldWalk(links, n, from, head);
  }

  /** The walk after link `n` is last followed, of the older links alone. */
  lemma TailWalk(links: seq<DirLink>, n: nat, from: string, w: seq<nat>) returns (tail: seq<nat>)
    requires n < |links| && Walk(links, from, w) && n in w
    requires forall k :: 0 <= k < |w| ==> w[k] <= n
    ensures Walk(links[..n], links[n].names, tail)
    ensures Standing(links[..n], links[n].names, tail, |tail|) == Standing(links, from, w, |w|)
  {
    hide IsInside, Walk, Standing;
    var last := LastUse(w, n);
    SuffixWalk(links, from, w, last);
    tail := w[last + 1..];
    forall k | 0 <= k < |tail| ensures tail[k] < n {
      assert tail[k] == w[last + 1 + k] && tail[k] in tail;
    }
    OldWalk(links, n, links[n].names, tail);
  }

  /** A cycle through a link added to an acyclic set, cut at the link, is a walk
      of the old links from what it names to where it is held. */
  lemma AddedCycleReaches(links: seq<DirLink>, added: DirLink, i: nat, w: seq<nat>)
    requires Acyclic(links) && i <= |links|
    requires Walk(links + [added], (links + [added])[i].names, w)
    requires IsInside((links + [added])[i].held, Standing(links + [added], (links + [added])[i].names, w, |w|))
    ensures Reaches(links, added.names, added.held)
  {
    hide IsInside, Standing, Walk;
    var all, n := links + [added], |links|;
    var from := all[i].names;
    assert all[..n] == links;
    assert forall k :: 0 <= k < |w| ==> w[k] <= n by {
      WalkIsInRange(all, from, w);
    }
    if n !in w {
      OldWalkIn(all, n, from, w);
      assert Reaches(links, from, all[i].held);
      assert i == n;
    } else {
      var head := HeadWalk(all, n, from, w);
      if i < n {
        var tail := TailWalk(all, n, from, w);
        JoinWalks(links, added.names, tail, i, head);
      }
    }
  }

  lemma WalkIsInRange(links: seq<DirLink>, from: string, w: seq<nat>)
    requires Walk(links, from, w)
    ensures forall k :: 0 <= k < |w| ==> w[k] < |links|
  {
  }

  lemma OldWalkIn(links: seq<DirLink>, n: nat, from: string, w: seq<nat>)
    requires n + 1 == |links| && Walk(links, from, w) && n !in w
    ensures Walk(links[..n], from, w)
    ensures Standing(links[..n], from, w, |w|) == Standing(links, from, w, |w|)
  {
    hide IsInside;
    forall k | 0 <= k < |w| ensures w[k] < n {
      assert w[k] in w;
    }
    OldWalk(links, n, from, w);
  }

  lemma AddKeepsAcyclic(links: seq<DirLink>, added: DirLink)
    requires Acyclic(links) && !Reaches(links, added.names, added.held)
    ensures Acyclic(links + [added])
  {
    hide IsInside;
    var all := links + [added];
    forall i | 0 <= i < |all| ensures !Reaches(all, all[i].names, all[i].held) {
      if Reaches(all, all[i].names, all[i].held) {
        var w :| Walk(all, all[i].names, w) && IsInside(all[i].held, Standing(all, all[i].names, w, |w|));
        AddedCycleReaches(links, added, i, w);
      }
    }
  }

  /** The vault root is come to through no link, where every link names a
      directory beneath it. */
  lemma RootIsUnreachable(links: seq<DirLink>, target: string)
    requires target != "" && forall i :: 0 <= i < |links| ==> links[i].names != ""
    ensures !Reaches(links, target, "")
  {
    forall w | Walk(links, target, w) ensures !IsInside("", Standing(links, target, w, |w|)) {
    }
  }

  /** Past a link, a walk reaches the directory of every link it follows later. */
  lemma WalkReachesOn(links: seq<DirLink>, from: string, w: seq<nat>, a: nat, b: nat)
    requires Walk(links, from, w) && a < b < |w|
    ensures w[a] < |links| && w[b] < |links| && Reaches(links, links[w[a]].names, links[w[b]].held)
  {
    hide IsInside, Walk, Standing;
    PrefixWalk(links, from, w, b);
    SuffixWalk(links, from, w[..b], a);
    StepInside(links, from, w, b);
    var between := w[..b][a + 1..];
    assert |w[..b]| == b && |between| == b - a - 1 && w[..b][a] == w[a];
  }

  /** In an acyclic set a walk follows each link at most once, so it is no longer
      than the set. */
  lemma WalksEnd(links: seq<DirLink>, from: string, w: seq<nat>)
    requires Acyclic(links) && Walk(links, from, w)
    ensures forall a, b :: 0 <= a < b < |w| ==> w[a] != w[b]
    ensures |w| <= |links|
  {
    hide IsInside, Reaches;
    forall a, b | 0 <= a < b < |w| ensures w[a] != w[b] {
      WalkReachesOn(links, from, w, a, b);
    }
    DistinctIndices(w, |links|);
  }

  lemma {:induction false} DistinctIndices(w: seq<nat>, n: nat)
    requires forall k :: 0 <= k < |w| ==> w[k] < n
    requires forall a, b :: 0 <= a < b < |w| ==> w[a] != w[b]
    ensures |w| <= n
  {
    if w == [] {
      return;
    }
    assert w[0] < n;
    if n - 1 in w {
      var k := FirstUse(w, n - 1);
      DistinctIndices(w[..k] + w[k + 1..], n - 1);
    } else {
      forall k | 0 <= k < |w| ensures w[k] < n - 1 {
        assert w[k] in w;
      }
      DistinctIndices(w, n - 1);
    }
  }

  // ----- the plan

  /** How many links of each species a profile asks for. */
  datatype Counts = Counts(inVaultFile: nat, inVaultDir: nat, dangling: nat, outbound: nat)

  /** The word pools names are drawn from. */
  datatype Pools = Pools(docWords: seq<string>, subDirs: seq<string>, clutterStems: seq<string>) {
    predicate Usable() {
      && docWords != [] && subDirs != [] && clutterStems != []
      && (forall w :: w in docWords + subDirs + clutterStems ==> SLASH !in w)
    }
  }

  /** The tree's directories: normalized, and each beneath the vault root. */
  predicate Beneath(dirs: seq<string>) {
    forall d :: d in dirs ==> Normal(d) && d != ""
  }

  /** What one planned link is: which directory holds it and where it leads. */
  ghost predicate Leads(link: PlannedLink, dirs: seq<string>, docs: seq<string>) {
    match link.species
    case InVaultFile =>
      && ParentOf(link.path) in dirs
      && Resolved(link.path, link.target).Some? && Resolved(link.path, link.target).value in docs
    case InVaultDir =>
      && (ParentOf(link.path) in dirs || ParentOf(link.path) == "")
      && Resolved(link.path, link.target).Some? && Resolved(link.path, link.target).value in dirs
    case Dangling =>
      && ParentOf(link.path) in dirs
      && Resolved(link.path, link.target) == Some(JoinName(ParentOf(link.path), link.target))
    case Outbound => ParentOf(link.path) in dirs && Resolved(link.path, link.target).None?
  }

  /** The directory links of a plan, as a walk of the tree meets them: the
      directory holding each and the one its target resolves to. */
  ghost function DirLinksOf(out: seq<PlannedLink>): seq<DirLink> {
    if out == [] then []
    else
      var link := out[|out| - 1];
      DirLinksOf(out[..|out| - 1])
      + (if link.species.InVaultDir? && Resolved(link.path, link.target).Some?
         then [DirLink(ParentOf(link.path), Resolved(link.path, link.target).value)] else [])
  }

  function Pick(draws: nat -> nat, at: nat, items: seq<string>): (item: string)
    requires items != []
    ensures item in items
  {
    items[draws(at) % |items|]
  }

  lemma DirLinksOfMore(out: seq<PlannedLink>, link: PlannedLink)
    ensures DirLinksOf(out + [link]) ==
            DirLinksOf(out) + (if link.species.InVaultDir? && Resolved(link.path, link.target).Some?
                               then [DirLink(ParentOf(link.path), Resolved(link.path, link.target).value)] else [])
  {
    assert (out + [link])[..|out|] == out;
  }

  /** Link `i` is between the directories drawn for it, and is held at the vault
      root instead exactly when a walk over the links before it gets from what it
      names back to where it was drawn. */
  ghost predicate Placed(draws: nat -> nat, start: nat, dirs: seq<string>, planned: seq<DirLink>, i: nat)
    requires dirs != [] && i < |planned|
  {
    var drawn, target := Pick(draws, start + 3 * i, dirs), Pick(draws, start + 3 * i + 1, dirs);
    planned[i] == DirLink(if Reaches(planned[..i], target, drawn) then "" else drawn, target)
  }

  lemma PlacedStays(draws: nat -> nat, start: nat, dirs: seq<string>, planned: seq<DirLink>, link: DirLink, i: nat)
    requires dirs != [] && i <= |planned|
    requires if i < |planned| then Placed(draws, start, dirs, planned, i)
             else
               var drawn, target := Pick(draws, start + 3 * i, dirs), Pick(draws, start + 3 * i + 1, dirs);
               link == DirLink(if Reaches(planned, target, drawn) then "" else drawn, target)
    ensures Placed(draws, start, dirs, planned + [link], i)
  {
    hide Reaches;
    assert (planned + [link])[..i] == planned[..i];
    assert planned[..|planned|] == planned;
  }

  /** A second name for a document, as drawn. */
  ghost predicate FileLinkAt(link: PlannedLink, draws: nat -> nat, start: nat, dirs: seq<string>, docs: seq<string>,
                             words: seq<string>, i: nat)
    requires dirs != [] && docs != [] && words != []
  {
    && link.species.InVaultFile?
    && link.path == JoinName(Pick(draws, start + 3 * i, dirs), Pick(draws, start + 3 * i + 1, words) + "-alias-" + Padded(i, 3) + ".md")
    && Resolved(link.path, link.target) == Some(Pick(draws, start + 3 * i + 2, docs))
  }

  /** A directory link, in the directory it came to be held in. */
  ghost predicate DirLinkAt(link: PlannedLink, draws: nat -> nat, start: nat, dirs: seq<string>, subDirs: seq<string>,
                            held: string, i: nat)
    requires dirs != [] && subDirs != []
  {
    && link.species.InVaultDir?
    && link.path == JoinName(held, Pick(draws, start + 3 * i + 2, subDirs) + "-shortcut-" + Padded(i, 3))
    && Resolved(link.path, link.target) == Some(Pick(draws, start + 3 * i + 1, dirs))
  }

  ghost predicate DanglingLinkAt(link: PlannedLink, draws: nat -> nat, start: nat, dirs: seq<string>, words: seq<string>,
                                 i: nat)
    requires dirs != [] && words != []
  {
    && link.species.Dangling?
    && link.path == JoinName(Pick(draws, start + 2 * i, dirs), Pick(draws, start + 2 * i + 1, words) + "-missing-" + Padded(i, 3) + ".md")
    && link.target == "removed-" + Padded(i, 3) + ".md"
  }

  /** One level above the vault root, from wherever the link sits. */
  ghost predicate OutboundLinkAt(link: PlannedLink, draws: nat -> nat, start: nat, dirs: seq<string>, stems: seq<string>,
                                 i: nat)
    requires dirs != [] && stems != []
  {
    && link.species.Outbound?
    && link.path == JoinName(Pick(draws, start + 3 * i, dirs), Pick(draws, start + 3 * i + 1, stems) + "-external-" + Padded(i, 3))
    && link.target == Repeat("../", Depth(Pick(draws, start + 3 * i, dirs)) + 1)
                      + ("shared-attachments/" + Pick(draws, start + 3 * i + 2, stems) + "-" + Padded(i, 3) + ".pdf")
  }

  /** Place every directory link: where it is drawn, or at the vault root where a
      walk could come back through it. `at` counts the draws taken. */
  method PlanDirLinks(draws: nat -> nat, start: nat, count: nat, dirs: seq<string>, docs: seq<string>, subDirs: seq<string>)
    returns (out: seq<PlannedLink>, at: nat)
    requires dirs != [] && subDirs != [] && Beneath(dirs) && forall w :: w in subDirs ==> SLASH !in w
    ensures |out| == count && at == start + 3 * count
    ensures forall i :: 0 <= i < count ==> out[i].species.InVaultDir? && Leads(out[i], dirs, docs)
    ensures |DirLinksOf(out)| == count && Acyclic(DirLinksOf(out))
    ensures forall i :: 0 <= i < count ==> DirLinksOf(out)[i].names != ""
    ensures forall i :: 0 <= i < count ==> Placed(draws, start, dirs, DirLinksOf(out), i)
    ensures Numbered(out, InVaultDir)
    ensures DirLinks(out, draws, start, dirs, subDirs, DirLinksOf(out))
  {
    hide Reaches, Resolved, Relative, Normal, ParentOf, JoinName, LinkName, Removed, LastPart, Named, Padded, Placed, Acyclic, DirLinksOf;
    out, at := [], start;
    NothingPlanned();
    var planned: seq<DirLink> := [];
    for i := 0 to count
      invariant |out| == i && at == start + 3 * i
      invariant forall j :: 0 <= j < i ==> out[j].species.InVaultDir? && Leads(out[j], dirs, docs)
      invariant planned == DirLinksOf(out) && |planned| == i && Acyclic(planned)
      invariant forall j :: 0 <= j < i ==> planned[j].names != ""
      invariant forall j :: 0 <= j < i ==> Placed(draws, start, dirs, planned, j)
      invariant Numbered(out, InVaultDir)
      invariant DirLinks(out, draws, start, dirs, subDirs, planned)
    {
      var drawn := Pick(draws, at, dirs);
      var target := Pick(draws, at + 1, dirs);
      var entered := Reentered(drawn, target, planned);
      var dir := if entered then "" else drawn;
      if entered {
        RootIsUnreachable(planned, target);
      }
      AddKeepsAcyclic(planned, DirLink(dir, target));
      var name := LinkName(Pick(draws, at + 2, subDirs), InVaultDir, i);
      LinkNamesArePlain(Pick(draws, at + 2, subDirs), InVaultDir, i);
      LinkNamesRead(Pick(draws, at + 2, subDirs), i);
      var link := PlannedLink(JoinName(dir, name), Relative(dir, target), InVaultDir);
      RelativeResolves(dir, name, target);
      ParentOfJoined(dir, name);
      LastPartOfJoined(dir, name);
      IsNamed(link, Pick(draws, at + 2, subDirs), i);
      DirLinksOfMore(out, link);
      out := out + [link];
      ghost var before := planned;
      planned := planned + [DirLink(dir, target)];
      forall j | 0 <= j <= i ensures Placed(draws, start, dirs, planned, j) {
        PlacedStays(draws, start, dirs, before, DirLink(dir, target), j);
      }
      at := at + 3;
    }
  }

  lemma NothingPlanned()
    ensures DirLinksOf([]) == [] && Acyclic([])
  {
  }

  /** Second names for documents. */
  method PlanFiles(draws: nat -> nat, count: nat, dirs: seq<string>, docs: seq<string>, pools: Pools)
    returns (out: seq<PlannedLink>)
    requires dirs != [] && docs != [] && pools.Usable() && forall d :: d in docs ==> Normal(d)
    ensures |out| == count
    ensures forall i :: 0 <= i < count ==> out[i].species.InVaultFile? && Leads(out[i], dirs, docs)
    ensures forall i :: 0 <= i < count ==>
              && ParentOf(out[i].path) == Pick(draws, 3 * i, dirs)
              && Resolved(out[i].path, out[i].target) == Some(Pick(draws, 3 * i + 2, docs))
    ensures Numbered(out, InVaultFile)
    ensures FileLinks(out, draws, 0, dirs, docs, pools.docWords)
  {
    hide Resolved, Relative, Normal, ParentOf, JoinName, LinkName, Removed, LastPart, Named, Padded;
    out := [];
    for i := 0 to count
      invariant |out| == i
      invariant forall j :: 0 <= j < i ==> out[j].species.InVaultFile? && Leads(out[j], dirs, docs)
      invariant forall j :: 0 <= j < i ==>
                  && ParentOf(out[j].path) == Pick(draws, 3 * j, dirs)
                  && Resolved(out[j].path, out[j].target) == Some(Pick(draws, 3 * j + 2, docs))
      invariant Numbered(out, InVaultFile)
      invariant FileLinks(out, draws, 0, dirs, docs, pools.docWords)
    {
      var dir := Pick(draws, 3 * i, dirs);
      var word := Pick(draws, 3 * i + 1, pools.docWords);
      var document := Pick(draws, 3 * i + 2, docs);
      var name := LinkName(word, InVaultFile, i);
      LinkNamesArePlain(word, InVaultFile, i);
      LinkNamesRead(word, i);
      RelativeResolves(dir, name, document);
      ParentOfJoined(dir, name);
      LastPartOfJoined(dir, name);
      var link := PlannedLink(JoinName(dir, name), Relative(dir, document), InVaultFile);
      IsNamed(link, word, i);
      out := out + [link];
    }
  }

  /** Targets that are not there: siblings no document is named like. */
  method PlanDangling(draws: nat -> nat, start: nat, count: nat, dirs: seq<string>, docs: seq<string>, pools: Pools)
    returns (out: seq<PlannedLink>)
    requires dirs != [] && pools.Usable() && Beneath(dirs)
    ensures |out| == count
    ensures forall i :: 0 <= i < count ==> out[i].species.Dangling? && Leads(out[i], dirs, docs)
    ensures forall i :: 0 <= i < count ==>
              && ParentOf(out[i].path) == Pick(draws, start + 2 * i, dirs)
              && out[i].target == Removed(i)
              && Resolved(out[i].path, out[i].target) == Some(JoinName(ParentOf(out[i].path), out[i].target))
    ensures Numbered(out, Dangling)
    ensures DanglingLinks(out, draws, start, dirs, pools.docWords)
  {
    hide Resolved, Normal, ParentOf, JoinName, LinkName, Removed, LastPart, Named, Padded;
    out := [];
    for i := 0 to count
      invariant |out| == i
      invariant forall j :: 0 <= j < i ==> out[j].species.Dangling? && Leads(out[j], dirs, docs)
      invariant forall j :: 0 <= j < i ==>
                  && ParentOf(out[j].path) == Pick(draws, start + 2 * j, dirs)
                  && out[j].target == Removed(j)
      invariant Numbered(out, Dangling)
      invariant DanglingLinks(out, draws, start, dirs, pools.docWords)
    {
      var dir := Pick(draws, start + 2 * i, dirs);
      var word := Pick(draws, start + 2 * i + 1, pools.docWords);
      var name := LinkName(word, Dangling, i);
      LinkNamesArePlain(word, Dangling, i);
      LinkNamesRead(word, i);
      RemovedReads(i);
      SiblingResolves(dir, name, Removed(i));
      ParentOfJoined(dir, name);
      LastPartOfJoined(dir, name);
      var link := PlannedLink(JoinName(dir, name), Removed(i), Dangling);
      IsNamed(link, word, i);
      out := out + [link];
    }
  }

  /** A target that is one plain name resolves beside the link. */
  lemma SiblingResolves(dir: string, name: string, target: string)
    requires Normal(dir) && SLASH !in name && PlainName(target)
    ensures Resolved(JoinName(dir, name), target) == Some(JoinName(dir, target))
  {
    var stack := Components(dir);
    ParentOfJoined(dir, name);
    SplitOfPlain(target, SLASH);
    ResolveDescends(stack, [target]);
    NormalIsJoin(dir);
    if stack != [] {
      JoinAcross(stack, [target], SLASH);
    } else {
      assert stack + [target] == [target];
    }
  }

  lemma RemovedReads(index: nat)
    ensures Removed(index) == "removed-" + Padded(index, 3) + ".md"
  {
  }

  /** Nothing stands where they lead. */
  lemma NothingThere(links: seq<PlannedLink>, docs: seq<string>, words: seq<string>)
    requires forall i :: 0 <= i < |links| ==>
               && links[i].target == Removed(i)
               && Resolved(links[i].path, links[i].target) == Some(JoinName(ParentOf(links[i].path), links[i].target))
    requires |links| <= 1000 || "removed" !in words
    ensures forall link, d :: link in links && d in docs && NamedAsDocument(d, words) ==>
              Resolved(link.path, link.target) != Some(d)
  {
    hide Resolved, NamedAsDocument, Removed, JoinName, ParentOf;
    forall link, d | link in links && d in docs && NamedAsDocument(d, words)
      ensures Resolved(link.path, link.target) != Some(d)
    {
      var i :| 0 <= i < |links| && links[i] == link;
      RemovedIsMissing(ParentOf(link.path), i, d, words);
    }
  }

  /** Targets above the vault root, from wherever the link sits. */
  method PlanOutbound(draws: nat -> nat, start: nat, count: nat, dirs: seq<string>, docs: seq<string>, pools: Pools)
    returns (out: seq<PlannedLink>)
    requires dirs != [] && pools.Usable()
    ensures |out| == count
    ensures forall i :: 0 <= i < count ==> out[i].species.Outbound? && Leads(out[i], dirs, docs)
    ensures forall i :: 0 <= i < count ==> ParentOf(out[i].path) == Pick(draws, start + 3 * i, dirs)
    ensures Numbered(out, Outbound)
    ensures OutboundLinks(out, draws, start, dirs, pools.clutterStems)
  {
    hide Resolved, Normal, ParentOf, JoinName, LinkName, Removed, LastPart, Named, Padded, Depth;
    out := [];
    for i := 0 to count
      invariant |out| == i
      invariant forall j :: 0 <= j < i ==> out[j].species.Outbound? && Leads(out[j], dirs, docs)
      invariant forall j :: 0 <= j < i ==> ParentOf(out[j].path) == Pick(draws, start + 3 * j, dirs)
      invariant Numbered(out, Outbound)
      invariant OutboundLinks(out, draws, start, dirs, pools.clutterStems)
    {
      var dir := Pick(draws, start + 3 * i, dirs);
      var word := Pick(draws, start + 3 * i + 1, pools.clutterStems);
      var name := LinkName(word, Outbound, i);
      LinkNamesArePlain(word, Outbound, i);
      LinkNamesRead(word, i);
      var stem := Pick(draws, start + 3 * i + 2, pools.clutterStems);
      var rest := "shared-attachments/" + stem + "-" + Padded(i, 3) + ".pdf";
      var target := Repeat("../", Depth(dir)) + "../" + rest;
      RepeatOnce(Depth(dir));
      assert target == Repeat("../", Depth(dir) + 1) + rest;
      ClimbingOutEscapes(dir, name, rest);
      ParentOfJoined(dir, name);
      LastPartOfJoined(dir, name);
      var link := PlannedLink(JoinName(dir, name), target, Outbound);
      IsNamed(link, word, i);
      out := out + [link];
    }
  }

  lemma {:induction false} RepeatOnce(n: nat)
    ensures Repeat("../", n) + "../" == Repeat("../", n + 1)
  {
    if n > 0 {
      RepeatOnce(n - 1);
    }
  }

  lemma {:induction false} DirLinksOfBoth(a: seq<PlannedLink>, b: seq<PlannedLink>)
    ensures DirLinksOf(a + b) == DirLinksOf(a) + DirLinksOf(b)
  {
    if b == [] {
      assert a + b == a;
    } else {
      assert (a + b)[..|a + b| - 1] == a + b[..|b| - 1];
      DirLinksOfBoth(a, b[..|b| - 1]);
    }
  }

  lemma {:induction false} NoDirLinks(out: seq<PlannedLink>)
    requires forall i :: 0 <= i < |out| ==> !out[i].species.InVaultDir?
    ensures DirLinksOf(out) == []
  {
    if out != [] {
      NoDirLinks(out[..|out| - 1]);
    }
  }

  /** `out` is four stretches of links, each as long as its count, and their draws are
      taken in that order: three for each second name, three for each directory link,
      two for each dangling one and three for each that leaves. */
  ghost predicate AsDrawn(draws: nat -> nat, counts: Counts, dirs: seq<string>, docs: seq<string>, pools: Pools,
                          out: seq<PlannedLink>)
    requires dirs != [] && docs != [] && pools.Usable()
  {
    exists files, dirLinks, dangling, outbound ::
      && out == files + dirLinks + dangling + outbound
      && Stretches(draws, counts, dirs, docs, pools, files, dirLinks, dangling, outbound, DirLinksOf(out))
  }

  ghost predicate Stretches(draws: nat -> nat, counts: Counts, dirs: seq<string>, docs: seq<string>, pools: Pools,
                            files: seq<PlannedLink>, dirLinks: seq<PlannedLink>, dangling: seq<PlannedLink>,
                            outbound: seq<PlannedLink>, held: seq<DirLink>)
    requires dirs != [] && docs != [] && pools.Usable()
  {
    var f, d, g, o := counts.inVaultFile, counts.inVaultDir, counts.dangling, counts.outbound;
    && |files| == f && |dirLinks| == d && |dangling| == g && |outbound| == o && |held| == d
    && FileLinks(files, draws, 0, dirs, docs, pools.docWords)
    && DirLinks(dirLinks, draws, 3 * f, dirs, pools.subDirs, held)
    && DanglingLinks(dangling, draws, 3 * f + 3 * d, dirs, pools.docWords)
    && OutboundLinks(outbound, draws, 3 * f + 3 * d + 2 * g, dirs, pools.clutterStems)
  }

  ghost predicate FileLinks(links: seq<PlannedLink>, draws: nat -> nat, start: nat, dirs: seq<string>,
                            docs: seq<string>, words: seq<string>)
    requires dirs != [] && docs != [] && words != []
  {
    forall i :: 0 <= i < |links| ==> FileLinkAt(links[i], draws, start, dirs, docs, words, i)
  }

  ghost predicate DirLinks(links: seq<PlannedLink>, draws: nat -> nat, start: nat, dirs: seq<string>,
                           subDirs: seq<string>, held: seq<DirLink>)
    requires dirs != [] && subDirs != [] && |held| == |links|
  {
    forall i :: 0 <= i < |links| ==> DirLinkAt(links[i], draws, start, dirs, subDirs, held[i].held, i)
  }

  ghost predicate DanglingLinks(links: seq<PlannedLink>, draws: nat -> nat, start: nat, dirs: seq<string>,
                                words: seq<string>)
    requires dirs != [] && words != []
  {
    forall i :: 0 <= i < |links| ==> DanglingLinkAt(links[i], draws, start, dirs, words, i)
  }

  ghost predicate OutboundLinks(links: seq<PlannedLink>, draws: nat -> nat, start: nat, dirs: seq<string>,
                                stems: seq<string>)
    requires dirs != [] && stems != []
  {
    forall i :: 0 <= i < |links| ==> OutboundLinkAt(links[i], draws, start, dirs, stems, i)
  }

  /** Plan every link asked for. Whatever is drawn, each link leads where its
      species says, and no walk that descends every directory and follows every
      directory link arrives back through one. */
  method Plan(draws: nat -> nat, counts: Counts, dirs: seq<string>, docs: seq<string>, pools: Pools)
    returns (out: seq<PlannedLink>)
    requires pools.Usable() && Beneath(dirs) && forall d :: d in docs ==> Normal(d)
    ensures dirs == [] || docs == [] ==> out == []
    ensures dirs != [] && docs != [] ==>
              && |out| == counts.inVaultFile + counts.inVaultDir + counts.dangling + counts.outbound
              && |DirLinksOf(out)| == counts.inVaultDir
              && (forall i :: 0 <= i < counts.inVaultDir ==>
                    Placed(draws, 3 * counts.inVaultFile, dirs, DirLinksOf(out), i))
    ensures dirs != [] && docs != [] ==> AsDrawn(draws, counts, dirs, docs, pools, out)
    ensures forall link :: link in out ==> Leads(link, dirs, docs)
    ensures Acyclic(DirLinksOf(out))
    ensures forall i, j :: 0 <= i < j < |out| ==> out[i].path != out[j].path
    ensures counts.dangling <= 1000 || "removed" !in pools.docWords ==>
              forall link, d :: link in out && link.species.Dangling? && d in docs && NamedAsDocument(d, pools.docWords) ==>
                Resolved(link.path, link.target) != Some(d)
  {
    hide Named, NamedAsDocument, LastPart, HasIndex, Removed;
    hide FileLinks, DirLinks, DanglingLinks, OutboundLinks;
    hide Leads, Normal, Resolved, Placed, Acyclic, DirLinksOf, Pick;
    if dirs == [] || docs == [] {
      NothingPlanned();
      return [];
    }
    var files := PlanFiles(draws, counts.inVaultFile, dirs, docs, pools);
    var dirLinks, at := PlanDirLinks(draws, 3 * counts.inVaultFile, counts.inVaultDir, dirs, docs, pools.subDirs);
    var dangling := PlanDangling(draws, at, counts.dangling, dirs, docs, pools);
    var outbound := PlanOutbound(draws, at + 2 * counts.dangling, counts.outbound, dirs, docs, pools);
    NoDirLinks(files);
    NoDirLinks(dangling);
    NoDirLinks(outbound);
    DirLinksOfBoth(files, dirLinks);
    DirLinksOfBoth(files + dirLinks, dangling);
    DirLinksOfBoth(files + dirLinks + dangling, outbound);
    AllApart(files, dirLinks, dangling, outbound);
    if counts.dangling <= 1000 || "removed" !in pools.docWords {
      NothingThere(dangling, docs, pools.docWords);
    }
    out := files + dirLinks + dangling + outbound;
    assert Stretches(draws, counts, dirs, docs, pools, files, dirLinks, dangling, outbound, DirLinksOf(dirLinks));
    assert DirLinksOf(out) == DirLinksOf(dirLinks);
  }
}
