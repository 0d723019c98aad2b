/**
 The conservative rule by which norn tells whether a vault's git ignores its
 fallback shadow directory, and why a yes from it can be believed.
 */
module Gitignore {
  import opened Prelude
  import opened GitRules
  import Paths
  import Utf8

  const NORN: string := ".norn"
  const TMP: string := "tmp"
  const FALLBACK: Path := [NORN, TMP]
  const SELF_IGNORE_TEXT: string := "*\n"
  const GITIGNORE_BOUND: nat := 64 * 1024

  const COVERING: seq<string> :=
    [".norn", ".norn/", ".norn/*", ".norn/**", ".norn/tmp", ".norn/tmp/", ".norn/tmp/*", ".norn/tmp/**"]

  /** How many of the spellings, from the front, exclude the directory itself. */
  const EXCLUDING_NORN: nat := 2

  const ANCHORS: seq<string> := ["", "/", "**/"]

  // ----- reading the vault

  datatype Found = Whole(text: string) | Longer | Absent | Refused

  /** A read that takes nothing but a plain file, and no more than `bound` of it. */
  function ReadBounded(v: Vault, at: Path, bound: nat): Found {
    if at !in v then Absent
    else match v[at]
         case File(text) => if |text| <= bound then Whole(text) else Longer
         case Other => Refused
  }

  /** Whether norn's own `.gitignore` stands in the fallback directory. */
  predicate SelfIgnored(v: Vault) {
    ReadBounded(v, FALLBACK + [GITIGNORE], |SELF_IGNORE_TEXT|) == Whole(SELF_IGNORE_TEXT)
  }

  /** One component of a path as it was given. */
  datatype Component = Normal(name: string) | Special

  predicate UnderFallback(home: seq<Component>) {
    && |home| >= |FALLBACK|
    && (forall i :: 0 <= i < |home| ==> home[i].Normal?)
    && home[0].name == NORN && home[1].name == TMP
  }

  function Names(home: seq<Component>): (path: Path)
    requires forall i :: 0 <= i < |home| ==> home[i].Normal?
    ensures |path| == |home| && forall i :: 0 <= i < |path| ==> path[i] == home[i].name
  {
    seq(|home|, i requires 0 <= i < |home| => home[i].name)
  }

  /** Whether some directory on the way down to `home`, it included, has an entry
      named `.gitignore`, of any kind. */
  predicate GitignoreOnTheWay(v: Vault, home: Path) {
    exists k :: 1 <= k <= |home| && home[..k] + [GITIGNORE] in v
  }

  // ----- reading a line

  function TrimEnd(s: string): (t: string)
    ensures t <= s && AllSpaces(s[|t|..])
    ensures t != [] ==> t[|t| - 1] != ' '
  {
    if s != [] && s[|s| - 1] == ' ' then TrimEnd(s[..|s| - 1]) else s
  }

  function Told(line: string): string {
    TrimEnd(WithoutReturn(line))
  }

  predicate Negates(line: string) {
    Told(line) != [] && Told(line)[0] == '!'
  }

  function Position(s: string, spellings: seq<string>): (at: Option<nat>)
    ensures at.Some? ==> at.value < |spellings| && spellings[at.value] == s
    ensures at.None? ==> forall i :: 0 <= i < |spellings| ==> spellings[i] != s
  {
    if spellings == [] then None
    else if spellings[0] == s then Some(0)
    else match Position(s, spellings[1..])
         case Some(i) => Some(i + 1)
         case None => None
  }

  /** Which covering spelling, under the first anchor that leaves one. */
  function Spelling(text: string, anchors: seq<string>): (at: Option<nat>)
    ensures at.Some? ==> at.value < |COVERING| && exists a :: a in anchors && text == a + COVERING[at.value]
    ensures at.None? ==> forall a, i :: a in anchors && 0 <= i < |COVERING| ==> text != a + COVERING[i]
  {
    if anchors == [] then None
    else
      var here := if anchors[0] <= text then Position(text[|anchors[0]|..], COVERING) else None;
      if here.Some? then
        assert anchors[0] in anchors && text == anchors[0] + COVERING[here.value];
        here
      else
        assert forall i :: 0 <= i < |COVERING| ==> (text == anchors[0] + COVERING[i] ==>
            anchors[0] <= text && text[|anchors[0]|..] == COVERING[i]);
        assert forall a :: a in anchors ==> a == anchors[0] || a in anchors[1..];
        Spelling(text, anchors[1..])
  }

  // ----- what a file covers

  datatype Coverage = Nothing | Directory | Contents

  predicate Covers(line: string) {
    Spelling(Told(line), ANCHORS).Some?
  }

  predicate ExcludesNorn(line: string) {
    Covers(line) && Spelling(Told(line), ANCHORS).value < EXCLUDING_NORN
  }

  function Octets(text: string): (b: Bytes)
    ensures |b| == |text| && forall i :: 0 <= i < |text| && text[i] as int < 256 ==> b[i] as int == text[i] as int
  {
    seq(|text|, i requires 0 <= i < |text| => (text[i] as int % 256) as byte)
  }

  /** What some lines cover, when none of them is a negation. */
  function CoverageOf(lines: seq<string>): Coverage {
    if exists i :: 0 <= i < |lines| && ExcludesNorn(lines[i]) then Directory
    else if exists i :: 0 <= i < |lines| && Covers(lines[i]) then Contents
    else Nothing
  }

  function CoverageOfText(text: string): Coverage {
    var lines := Paths.Split(text, '\n');
    if !Utf8.FromUtf8(Octets(text)).Valid? || exists i :: 0 <= i < |lines| && Negates(lines[i]) then Nothing
    else CoverageOf(lines)
  }

  lemma OneMoreLine(lines: seq<string>, i: nat)
    requires i < |lines|
    ensures CoverageOf(lines[..i + 1]) ==
            if CoverageOf(lines[..i]) == Directory || ExcludesNorn(lines[i]) then Directory
            else if Covers(lines[i]) then Contents
            else CoverageOf(lines[..i])
  {
    hide Covers, ExcludesNorn;
    var seen, more := lines[..i], lines[..i + 1];
    assert more == seen + [lines[i]];
    assert more[i] == lines[i];
    assert forall k :: 0 <= k < i ==> seen[k] == more[k];
    assert ExcludesNorn(lines[i]) ==> Covers(lines[i]) by { hide *; ExcludingIsCovering(lines[i]); }
  }

  lemma NothingIsCovered(lines: seq<string>)
    requires lines == []
    ensures CoverageOf(lines) == Nothing
  {
  }

  lemma ExcludingIsCovering(line: string)
    ensures ExcludesNorn(line) ==> Covers(line)
  {
    hide Spelling, Told;
  }

  method CoversFallback(text: string) returns (coverage: Coverage)
    ensures coverage == CoverageOfText(text)
  {
    hide Spelling, TrimEnd, Paths.Split, WithoutReturn, Octets, Utf8.FromUtf8, CoverageOf;
    if !Utf8.FromUtf8(Octets(text)).Valid? {
      return Nothing;
    }
    coverage := Nothing;
    var lines := Paths.Split(text, '\n');
    NothingIsCovered(lines[..0]);
    for i := 0 to |lines|
      invariant forall k :: 0 <= k < i ==> !Negates(lines[k])
      invariant coverage == CoverageOf(lines[..i])
    {
      OneMoreLine(lines, i);
      var line := WithoutReturn(lines[i]);
      line := TrimEnd(line);
      if line == [] || line[0] == '#' {
        assert !Covers(lines[i]) by {
          if Covers(lines[i]) { SpellingsBegin(line); }
        }
        continue;
      }
      if line[0] == '!' {
        return Nothing;
      }
      var spelling := Spelling(line, ANCHORS);
      if coverage != Directory && spelling.Some? {
        coverage := if spelling.value < EXCLUDING_NORN then Directory else Contents;
      }
    }
    assert lines[..|lines|] == lines;
  }

  lemma SpellingsBegin(text: string)
    requires Spelling(text, ANCHORS).Some?
    ensures text != [] && (text[0] == '.' || text[0] == '/' || text[0] == '*')
  {
    var a :| a in ANCHORS && text == a + COVERING[Spelling(text, ANCHORS).value];
    assert a == "" || a[0] == '/' || a[0] == '*';
    CoveringBegins(Spelling(text, ANCHORS).value);
  }

  lemma CoveringBegins(i: nat)
    requires i < |COVERING|
    ensures COVERING[i] != [] && COVERING[i][0] == '.'
  {
  }

  // ----- the answer

  datatype Answer = Says(ignored: bool) | Refusal

  /** The home is a plain path, and under the fallback directory. */
  predicate Under(home: seq<Component>) {
    |home| >= 2 && home[..2] == [Normal(".norn"), Normal("tmp")] && forall i :: 0 <= i < |home| ==> home[i].Normal?
  }

  /** The file norn writes stands where it writes it, and holds what it writes. */
  predicate SelfStands(v: Vault) {
    [".norn", "tmp", ".gitignore"] in v && v[[".norn", "tmp", ".gitignore"]] == File("*\n")
  }

  /** The root's file is a plain one of at most 64 KiB, and covers the fallback so. */
  predicate RootSays(v: Vault, coverage: Coverage) {
    && [".gitignore"] in v && v[[".gitignore"]].File?
    && |v[[".gitignore"]].text| <= 65536
    && CoverageOfText(v[[".gitignore"]].text) == coverage
  }

  predicate WayHas(v: Vault, home: Path) {
    exists k :: 1 <= k <= |home| && home[..k] + [".gitignore"] in v
  }

  lemma ReadsSo(v: Vault, home: seq<Component>)
    ensures UnderFallback(home) <==> Under(home)
    ensures SelfIgnored(v) <==> SelfStands(v)
    ensures forall coverage :: RootCovers(v, coverage) <==> RootSays(v, coverage)
    ensures forall names :: GitignoreOnTheWay(v, names) <==> WayHas(v, names)
  {
    hide CoverageOfText;
    assert FALLBACK + [GITIGNORE] == [".norn", "tmp", ".gitignore"];
    if |home| >= 2 {
      assert home[..2] == [home[0], home[1]];
    }
  }

  /** Whether the vault ignores the fallback home, as far as this rule can tell. A
      yes means every file in the home is ignored, by any git, whatever else the
      vault and the machine hold. */
  method FallbackIgnored(v: Vault, home: seq<Component>) returns (r: Answer)
    ensures r == Refusal <==> !(Under(home) && SelfStands(v)) && [".gitignore"] in v && v[[".gitignore"]] == Other
    ensures r == Says(true) <==>
              || (Under(home) && SelfStands(v))
              || RootSays(v, Directory)
              || (RootSays(v, Contents) && Under(home) && !WayHas(v, Names(home)))
    ensures r == Says(true) && UnderFallback(home) ==>
              forall git: Git, file: Path :: git.Conforms() && Names(home) < file ==> Ignores(git, v, file)
  {
    ReadsSo(v, home);
    hide CoverageOfText, Ignores, Git.Conforms, RootSays, SelfStands, WayHas;
    var under := UnderFallback(home);
    if under && SelfIgnored(v) {
      assert FALLBACK <= Names(home);
      YesIsBelievable(v, Names(home));
      return Says(true);
    }
    var coverage := Nothing;
    match ReadBounded(v, [GITIGNORE], GITIGNORE_BOUND) {
      case Refused => return Refusal;
      case Longer =>
      case Absent =>
      case Whole(text) => coverage := CoversFallback(text);
    }
    match coverage {
      case Nothing => r := Says(false);
      case Directory => r := Says(true);
      case Contents => r := Says(under && !GitignoreOnTheWay(v, Names(home)));
    }
    if r.ignored && under {
      assert FALLBACK <= Names(home);
      if coverage == Contents {
        FallbackIsOnTheWay(v, Names(home));
      }
      YesIsBelievable(v, Names(home));
    }
  }

  /** The root's `.gitignore` can be read whole, and covers the fallback so. */
  predicate RootCovers(v: Vault, coverage: Coverage) {
    match ReadBounded(v, [GITIGNORE], GITIGNORE_BOUND)
    case Whole(text) => CoverageOfText(text) == coverage
    case _ => false
  }

  lemma FallbackIsOnTheWay(v: Vault, home: Path)
    requires FALLBACK <= home && !GitignoreOnTheWay(v, home)
    ensures !GitignoreOnTheWay(v, FALLBACK)
  {
    forall k | 1 <= k <= |FALLBACK| ensures FALLBACK[..k] + [GITIGNORE] !in v {
      assert FALLBACK[..k] == home[..k];
    }
  }

  // ----- why a yes can be believed

  /** Of the directories on the way only `.norn` and `.norn/tmp` bear on it: what
      stands in those below, which the rule asks about too, changes nothing. */
  lemma YesIsBelievable(v: Vault, home: Path)
    requires FALLBACK <= home
    requires || SelfIgnored(v)
             || RootCovers(v, Directory)
             || (RootCovers(v, Contents) && !GitignoreOnTheWay(v, FALLBACK))
    ensures forall git: Git, file: Path :: git.Conforms() && home < file ==> Ignores(git, v, file)
  {
    forall git: Git, file: Path | git.Conforms() && home < file ensures Ignores(git, v, file) {
      if SelfIgnored(v) {
        SelfIgnoreCovers(git, v, file);
      } else {
        RootFileCovers(git, v, home, file);
      }
    }
  }

  /** `*` in the fallback directory's own file takes the first name below it. */
  lemma SelfIgnoreCovers(git: Git, v: Vault, file: Path)
    requires git.Conforms() && SelfIgnored(v) && FALLBACK < file
    ensures Ignores(git, v, file)
  {
    hide Decision;
    assert file[..3][..2] == FALLBACK;
    assert TextIn(git, v, FALLBACK) == Some(SELF_IGNORE_TEXT);
    StarTakesAll(git, [file[2]], 3 < |file|);
    assert file[..3][2..] == [file[2]];
    DecidedHere(git, v, file[..3], 3 < |file|, 2, SELF_IGNORE_TEXT);
    ExclusionStopsTheWalk(git, v, file, 1, 3);
  }

  lemma DecidedHere(git: Git, v: Vault, path: Path, isDir: bool, depth: nat, text: string)
    requires depth < |path| && TextIn(git, v, path[..depth]) == Some(text)
    requires LastMatch(git, LinesOf(text), path[depth..], isDir) == Ignored
    ensures Decision(git, v, path, isDir, depth) == Ignored
  {
  }

  lemma StarTakesAll(git: Git, path: Path, isDir: bool)
    requires git.Conforms() && |path| == 1
    ensures LastMatch(git, LinesOf(SELF_IGNORE_TEXT), path, isDir) == Ignored
  {
    Paths.SplitOfPlain("*", '\n');
    Paths.SplitAcross("*", "", '\n');
    assert SELF_IGNORE_TEXT == "*" + ['\n'] + "";
    assert LinesOf(SELF_IGNORE_TEXT) == ["*", ""];
    assert PatternOf("") == None;
    assert "*"[0] != ' ' && "*"[1..] == "";
    assert Trimmed("*") == ['*'] + Trimmed("") == "*";
    var p := Pattern(false, false, true, ["*"]);
    assert PatternOf("*") == Some(p);
    assert ["**"] + p.pieces == ["**", "*"] && ["**", "*"][1..] == ["*"];
    assert Glob(["*"], path) by { assert Glob([], path[1..]); }
    assert PlainlyMatches(p, path, isDir);
    assert ["*", ""][..1] == ["*"];
  }

  /** How many names of a path a covering spelling takes to match. */
  function Reach(i: nat): nat {
    if i < 2 then 1 else if i < 6 then 2 else 3
  }

  function PiecesOf(i: nat): seq<string> {
    if i < 2 then [NORN]
    else if i == 2 then [NORN, "*"]
    else if i == 3 then [NORN, "**"]
    else if i < 6 then [NORN, TMP]
    else if i == 6 then [NORN, TMP, "*"]
    else [NORN, TMP, "**"]
  }

  predicate Slashed(i: nat) {
    i == 1 || i == 5
  }

  lemma CoveringIsJoined(i: nat)
    requires i < |COVERING|
    ensures COVERING[i] == Paths.Join(PiecesOf(i), '/') + (if Slashed(i) then "/" else "")
  {
    var pieces := PiecesOf(i);
    if i < 2 {
      assert COVERING[i] == NORN + (if i == 1 then "/" else "");
    } else if i < 6 {
      JoinedTwo(pieces[0], pieces[1]);
      assert COVERING[i] == pieces[0] + ['/'] + pieces[1] + (if i == 5 then "/" else "");
    } else {
      JoinedTwo(pieces[1], pieces[2]);
      assert pieces[1..] == [pieces[1], pieces[2]];
      assert COVERING[i] == pieces[0] + ['/'] + (pieces[1] + ['/'] + pieces[2]) + "";
    }
  }

  lemma JoinedTwo(a: string, b: string)
    ensures Paths.Join([a, b], '/') == a + ['/'] + b
  {
    assert [a, b][1..] == [b];
  }

  /** A covering line is, to git, a pattern that is no negation and that matches
      the way to any file in the fallback at the spelling's reach. */
  lemma CoveringLineMatches(line: string, file: Path) returns (p: Pattern)
    requires Covers(line) && FALLBACK < file
    ensures PatternOf(line) == Some(p) && !p.negated
    ensures var pieces := PiecesOf(Spelling(Told(line), ANCHORS).value);
            p.pieces == pieces || (!p.floating && p.pieces == ["**"] + pieces)
    ensures var k := Reach(Spelling(Told(line), ANCHORS).value);
            PlainlyMatches(p, file[..k], k < |file|)
  {
    hide PlainlyMatches, Glob, Paths.Split, Spelling, Trimmed, TrimEnd, Paths.Join;
    var text, i := Told(line), Spelling(Told(line), ANCHORS).value;
    var a :| a in ANCHORS && text == a + COVERING[i];
    SpellingsBegin(text);
    CoveringIsJoined(i);
    TrimsAgree(WithoutReturn(line), text, i, a);
    p := CoveringPattern(a, i);
    var k := Reach(i);
    PiecesMatch(i, file);
    PatternMatches(p, PiecesOf(i), file[..k], k < |file|);
  }

  lemma PatternMatches(p: Pattern, pieces: seq<string>, path: Path, isDir: bool)
    requires Glob(pieces, path) && (p.dirOnly ==> isDir)
    requires p.pieces == pieces || (!p.floating && p.pieces == ["**"] + pieces)
    requires pieces != []
    ensures PlainlyMatches(p, path, isDir)
  {
    var all := (if p.floating then ["**"] else []) + p.pieces;
    if p.floating || p.pieces != pieces {
      assert all == ["**"] + pieces && all[1..] == pieces;
    } else {
      assert all == pieces;
    }
  }

  lemma PiecesMatch(i: nat, file: Path)
    requires i < |COVERING| && FALLBACK < file
    ensures Glob(PiecesOf(i), file[..Reach(i)])
    ensures Slashed(i) ==> Reach(i) < |file|
  {
    var path := file[..Reach(i)];
    assert Literal(NORN) && Literal(TMP);
    assert path[0] == NORN;
    if i < 2 {
      assert path[1..] == [] && [NORN][1..] == [];
    } else if i < 4 {
      TakesOne(path[1..], PiecesOf(i)[1..]);
    } else {
      assert path[1] == TMP;
      var below := PiecesOf(i)[1..];
      assert path[1..][0] == TMP && below[0] == TMP;
      if i < 6 {
        assert path[1..][1..] == [] && below[1..] == [];
      } else {
        TakesOne(path[1..][1..], below[1..]);
      }
    }
  }

  lemma TakesOne(path: Path, pieces: seq<string>)
    requires |path| == 1 && (pieces == ["*"] || pieces == ["**"])
    ensures Glob(pieces, path)
  {
    assert pieces[1..] == [] && path[1..] == [];
  }

  // ----- a covering line, read as git reads it

  lemma CoveringPattern(a: string, i: nat) returns (p: Pattern)
    requires a in ANCHORS && i < |COVERING|
    ensures p == Read(false, a + COVERING[i])
    ensures !p.negated && p.dirOnly == Slashed(i)
    ensures p.pieces == PiecesOf(i) || (!p.floating && p.pieces == ["**"] + PiecesOf(i))
  {
    hide Paths.Split, Spelling, Glob, Trimmed, Paths.Join;
    CoveringIsJoined(i);
    var pieces := PiecesOf(i);
    var body := a + Paths.Join(pieces, '/');
    var text := a + COVERING[i];
    assert text == body + (if Slashed(i) then "/" else "");
    EndsInAName(pieces);
    assert body[|body| - 1] == Paths.Join(pieces, '/')[|Paths.Join(pieces, '/')| - 1];
    assert (if Slashed(i) then text[..|text| - 1] else text) == body;
    p := Read(false, text);
    BodyIsSplit(a, pieces, body);
  }

  /** A body of pieces under an anchor is taken apart into them again. */
  lemma BodyIsSplit(a: string, pieces: seq<string>, body: string)
    requires a in ANCHORS && pieces != [] && body == a + Paths.Join(pieces, '/')
    requires forall k :: 0 <= k < |pieces| ==> pieces[k] != [] && '/' !in pieces[k]
    ensures '/' !in body ==> [body] == pieces
    ensures '/' in body ==>
              var split := Paths.Split(if body[0] == '/' then body[1..] else body, '/');
              split == pieces || split == ["**"] + pieces
  {
    hide Paths.Split, Paths.Join;
    if a == "**/" {
      DeepBody(pieces, body);
    } else if a == "/" {
      EndsInAName(pieces);
      Paths.SplitOfJoin(pieces, '/');
      assert body[0] == '/' && body[1..] == Paths.Join(pieces, '/');
    } else {
      assert body == Paths.Join(pieces, '/');
      PlainBody(pieces, body);
    }
  }

  lemma PlainBody(pieces: seq<string>, body: string)
    requires pieces != [] && body == Paths.Join(pieces, '/')
    requires forall k :: 0 <= k < |pieces| ==> pieces[k] != [] && '/' !in pieces[k]
    ensures '/' !in body ==> [body] == pieces
    ensures body != [] && body[0] != '/' && Paths.Split(body, '/') == pieces
  {
    hide Paths.Split;
    EndsInAName(pieces);
    Paths.SplitOfJoin(pieces, '/');
    if |pieces| > 1 {
      assert body[|pieces[0]|] == '/';
    }
  }

  lemma DeepBody(pieces: seq<string>, body: string)
    requires pieces != [] && body == "**/" + Paths.Join(pieces, '/')
    requires forall k :: 0 <= k < |pieces| ==> pieces[k] != [] && '/' !in pieces[k]
    ensures '/' in body && body[0] != '/' && Paths.Split(body, '/') == ["**"] + pieces
  {
    hide Paths.Split, Paths.Join;
    JoinedMore("**", pieces);
    assert body == Paths.Join(["**"] + pieces, '/');
    Paths.SplitOfJoin(["**"] + pieces, '/');
    assert body[0] == '*' && body[2] == '/';
  }

  lemma JoinedMore(first: string, pieces: seq<string>)
    requires pieces != []
    ensures Paths.Join([first] + pieces, '/') == first + ['/'] + Paths.Join(pieces, '/')
  {
    assert ([first] + pieces)[1..] == pieces;
  }

  lemma EndsInAName(pieces: seq<string>)
    requires pieces != [] && forall k :: 0 <= k < |pieces| ==> pieces[k] != [] && '/' !in pieces[k]
    ensures Paths.Join(pieces, '/') != [] && Paths.Join(pieces, '/')[|Paths.Join(pieces, '/')| - 1] != '/'
    ensures Paths.Join(pieces, '/')[0] != '/'
  {
    if |pieces| > 1 {
      EndsInAName(pieces[1..]);
    }
  }

  /** With no backslash in what is left, both ways of trimming leave the same. */
  lemma TrimsAgree(s: string, t: string, i: nat, a: string)
    requires t == TrimEnd(s) && a in ANCHORS && i < |COVERING| && t == a + COVERING[i]
    ensures Trimmed(s) == t
  {
    assert '\\' !in a;
    NoBackslash(i);
    TrimsAgreeAt(s, t);
  }

  lemma NoBackslash(i: nat)
    requires i < |COVERING|
    ensures '\\' !in COVERING[i]
  {
  }

  lemma {:induction false} TrimsAgreeAt(s: string, t: string)
    requires t <= s && AllSpaces(s[|t|..]) && (t != [] ==> t[|t| - 1] != ' ') && '\\' !in t
    ensures Trimmed(s) == t
    decreases |s|
  {
    if t == [] {
      assert s[0..] == s;
    } else {
      assert !AllSpaces(s) by { assert s[|t| - 1] == t[|t| - 1]; }
      assert s[0] == t[0];
      assert s[1..][|t[1..]|..] == s[|t|..];
      TrimsAgreeAt(s[1..], t[1..]);
      assert [t[0]] + t[1..] == t;
    }
  }

  // ----- the file, read as git reads it

  /** What git takes for a negation this rule does too, and nothing else. */
  lemma NegationsAgree(line: string)
    ensures PatternOf(line).Some? && PatternOf(line).value.negated <==> Negates(line)
  {
    hide TrimEnd;
    var s := WithoutReturn(line);
    assert s[0..] == s;
    assert s != [] && s[0] == '!' ==> !AllSpaces(s);
    if Trimmed(s) != [] {
      TrimmedBegins(s);
    }
    if TrimEnd(s) != [] {
      assert TrimEnd(s)[0] == s[0];
    }
  }

  lemma TrimmedBegins(s: string)
    requires Trimmed(s) != []
    ensures s != [] && Trimmed(s)[0] == s[0]
  {
  }

  /** A line matches, it is no negation, and no later one is: ignored. */
  lemma {:induction false} NoLaterNegation(git: Git, lines: seq<string>, at: nat, p: Pattern, path: Path, isDir: bool)
    requires git.Conforms() && at < |lines| && PatternOf(lines[at]) == Some(p) && !p.negated
    requires PlainlyMatches(p, path, isDir)
    requires forall k :: at < k < |lines| ==> !Negates(lines[k])
    ensures LastMatch(git, lines, path, isDir) == Ignored
  {
    hide PatternOf, Negates, PlainlyMatches;
    var n := |lines| - 1;
    if at < n {
      NegationsAgree(lines[n]);
      NoLaterNegation(git, lines[..n], at, p, path, isDir);
    }
  }

  lemma {:induction false} SplitAfter(prefix: string, rest: string, separator: char)
    requires separator !in prefix
    ensures Paths.Split(prefix + rest, separator)[0] == prefix + Paths.Split(rest, separator)[0]
    ensures Paths.Split(prefix + rest, separator)[1..] == Paths.Split(rest, separator)[1..]
  {
    var text := prefix + rest;
    if prefix == [] {
      assert text == rest;
    } else {
      assert text[1..] == prefix[1..] + rest;
      SplitAfter(prefix[1..], rest, separator);
      assert text[0] == prefix[0];
    }
  }

  lemma MarkCoversNothing(line: string)
    requires BOM <= line
    ensures !Covers(line) && !Negates(line)
  {
    hide Spelling;
    assert line[0] == BOM[0];
    assert Told(line) != [] ==> Told(line)[0] == line[0];
    if Covers(line) {
      SpellingsBegin(Told(line));
    }
  }

  /** A byte-order mark changes only the first line, and only one that covers
      nothing: git may read a negation there, but every other line is the same. */
  lemma MarkOnlyTouchesTheFirst(text: string, at: nat)
    requires at < |Paths.Split(text, '\n')| && Covers(Paths.Split(text, '\n')[at])
    ensures |LinesOf(text)| == |Paths.Split(text, '\n')|
    ensures forall k :: at <= k < |LinesOf(text)| ==> LinesOf(text)[k] == Paths.Split(text, '\n')[k]
  {
    hide Paths.Split, Spelling, TrimEnd;
    if BOM <= text {
      var rest := text[|BOM|..];
      assert text == BOM + rest;
      SplitAfter(BOM, rest, '\n');
      var lines, read := Paths.Split(text, '\n'), Paths.Split(rest, '\n');
      MarkCoversNothing(lines[0]);
      forall k | 1 <= k < |lines| ensures |read| == |lines| && read[k] == lines[k] {
        assert lines[1..][k - 1] == lines[k] && read[1..][k - 1] == read[k];
      }
      assert |lines[1..]| == |read[1..]|;
    }
  }

  /** The line by which a root file covers the fallback, no line being a negation. */
  lemma CoveringLineOf(v: Vault) returns (text: string, at: nat)
    requires RootCovers(v, Directory) || RootCovers(v, Contents)
    ensures [GITIGNORE] in v && v[[GITIGNORE]] == File(text)
    ensures var lines := Paths.Split(text, '\n');
            && at < |lines| && Covers(lines[at])
            && (forall k :: 0 <= k < |lines| ==> !Negates(lines[k]))
            && (RootCovers(v, Directory) ==> Reach(Spelling(Told(lines[at]), ANCHORS).value) == 1)
  {
    hide Spelling, Paths.Split, Told, Negates;
    text := ReadBounded(v, [GITIGNORE], GITIGNORE_BOUND).text;
    var lines := Paths.Split(text, '\n');
    at :| 0 <= at < |lines| && Covers(lines[at]) && (RootCovers(v, Directory) ==> ExcludesNorn(lines[at]));
  }

  lemma RootFileCovers(git: Git, v: Vault, home: Path, file: Path)
    requires git.Conforms() && FALLBACK <= home < file
    requires RootCovers(v, Directory) || (RootCovers(v, Contents) && !GitignoreOnTheWay(v, FALLBACK))
    ensures Ignores(git, v, file)
  {
    hide Spelling, Decision, PlainlyMatches, PatternOf, Paths.Split, LastMatch, Told, ExcludesNorn, Negates;
    hide Git.Conforms, RootCovers, LinesOf;
    var text, at := CoveringLineOf(v);
    var lines := Paths.Split(text, '\n');
    var k := Reach(Spelling(Told(lines[at]), ANCHORS).value);
    var p := CoveringLineMatches(lines[at], file);
    MarkOnlyTouchesTheFirst(text, at);
    assert forall j :: at < j < |LinesOf(text)| ==> !Negates(LinesOf(text)[j]);
    NoLaterNegation(git, LinesOf(text), at, p, file[..k], k < |file|);
    var path := file[..k];
    assert path[..0] + [GITIGNORE] == [GITIGNORE] && path[0..] == path;
    DecidedHere(git, v, path, k < |file|, 0, text);
    if k > 1 {
      forall d | 1 <= d < k ensures TextIn(git, v, path[..d]) == None {
        assert path[..d] == FALLBACK[..d];
        assert FALLBACK[..d] + [GITIGNORE] !in v;
      }
      LeftToTheRoot(git, v, path, k < |file|, k - 1);
    }
    ExclusionStopsTheWalk(git, v, file, 1, k);
  }

  lemma {:induction false} LeftToTheRoot(git: Git, v: Vault, path: Path, isDir: bool, depth: nat)
    requires depth < |path| && forall d :: 1 <= d <= depth ==> TextIn(git, v, path[..d]) == None
    ensures Decision(git, v, path, isDir, depth) == Decision(git, v, path, isDir, 0)
  {
    if depth > 0 {
      LeftToTheRoot(git, v, path, isDir, depth - 1);
    }
  }
}
