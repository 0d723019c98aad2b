/**
 Where the ignore rule and its reasons end: what it makes of a file that opens
 with a byte-order mark, and which directories it has to ask about.
 */
module GitignoreLimits {
  import opened Prelude
  import opened GitRules
  import opened Gitignore
  import Paths
  import Utf8

  // ----- a byte-order mark

  /** What a file that opens with a byte-order mark is taken to cover: what its
      lines after the first do. The first says nothing, whatever it says. */
  lemma MarkedCoverage(text: string)
    requires BOM <= text
    ensures var rest := Paths.Split(text, '\n')[1..];
            CoverageOfText(text) ==
            if !Utf8.FromUtf8(Octets(text)).Valid? || exists i :: 0 <= i < |rest| && Negates(rest[i]) then Nothing
            else CoverageOf(rest)
  {
    hide Paths.Split, Utf8.FromUtf8, Octets, Negates, CoverageOf;
    var lines := Paths.Split(text, '\n');
    var rest := lines[1..];
    assert text == BOM + text[|BOM|..];
    SplitAfter(BOM, text[|BOM|..], '\n');
    MarkCoversNothing(lines[0]);
    assert lines == [lines[0]] + rest;
    FirstSaysNothing(lines[0], rest);
    assert forall i :: 0 <= i < |rest| ==> rest[i] == lines[i + 1];
    assert forall i :: 1 <= i < |lines| ==> lines[i] == rest[i - 1];
  }

  lemma FirstSaysNothing(line: string, rest: seq<string>)
    requires !Covers(line)
    ensures CoverageOf([line] + rest) == CoverageOf(rest)
  {
    hide Covers, ExcludesNorn;
    var lines := [line] + rest;
    assert !ExcludesNorn(line) by { hide *; ExcludingIsCovering(line); }
    assert forall i :: 0 <= i < |rest| ==> rest[i] == lines[i + 1];
    assert forall i :: 1 <= i < |lines| ==> lines[i] == rest[i - 1];
  }

  const MARKED: string := BOM + "x\n.norn"

  /** So a file that opens with one is read, and can be answered yes. */
  lemma MarkedCanCover()
    ensures BOM <= MARKED && RootCovers(map[[GITIGNORE] := File(MARKED)], Directory)
  {
    MarkedIsUtf8();
    MarkedSplit();
    NornIsExcluded();
    hide Paths.Split, Utf8.FromUtf8, Octets, Negates, ExcludesNorn;
    MarkedCoverage(MARKED);
    var rest := Paths.Split(MARKED, '\n')[1..];
    assert rest == [NORN] && rest[0] == NORN;
    assert CoverageOfText(MARKED) == Directory;
    assert |MARKED| == 10;
  }

  lemma MarkedSplit()
    ensures Paths.Split(MARKED, '\n') == [BOM + "x", NORN]
  {
    assert MARKED == (BOM + "x") + ['\n'] + NORN;
    Paths.SplitAcross(BOM + "x", NORN, '\n');
    Paths.SplitOfPlain(BOM + "x", '\n');
    Paths.SplitOfPlain(NORN, '\n');
  }

  lemma MarkedIsUtf8()
    ensures Utf8.FromUtf8(Octets(MARKED)).Valid?
  {
    var bytes := Octets(MARKED);
    assert bytes[..3] == [0xEF, 0xBB, 0xBF];
    Utf8.CharAtFindsIt(bytes, 3);
    assert bytes[3..] == Octets("x\n.norn");
    AsciiIsUtf8("x\n.norn");
  }

  lemma {:induction false} AsciiIsUtf8(text: string)
    requires forall i :: 0 <= i < |text| ==> text[i] as int < 128
    ensures Utf8.FromUtf8(Octets(text)).Valid?
  {
    if text != [] {
      var bytes := Octets(text);
      assert bytes[1..] == Octets(text[1..]);
      assert Utf8.IsChar(bytes[..1]);
      AsciiIsUtf8(text[1..]);
    }
  }

  lemma NornIsExcluded()
    ensures ExcludesNorn(NORN) && !Negates(NORN)
  {
    hide Spelling;
    assert Told(NORN) == NORN;
    assert "" in ANCHORS && NORN == "" + COVERING[0];
    var found := Spelling(NORN, ANCHORS);
    var a :| a in ANCHORS && NORN == a + COVERING[found.value];
    assert forall i :: 2 <= i < |COVERING| ==> |COVERING[i]| > 5;
  }

  // ----- which directories on the way need asking

  const TAKES_ALL_BACK: string := "!*"

  /** The directory of the first `m` names of `home` is excluded. */
  predicate Excludes(git: Git, v: Vault, home: Path, m: nat)
    requires 1 <= m <= |home|
  {
    Decision(git, v, home[..m], true, m - 1) == Ignored
  }

  /** With `text` in the directory of the first `k` names, `file` is not ignored. */
  ghost predicate TakesBack(git: Git, v: Vault, home: Path, k: nat, text: string, file: Path)
    requires 1 <= k <= |home|
  {
    home < file && !Ignores(git, v[home[..k] + [GITIGNORE] := File(text)], file)
  }

  /** Exactly when a `.gitignore` in a directory on the way can take a home back:
      no directory down to that one is excluded already. Everything below is then
      its to decide; and below an excluded one git reads nothing. */
  lemma GuardIsNeededIff(git: Git, v: Vault, home: Path, k: nat)
    requires git.Conforms() && 1 <= k <= |home| && !GitignoreOnTheWay(v, home)
    ensures (exists text, file :: TakesBack(git, v, home, k, text, file))
            <==> !git.vaultExcluded && forall m :: 1 <= m <= k ==> !Excludes(git, v, home, m)
  {
    hide Excludes, TakesBack, Git.Conforms;
    if text, file :| TakesBack(git, v, home, k, text, file) {
      StillExcluded(git, v, home, k, text, file);
    }
    if !git.vaultExcluded && forall m :: 1 <= m <= k ==> !Excludes(git, v, home, m) {
      TakenBack(git, v, home, k);
    }
  }

  lemma StillExcluded(git: Git, v: Vault, home: Path, k: nat, text: string, file: Path)
    requires 1 <= k <= |home| && TakesBack(git, v, home, k, text, file)
    ensures !git.vaultExcluded
    ensures forall m :: 1 <= m <= k ==> !Excludes(git, v, home, m)
  {
    hide Decision;
    var w := v[home[..k] + [GITIGNORE] := File(text)];
    forall m | 1 <= m <= k ensures !Excludes(git, v, home, m) {
      assert file[..m] == home[..m];
      SameDecision(git, v, home, k, text, home[..m], m - 1);
      if Decision(git, w, file[..m], true, m - 1) == Ignored {
        ExclusionStopsTheWalk(git, w, file, 1, m);
      }
    }
  }

  /** A file in a directory decides nothing above it. */
  lemma {:induction false} SameDecision(git: Git, v: Vault, home: Path, k: nat, text: string, path: Path, depth: nat)
    requires k <= |home| && depth < |path| && depth < k
    ensures Decision(git, v[home[..k] + [GITIGNORE] := File(text)], path, true, depth) == Decision(git, v, path, true, depth)
  {
    hide LastMatch;
    assert |path[..depth] + [GITIGNORE]| != |home[..k] + [GITIGNORE]|;
    if depth > 0 {
      SameDecision(git, v, home, k, text, path, depth - 1);
    }
  }

  lemma TakenBack(git: Git, v: Vault, home: Path, k: nat)
    requires git.Conforms() && 1 <= k <= |home| && !GitignoreOnTheWay(v, home) && !git.vaultExcluded
    requires forall m :: 1 <= m <= k ==> !Excludes(git, v, home, m)
    ensures TakesBack(git, v, home, k, TAKES_ALL_BACK, home + ["f"])
  {
    hide Decision, Git.Conforms;
    var w, file := v[home[..k] + [GITIGNORE] := File(TAKES_ALL_BACK)], home + ["f"];
    forall m | 1 <= m <= |file| ensures Passes(git, w, file, m) {
      if m <= k {
        assert file[..m] == home[..m];
        assert !Excludes(git, v, home, m);
        SameDecision(git, v, home, k, TAKES_ALL_BACK, home[..m], m - 1);
      } else {
        BackBelow(git, v, home, k, file[..m], m < |file|, m - 1);
      }
    }
    NeverStops(git, w, file, 1);
  }

  /** Below the file that takes all back, nothing deeper speaking, all is included. */
  lemma {:induction false} BackBelow(git: Git, v: Vault, home: Path, k: nat, path: Path, isDir: bool, depth: nat)
    requires git.Conforms() && 1 <= k <= |home| && !GitignoreOnTheWay(v, home)
    requires k <= depth < |path| && path[..depth] <= home
    ensures Decision(git, v[home[..k] + [GITIGNORE] := File(TAKES_ALL_BACK)], path, isDir, depth) == Included
    decreases depth
  {
    hide LastMatch, Git.Conforms;
    var w := v[home[..k] + [GITIGNORE] := File(TAKES_ALL_BACK)];
    assert path[..depth] == home[..depth];
    if depth == k {
      AllIncluded(git, path[depth..], isDir);
    } else {
      assert |path[..depth] + [GITIGNORE]| != |home[..k] + [GITIGNORE]|;
      assert home[..depth] + [GITIGNORE] !in v;
      assert path[..depth - 1] == home[..depth - 1];
      BackBelow(git, v, home, k, path, isDir, depth - 1);
    }
  }

  predicate Passes(git: Git, v: Vault, file: Path, m: nat)
    requires 1 <= m <= |file|
  {
    Decision(git, v, file[..m], m < |file|, m - 1) != Ignored
  }

  lemma {:induction false} NeverStops(git: Git, v: Vault, file: Path, k: nat)
    requires 1 <= k <= |file|
    requires forall m :: k <= m <= |file| ==> Passes(git, v, file, m)
    ensures !StopsOnTheWay(git, v, file, k)
    decreases |file| - k
  {
    hide Decision;
    assert Passes(git, v, file, k);
    if k < |file| {
      NeverStops(git, v, file, k + 1);
    }
  }

  lemma AllIncluded(git: Git, path: Path, isDir: bool)
    requires git.Conforms() && path != []
    ensures LastMatch(git, LinesOf(TAKES_ALL_BACK), path, isDir) == Included
  {
    assert TAKES_ALL_BACK[0] == '!' != BOM[0];
    Paths.SplitOfPlain(TAKES_ALL_BACK, '\n');
    assert LinesOf(TAKES_ALL_BACK) == [TAKES_ALL_BACK];
    TrimsAgreeAt(TAKES_ALL_BACK, TAKES_ALL_BACK);
    assert WithoutReturn(TAKES_ALL_BACK) == TAKES_ALL_BACK && TAKES_ALL_BACK[1..] == "*";
    var p := Pattern(true, false, true, ["*"]);
    assert PatternOf(TAKES_ALL_BACK) == Some(p);
    assert ["**"] + p.pieces == ["**", "*"];
    StarAtAnyDepth(path);
    assert PlainlyMatches(p, path, isDir);
  }

  lemma {:induction false} StarAtAnyDepth(path: Path)
    requires path != []
    ensures Glob(["**", "*"], path)
  {
    assert ["**", "*"][1..] == ["*"];
    if |path| == 1 {
      TakesOne(path, ["*"]);
    } else {
      StarAtAnyDepth(path[1..]);
    }
  }

  /** The git that matches what must match and no more, and has no other files. */
  const TO_THE_LETTER: Git :=
    Git((p, path, isDir) => PlainlyMatches(p, path, isDir), at => None, (path, isDir) => Silent, false)

  /** Of a root with one covering line, to the letter: the directories that need
      asking are exactly those above the one the line excludes. */
  lemma GuardIsNeededAbove(line: string, home: Path, k: nat)
    requires Covers(line) && '\n' !in line && FALLBACK <= home && 1 <= k <= |home|
    ensures (exists text, file :: TakesBack(TO_THE_LETTER, map[[GITIGNORE] := File(line)], home, k, text, file))
            <==> k < Reach(Spelling(Told(line), ANCHORS).value)
  {
    hide TakesBack, Excludes, Spelling, Told, PlainlyMatches;
    var v, i := map[[GITIGNORE] := File(line)], Spelling(Told(line), ANCHORS).value;
    assert !GitignoreOnTheWay(v, home) by {
      assert forall d :: 1 <= d <= |home| ==> |home[..d] + [GITIGNORE]| != 1;
    }
    assert TO_THE_LETTER.Conforms();
    GuardIsNeededIff(TO_THE_LETTER, v, home, k);
    forall m | 1 <= m <= k && m <= Reach(i) ensures Excludes(TO_THE_LETTER, v, home, m) <==> m == Reach(i) {
      LoneLineExcludes(line, home, m);
    }
    if k >= Reach(i) {
      assert Excludes(TO_THE_LETTER, v, home, Reach(i));
    }
  }

  lemma LoneLineExcludes(line: string, home: Path, m: nat)
    requires Covers(line) && '\n' !in line && FALLBACK <= home && 1 <= m <= |home|
    requires m <= Reach(Spelling(Told(line), ANCHORS).value)
    ensures Excludes(TO_THE_LETTER, map[[GITIGNORE] := File(line)], home, m)
            <==> m == Reach(Spelling(Told(line), ANCHORS).value)
  {
    hide Spelling, Told, PlainlyMatches, PatternOf, Decision;
    var v, path, i := map[[GITIGNORE] := File(line)], home[..m], Spelling(Told(line), ANCHORS).value;
    forall d | 1 <= d <= m - 1 ensures TextIn(TO_THE_LETTER, v, path[..d]) == None {
      assert |path[..d] + [GITIGNORE]| != 1;
    }
    LeftToTheRoot(TO_THE_LETTER, v, path, true, m - 1);
    var p := CoveringLineMatches(line, home + ["f"]);
    assert (home + ["f"])[..m] == path;
    if m < Reach(i) {
      ShortPathsPass(p, PiecesOf(i), path);
    }
    LoneDecision(line, p, path);
  }

  lemma LoneDecision(line: string, p: Pattern, path: Path)
    requires Covers(line) && '\n' !in line && PatternOf(line) == Some(p) && !p.negated && path != []
    ensures Decision(TO_THE_LETTER, map[[GITIGNORE] := File(line)], path, true, 0)
            == if PlainlyMatches(p, path, true) then Ignored else Silent
  {
    hide PlainlyMatches, PatternOf, LinesOf, Covers, LastMatch;
    LoneLine(line);
    LastOfOne(TO_THE_LETTER, line, p, path);
    assert TO_THE_LETTER.matches(p, path, true) == PlainlyMatches(p, path, true);
    assert path[..0] + [GITIGNORE] == [GITIGNORE] && path[0..] == path;
    assert TextIn(TO_THE_LETTER, map[[GITIGNORE] := File(line)], path[..0]) == Some(line);
  }

  lemma LastOfOne(git: Git, line: string, p: Pattern, path: Path)
    requires PatternOf(line) == Some(p) && !p.negated
    ensures LastMatch(git, [line], path, true) == if git.matches(p, path, true) then Ignored else Silent
  {
    hide PatternOf;
    assert [line][..0] == [];
  }

  lemma LoneLine(line: string)
    requires Covers(line) && '\n' !in line
    ensures LinesOf(line) == [line]
  {
    hide Covers;
    if BOM <= line {
      MarkCoversNothing(line);
    }
    Paths.SplitOfPlain(line, '\n');
  }

  lemma ShortPathsPass(p: Pattern, pieces: seq<string>, path: Path)
    requires p.pieces == pieces || (!p.floating && p.pieces == ["**"] + pieces)
    requires |path| < |pieces| && forall j :: 0 <= j < |pieces| - 1 ==> pieces[j] != "**"
    ensures !PlainlyMatches(p, path, true)
  {
    GlobTakesAsMany(pieces, path);
    GlobTakesAsManyBelow(pieces, path);
    assert [] + p.pieces == p.pieces;
  }

  lemma {:induction false} GlobTakesAsMany(pieces: seq<string>, path: Path)
    requires forall j :: 0 <= j < |pieces| - 1 ==> pieces[j] != "**"
    ensures Glob(pieces, path) ==> |path| >= |pieces|
    decreases |pieces|
  {
    if pieces != [] && path != [] {
      GlobTakesAsMany(pieces[1..], path[1..]);
    }
  }

  lemma {:induction false} GlobTakesAsManyBelow(pieces: seq<string>, path: Path)
    requires pieces != [] && forall j :: 0 <= j < |pieces| - 1 ==> pieces[j] != "**"
    ensures Glob(["**"] + pieces, path) ==> |path| >= |pieces|
    decreases |path|
  {
    var all := ["**"] + pieces;
    assert all[0] == "**" && all[1..] == pieces;
    assert Glob(all, path) == (Glob(pieces, path) || (path != [] && Glob(all, path[1..])));
    GlobTakesAsMany(pieces, path);
    if path != [] {
      GlobTakesAsManyBelow(pieces, path[1..]);
    }
  }

  /** And a root can cover the contents where no directory needs asking: when some
      other line of it excludes `.norn` already. */
  lemma NoGuardIsNeeded(git: Git, home: Path, k: nat)
    requires git.Conforms() && FALLBACK <= home && 1 <= k <= |home|
    ensures var v := map[[GITIGNORE] := File(STAR_AND_TMP)];
            && RootCovers(v, Contents)
            && forall text, file :: !TakesBack(git, v, home, k, text, file)
  {
    hide CoverageOfText, TakesBack, Excludes, Git.Conforms;
    var v := map[[GITIGNORE] := File(STAR_AND_TMP)];
    StarAndTmp();
    assert !GitignoreOnTheWay(v, home) by {
      assert forall d :: 1 <= d <= |home| ==> |home[..d] + [GITIGNORE]| != 1;
    }
    StarExcludesNorn(git, v, home);
    GuardIsNeededIff(git, v, home, k);
  }

  const STAR: string := "*"
  const TMP_TOO: string := ".norn/tmp"
  const STAR_AND_TMP: string := "*\n.norn/tmp"

  lemma TwoLines()
    ensures Paths.Split(STAR_AND_TMP, '\n') == [STAR, TMP_TOO] && LinesOf(STAR_AND_TMP) == [STAR, TMP_TOO]
  {
    assert STAR_AND_TMP == STAR + ['\n'] + TMP_TOO;
    Paths.SplitOfPlain(STAR, '\n');
    Paths.SplitOfPlain(TMP_TOO, '\n');
    Paths.SplitAcross(STAR, TMP_TOO, '\n');
    hide Paths.Split;
    assert STAR_AND_TMP[0] == '*' != BOM[0];
  }

  lemma StarAndTmp()
    ensures CoverageOfText(STAR_AND_TMP) == Contents
  {
    hide Paths.Split, LinesOf, Utf8.FromUtf8, Octets, Negates, Covers, ExcludesNorn, CoverageOfText;
    TwoLines();
    AsciiIsUtf8(STAR_AND_TMP);
    TmpCovers();
    StarCoversNothing();
    SecondLineCovers(STAR_AND_TMP, STAR, TMP_TOO);
  }

  lemma SecondLineCovers(text: string, a: string, b: string)
    requires Utf8.FromUtf8(Octets(text)).Valid? && Paths.Split(text, '\n') == [a, b]
    requires !Negates(a) && !Negates(b) && !Covers(a) && Covers(b) && !ExcludesNorn(b)
    ensures CoverageOfText(text) == Contents
  {
    hide Paths.Split, Utf8.FromUtf8, Octets, Negates, Covers, ExcludesNorn, CoverageOf;
    FirstSaysNothing(a, [b]);
    CoverageOfOne(b);
    assert [a] + [b] == [a, b];
  }

  lemma CoverageOfOne(line: string)
    requires Covers(line) && !ExcludesNorn(line)
    ensures CoverageOf([line]) == Contents
  {
    hide Covers, ExcludesNorn;
    assert [line][0] == line;
  }

  lemma SpelledOut(text: string) returns (a: string)
    requires Spelling(text, ANCHORS).Some?
    ensures text == a + COVERING[Spelling(text, ANCHORS).value]
  {
    hide Spelling, COVERING, ANCHORS;
    a :| a in ANCHORS && text == a + COVERING[Spelling(text, ANCHORS).value];
  }

  /** Every covering text is as long as `.norn`, and one that excludes it ends as it
      does or in a slash. */
  lemma SpellingEnds(text: string, a: string, i: nat)
    requires i < |COVERING| && text == a + COVERING[i]
    ensures |text| >= 5
    ensures i < EXCLUDING_NORN ==> text[|text| - 1] == 'n' || text[|text| - 1] == '/'
  {
  }

  lemma StarCoversNothing()
    ensures !Covers(STAR) && !Negates(STAR)
  {
    hide Spelling;
    assert Told(STAR) == STAR;
    if Covers(STAR) {
      var a := SpelledOut(STAR);
      SpellingEnds(STAR, a, Spelling(STAR, ANCHORS).value);
    }
  }

  lemma TmpCovers()
    ensures Covers(TMP_TOO) && !ExcludesNorn(TMP_TOO) && !Negates(TMP_TOO)
  {
    hide Spelling;
    assert Told(TMP_TOO) == TMP_TOO;
    assert "" in ANCHORS && TMP_TOO == "" + COVERING[4];
    var a := SpelledOut(TMP_TOO);
    SpellingEnds(TMP_TOO, a, Spelling(TMP_TOO, ANCHORS).value);
    assert TMP_TOO[|TMP_TOO| - 1] == 'p';
  }

  lemma StarMatches(path: Path, isDir: bool) returns (p: Pattern)
    requires path != []
    ensures PatternOf(STAR) == Some(p) && !p.negated && PlainlyMatches(p, path, isDir)
  {
    p := Pattern(false, false, true, ["*"]);
    TrimsAgreeAt(STAR, STAR);
    assert WithoutReturn(STAR) == STAR;
    StarAtAnyDepth(path);
    assert ["**"] + p.pieces == ["**", "*"];
  }

  lemma StarExcludesNorn(git: Git, v: Vault, home: Path)
    requires git.Conforms() && home != [] && v == map[[GITIGNORE] := File(STAR_AND_TMP)]
    ensures Excludes(git, v, home, 1)
  {
    hide Negates, PatternOf, Paths.Split, Glob, LinesOf, PlainlyMatches, Decision, LastMatch, Git.Conforms;
    var path, lines := home[..1], [STAR, TMP_TOO];
    TwoLines();
    TmpCovers();
    var p := StarMatches(path, true);
    assert lines[0] == STAR && lines[1] == TMP_TOO;
    NoLaterNegation(git, lines, 0, p, path, true);
    assert path[..0] + [GITIGNORE] == [GITIGNORE] && path[0..] == path;
    DecidedHere(git, v, path, true, 0, STAR_AND_TMP);
  }
}
