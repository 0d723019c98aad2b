/**
 The ignore rule's reading of a file said in full: which lines count, and for what.
 */
module GitignoreLines {
  import opened Prelude
  import opened GitRules
  import opened Gitignore
  import Paths
  import Utf8

  /** An anchor may come first: none, the root, or any depth. */
  const FIRST: set<string> := {"", "/", "**/"}

  /** The line excludes `.norn`, by that name or as a directory. */
  ghost predicate NamesNorn(text: string) {
    exists a, e :: a in FIRST && e in {"", "/"} && text == a + ".norn" + e
  }

  /** The line covers what is in `.norn`, or `.norn/tmp`, or what is in that. */
  ghost predicate NamesBelow(text: string) {
    exists a, e :: a in FIRST && e in {"/*", "/**", "/tmp", "/tmp/", "/tmp/*", "/tmp/**"} && text == a + ".norn" + e
  }

  /** What is left of a line: one carriage return and then all spaces gone from its
      end. */
  ghost predicate LeavesOf(line: string, text: string) {
    exists spaces ::
      && AllSpaces(spaces) && (text == "" || text[|text| - 1] != ' ')
      && (line == text + spaces + "\r" || (line == text + spaces && (line == "" || line[|line| - 1] != '\r')))
  }

  /** Every line leaves one text, and that is what the rule reads. */
  lemma ToldIs(line: string, text: string)
    ensures LeavesOf(line, text) <==> text == Told(line)
  {
    hide TrimEnd;
    var s, t := WithoutReturn(line), Told(line);
    assert s == t + s[|t|..];
    if text == t {
      assert LeavesOf(line, text) by { assert AllSpaces(s[|t|..]); }
    }
    if LeavesOf(line, text) {
      var spaces :| AllSpaces(spaces) && (text == "" || text[|text| - 1] != ' ')
        && (line == text + spaces + "\r" || (line == text + spaces && (line == "" || line[|line| - 1] != '\r')));
      assert s == text + spaces by { OneReturn(line, s, text + spaces); }
      SameTrim(text, spaces, t, s[|t|..]);
    }
  }

  lemma OneReturn(line: string, s: string, t: string)
    requires s == WithoutReturn(line)
    requires line == t + "\r" || (line == t && (line == "" || line[|line| - 1] != '\r'))
    ensures s == t
  {
  }

  lemma SameTrim(a: string, x: string, b: string, y: string)
    requires a + x == b + y && AllSpaces(x) && AllSpaces(y)
    requires (a == "" || a[|a| - 1] != ' ') && (b == "" || b[|b| - 1] != ' ')
    ensures a == b
  {
    SpacesFrom(a, x);
    SpacesFrom(b, y);
    assert a == (a + x)[..|a|] && b == (b + y)[..|b|];
  }

  lemma SpacesFrom(a: string, x: string)
    requires AllSpaces(x) && (a == "" || a[|a| - 1] != ' ')
    ensures forall i :: |a| <= i < |a + x| ==> (a + x)[i] == ' '
    ensures |a| > 0 ==> (a + x)[|a| - 1] != ' '
  {
    assert forall i :: |a| <= i < |a + x| ==> (a + x)[i] == x[i - |a|];
  }

  /** The recognised texts are those 24 and no others, and the six that exclude
      `.norn` are told from the rest. */
  lemma RecognisedIff(text: string)
    ensures Spelling(text, ANCHORS).Some? <==> NamesNorn(text) || NamesBelow(text)
    ensures Spelling(text, ANCHORS).Some? ==> (Spelling(text, ANCHORS).value < EXCLUDING_NORN <==> NamesNorn(text))
  {
    hide Spelling;
    if Spelling(text, ANCHORS).Some? {
      var i := Spelling(text, ANCHORS).value;
      var a :| a in ANCHORS && text == a + COVERING[i];
      SpelledIs(a, i);
      if NamesNorn(text) {
        NornEnds(text);
        CoveringEnds(text, a, i);
      }
    }
    if NamesNorn(text) {
      var a, e :| a in FIRST && e in {"", "/"} && text == a + ".norn" + e;
      NornIsSpelled(a, e);
    }
    if NamesBelow(text) {
      var a, e :| a in FIRST && e in {"/*", "/**", "/tmp", "/tmp/", "/tmp/*", "/tmp/**"} && text == a + ".norn" + e;
      BelowIsSpelled(a, e);
    }
  }

  function Ending(i: nat): string
    requires i < |COVERING|
  {
    ["", "/", "/*", "/**", "/tmp", "/tmp/", "/tmp/*", "/tmp/**"][i]
  }

  lemma CoveringReads(i: nat)
    requires i < |COVERING|
    ensures COVERING[i] == ".norn" + Ending(i)
  {
  }

  lemma SpelledIs(a: string, i: nat)
    requires a in ANCHORS && i < |COVERING|
    ensures if i < EXCLUDING_NORN then NamesNorn(a + COVERING[i]) else NamesBelow(a + COVERING[i])
  {
    CoveringReads(i);
    assert a + COVERING[i] == a + ".norn" + Ending(i);
    assert a in FIRST;
  }

  lemma NornIsSpelled(a: string, e: string)
    requires a in FIRST && e in {"", "/"}
    ensures exists b, i :: b in ANCHORS && 0 <= i < |COVERING| && a + ".norn" + e == b + COVERING[i]
  {
    var i := if e == "" then 0 else 1;
    CoveringReads(i);
    assert a in ANCHORS && a + ".norn" + e == a + COVERING[i];
  }

  lemma BelowIsSpelled(a: string, e: string)
    requires a in FIRST && e in {"/*", "/**", "/tmp", "/tmp/", "/tmp/*", "/tmp/**"}
    ensures exists b, i :: b in ANCHORS && 0 <= i < |COVERING| && a + ".norn" + e == b + COVERING[i]
  {
    var i := if e == "/*" then 2 else if e == "/**" then 3 else if e == "/tmp" then 4 else if e == "/tmp/" then 5
             else if e == "/tmp/*" then 6 else 7;
    CoveringReads(i);
    assert a in ANCHORS && a + ".norn" + e == a + COVERING[i];
  }

  lemma NornEnds(text: string)
    requires NamesNorn(text)
    ensures |text| >= 2 && (text[|text| - 1] == 'n' || (text[|text| - 1] == '/' && text[|text| - 2] == 'n'))
  {
  }

  lemma CoveringEnds(text: string, a: string, i: nat)
    requires i < |COVERING| && text == a + COVERING[i]
    ensures |text| >= 2
    ensures i >= EXCLUDING_NORN ==> text[|text| - 1] != 'n' && !(text[|text| - 1] == '/' && text[|text| - 2] == 'n')
  {
    CoveringReads(i);
  }

  /** The line is a negation, to git. */
  predicate TakesSomethingBack(line: string) {
    PatternOf(line).Some? && PatternOf(line).value.negated
  }

  ghost predicate SomeTakesBack(lines: seq<string>) {
    exists i :: 0 <= i < |lines| && TakesSomethingBack(lines[i])
  }

  ghost predicate SomeNamesNorn(lines: seq<string>) {
    exists i :: 0 <= i < |lines| && NamesNorn(Told(lines[i]))
  }

  ghost predicate SomeNamesBelow(lines: seq<string>) {
    exists i :: 0 <= i < |lines| && NamesBelow(Told(lines[i]))
  }

  /** The verdict over a whole file: nothing where it is not UTF-8 or a line is a
      negation to git, the directory where a line names it, the contents where one
      names what is below. */
  lemma CoverageIff(text: string)
    ensures var lines := Paths.Split(text, '\n');
            CoverageOfText(text) ==
            if !Utf8.WellFormed(Octets(text)) || SomeTakesBack(lines) then Nothing
            else if SomeNamesNorn(lines) then Directory
            else if SomeNamesBelow(lines) then Contents
            else Nothing
  {
    hide PatternOf, SomeNamesNorn, SomeNamesBelow, CoverageOf, Octets, Negates, TakesSomethingBack;
    var lines := Paths.Split(text, '\n');
    Utf8.FromUtf8IsWellFormed(Octets(text));
    LinesCover(lines);
    forall i | 0 <= i < |lines| ensures Negates(lines[i]) <==> TakesSomethingBack(lines[i]) {
      NegatesIff(lines[i]);
    }
  }

  lemma NegatesIff(line: string)
    ensures Negates(line) <==> TakesSomethingBack(line)
  {
    NegationsAgree(line);
  }

  lemma LinesCover(lines: seq<string>)
    ensures CoverageOf(lines) ==
            if SomeNamesNorn(lines) then Directory else if SomeNamesBelow(lines) then Contents else Nothing
  {
    hide Spelling, Told, NamesNorn, NamesBelow;
    forall i | 0 <= i < |lines|
      ensures Covers(lines[i]) <==> NamesNorn(Told(lines[i])) || NamesBelow(Told(lines[i]))
      ensures ExcludesNorn(lines[i]) <==> NamesNorn(Told(lines[i]))
    {
      RecognisedIff(Told(lines[i]));
    }
    hide Covers, ExcludesNorn;
    if SomeNamesNorn(lines) {
      var i :| 0 <= i < |lines| && NamesNorn(Told(lines[i]));
      assert ExcludesNorn(lines[i]);
    } else if SomeNamesBelow(lines) {
      var i :| 0 <= i < |lines| && NamesBelow(Told(lines[i]));
      assert Covers(lines[i]);
    }
  }
}
