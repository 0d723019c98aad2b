/**
 The names planned links are given: a word drawn, what the link is, and its index
 in at least three digits.
 */
module LinkNames {
  import opened Prelude
  import opened Numerals
  import opened Paths

  datatype Species = InVaultFile | InVaultDir | Dangling | Outbound

  datatype PlannedLink = PlannedLink(path: string, target: string, species: Species)

  const DASH: char := '-'

  // ----- names

  function Tag(species: Species): string {
    match species
    case InVaultFile => "alias"
    case InVaultDir => "shortcut"
    case Dangling => "missing"
    case Outbound => "external"
  }

  function Extension(species: Species): string {
    if species.InVaultFile? || species.Dangling? then ".md" else ""
  }

  function LinkName(word: string, species: Species, index: nat): string {
    word + [DASH] + Tag(species) + [DASH] + Padded(index, 3) + Extension(species)
  }

  /** The names, as they read. */
  lemma LinkNamesRead(word: string, index: nat)
    ensures LinkName(word, InVaultFile, index) == word + "-alias-" + Padded(index, 3) + ".md"
    ensures LinkName(word, InVaultDir, index) == word + "-shortcut-" + Padded(index, 3)
    ensures LinkName(word, Dangling, index) == word + "-missing-" + Padded(index, 3) + ".md"
    ensures LinkName(word, Outbound, index) == word + "-external-" + Padded(index, 3)
  {
    hide Padded;
    assert [DASH] + "alias" + [DASH] == "-alias-" && [DASH] + "shortcut" + [DASH] == "-shortcut-";
    assert [DASH] + "missing" + [DASH] == "-missing-" && [DASH] + "external" + [DASH] == "-external-";
    NameReads(word, "alias", Padded(index, 3), ".md");
    NameReads(word, "shortcut", Padded(index, 3), "");
    NameReads(word, "missing", Padded(index, 3), ".md");
    NameReads(word, "external", Padded(index, 3), "");
  }

  lemma NameReads(word: string, tag: string, digits: string, extension: string)
    ensures word + [DASH] + tag + [DASH] + digits + extension == word + ([DASH] + tag + [DASH]) + digits + extension
    ensures digits + "" == digits
  {
  }

  /** The link is named for its species and this index. */
  ghost predicate Named(link: PlannedLink, index: nat) {
    exists word :: LastPart(link.path) == LinkName(word, link.species, index)
  }

  lemma IsNamed(link: PlannedLink, word: string, index: nat)
    requires LastPart(link.path) == LinkName(word, link.species, index)
    ensures Named(link, index)
  {
  }

  /** Two links of different species or different indices are at different paths,
      whatever the words and the directories. */
  lemma NamesAreApart(a: PlannedLink, i: nat, b: PlannedLink, j: nat)
    requires Named(a, i) && Named(b, j) && a.path == b.path
    ensures a.species == b.species && i == j
  {
    var v :| LastPart(a.path) == LinkName(v, a.species, i);
    var w :| LastPart(b.path) == LinkName(w, b.species, j);
    SameName(v, a.species, i, w, b.species, j);
  }

  lemma SameName(v: string, a: Species, i: nat, w: string, b: Species, j: nat)
    requires LinkName(v, a, i) == LinkName(w, b, j)
    ensures a == b && i == j
  {
    hide Padded, LastIndex, Tag, Extension, Value;
    TagsDiffer(a, b);
    TagsDiffer(b, a);
    ExtensionsAre(a);
    ExtensionsAre(b);
    var p, q := Padded(i, 3), Padded(j, 3);
    SameEnding(v + [DASH] + Tag(a) + [DASH], p, Extension(a), w + [DASH] + Tag(b) + [DASH], q, Extension(b));
    LastIndexIs(v + [DASH] + Tag(a), p, DASH);
    LastIndexIs(w + [DASH] + Tag(b), q, DASH);
    SameHalves(v + [DASH] + Tag(a), p, w + [DASH] + Tag(b), q);
    LastIndexIs(v, Tag(a), DASH);
    LastIndexIs(w, Tag(b), DASH);
    SameHalves(v, Tag(a), w, Tag(b));
    ValueOfPadded(i, 3);
    ValueOfPadded(j, 3);
  }

  lemma ExtensionsAre(species: Species)
    ensures Extension(species) == "" || Extension(species) == ".md"
  {
  }

  lemma SameHalves(a: string, b: string, c: string, d: string)
    requires a + [DASH] + b == c + [DASH] + d && |a| == |c|
    ensures a == c && b == d
  {
    var s, t := a + [DASH] + b, c + [DASH] + d;
    assert a == s[..|a|] && c == t[..|c|];
    assert b == s[|a| + 1..] && d == t[|c| + 1..];
  }

  /** Digits and then an extension or none: both are the same in equal strings. */
  lemma SameEnding(a: string, p: string, x: string, b: string, q: string, y: string)
    requires a + p + x == b + q + y && p != "" && q != ""
    requires (forall c :: c in p ==> IsDigit(c)) && (forall c :: c in q ==> IsDigit(c))
    requires (x == "" || x == ".md") && (y == "" || y == ".md")
    ensures x == y && a + p == b + q
  {
    var s := a + p + x;
    assert s[|s| - 1] == (if x == "" then p[|p| - 1] else 'd');
    assert s[|s| - 1] == (if y == "" then q[|q| - 1] else 'd');
    assert p[|p| - 1] in p && q[|q| - 1] in q;
    assert a + p == s[..|s| - |x|] && b + q == s[..|s| - |y|];
  }

  lemma TagsDiffer(a: Species, b: Species)
    ensures Tag(a) == Tag(b) ==> a == b
    ensures DASH !in Tag(a)
  {
    assert |Tag(InVaultFile)| == 5 && |Tag(InVaultDir)| == 8 && |Tag(Dangling)| == 7 && |Tag(Outbound)| == 8;
    assert Tag(InVaultDir)[0] == 's' && Tag(Outbound)[0] == 'e';
  }

  // ----- a sibling that is not there

  /** The sibling a dangling link names. */
  function Removed(index: nat): string {
    "removed-" + Padded(index, 3) + ".md"
  }

  /** A document's name: a word and an index of at least four digits. */
  function DocumentName(word: string, index: nat): string {
    word + [DASH] + Padded(index, 4) + ".md"
  }

  /** When a sibling said to be removed is a document after all: only from index
      1000 on, where three digits are four, and only for that very word. */
  lemma RemovedIsADocumentIff(index: nat, word: string, n: nat)
    ensures Removed(index) == DocumentName(word, n) <==> word == "removed" && n == index && index >= 1000
  {
    hide Padded, LastIndex;
    var p, q := Padded(index, 3), Padded(n, 4);
    WidthsAgreeIff(index, n);
    assert Removed(index) == "removed" + [DASH] + p + ".md";
    if Removed(index) == DocumentName(word, n) {
      SameEnding("removed" + [DASH], p, ".md", word + [DASH], q, ".md");
      LastIndexIs("removed", p, DASH);
      LastIndexIs(word, q, DASH);
      SameHalves("removed", p, word, q);
    }
  }

  /** A document is named for a word and a number, or for something else than being
      removed. */
  ghost predicate NamedAsDocument(d: string, words: seq<string>) {
    (exists w, n :: w in words && LastPart(d) == DocumentName(w, n)) || !("removed-" <= LastPart(d))
  }

  /** No document stands where a dangling link leads, but in that one case. */
  lemma RemovedIsMissing(dir: string, index: nat, d: string, words: seq<string>)
    requires NamedAsDocument(d, words) && (index < 1000 || "removed" !in words)
    ensures JoinName(dir, Removed(index)) != d
  {
    assert SLASH !in Removed(index);
    LastPartOfJoined(dir, Removed(index));
    assert "removed-" <= Removed(index);
    forall w, n | w in words ensures Removed(index) != DocumentName(w, n) {
      RemovedIsADocumentIff(index, w, n);
    }
  }

  lemma LinkNamesArePlain(word: string, species: Species, index: nat)
    requires SLASH !in word
    ensures SLASH !in LinkName(word, species, index)
    ensures SLASH !in Removed(index) && PlainName(Removed(index))
  {
    hide Padded;
    assert |Removed(index)| > 2;
  }

  /** Links of one species, each named for its place among them. */
  ghost predicate Numbered(links: seq<PlannedLink>, species: Species) {
    forall k :: 0 <= k < |links| ==> links[k].species == species && Named(links[k], k)
  }

  ghost predicate HasIndex(link: PlannedLink) {
    exists n :: Named(link, n)
  }

  /** Links each named for some index, no two at one path. */
  ghost predicate Apart(links: seq<PlannedLink>) {
    && (forall k :: 0 <= k < |links| ==> HasIndex(links[k]))
    && (forall i, j :: 0 <= i < j < |links| ==> links[i].path != links[j].path)
  }

  lemma StayApart(front: seq<PlannedLink>, back: seq<PlannedLink>, species: Species)
    requires Apart(front) && Numbered(back, species)
    requires forall k :: 0 <= k < |front| ==> front[k].species != species
    ensures Apart(front + back)
  {
    hide Named;
    var all := front + back;
    forall k | 0 <= k < |all| ensures HasIndex(all[k]) {
      if k >= |front| {
        assert all[k] == back[k - |front|] && Named(back[k - |front|], k - |front|);
      } else {
        assert all[k] == front[k];
      }
    }
    forall i, j | 0 <= i < j < |all| ensures all[i].path != all[j].path {
      assert j < |front| ==> all[i] == front[i] && all[j] == front[j];
      if j >= |front| {
        var q := j - |front|;
        if i < |front| {
          var n :| Named(front[i], n);
          DifferentPaths(front[i], n, back[q], q);
        } else {
          DifferentPaths(back[i - |front|], i - |front|, back[q], q);
        }
      }
    }
  }

  lemma DifferentPaths(a: PlannedLink, i: nat, b: PlannedLink, j: nat)
    requires Named(a, i) && Named(b, j) && (a.species != b.species || i != j)
    ensures a.path != b.path
  {
    if a.path == b.path {
      NamesAreApart(a, i, b, j);
    }
  }

  /** However many of each species there are. */
  lemma AllApart(files: seq<PlannedLink>, dirs: seq<PlannedLink>, dangling: seq<PlannedLink>, outbound: seq<PlannedLink>)
    requires Numbered(files, InVaultFile) && Numbered(dirs, InVaultDir)
    requires Numbered(dangling, Dangling) && Numbered(outbound, Outbound)
    ensures Apart(files + dirs + dangling + outbound)
  {
    hide Named, Apart;
    assert Apart([]) by { NoneApart(); }
    assert [] + files == files;
    StayApart([], files, InVaultFile);
    StayApart(files, dirs, InVaultDir);
    StayApart(files + dirs, dangling, Dangling);
    StayApart(files + dirs + dangling, outbound, Outbound);
  }

  lemma NoneApart()
    ensures Apart([])
  {
  }
}
