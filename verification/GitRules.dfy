/**
 How git decides whether a file is ignored, as gitignore(5) gives the rules:
 lines to patterns, the last matching line of a file, the deepest file first,
 and no descent into an excluded directory.
 */
module GitRules {
  import opened Prelude
  import Paths

  /** The names from the vault's root down. */
  type Path = seq<string>

  const GITIGNORE: string := ".gitignore"

  // ----- text

  /** One carriage return at the end gone, if there is one. */
  function WithoutReturn(line: string): (t: string)
    ensures line == t + "\r" || (line == t && (t == "" || t[|t| - 1] != '\r'))
  {
    if line != [] && line[|line| - 1] == '\r' then line[..|line| - 1] else line
  }

  predicate AllSpaces(s: string) {
    forall i :: 0 <= i < |s| ==> s[i] == ' '
  }

  /** Trailing spaces gone, save where a backslash quotes one. */
  function Trimmed(line: string): string
    decreases |line|
  {
    if AllSpaces(line) then []
    else if line[0] != '\\' then [line[0]] + Trimmed(line[1..])
    else if |line| == 1 then line
    else line[..2] + Trimmed(line[2..])
  }

  // ----- patterns

  /** A pattern: its pieces between slashes, with the leading and trailing slash
      taken off. A `floating` one had no other, and matches at any depth. */
  datatype Pattern = Pattern(negated: bool, dirOnly: bool, floating: bool, pieces: seq<string>)

  /** The pattern a line holds: none for a blank line or a comment. */
  function PatternOf(line: string): Option<Pattern> {
    var text := Trimmed(WithoutReturn(line));
    if text == [] || text[0] == '#' then None
    else if text[0] == '!' then Some(Read(true, text[1..]))
    else Some(Read(false, text))
  }

  function Read(negated: bool, text: string): Pattern {
    var dirOnly := text != [] && text[|text| - 1] == '/';
    var body := if dirOnly then text[..|text| - 1] else text;
    if '/' !in body then Pattern(negated, dirOnly, true, [body])
    else Pattern(negated, dirOnly, false, Paths.Split(if body[0] == '/' then body[1..] else body, '/'))
  }

  /** Nothing in `piece` means anything but itself. */
  predicate Literal(piece: string) {
    '*' !in piece && '?' !in piece && '[' !in piece && '\\' !in piece
  }

  /** Pieces against names: `*` is any name, `**` any number of them, and at the
      end at least one. */
  predicate Glob(pieces: seq<string>, path: Path)
    decreases |pieces| + |path|
  {
    if pieces == [] then path == []
    else if pieces[0] == "**" then
      if |pieces| == 1 then path != []
      else Glob(pieces[1..], path) || (path != [] && Glob(pieces, path[1..]))
    else
      && path != []
      && (pieces[0] == "*" || (Literal(pieces[0]) && pieces[0] == path[0]))
      && Glob(pieces[1..], path[1..])
  }

  /** What a pattern matches for certain, made of names, `*` and `**` only. */
  predicate PlainlyMatches(p: Pattern, path: Path, isDir: bool) {
    && (p.dirOnly ==> isDir)
    && Glob((if p.floating then ["**"] else []) + p.pieces, path)
  }

  /** A piece that is neither `**` nor a name to match letter for letter is a
      wildcard of another kind, and matches nothing for certain. */
  predicate Meets(piece: string, name: string) {
    piece == "*" || (piece == name && forall c :: c in "*?[\\" ==> c !in piece)
  }

  /** Pieces without `**` are matched name by name, from a depth the leading `**`
      leaves open. */
  lemma {:induction false} GlobIs(pieces: seq<string>, path: Path)
    requires "**" !in pieces
    ensures Glob(pieces, path) <==> |pieces| == |path| && forall i :: 0 <= i < |path| ==> Meets(pieces[i], path[i])
    decreases |pieces|
  {
    if pieces != [] && path != [] {
      GlobIs(pieces[1..], path[1..]);
      assert path == [path[0]] + path[1..] && pieces == [pieces[0]] + pieces[1..];
      assert '\\' in "*?[\\" && '*' in "*?[\\" && '?' in "*?[\\" && '[' in "*?[\\";
    }
  }

  lemma {:induction false} FloatingGlobIs(pieces: seq<string>, path: Path)
    ensures Glob(["**"] + pieces, path) <==>
              if pieces == [] then path != [] else exists k :: 0 <= k <= |path| && Glob(pieces, path[k..])
    decreases |path|
  {
    if pieces != [] {
      assert (["**"] + pieces)[1..] == pieces && path[0..] == path;
      if path != [] {
        FloatingGlobIs(pieces, path[1..]);
        assert forall k :: 1 <= k <= |path| ==> path[1..][k - 1..] == path[k..];
        if k: nat :| k <= |path| - 1 && Glob(pieces, path[1..][k..]) {
          assert path[k + 1..] == path[1..][k..];
        }
      }
    }
  }

  /** Nothing is asked of a file by a pattern for directories. */
  lemma DirectoriesOnly(git: Git)
    requires git.Conforms()
    ensures git.(matches := (p, path, isDir) => git.matches(p, path, isDir) && (p.dirOnly ==> isDir)).Conforms()
  {
  }

  // ----- decisions

  datatype Ruling = Ignored | Included | Silent

  /** A git, and what is not in the vault: how its wildcards match, whether it
      folds case, what it makes of a `.gitignore` that is no plain file, what its
      files outside the vault say, and whether they exclude the vault itself. */
  datatype Git = Git(
    matches: (Pattern, Path, bool) -> bool,
    odd: Path -> Option<string>,
    elsewhere: (Path, bool) -> Ruling,
    vaultExcluded: bool)
  {
    /** It matches what must match, whatever else it does. */
    ghost predicate Conforms() {
      forall p: Pattern, path, isDir :: PlainlyMatches(p, path, isDir) ==> matches(p, path, isDir)
    }
  }

  /** What stands at a name, as far as reading goes. */
  datatype Node = File(text: string) | Other

  type Vault = map<Path, Node>

  /** The `.gitignore` text git has for a directory. */
  function TextIn(git: Git, v: Vault, directory: Path): Option<string> {
    var at := directory + [GITIGNORE];
    if at !in v then None
    else match v[at]
         case File(text) => Some(text)
         case Other => git.odd(at)
  }

  const BOM: string := "\U{EF}\U{BB}\U{BF}"

  /** The lines of a file; a byte-order mark is no part of the first. */
  function LinesOf(text: string): seq<string> {
    Paths.Split(if BOM <= text then text[|BOM|..] else text, '\n')
  }

  lemma MarkIsSkipped(text: string)
    ensures LinesOf("\U{EF}\U{BB}\U{BF}" + text) == Paths.Split(text, '\n')
    ensures !("\U{EF}\U{BB}\U{BF}" <= text) ==> LinesOf(text) == Paths.Split(text, '\n')
  {
    assert (BOM + text)[|BOM|..] == text;
  }

  /** The last line that matches decides. */
  function LastMatch(git: Git, lines: seq<string>, path: Path, isDir: bool): Ruling {
    if lines == [] then Silent
    else
      match PatternOf(lines[|lines| - 1])
      case Some(p) =>
        if git.matches(p, path, isDir) then (if p.negated then Included else Ignored)
        else LastMatch(git, lines[..|lines| - 1], path, isDir)
      case None => LastMatch(git, lines[..|lines| - 1], path, isDir)
  }

  /** The deepest file that says anything decides, from the one in the directory
      of the first `depth` names up. */
  function Decision(git: Git, v: Vault, path: Path, isDir: bool, depth: nat): Ruling
    requires depth < |path|
  {
    var here :=
      match TextIn(git, v, path[..depth])
      case Some(text) => LastMatch(git, LinesOf(text), path[depth..], isDir)
      case None => Silent;
    if here != Silent then here
    else if depth == 0 then git.elsewhere(path, isDir)
    else Decision(git, v, path, isDir, depth - 1)
  }

  /** Whether the walk down to `file`, begun with its first `k` names, stops at
      something excluded. */
  predicate StopsOnTheWay(git: Git, v: Vault, file: Path, k: nat)
    requires 1 <= k <= |file|
    decreases |file| - k
  {
    if Decision(git, v, file[..k], k < |file|, k - 1) == Ignored then true
    else k < |file| && StopsOnTheWay(git, v, file, k + 1)
  }

  predicate Ignores(git: Git, v: Vault, file: Path)
    requires file != []
  {
    git.vaultExcluded || StopsOnTheWay(git, v, file, 1)
  }

  lemma {:induction false} ExclusionStopsTheWalk(git: Git, v: Vault, file: Path, k: nat, at: nat)
    requires 1 <= k <= at <= |file|
    requires Decision(git, v, file[..at], at < |file|, at - 1) == Ignored
    ensures StopsOnTheWay(git, v, file, k)
    decreases at - k
  {
    if k < at {
      ExclusionStopsTheWalk(git, v, file, k + 1, at);
    }
  }
}
