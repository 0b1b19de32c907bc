/** The lexical Windows path policy: cleaning a path, and containment of one path in another. */
module WindowsPath {
  import opened Wrappers
  import opened Strings

  /** unicode.ToLower, one character at a time. Only its behaviour on two characters matters. */
  type Fold = char -> char

  ghost predicate Folds(fold: Fold) {
    && (forall c :: fold(c) == '\\' <==> c == '\\')
    && (forall c :: fold(c) == '?' <==> c == '?')
  }

  function Lower(s: string, fold: Fold): (r: string)
    ensures |r| == |s|
    ensures forall i :: 0 <= i < |s| ==> r[i] == fold(s[i])
  {
    if s == "" then "" else [fold(s[0])] + Lower(s[1..], fold)
  }

  function UseBackslashes(s: string): (r: string)
    ensures |r| == |s| && '/' !in r
    ensures forall i :: 0 <= i < |s| ==> r[i] == s[i] || (s[i] == '/' && r[i] == '\\')
    ensures '/' !in s ==> r == s
  {
    if s == "" then "" else [if s[0] == '/' then '\\' else s[0]] + UseBackslashes(s[1..])
  }

  // ---- paths ----

  /** A cleaned path: its volume, and its components below the volume root. */
  datatype Path =
    | Drive(letter: char, parts: seq<string>)
    | Unc(server: string, share: string, parts: seq<string>)

  /** The backslash-separated fields of a path as text. */
  function Fields(p: Path): (f: seq<string>)
    ensures |f| >= 1
  {
    match p
    case Drive(letter, parts) => [[letter, ':']] + parts
    case Unc(server, share, parts) => ["", "", server, share] + parts
  }

  function Render(p: Path): string {
    if p.Drive? && p.parts == [] then [p.letter, ':', '\\'] else Join(Fields(p), '\\')
  }

  predicate IsLetter(c: char) { 'A' <= c <= 'Z' || 'a' <= c <= 'z' }

  function Upper(c: char): (u: char)
    ensures IsLetter(c) ==> 'A' <= u <= 'Z' && (u == c || c as int - u as int == 'a' as int - 'A' as int)
    ensures !IsLetter(c) ==> u == c
  {
    if 'a' <= c <= 'z' then 'A' + (c - 'a') else c
  }

  /** A field of a path: neither separator occurs in it. */
  predicate Plain(s: string) { '\\' !in s && '/' !in s }

  predicate Ordinary(part: string) { part != "" && part != "." && part != ".." && Plain(part) }

  ghost predicate Clean(p: Path) {
    && (forall i :: 0 <= i < |p.parts| ==> Ordinary(p.parts[i]))
    && (p.Drive? ==> 'A' <= p.letter <= 'Z')
    && (p.Unc? ==> p.server != "" && p.share != "" && Plain(p.server) && Plain(p.share))
  }

  // ---- CleanWindowsPath ----

  /** The text begins with two backslashes, a question mark and a backslash. */
  predicate IsExtended(s: string) {
    |s| >= 4 && s[0] == '\\' && s[1] == '\\' && s[2] == '?' && s[3] == '\\'
  }

  /** The same, followed by "unc" and a backslash. */
  predicate IsExtendedUnc(s: string) {
    |s| >= 8 && IsExtended(s) && s[4] == 'u' && s[5] == 'n' && s[6] == 'c' && s[7] == '\\'
  }

  /** stripExtendedPrefix. */
  function Strip(p: string, fold: Fold): (r: string)
    ensures |r| <= |p|
  {
    var lower := Lower(p, fold);
    if IsExtendedUnc(lower) then ['\\', '\\'] + p[8..]
    else if IsExtended(lower) then p[4..]
    else p
  }

  /** splitVolume: the volume, with no components yet, and the rest of the text. */
  function SplitVolume(p: string): Option<(Path, string)> {
    if |p| >= 3 && IsLetter(p[0]) && p[1] == ':' && p[2] == '\\' then
      Some((Drive(Upper(p[0]), []), p[3..]))
    else if |p| >= 2 && p[0] == '\\' && p[1] == '\\' then
      var fields := Split(p[2..], '\\');
      if |fields| < 2 || fields[0] == "" || fields[1] == "" then None
      else Some((Unc(fields[0], fields[1], []), Join(fields[2..], '\\')))
    else None
  }

  /** The component stack: "" and "." change nothing, ".." pops, a name is pushed. */
  function Walk(parts: seq<string>): Option<seq<string>> {
    if parts == [] then Some([])
    else Push(Walk(parts[..|parts| - 1]), parts[|parts| - 1])
  }

  function Push(stack: Option<seq<string>>, part: string): Option<seq<string>> {
    if stack.None? then None
    else if part == "" || part == "." then stack
    else if part == ".." then
      if stack.value == [] then None else Some(stack.value[..|stack.value| - 1])
    else Some(stack.value + [part])
  }

  function Trimmed(input: string, fold: Fold): string {
    Strip(TrimSpace(UseBackslashes(input)), fold)
  }

  function Resolve(input: string, fold: Fold): Result<Path> {
    var p := Trimmed(input, fold);
    if p == "" then Err("path is empty")
    else if SplitVolume(p).None? then Err("path is not an absolute Windows path")
    else
      var (volume, rest) := SplitVolume(p).value;
      var stack := Walk(Split(rest, '\\'));
      if stack.None? then Err("path escapes its volume root")
      else Ok(volume.(parts := stack.value))
  }

  /** CleanWindowsPath. */
  method CleanWindowsPath(input: string, fold: Fold) returns (r: Result<string>)
    ensures r == CleanText(input, fold)
  {
    var p := Trimmed(input, fold);
    if p == "" {
      return Err("path is empty");
    }
    var split := SplitVolume(p);
    if split.None? {
      return Err("path is not an absolute Windows path");
    }
    var (volume, rest) := split.value;
    var components := Split(rest, '\\');
    var parts: seq<string> := [];
    for i := 0 to |components|
      invariant Walk(components[..i]) == Some(parts)
    {
      var part := components[i];
      assert components[..i + 1][..i] == components[..i];
      if part == ".." {
        if |parts| == 0 {
          WalkStaysLost(components, i + 1);
          return Err("path escapes its volume root");
        }
        parts := parts[..|parts| - 1];
      } else if part != "" && part != "." {
        parts := parts + [part];
      }
    }
    assert components[..|components|] == components;
    r := Ok(Render(volume.(parts := parts)));
  }

  function CleanText(input: string, fold: Fold): Result<string> {
    match Resolve(input, fold)
    case Ok(p) => Ok(Render(p))
    case Err(m) => Err(m)
  }

  lemma {:induction false} WalkStaysLost(parts: seq<string>, i: nat)
    requires i <= |parts| && Walk(parts[..i]).None?
    ensures Walk(parts).None?
  {
    if i < |parts| {
      assert parts[..|parts| - 1][..i] == parts[..i];
      WalkStaysLost(parts[..|parts| - 1], i);
    } else {
      assert parts[..i] == parts;
    }
  }
}
