/** What cleaning a path and testing containment mean. */
module PathProperties {
  import opened Wrappers
  import opened Strings
  import opened WindowsPath

  /** Lower-casing the ASCII letters alone is such a fold. */
  function AsciiLower(c: char): char {
    if 'A' <= c <= 'Z' then 'a' + (c - 'A') else c
  }

  lemma AsciiLowerFolds()
    ensures Folds(AsciiLower)
  {
  }

  // ---- the component walk ----

  function Dots(parts: seq<string>): nat {
    if parts == [] then 0 else Dots(parts[..|parts| - 1]) + (if parts[|parts| - 1] == ".." then 1 else 0)
  }

  function NameCount(parts: seq<string>): nat {
    if parts == [] then 0
    else NameCount(parts[..|parts| - 1]) + (if parts[|parts| - 1] !in {"", ".", ".."} then 1 else 0)
  }

  /** The components that remain, found from the other end: reading right to left, each ".." still
      pending swallows the next name. */
  function Kept(parts: seq<string>, pending: nat): seq<string> {
    if parts == [] then []
    else
      var init, last := parts[..|parts| - 1], parts[|parts| - 1];
      if last == "" || last == "." then Kept(init, pending)
      else if last == ".." then Kept(init, pending + 1)
      else if pending > 0 then Kept(init, pending - 1)
      else Kept(init, 0) + [last]
  }

  ghost predicate Escapes(parts: seq<string>, k: nat)
    requires k <= |parts|
  {
    Dots(parts[..k]) > NameCount(parts[..k])
  }

  /** The walk fails exactly when some prefix has more ".." than names; otherwise as many components
      remain as there are names without a "..". */
  lemma {:induction false} WalkFailsIffEscapes(parts: seq<string>)
    ensures Walk(parts).None? <==> exists k :: 0 <= k <= |parts| && Escapes(parts, k)
    ensures Walk(parts).Some? ==> |Walk(parts).value| == NameCount(parts) - Dots(parts)
  {
    if parts == [] {
      assert parts[..0] == [];
    } else {
      var init := parts[..|parts| - 1];
      WalkFailsIffEscapes(init);
      assert forall k :: 0 <= k <= |init| ==> init[..k] == parts[..k];
      assert parts[..|parts|] == parts;
      if Walk(init).None? {
        var k :| 0 <= k <= |init| && Escapes(init, k);
        assert Escapes(parts, k);
      } else {
        assert forall k :: 0 <= k <= |init| ==> !Escapes(parts, k) by {
          forall k | 0 <= k <= |init|
            ensures !Escapes(parts, k)
          {
            assert !Escapes(init, k);
          }
        }
        if Walk(parts).None? {
          assert Escapes(parts, |parts|);
        } else {
          assert !Escapes(parts, |parts|);
        }
      }
    }
  }

  /** What remains after the walk is what the reading from the other end keeps. */
  lemma {:induction false} WalkKeeps(parts: seq<string>, pending: nat)
    requires Walk(parts).Some?
    ensures var s := Walk(parts).value; Kept(parts, pending) == if pending <= |s| then s[..|s| - pending] else []
  {
    if parts != [] {
      var init, last := parts[..|parts| - 1], parts[|parts| - 1];
      if last == "" || last == "." {
        WalkKeeps(init, pending);
      } else if last == ".." {
        WalkKeeps(init, pending + 1);
      } else if pending > 0 {
        WalkKeeps(init, pending - 1);
      } else {
        WalkKeeps(init, 0);
        var s := Walk(init).value;
        assert s[..|s|] == s;
      }
    }
  }

  lemma {:induction false} WalkIsOrdinary(parts: seq<string>)
    requires Walk(parts).Some? && forall i :: 0 <= i < |parts| ==> Plain(parts[i])
    ensures forall i :: 0 <= i < |Walk(parts).value| ==> Ordinary(Walk(parts).value[i])
  {
    if parts != [] {
      WalkIsOrdinary(parts[..|parts| - 1]);
    }
  }

  lemma {:induction false} WalkOfOrdinary(parts: seq<string>)
    requires forall i :: 0 <= i < |parts| ==> Ordinary(parts[i])
    ensures Walk(parts) == Some(parts)
  {
    if parts != [] {
      var init, last := parts[..|parts| - 1], parts[|parts| - 1];
      WalkOfOrdinary(init);
      PushOrdinary(init, last);
      assert parts == init + [last];
    }
  }

  lemma PushOrdinary(stack: seq<string>, part: string)
    requires Ordinary(part)
    ensures Push(Some(stack), part) == Some(stack + [part])
  {
  }

  // ---- a cleaned path is clean, and splits back ----

  lemma {:induction false} JoinIsPlain(parts: seq<string>)
    requires forall i :: 0 <= i < |parts| ==> '/' !in parts[i]
    ensures '/' !in Join(parts, '\\')
  {
    if |parts| > 1 {
      JoinIsPlain(parts[1..]);
    }
  }

  lemma {:induction false} SplitIsPlain(s: string)
    requires '/' !in s
    ensures forall i :: 0 <= i < |Split(s, '\\')| ==> Plain(Split(s, '\\')[i])
  {
    if s != "" {
      SplitIsPlain(s[1..]);
      var rest := Split(s[1..], '\\');
      forall i | 0 <= i < |Split(s, '\\')|
        ensures '/' !in Split(s, '\\')[i]
      {
        if s[0] == '\\' {
          assert i > 0 ==> Split(s, '\\')[i] == rest[i - 1];
        } else if i == 0 {
          assert Split(s, '\\')[0] == [s[0]] + rest[0];
          assert Plain(rest[0]);
        } else {
          assert Split(s, '\\')[i] == rest[i];
        }
      }
    }
  }

  lemma {:induction false} TrimIsPlain(s: string)
    requires '/' !in s
    ensures '/' !in TrimRight(s) && '/' !in TrimLeft(s)
    decreases |s|
  {
    if s != "" {
      TrimIsPlain(s[1..]);
      TrimIsPlain(s[..|s| - 1]);
    }
  }

  lemma TrimmedIsPlain(input: string, fold: Fold)
    ensures '/' !in Trimmed(input, fold)
  {
    var s := UseBackslashes(input);
    TrimIsPlain(s);
    TrimIsPlain(TrimLeft(s));
    assert '/' !in TrimSpace(s);
  }

  lemma SplitVolumeIsClean(p: string)
    requires '/' !in p && SplitVolume(p).Some?
    ensures Clean(SplitVolume(p).value.0) && SplitVolume(p).value.0.parts == [] && '/' !in SplitVolume(p).value.1
  {
    if !(|p| >= 3 && IsLetter(p[0]) && p[1] == ':' && p[2] == '\\') {
      var fields := Split(p[2..], '\\');
      SplitIsPlain(p[2..]);
      assert Plain(fields[0]) && Plain(fields[1]);
      JoinIsPlain(fields[2..]);
    }
  }

  lemma ResolveIsClean(input: string, fold: Fold)
    requires Resolve(input, fold).Ok?
    ensures Clean(Resolve(input, fold).value)
  {
    TrimmedIsPlain(input, fold);
    var p := Trimmed(input, fold);
    SplitVolumeIsClean(p);
    var (volume, rest) := SplitVolume(p).value;
    SplitIsPlain(rest);
    WalkIsOrdinary(Split(rest, '\\'));
  }

  /** Only absolute texts resolve: those that begin with a drive, or with two slashes. */
  lemma OnlyAbsoluteResolves(input: string, fold: Fold)
    requires Folds(fold) && Resolve(input, fold).Ok?
    ensures var t := TrimSpace(UseBackslashes(input));
            || (|t| >= 3 && IsLetter(t[0]) && t[1] == ':' && t[2] == '\\')
            || (|t| >= 2 && t[0] == '\\' && t[1] == '\\')
  {
    var t := TrimSpace(UseBackslashes(input));
    var lower := Lower(t, fold);
    if IsExtended(lower) {
      assert fold(t[0]) == '\\' && fold(t[1]) == '\\';
    } else {
      assert Trimmed(input, fold) == t;
    }
  }

  /** The text of a clean path splits back into its fields. */
  lemma FieldsAreSepFree(p: Path)
    requires Clean(p)
    ensures forall i :: 0 <= i < |Fields(p)| ==> '\\' !in Fields(p)[i] && '/' !in Fields(p)[i]
  {
    forall i | 0 <= i < |Fields(p)|
      ensures '\\' !in Fields(p)[i] && '/' !in Fields(p)[i]
    {
      var base := |Fields(p)| - |p.parts|;
      if i >= base {
        assert Fields(p)[i] == p.parts[i - base];
        assert Ordinary(p.parts[i - base]);
      }
    }
  }

  lemma RenderDrive(letter: char, parts: seq<string>)
    ensures Render(Drive(letter, parts)) == [letter, ':', '\\'] + Join(parts, '\\')
  {
    if parts != [] {
      JoinAppend([[letter, ':']], parts, '\\');
    }
  }

  lemma RenderUnc(server: string, share: string, parts: seq<string>)
    ensures Render(Unc(server, share, parts)) == ['\\', '\\'] + Join([server, share] + parts, '\\')
  {
    var named := [server, share] + parts;
    assert ["", "", server, share] + parts == [""] + ([""] + named);
    JoinCons("", [""] + named);
    JoinCons("", named);
  }

  lemma JoinCons(a: string, rest: seq<string>)
    requires rest != []
    ensures Join([a] + rest, '\\') == a + ['\\'] + Join(rest, '\\')
  {
    assert ([a] + rest)[1..] == rest;
  }

  /** splitVolume recovers exactly the volume and the components from the text of a clean path. */
  lemma RenderSplitsBack(p: Path)
    requires Clean(p)
    ensures SplitVolume(Render(p)).Some?
    ensures var (volume, rest) := SplitVolume(Render(p)).value;
            volume == p.(parts := []) && Walk(Split(rest, '\\')) == Some(p.parts)
  {
    RestWalks(p.parts);
    if p.Drive? {
      RenderDrive(p.letter, p.parts);
      assert Render(p)[3..] == Join(p.parts, '\\');
    } else {
      UncSplitsBack(p);
    }
  }

  lemma UncSplitsBack(p: Path)
    requires Clean(p) && p.Unc?
    ensures SplitVolume(Render(p)) == Some((p.(parts := []), Join(p.parts, '\\')))
  {
    RenderUnc(p.server, p.share, p.parts);
    var fields := [p.server, p.share] + p.parts;
    FieldsAreSepFree(p);
    forall i | 0 <= i < |fields|
      ensures '\\' !in fields[i]
    {
      assert fields[i] == Fields(p)[i + 2];
    }
    SplitJoin(fields, '\\');
    assert Render(p)[2..] == Join(fields, '\\');
    assert fields[2..] == p.parts;
  }

  /** The rest of a path after its volume splits into the components, or into one empty one. */
  lemma RestWalks(parts: seq<string>)
    requires forall i :: 0 <= i < |parts| ==> Ordinary(parts[i])
    ensures Walk(Split(Join(parts, '\\'), '\\')) == Some(parts)
  {
    WalkOfOrdinary(parts);
    if parts == [] {
      assert Split("", '\\') == [""];
      assert Walk([""]) == Push(Walk([]), "");
    } else {
      SplitJoin(parts, '\\');
    }
  }

  // ---- cleaning again ----

  ghost function Size(parts: seq<string>): nat {
    if parts == [] then 0 else Size(parts[..|parts| - 1]) + |parts[|parts| - 1]| + 1
  }

  lemma {:induction false} JoinSize(parts: seq<string>)
    requires parts != []
    ensures |Join(parts, '\\')| + 1 == Size(parts)
  {
    var init, last := parts[..|parts| - 1], parts[|parts| - 1];
    if init != [] {
      JoinSize(init);
      JoinAppend(init, [last], '\\');
      assert parts == init + [last];
    } else {
      assert parts == [last];
    }
  }

  lemma {:induction false} WalkSize(parts: seq<string>)
    requires Walk(parts).Some?
    ensures Size(Walk(parts).value) <= Size(parts) && |Walk(parts).value| <= |parts|
  {
    if parts != [] {
      var init, last := parts[..|parts| - 1], parts[|parts| - 1];
      WalkSize(init);
      var s := Walk(init).value;
      assert (s + [last])[..|s|] == s;
    }
  }

  /** Cleaning never makes a path longer. */
  lemma RenderSize(p: string, volume: Path, rest: string, stack: seq<string>)
    requires SplitVolume(p) == Some((volume, rest)) && Walk(Split(rest, '\\')) == Some(stack)
    ensures |Render(volume.(parts := stack))| <= |p|
  {
    WalkSize(Split(rest, '\\'));
    JoinSize(Split(rest, '\\'));
    JoinSplit(rest, '\\');
    if stack != [] {
      JoinSize(stack);
    }
    if volume.Drive? {
      RenderDrive(volume.letter, stack);
    } else {
      var fields := Split(p[2..], '\\');
      RenderUnc(volume.server, volume.share, stack);
      JoinSplit(p[2..], '\\');
      assert fields == [volume.server, volume.share] + fields[2..];
      UncJoin(volume.server, volume.share, stack);
      UncJoin(volume.server, volume.share, fields[2..]);
      if fields[2..] != [] {
        JoinSize(fields[2..]);
      }
    }
  }

  lemma UncJoin(server: string, share: string, parts: seq<string>)
    ensures |Join([server, share] + parts, '\\')|
            == |server| + 1 + |share| + (if parts == [] then 0 else 1 + |Join(parts, '\\')|)
  {
    assert [server, share] + [] == [server, share];
    if parts != [] {
      JoinAppend([server, share], parts, '\\');
    }
  }

  lemma RenderIsPlain(p: Path)
    requires Clean(p)
    ensures '/' !in Render(p) && |Render(p)| >= 2 && !IsSpace(Render(p)[0])
  {
    FieldsAreSepFree(p);
    JoinIsPlain(Fields(p));
    if p.Drive? {
      RenderDrive(p.letter, p.parts);
    } else {
      RenderUnc(p.server, p.share, p.parts);
    }
  }

  /** A clean text begins with the extended prefix exactly when it names the server "?". */
  lemma StripOfRender(p: Path, fold: Fold)
    requires Clean(p) && Folds(fold)
    ensures Strip(Render(p), fold) == Render(p) <==> !(p.Unc? && p.server == "?")
    ensures p.Unc? && p.server == "?" ==> |Strip(Render(p), fold)| < |Render(p)|
  {
    var out := Render(p);
    if p.Drive? {
      RenderDrive(p.letter, p.parts);
    } else {
      RenderUnc(p.server, p.share, p.parts);
      var more := Join([p.share] + p.parts, '\\');
      assert ([p.server, p.share] + p.parts)[1..] == [p.share] + p.parts;
      var tail := p.server + ['\\'] + more;
      assert out[2..] == tail;
      assert out[2] == tail[0] && out[3] == tail[1];
      assert forall i :: 0 <= i < |p.server| ==> tail[i] == p.server[i] && tail[i] != '\\';
      assert tail[|p.server|] == '\\';
      assert p.server == "?" <==> |p.server| == 1 && p.server[0] == '?';
    }
  }

  ghost predicate Stable(p: Path) {
    !IsSpace(Render(p)[|Render(p)| - 1]) && !(p.Unc? && p.server == "?")
  }

  lemma CleanAgain(p: Path, fold: Fold)
    requires Clean(p) && Folds(fold)
    ensures |Render(p)| > 0
    ensures Stable(p) ==> Resolve(Render(p), fold) == Ok(p)
    ensures !Stable(p) ==> |Trimmed(Render(p), fold)| < |Render(p)|
  {
    var out := Render(p);
    RenderIsPlain(p);
    TrimSpaceIdentity(out);
    StripOfRender(p, fold);
    if Stable(p) {
      assert Trimmed(out, fold) == out;
      RenderSplitsBack(p);
    } else if IsSpace(out[|out| - 1]) {
      assert |TrimSpace(out)| < |out|;
    }
  }

  /** Cleaning a cleaned path again is the identity exactly when it does not end in whitespace and
      does not name the server "?". */
  lemma CleaningIsStableIff(input: string, fold: Fold)
    requires Folds(fold) && Resolve(input, fold).Ok?
    ensures var p := Resolve(input, fold).value;
            |Render(p)| > 0 &&
            (CleanText(Render(p), fold) == Ok(Render(p)) <==>
               !IsSpace(Render(p)[|Render(p)| - 1]) && !(p.Unc? && p.server == "?"))
  {
    ResolveIsClean(input, fold);
    var p := Resolve(input, fold).value;
    CleanAgain(p, fold);
    if !Stable(p) && Resolve(Render(p), fold).Ok? {
      var t := Trimmed(Render(p), fold);
      var (volume, rest) := SplitVolume(t).value;
      RenderSize(t, volume, rest, Walk(Split(rest, '\\')).value);
    }
  }

  /** The extended form of a network path. */
  function Extended(p: Path): string
    requires p.Unc?
  {
    ['\\', '\\', '?', '\\', 'u', 'n', 'c', '\\'] + Join([p.server, p.share] + p.parts, '\\')
  }

  /** The extended form of a network path resolves to that path, whatever the server is called. */
  lemma ExtendedUncResolves(p: Path, fold: Fold)
    requires Clean(p) && p.Unc? && |Render(p)| > 0 && !IsSpace(Render(p)[|Render(p)| - 1])
    requires Folds(fold) && fold('u') == 'u' && fold('n') == 'n' && fold('c') == 'c'
    ensures Resolve(Extended(p), fold) == Ok(p)
  {
    var input, tail := Extended(p), Join([p.server, p.share] + p.parts, '\\');
    RenderIsPlain(p);
    RenderUnc(p.server, p.share, p.parts);
    NonemptyTail(p);
    assert Render(p)[|Render(p)| - 1] == tail[|tail| - 1];
    assert '/' !in tail;
    ExtendedText(input, tail, fold);
    RenderSplitsBack(p);
  }

  lemma NonemptyTail(p: Path)
    requires Clean(p) && p.Unc?
    ensures Join([p.server, p.share] + p.parts, '\\') != "" && '/' !in Join([p.server, p.share] + p.parts, '\\')
  {
    RenderIsPlain(p);
    RenderUnc(p.server, p.share, p.parts);
    var f := [p.server, p.share] + p.parts;
    assert f[0] == p.server;
    var tail := Join(f, '\\');
    assert forall i :: 0 <= i < |tail| ==> tail[i] == Render(p)[i + 2];
  }

  lemma ExtendedText(input: string, tail: string, fold: Fold)
    requires input == ['\\', '\\', '?', '\\', 'u', 'n', 'c', '\\'] + tail
    requires '/' !in tail && tail != "" && !IsSpace(tail[|tail| - 1])
    requires Folds(fold) && fold('u') == 'u' && fold('n') == 'n' && fold('c') == 'c'
    ensures Trimmed(input, fold) == ['\\', '\\'] + tail
  {
    assert TrimSpace(UseBackslashes(input)) == input by {
      TrimSpaceIdentity(input);
      assert input[|input| - 1] == tail[|tail| - 1];
    }
    StripsExtendedUnc(input, tail, fold);
  }

  lemma StripsExtendedUnc(input: string, tail: string, fold: Fold)
    requires input == ['\\', '\\', '?', '\\', 'u', 'n', 'c', '\\'] + tail
    requires Folds(fold) && fold('u') == 'u' && fold('n') == 'n' && fold('c') == 'c'
    ensures Strip(input, fold) == ['\\', '\\'] + tail
  {
    var lower := Lower(input, fold);
    assert IsExtendedUnc(lower);
    assert input[8..] == tail;
  }

  /** The extended form of a path on a drive resolves to that path. */
  lemma ExtendedDriveResolves(p: Path, fold: Fold)
    requires Clean(p) && p.Drive? && |Render(p)| > 0 && !IsSpace(Render(p)[|Render(p)| - 1])
    requires Folds(fold) && fold(':') == ':'
    ensures Resolve(['\\', '\\', '?', '\\'] + Render(p), fold) == Ok(p)
  {
    var input := ['\\', '\\', '?', '\\'] + Render(p);
    RenderIsPlain(p);
    RenderDrive(p.letter, p.parts);
    TrimSpaceIdentity(input);
    assert input[5] == ':' && input[4..] == Render(p);
    assert Trimmed(input, fold) == Render(p);
    RenderSplitsBack(p);
  }

  predicate IsSlash(c: char) { c == '/' || c == '\\' }

  lemma {:induction false} SameBackslashes(a: string, b: string)
    requires |a| == |b| && forall i :: 0 <= i < |a| ==> a[i] == b[i] || (IsSlash(a[i]) && IsSlash(b[i]))
    ensures UseBackslashes(a) == UseBackslashes(b)
  {
    if a != "" {
      assert a[0] == b[0] || (IsSlash(a[0]) && IsSlash(b[0]));
      SameBackslashes(a[1..], b[1..]);
    }
  }

  /** Both slashes separate: texts that differ only in which one they use resolve to the same path or error. */
  lemma SlashesAreAlike(a: string, b: string, fold: Fold)
    requires |a| == |b| && forall i :: 0 <= i < |a| ==> a[i] == b[i] || (IsSlash(a[i]) && IsSlash(b[i]))
    ensures Resolve(a, fold) == Resolve(b, fold) && CleanText(a, fold) == CleanText(b, fold)
  {
    SameBackslashes(a, b);
  }

  /** A drive is one drive in either case of its letter, and no two drives are taken for one. */
  lemma DriveLetterCase(c: char, e: char, rest: string)
    requires IsLetter(c) && IsLetter(e)
    ensures var p, q := [c, ':', '\\'] + rest, [e, ':', '\\'] + rest;
            SplitVolume(p) == SplitVolume(q) <==> AsciiLower(c) == AsciiLower(e)
  {
    var p, q := [c, ':', '\\'] + rest, [e, ':', '\\'] + rest;
    assert p[3..] == rest && q[3..] == rest;
    assert SplitVolume(p) == Some((Drive(Upper(c), []), rest));
    assert SplitVolume(q) == Some((Drive(Upper(e), []), rest));
  }

  /** Inputs that cleaning changes twice: a server "?" is taken for the extended prefix. */
  lemma UnstableServer(share: string, parts: seq<string>, fold: Fold)
    requires var p := Unc("?", share, parts); Clean(p) && |Render(p)| > 0 && !IsSpace(Render(p)[|Render(p)| - 1])
    requires Folds(fold) && fold('u') == 'u' && fold('n') == 'n' && fold('c') == 'c'
    ensures var p := Unc("?", share, parts);
            CleanText(Extended(p), fold) == Ok(Render(p)) && CleanText(Render(p), fold) != Ok(Render(p))
  {
    var p := Unc("?", share, parts);
    ExtendedUncResolves(p, fold);
    CleaningIsStableIff(Extended(p), fold);
  }

  // ---- containment ----

  function TrimBackslashes(s: string): string {
    if s != "" && s[|s| - 1] == '\\' then TrimBackslashes(s[..|s| - 1]) else s
  }

  /** Within. */
  function Within(root: string, child: string, fold: Fold): Result<bool> {
    var r, c := CleanText(root, fold), CleanText(child, fold);
    if r.Err? then Err(r.message)
    else if c.Err? then Err(c.message)
    else
      var rootFold := Lower(TrimBackslashes(r.value), fold);
      var childFold := Lower(TrimBackslashes(c.value), fold);
      Ok(childFold == rootFold || rootFold + "\\" <= childFold)
  }

  function LowerAll(parts: seq<string>, fold: Fold): (r: seq<string>)
    ensures |r| == |parts|
    ensures forall i :: 0 <= i < |parts| ==> r[i] == Lower(parts[i], fold)
  {
    if parts == [] then [] else [Lower(parts[0], fold)] + LowerAll(parts[1..], fold)
  }

  /** The meaning of containment: the same volume, and the components of the root are the first
      components of the child, all up to letter case. */
  ghost predicate Contains(root: Path, child: Path, fold: Fold) {
    && LowerAll(root.parts, fold) <= LowerAll(child.parts, fold)
    && (root.Drive? <==> child.Drive?)
    && (root.Drive? ==> fold(root.letter) == fold(child.letter))
    && (root.Unc? ==>
          Lower(root.server, fold) == Lower(child.server, fold) && Lower(root.share, fold) == Lower(child.share, fold))
  }

  lemma TrimmedRender(p: Path)
    requires Clean(p)
    ensures TrimBackslashes(Render(p)) == Join(Fields(p), '\\')
  {
    var f := Fields(p);
    var last := f[|f| - 1];
    assert last != "" && '\\' !in last by {
      FieldsAreSepFree(p);
      if p.parts != [] {
        assert last == p.parts[|p.parts| - 1];
      }
    }
    if p.Drive? && p.parts == [] {
      assert Render(p)[..2] == [p.letter, ':'];
    } else if |f| > 1 {
      JoinAppend(f[..|f| - 1], [last], '\\');
      assert f == f[..|f| - 1] + [last];
      assert Render(p)[|Render(p)| - 1] == last[|last| - 1];
    }
  }

  lemma LowerAppend(a: string, b: string, fold: Fold)
    ensures Lower(a + b, fold) == Lower(a, fold) + Lower(b, fold)
  {
  }

  lemma {:induction false} LowerJoin(parts: seq<string>, fold: Fold)
    requires Folds(fold)
    ensures Lower(Join(parts, '\\'), fold) == Join(LowerAll(parts, fold), '\\')
  {
    if |parts| > 1 {
      LowerJoin(parts[1..], fold);
      LowerAppend(parts[0], "\\", fold);
      LowerAppend(parts[0] + "\\", Join(parts[1..], '\\'), fold);
      assert LowerAll(parts, fold)[1..] == LowerAll(parts[1..], fold);
    }
  }

  lemma JoinedPrefix(a: seq<string>, b: seq<string>)
    requires a != [] && a <= b
    ensures Join(b, '\\') == Join(a, '\\') || Join(a, '\\') + "\\" <= Join(b, '\\')
  {
    if a != b {
      var c := b[|a|..];
      assert b == a + c;
      JoinAppend(a, c, '\\');
      assert Join(b, '\\') == (Join(a, '\\') + "\\") + Join(c, '\\');
    }
  }

  lemma PrefixIsListPrefix(a: seq<string>, b: seq<string>)
    requires a != [] && b != []
    requires forall i :: 0 <= i < |a| ==> '\\' !in a[i]
    requires forall i :: 0 <= i < |b| ==> '\\' !in b[i]
    requires Join(a, '\\') + "\\" <= Join(b, '\\')
    ensures a <= b
  {
    var rest := Join(b, '\\')[|Join(a, '\\')| + 1..];
    assert Join(b, '\\') == Join(a, '\\') + ['\\'] + rest;
    SplitAfterJoin(a, rest);
    SplitJoin(b, '\\');
  }

  /** On lists of separator-free fields, the string-prefix test on the joined texts is the list
      prefix. */
  lemma PrefixOfJoin(a: seq<string>, b: seq<string>)
    requires a != [] && b != []
    requires forall i :: 0 <= i < |a| ==> '\\' !in a[i]
    requires forall i :: 0 <= i < |b| ==> '\\' !in b[i]
    ensures Join(b, '\\') == Join(a, '\\') || Join(a, '\\') + "\\" <= Join(b, '\\') <==> a <= b
  {
    if Join(a, '\\') == Join(b, '\\') {
      SplitJoin(a, '\\');
      SplitJoin(b, '\\');
    } else if Join(a, '\\') + "\\" <= Join(b, '\\') {
      PrefixIsListPrefix(a, b);
    }
    if a <= b {
      JoinedPrefix(a, b);
    }
  }

  lemma {:induction false} SplitAfterJoin(a: seq<string>, rest: string)
    requires a != [] && forall i :: 0 <= i < |a| ==> '\\' !in a[i]
    ensures Split(Join(a, '\\') + ['\\'] + rest, '\\') == a + Split(rest, '\\')
  {
    if |a| == 1 {
      SplitPrefix(a[0], rest, '\\');
    } else {
      var tail := Join(a[1..], '\\') + ['\\'] + rest;
      calc {
        Split(Join(a, '\\') + ['\\'] + rest, '\\');
      ==  { JoinThen(a, rest); }
        Split(a[0] + ['\\'] + tail, '\\');
      ==  { SplitPrefix(a[0], tail, '\\'); }
        [a[0]] + Split(tail, '\\');
      ==  { SplitAfterJoin(a[1..], rest); }
        [a[0]] + (a[1..] + Split(rest, '\\'));
      ==  { HeadAndTail(a, Split(rest, '\\')); }
        a + Split(rest, '\\');
      }
    }
  }

  lemma HeadAndTail(a: seq<string>, b: seq<string>)
    requires a != []
    ensures [a[0]] + (a[1..] + b) == a + b
  {
  }

  lemma JoinThen(a: seq<string>, rest: string)
    requires |a| > 1
    ensures Join(a, '\\') + ['\\'] + rest == a[0] + ['\\'] + (Join(a[1..], '\\') + ['\\'] + rest)
  {
  }

  lemma LowerAllAppend(a: seq<string>, b: seq<string>, fold: Fold)
    ensures LowerAll(a + b, fold) == LowerAll(a, fold) + LowerAll(b, fold)
  {
  }

  /** The fields of the root are the first fields of the child, up to case, exactly when the root
      contains the child: the volume always takes the same number of fields. */
  lemma FieldsPrefix(r: Path, c: Path, fold: Fold)
    ensures LowerAll(Fields(r), fold) <= LowerAll(Fields(c), fold) <==> Contains(r, c, fold)
  {
    var fr, fc := LowerAll(Fields(r), fold), LowerAll(Fields(c), fold);
    var nr, nc := |Fields(r)| - |r.parts|, |Fields(c)| - |c.parts|;
    assert fr[0] == Lower(Fields(r)[0], fold) && fc[0] == Lower(Fields(c)[0], fold);
    assert r.Drive? ==> |fr[0]| == 2;
    assert c.Drive? ==> |fc[0]| == 2;
    if r.Drive? != c.Drive? {
      assert fr[0] != fc[0];
    } else {
      LowerAllAppend(Fields(r)[..nr], r.parts, fold);
      LowerAllAppend(Fields(c)[..nc], c.parts, fold);
      assert Fields(r) == Fields(r)[..nr] + r.parts && Fields(c) == Fields(c)[..nc] + c.parts;
      VolumePrefix(r, c, fold);
      PrefixInTwo(LowerAll(Fields(r)[..nr], fold), LowerAll(r.parts, fold),
                  LowerAll(Fields(c)[..nc], fold), LowerAll(c.parts, fold));
    }
  }

  lemma PrefixInTwo(v: seq<string>, p: seq<string>, w: seq<string>, q: seq<string>)
    requires |v| == |w|
    ensures v + p <= w + q <==> v == w && p <= q
  {
    if v + p <= w + q {
      assert v == (v + p)[..|v|] == (w + q)[..|v|] == w;
      assert p == (v + p)[|v|..] && q == (w + q)[|v|..];
    }
  }

  lemma VolumePrefix(r: Path, c: Path, fold: Fold)
    requires r.Drive? <==> c.Drive?
    ensures LowerAll(Fields(r)[..|Fields(r)| - |r.parts|], fold)
            == LowerAll(Fields(c)[..|Fields(c)| - |c.parts|], fold) <==>
            (r.Drive? ==> fold(r.letter) == fold(c.letter)) &&
            (r.Unc? ==> Lower(r.server, fold) == Lower(c.server, fold) && Lower(r.share, fold) == Lower(c.share, fold))
  {
    var a, b := Fields(r)[..|Fields(r)| - |r.parts|], Fields(c)[..|Fields(c)| - |c.parts|];
    var la, lb := LowerAll(a, fold), LowerAll(b, fold);
    if r.Drive? {
      assert a == [[r.letter, ':']] && b == [[c.letter, ':']];
      assert la[0][0] == fold(r.letter) && lb[0][0] == fold(c.letter);
      assert fold(r.letter) == fold(c.letter) ==> la[0] == lb[0];
    } else {
      assert a == ["", "", r.server, r.share] && b == ["", "", c.server, c.share];
      assert la[2] == Lower(r.server, fold) && lb[2] == Lower(c.server, fold);
      assert la[3] == Lower(r.share, fold) && lb[3] == Lower(c.share, fold);
      assert la[0] == lb[0] == "" && la[1] == lb[1] == "";
    }
  }

  /** The string-prefix test of Within means containment of components. */
  lemma WithinMeans(root: string, child: string, fold: Fold)
    requires Folds(fold) && Resolve(root, fold).Ok? && Resolve(child, fold).Ok?
    ensures Within(root, child, fold) == Ok(Contains(Resolve(root, fold).value, Resolve(child, fold).value, fold))
  {
    var r, c := Resolve(root, fold).value, Resolve(child, fold).value;
    ResolveIsClean(root, fold);
    ResolveIsClean(child, fold);
    TrimmedRender(r);
    TrimmedRender(c);
    LowerJoin(Fields(r), fold);
    LowerJoin(Fields(c), fold);
    LoweredFieldsAreSepFree(r, fold);
    LoweredFieldsAreSepFree(c, fold);
    PrefixOfJoin(LowerAll(Fields(r), fold), LowerAll(Fields(c), fold));
    FieldsPrefix(r, c, fold);
  }

  lemma LoweredFieldsAreSepFree(p: Path, fold: Fold)
    requires Clean(p) && Folds(fold)
    ensures forall i :: 0 <= i < |LowerAll(Fields(p), fold)| ==> '\\' !in LowerAll(Fields(p), fold)[i]
  {
    FieldsAreSepFree(p);
    forall i | 0 <= i < |Fields(p)|
      ensures '\\' !in Lower(Fields(p)[i], fold)
    {
      assert '\\' !in Fields(p)[i];
    }
  }

  /** Containment is an order: reflexive, transitive, and antisymmetric up to letter case. */
  lemma WithinIsAnOrder(a: string, b: string, c: string, fold: Fold)
    requires Folds(fold) && Resolve(a, fold).Ok? && Resolve(b, fold).Ok? && Resolve(c, fold).Ok?
    ensures Within(a, a, fold) == Ok(true)
    ensures Within(a, b, fold) == Ok(true) && Within(b, c, fold) == Ok(true) ==> Within(a, c, fold) == Ok(true)
    ensures Within(a, b, fold) == Ok(true) && Within(b, a, fold) == Ok(true) ==>
              Lower(TrimBackslashes(CleanText(a, fold).value), fold)
              == Lower(TrimBackslashes(CleanText(b, fold).value), fold)
  {
    WithinMeans(a, a, fold);
    WithinMeans(a, b, fold);
    WithinMeans(b, c, fold);
    WithinMeans(a, c, fold);
    WithinMeans(b, a, fold);
  }

  // ---- the product destination ----

  const PRODUCT := "LotCraft"

  function ProductDestination(root: string, fold: Fold): Result<string> {
    match CleanText(root, fold)
    case Ok(clean) => Ok(TrimBackslashes(clean) + "\\" + PRODUCT)
    case Err(m) => Err(m)
  }

  /** The path one component below. */
  function Below(p: Path): Path {
    match p
    case Drive(letter, parts) => Drive(letter, parts + [PRODUCT])
    case Unc(server, share, parts) => Unc(server, share, parts + [PRODUCT])
  }

  lemma BelowIsClean(p: Path)
    requires Clean(p)
    ensures Clean(Below(p))
  {
    forall i | 0 <= i < |Below(p).parts|
      ensures Ordinary(Below(p).parts[i])
    {
      assert i < |p.parts| ==> Below(p).parts[i] == p.parts[i];
    }
  }

  lemma DestinationText(p: Path)
    requires Clean(p)
    ensures Clean(Below(p))
    ensures TrimBackslashes(Render(p)) + "\\" + PRODUCT == Render(Below(p))
    ensures var d := Render(Below(p)); |d| > 0 && !IsSpace(d[|d| - 1])
  {
    BelowIsClean(p);
    TrimmedRender(p);
    var f := Fields(p);
    assert Fields(Below(p)) == f + [PRODUCT];
    JoinAppend(f, [PRODUCT], '\\');
    EndsInName(Join(f, '\\') + ['\\']);
  }

  lemma EndsInName(s: string)
    ensures var d := s + PRODUCT; |d| > 0 && !IsSpace(d[|d| - 1])
  {
    var d := s + PRODUCT;
    assert d[|d| - 1] == PRODUCT[|PRODUCT| - 1] == 't';
  }

  /** The product directory is inside the Experts root, and one component below it, for every root
      except one on the server "?". */
  lemma DestinationIsWithinIff(root: string, fold: Fold)
    requires Folds(fold) && Resolve(root, fold).Ok?
    ensures var p, d := Resolve(root, fold).value, ProductDestination(root, fold).value;
            && (Within(root, d, fold) == Ok(true) <==> !(p.Unc? && p.server == "?"))
            && (!(p.Unc? && p.server == "?") ==> Resolve(d, fold) == Ok(Below(p)))
  {
    var p := Resolve(root, fold).value;
    ResolveIsClean(root, fold);
    DestinationText(p);
    var q := Below(p);
    CleanAgain(q, fold);
    if Resolve(Render(q), fold).Ok? {
      WithinMeans(root, Render(q), fold);
    }
    if Stable(q) {
      ContainsBelow(p, fold);
    } else if Resolve(Render(q), fold).Ok? {
      assert q == Unc("?", p.share, p.parts + [PRODUCT]);
      StrippedIsElsewhere(p.share, p.parts + [PRODUCT], fold);
    }
  }

  lemma ContainsBelow(p: Path, fold: Fold)
    ensures Contains(p, Below(p), fold)
  {
    LowerAllAppend(p.parts, [PRODUCT], fold);
  }

  lemma UncText(server: string, share: string, parts: seq<string>)
    requires parts != []
    ensures Render(Unc(server, share, parts)) ==
            ['\\', '\\'] + (server + ['\\'] + (share + ['\\'] + Join(parts, '\\')))
  {
    RenderUnc(server, share, parts);
    JoinAppend([server], [share] + parts, '\\');
    JoinAppend([share], parts, '\\');
    assert [server, share] + parts == [server] + ([share] + parts);
  }

  /** A text that reads as "unc" and a backslash has a first field of three characters. */
  lemma ShareIsThree(share: string, rest: string, fold: Fold)
    requires Folds(fold) && Plain(share)
    requires var tail := share + ['\\'] + rest;
             |tail| >= 4 && fold(tail[0]) != '\\' && fold(tail[1]) != '\\' && fold(tail[2]) != '\\'
             && fold(tail[3]) == '\\'
    ensures (share + ['\\'] + rest)[4..] == rest
  {
    var tail := share + ['\\'] + rest;
    assert tail[|share|] == '\\';
    assert forall i :: 0 <= i < |share| ==> tail[i] == share[i] && tail[i] != '\\';
    assert |share| == 3;
  }

  /** What is left of the text of a path on the server "?". */
  lemma StrippedText(share: string, parts: seq<string>, fold: Fold)
    requires parts != [] && Clean(Unc("?", share, parts)) && Folds(fold)
    requires var d := Render(Unc("?", share, parts)); |d| > 0 && !IsSpace(d[|d| - 1])
    ensures var t := Trimmed(Render(Unc("?", share, parts)), fold);
            t == ['\\', '\\'] + Join(parts, '\\') || t == share + ['\\'] + Join(parts, '\\')
  {
    var d, rest := Render(Unc("?", share, parts)), Join(parts, '\\');
    RenderIsPlain(Unc("?", share, parts));
    TrimSpaceIdentity(d);
    UncText("?", share, parts);
    StripsTo(d, share, rest, fold);
  }

  lemma StripsTo(d: string, share: string, rest: string, fold: Fold)
    requires d == ['\\', '\\'] + (['?'] + ['\\'] + (share + ['\\'] + rest)) && Plain(share) && Folds(fold)
    ensures Strip(d, fold) == ['\\', '\\'] + rest || Strip(d, fold) == share + ['\\'] + rest
  {
    var tail := share + ['\\'] + rest;
    assert d[4..] == tail;
    var l := Lower(d, fold);
    if IsExtendedUnc(l) {
      assert tail[0] == d[4] && tail[1] == d[5] && tail[2] == d[6] && tail[3] == d[7];
      ShareIsThree(share, rest, fold);
      assert d[8..] == tail[4..];
    }
  }

  /** Taken for an extended prefix, the server "?" leads somewhere with fewer components, or to a
      drive. */
  lemma StrippedIsElsewhere(share: string, parts: seq<string>, fold: Fold)
    requires parts != [] && Clean(Unc("?", share, parts)) && Folds(fold)
    requires var d := Render(Unc("?", share, parts)); |d| > 0 && !IsSpace(d[|d| - 1])
    requires Resolve(Render(Unc("?", share, parts)), fold).Ok?
    ensures var e := Resolve(Render(Unc("?", share, parts)), fold).value; e.Drive? || |e.parts| + 2 <= |parts|
  {
    var t := Trimmed(Render(Unc("?", share, parts)), fold);
    StrippedText(share, parts, fold);
    if t == ['\\', '\\'] + Join(parts, '\\') {
      NetworkText(t, parts);
    } else {
      assert t[0] == share[0] && t[0] != '\\';
    }
  }

  /** Of components that read as a network path the first two are its volume. */
  lemma NetworkText(t: string, parts: seq<string>)
    requires parts != [] && (forall i :: 0 <= i < |parts| ==> Ordinary(parts[i]))
    requires t == ['\\', '\\'] + Join(parts, '\\') && SplitVolume(t).Some?
    ensures |parts| >= 2 && Walk(Split(SplitVolume(t).value.1, '\\')) == Some(parts[2..])
  {
    assert t[2..] == Join(parts, '\\') && !IsLetter(t[0]);
    SplitJoin(parts, '\\');
    FewerParts(parts, SplitVolume(t).value.1);
  }

  lemma FewerParts(fields: seq<string>, rest: string)
    requires |fields| >= 2 && rest == Join(fields[2..], '\\') && forall i :: 0 <= i < |fields| ==> Ordinary(fields[i])
    ensures Walk(Split(rest, '\\')) == Some(fields[2..])
  {
    RestWalks(fields[2..]);
  }
}
