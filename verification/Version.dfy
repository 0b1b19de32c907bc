/** Stable semantic versions: major.minor.patch, with no pre-release and no build metadata
    (Semantic Versioning 2.0.0, items 2 and 11). */
module Version {
  import opened Wrappers
  import opened Strings

  datatype Version = Version(major: int, minor: int, patch: int)

  // The largest Go int of the 64-bit build.
  const MAX_INT: int := 0x7fff_ffff_ffff_ffff

  predicate InRange(v: Version) {
    0 <= v.major <= MAX_INT && 0 <= v.minor <= MAX_INT && 0 <= v.patch <= MAX_INT
  }

  predicate IsDigit(c: char) { '0' <= c <= '9' }

  predicate AllDigits(s: string) { forall i :: 0 <= i < |s| ==> IsDigit(s[i]) }

  function Value(s: string): (n: nat)
    requires AllDigits(s)
  {
    if s == "" then 0 else 10 * Value(s[..|s| - 1]) + (s[|s| - 1] - '0') as int
  }

  /** strconv.Atoi, for text without a sign. */
  function Atoi(s: string): Option<int> {
    if s != "" && AllDigits(s) && Value(s) <= MAX_INT then Some(Value(s)) else None
  }

  /** One component of a version: no leading zero, in range. */
  function Component(part: string): Option<int> {
    if part == "" || (|part| > 1 && part[0] == '0') then None else Atoi(part)
  }

  function Parse(raw: string): Result<Version> {
    if raw == "" || TrimSpace(raw) != raw || '+' in raw || '-' in raw then
      Err("not a stable semantic version")
    else
      var parts := Split(raw, '.');
      if |parts| != 3 then Err("must contain major.minor.patch")
      else
        var a, b, c := Component(parts[0]), Component(parts[1]), Component(parts[2]);
        if a.None? || b.None? || c.None? then Err("version component is invalid")
        else Ok(Version(a.value, b.value, c.value))
  }

  /** ParseVersion: the loop fills the three values in order and stops at the first bad component. */
  method ParseVersion(raw: string) returns (r: Result<Version>)
    ensures r == Parse(raw)
  {
    if raw == "" || TrimSpace(raw) != raw || '+' in raw || '-' in raw {
      return Err("not a stable semantic version");
    }
    var parts := Split(raw, '.');
    if |parts| != 3 {
      return Err("must contain major.minor.patch");
    }
    var values := new int[3](_ => 0);
    for index := 0 to 3
      invariant forall k :: 0 <= k < index ==> Component(parts[k]) == Some(values[k])
    {
      var value := Component(parts[index]);
      if value.None? {
        return Err("version component is invalid");
      }
      values[index] := value.value;
    }
    r := Ok(Version(values[0], values[1], values[2]));
  }

  function Compare(v: Version, w: Version): int {
    if v.major < w.major then -1 else if v.major > w.major then 1
    else if v.minor < w.minor then -1 else if v.minor > w.minor then 1
    else if v.patch < w.patch then -1 else if v.patch > w.patch then 1
    else 0
  }

  // How many values one component can take.
  const BASE: int := MAX_INT + 1

  /** The rank of a version among all versions: its components are the digits of a number, the major version first. */
  function Weight(v: Version): int { (v.major * BASE + v.minor) * BASE + v.patch }

  function Sign(d: int): int { if d < 0 then -1 else if d > 0 then 1 else 0 }

  /** A greater leading part outweighs any last digit. */
  lemma LeadingDecides(high: int, high': int, low: int, low': int)
    requires 0 <= low < BASE && 0 <= low' < BASE
    ensures high < high' ==> high * BASE + low < high' * BASE + low'
    ensures high > high' ==> high * BASE + low > high' * BASE + low'
  {
    if high < high' {
      assert (high' - high) * BASE >= BASE;
    }
    if high > high' {
      assert (high - high') * BASE >= BASE;
    }
  }

  /** The comparison is by rank: the major version decides before the minor version, and that before the patch. */
  lemma CompareIsWeight(v: Version, w: Version)
    requires InRange(v) && InRange(w)
    ensures Compare(v, w) == Sign(Weight(v) - Weight(w))
  {
    var high, high' := v.major * BASE + v.minor, w.major * BASE + w.minor;
    LeadingDecides(v.major, w.major, v.minor, w.minor);
    LeadingDecides(high, high', v.patch, w.patch);
    if v.major == w.major && v.minor == w.minor {
      assert high == high' && high * BASE == high' * BASE;
    }
  }

  /** Version.Compare: the first component that differs decides. */
  method CompareVersions(v: Version, w: Version) returns (order: int)
    requires InRange(v) && InRange(w)
    ensures order == Sign(Weight(v) - Weight(w))
  {
    CompareIsWeight(v, w);
    order := FirstDifference(v, w);
  }

  method FirstDifference(v: Version, w: Version) returns (order: int)
    ensures order == Compare(v, w)
  {
    var left := new int[3](k => if k == 0 then v.major else if k == 1 then v.minor else v.patch);
    var right := new int[3](k => if k == 0 then w.major else if k == 1 then w.minor else w.patch);
    for index := 0 to 3
      invariant forall k :: 0 <= k < index ==> left[k] == right[k]
    {
      assert (index > 0 ==> left[0] == right[0]) && (index > 1 ==> left[1] == right[1]);
      if left[index] < right[index] {
        return -1;
      }
      if left[index] > right[index] {
        return 1;
      }
    }
    assert left[0] == right[0] && left[1] == right[1] && left[2] == right[2];
    order := 0;
  }

  /** What precedence promises: a greater major version comes later whatever the rest, at equal major versions a
      greater minor version whatever the patch, and at equal major and minor versions a greater patch. */
  lemma BumpsComeLater(v: Version, w: Version)
    requires InRange(v) && InRange(w)
    ensures v.major < w.major ==> Weight(v) < Weight(w)
    ensures v.major == w.major && v.minor < w.minor ==> Weight(v) < Weight(w)
    ensures v.major == w.major && v.minor == w.minor && v.patch < w.patch ==> Weight(v) < Weight(w)
    ensures Weight(v) == Weight(w) ==> v == w
  {
    CompareIsWeight(v, w);
  }

  // ---- printing, the partner of parsing ----

  function Digits(n: nat): (s: string)
    ensures s != "" && AllDigits(s)
  {
    var last := ['0' + (n % 10) as char];
    if n < 10 then last else Digits(n / 10) + last
  }

  function Print(v: Version): string
    requires InRange(v)
  {
    Digits(v.major) + "." + Digits(v.minor) + "." + Digits(v.patch)
  }

  lemma {:induction false} ValueOfDigits(n: nat)
    ensures Value(Digits(n)) == n
    ensures n > 0 ==> Digits(n)[0] != '0'
    ensures n < 10 ==> |Digits(n)| == 1
  {
    if n >= 10 {
      ValueOfDigits(n / 10);
      var s := Digits(n);
      assert s[..|s| - 1] == Digits(n / 10);
    }
  }

  lemma {:induction false} DigitsOfValue(s: string)
    requires s != "" && AllDigits(s) && (|s| > 1 ==> s[0] != '0')
    ensures Digits(Value(s)) == s
    ensures s[0] != '0' ==> Value(s) > 0
  {
    var init, last := s[..|s| - 1], (s[|s| - 1] - '0') as int;
    if init == "" {
      assert Value(s) == last;
      assert s == [s[0]];
    } else {
      DigitsOfValue(init);
      assert Value(s) == 10 * Value(init) + last;
      assert Value(s) / 10 == Value(init) && Value(s) % 10 == last;
      assert s == init + [s[|s| - 1]];
    }
  }

  lemma ComponentRoundTrip(part: string, n: int)
    ensures Component(part) == Some(n) <==> 0 <= n <= MAX_INT && part == Digits(n)
  {
    if Component(part) == Some(n) {
      DigitsOfValue(part);
    }
    if 0 <= n <= MAX_INT && part == Digits(n) {
      ValueOfDigits(n);
    }
  }

  lemma DigitsArePlain(s: string)
    requires s != "" && AllDigits(s)
    ensures '.' !in s && '+' !in s && '-' !in s && !IsSpace(s[0]) && !IsSpace(s[|s| - 1])
  {
  }

  lemma PrintSplits(a: string, b: string, c: string)
    requires a != "" && AllDigits(a) && b != "" && AllDigits(b) && c != "" && AllDigits(c)
    ensures var text := a + "." + b + "." + c;
            Split(text, '.') == [a, b, c] && text != "" && TrimSpace(text) == text && '+' !in text && '-' !in text
  {
    DigitsArePlain(a);
    DigitsArePlain(b);
    DigitsArePlain(c);
    var text := a + "." + b + "." + c;
    assert text == a + ['.'] + (b + ['.'] + c);
    SplitPrefix(a, b + ['.'] + c, '.');
    SplitPrefix(b, c, '.');
    SplitWhole(c, '.');
    assert text[0] == a[0] && text[|text| - 1] == c[|c| - 1];
    TrimSpaceIdentity(text);
  }

  /** Parsing inverts printing. */
  lemma ParseOfPrint(v: Version)
    requires InRange(v)
    ensures Parse(Print(v)) == Ok(v)
  {
    PrintSplits(Digits(v.major), Digits(v.minor), Digits(v.patch));
    ComponentRoundTrip(Digits(v.major), v.major);
    ComponentRoundTrip(Digits(v.minor), v.minor);
    ComponentRoundTrip(Digits(v.patch), v.patch);
  }

  lemma JoinThree(parts: seq<string>)
    requires |parts| == 3
    ensures Join(parts, '.') == parts[0] + "." + parts[1] + "." + parts[2]
  {
    var tail := parts[1..];
    assert Join(tail[1..], '.') == parts[2];
    assert Join(tail, '.') == parts[1] + ['.'] + parts[2];
  }

  /** Printing inverts parsing, on every accepted text. */
  lemma PrintOfParse(raw: string)
    requires Parse(raw).Ok?
    ensures InRange(Parse(raw).value) && Print(Parse(raw).value) == raw
  {
    var parts, v := Split(raw, '.'), Parse(raw).value;
    ComponentRoundTrip(parts[0], v.major);
    ComponentRoundTrip(parts[1], v.minor);
    ComponentRoundTrip(parts[2], v.patch);
    JoinSplit(raw, '.');
    JoinThree(parts);
  }

  // ---- the order of versions ----

  /** The order on accepted version texts. */
  predicate AtMost(raw: string, other: string) {
    Parse(raw).Ok? && Parse(other).Ok? && Weight(Parse(raw).value) <= Weight(Parse(other).value)
  }

  lemma AtMostIsCompare(a: string, b: string)
    requires Parse(a).Ok? && Parse(b).Ok?
    ensures AtMost(a, b) <==> Compare(Parse(a).value, Parse(b).value) <= 0
  {
    PrintOfParse(a);
    PrintOfParse(b);
    CompareIsWeight(Parse(a).value, Parse(b).value);
  }

  /** The rank orders accepted texts totally, and two of them have the same rank exactly when they are the same text;
      reversing the arguments of the comparison reverses its answer. */
  lemma CompareIsTotalOrder(a: string, b: string, c: string)
    requires Parse(a).Ok? && Parse(b).Ok? && Parse(c).Ok?
    ensures AtMost(a, b) || AtMost(b, a)
    ensures AtMost(a, b) && AtMost(b, c) ==> AtMost(a, c)
    ensures AtMost(a, b) && AtMost(b, a) <==> a == b
    ensures Compare(Parse(a).value, Parse(b).value) == 0 <==> a == b
    ensures Compare(Parse(b).value, Parse(a).value) == -Compare(Parse(a).value, Parse(b).value)
  {
    PrintOfParse(a);
    PrintOfParse(b);
    BumpsComeLater(Parse(a).value, Parse(b).value);
    AtMostIsCompare(a, b);
    AtMostIsCompare(b, a);
  }
}
