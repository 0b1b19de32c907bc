/** What the installer, the uninstaller and the delayed cleanup helper do in the product directory
    while they hold the installation lock. */
module Installer {
  import opened Wrappers
  import opened Directory
  import opened Transaction
  import Version

  const PRODUCT := "LotCraft"
  const SCHEMA := 2
  const LEGACY_VERSION := "1.0.0"
  const MISSING_HASH: Digest := ""

  // ---- the owned-file inventory of a manifest ----

  predicate Exact(owned: seq<Name>, expected: set<Name>) {
    && |owned| == |expected|
    && (forall i :: 0 <= i < |owned| ==> owned[i] in expected)
    && (forall i, j :: 0 <= i < j < |owned| ==> owned[i] != owned[j])
  }

  method CheckInventory(owned: seq<Name>, expected: set<Name>) returns (ok: bool)
    ensures ok <==> Exact(owned, expected)
  {
    if |owned| != |expected| {
      return false;
    }
    var seen: set<Name> := {};
    for k := 0 to |owned|
      invariant forall i :: 0 <= i < k ==> owned[i] in expected && owned[i] in seen
      invariant forall n :: n in seen ==> exists i :: 0 <= i < k && owned[i] == n
      invariant forall i, j :: 0 <= i < j < k ==> owned[i] != owned[j]
    {
      if owned[k] !in expected || owned[k] in seen {
        return false;
      }
      seen := seen + {owned[k]};
    }
    ok := true;
  }

  lemma {:induction false} DistinctCounts(owned: seq<Name>)
    requires forall i, j :: 0 <= i < j < |owned| ==> owned[i] != owned[j]
    ensures |set n | n in owned| == |owned|
  {
    if owned != [] {
      var init, last := owned[..|owned| - 1], owned[|owned| - 1];
      DistinctCounts(init);
      assert (set n | n in owned) == (set n | n in init) + {last};
    }
  }

  /** Same length, no stranger and no repetition make a list of exactly the expected names. */
  lemma ExactListsAll(owned: seq<Name>, expected: set<Name>)
    requires Exact(owned, expected)
    ensures forall n :: n in expected <==> n in owned
  {
    DistinctCounts(owned);
    var names := set n | n in owned;
    assert names <= expected;
    if names != expected {
      assert |expected - names| == |expected| - |names|;
    }
  }

  // ---- what a directory must look like ----

  type Hash = Content -> Digest

  /** A file that is present has the recorded hash. */
  predicate HashRight(d: Dir, n: Name, expected: Digest, hash: Hash) {
    n in d ==> expected != MISSING_HASH && hash(d[n]) == expected
  }

  /** validateExistingInstallOwnership: an installer of this version may write here. */
  predicate Owns(d: Dir, site: Site, version: string, hash: Hash) {
    d.Keys !! OWNED ||
    (Manifest in d && d[Manifest].Record? && ManifestOwns(d, d[Manifest].manifest, site, version, hash))
  }

  predicate ManifestOwns(d: Dir, m: InstallManifest, site: Site, version: string, hash: Hash) {
    ManifestFits(d, m, site, version) && FilesMatch(d, m, hash)
  }

  /** The manifest describes this directory, and nothing newer than this installer. */
  predicate ManifestFits(d: Dir, m: InstallManifest, site: Site, version: string) {
    && m.product == PRODUCT
    && Version.AtMost(m.version, version)
    && m.site == site
    && (if m.schema == SCHEMA then Exact(m.owned, OWNED)
        else m.schema in {0, 1} && m.version == LEGACY_VERSION && Updater !in d && Exact(m.owned, OWNED - {Updater}))
  }

  /** Every recorded file that is present has its recorded hash. */
  predicate FilesMatch(d: Dir, m: InstallManifest, hash: Hash) {
    && HashRight(d, Ex5, m.ex5Hash, hash)
    && HashRight(d, Uninstaller, m.installerHash, hash)
    && (m.schema == SCHEMA ==> m.updaterHash != MISSING_HASH && HashRight(d, Updater, m.updaterHash, hash))
  }

  /** The checks of the uninstaller before it deletes anything. */
  predicate Preflight(d: Dir, site: Site, version: string, hash: Hash) {
    Manifest in d && d[Manifest].Record? &&
    var m := d[Manifest].manifest;
    && m.product == PRODUCT && m.version == version && m.schema == SCHEMA
    && Exact(m.owned, OWNED)
    && m.site == site
    && HashRight(d, Ex5, m.ex5Hash, hash)
    && HashRight(d, Uninstaller, m.installerHash, hash)
    && HashRight(d, Updater, m.updaterHash, hash)
  }

  /** readVerifiedUpdaterInstall: a complete installation, every file present with its hash. */
  predicate Verified(d: Dir, site: Site, m: InstallManifest, hash: Hash) {
    && Manifest in d && d[Manifest] == Record(m)
    && m.schema == SCHEMA && m.product == PRODUCT && Version.Parse(m.version).Ok?
    && m.updaterHash != MISSING_HASH && m.installerHash != MISSING_HASH && m.ex5Hash != MISSING_HASH
    && Exact(m.owned, OWNED)
    && m.site == site
    && Ex5 in d && hash(d[Ex5]) == m.ex5Hash
    && Updater in d && hash(d[Updater]) == m.updaterHash
    && Uninstaller in d && hash(d[Uninstaller]) == m.installerHash
  }

  /** The names of unsafe files: not regular, or reparse points. */
  type Unsafe = set<Name>

  /** No owned file that is present is unsafe. */
  predicate Safe(d: Dir, unsafe: Unsafe) {
    forall n :: n in OWNED && n in d ==> n !in unsafe
  }

  // ---- checks, run on a disk ----

  method VerifyHashIfPresent(disk: Disk, unsafe: Unsafe, n: Name, expected: Digest) returns (ok: bool)
    modifies disk`clock, disk`hitches
    ensures disk.hitches >= old(disk.hitches)
    ensures ok ==> disk.hitches == old(disk.hitches)
    ensures ok ==> HashRight(disk.files, n, expected, disk.hash) && (n in disk.files ==> n !in unsafe)
    ensures !ok ==> disk.hitches > old(disk.hitches) || (n in disk.files && n in unsafe)
                    || !HashRight(disk.files, n, expected, disk.hash)
  {
    var there := disk.Lstat(n);
    if there != Present {
      return there == Absent;
    }
    var regular := disk.Probe();
    if !regular || n in unsafe {
      return false;
    }
    var actual := disk.Hash(n);
    ok := actual.Some? && expected != MISSING_HASH && actual.value == expected;
  }

  method VerifyRequiredHash(disk: Disk, unsafe: Unsafe, n: Name, expected: Digest) returns (ok: bool)
    modifies disk`clock, disk`hitches
    ensures disk.hitches >= old(disk.hitches)
    ensures ok ==> disk.hitches == old(disk.hitches)
    ensures ok ==> expected != MISSING_HASH && n in disk.files && disk.hash(disk.files[n]) == expected && n !in unsafe
    ensures !ok ==> disk.hitches > old(disk.hitches) || n in unsafe || n !in disk.files
                    || !HashRight(disk.files, n, expected, disk.hash)
  {
    if expected == MISSING_HASH {
      return false;
    }
    var regular := disk.Probe();
    if !regular || n in unsafe {
      return false;
    }
    var actual := disk.Hash(n);
    ok := actual.Some? && actual.value == expected;
  }

  /** Reading and parsing the manifest. */
  method ReadManifest(disk: Disk) returns (m: Option<InstallManifest>)
    modifies disk`clock, disk`hitches
    ensures disk.hitches >= old(disk.hitches)
    ensures m.Some? ==> disk.hitches == old(disk.hitches)
    ensures m.Some? ==> Manifest in disk.files && disk.files[Manifest] == Record(m.value)
    ensures m.None? ==> disk.hitches > old(disk.hitches) || Manifest !in disk.files || !disk.files[Manifest].Record?
  {
    var raw := disk.Read(Manifest);
    m := if raw.Some? && raw.value.Record? then Some(raw.value.manifest) else None;
  }

  /** Which of the four owned names exist; None when one of them cannot be inspected. */
  method AnyOwnedPresent(disk: Disk) returns (any: Option<bool>)
    modifies disk`clock, disk`hitches
    ensures disk.hitches >= old(disk.hitches)
    ensures any.Some? ==> disk.hitches == old(disk.hitches)
    ensures any.Some? ==> (any.value <==> !(disk.files.Keys !! OWNED))
    ensures any.None? ==> disk.hitches > old(disk.hitches)
  {
    var finals := [Ex5, Updater, Uninstaller, Manifest];
    var found := false;
    for i := 0 to 4
      invariant disk.hitches == old(disk.hitches)
      invariant found <==> exists k :: 0 <= k < i && finals[k] in disk.files
    {
      var there := disk.Lstat(finals[i]);
      if there == Unknown {
        return None;
      }
      found := found || there == Present;
    }
    if found {
      var k :| 0 <= k < 4 && finals[k] in disk.files;
      assert finals[k] in disk.files.Keys * OWNED;
    } else {
      forall n | n in disk.files.Keys
        ensures n !in OWNED
      {
        assert finals[0] !in disk.files && finals[1] !in disk.files && finals[2] !in disk.files
               && finals[3] !in disk.files;
      }
    }
    any := Some(found);
  }

  /** The recorded version is not newer than this installer. */
  method CheckNotNewer(recorded: string, version: string) returns (ok: bool)
    ensures ok <==> Version.AtMost(recorded, version)
  {
    var existing := Version.ParseVersion(recorded);
    if existing.Err? {
      return false;
    }
    var installing := Version.ParseVersion(version);
    if installing.Err? {
      return false;
    }
    Version.PrintOfParse(recorded);
    Version.PrintOfParse(version);
    var order := Version.CompareVersions(existing.value, installing.value);
    ok := order <= 0;
  }

  method CheckManifestFits(disk: Disk, m: InstallManifest, site: Site, version: string) returns (ok: bool)
    modifies disk`clock, disk`hitches
    ensures disk.hitches >= old(disk.hitches)
    ensures ok ==> disk.hitches == old(disk.hitches)
    ensures ok ==> ManifestFits(disk.files, m, site, version)
    ensures !ok ==> disk.hitches > old(disk.hitches) || !ManifestFits(disk.files, m, site, version)
  {
    if m.product != PRODUCT {
      return false;
    }
    var notNewer := CheckNotNewer(m.version, version);
    if !notNewer || m.site != site {
      return false;
    }
    var expected := OWNED;
    if m.schema != SCHEMA {
      if m.schema !in {0, 1} || m.version != LEGACY_VERSION {
        return false;
      }
      var collision := disk.Lstat(Updater);
      if collision != Absent {
        return false;
      }
      expected := OWNED - {Updater};
    }
    ok := CheckInventory(m.owned, expected);
  }

  method CheckFilesMatch(disk: Disk, unsafe: Unsafe, m: InstallManifest) returns (ok: bool)
    modifies disk`clock, disk`hitches
    ensures disk.hitches >= old(disk.hitches)
    ensures ok ==> disk.hitches == old(disk.hitches)
    ensures ok ==> FilesMatch(disk.files, m, disk.hash)
    ensures ok ==> forall n :: n in {Ex5, Uninstaller} && n in disk.files ==> n !in unsafe
    ensures ok && m.schema == SCHEMA && Updater in disk.files ==> Updater !in unsafe
    ensures !ok ==> disk.hitches > old(disk.hitches) || !Safe(disk.files, unsafe)
                    || !FilesMatch(disk.files, m, disk.hash)
  {
    var right := VerifyHashIfPresent(disk, unsafe, Ex5, m.ex5Hash);
    if !right {
      return false;
    }
    right := VerifyHashIfPresent(disk, unsafe, Uninstaller, m.installerHash);
    if !right {
      return false;
    }
    if m.schema == SCHEMA {
      if m.updaterHash == MISSING_HASH {
        return false;
      }
      right := VerifyHashIfPresent(disk, unsafe, Updater, m.updaterHash);
      return right;
    }
    ok := true;
  }

  /** The manifest of an existing installation, if it is a regular file and parses. */
  method ReadOwnManifest(disk: Disk, unsafe: Unsafe) returns (m: Option<InstallManifest>)
    modifies disk`clock, disk`hitches
    ensures disk.hitches >= old(disk.hitches)
    ensures m.Some? ==> disk.hitches == old(disk.hitches)
    ensures m.Some? ==> Manifest in disk.files && disk.files[Manifest] == Record(m.value) && Manifest !in unsafe
    ensures m.None? ==> disk.hitches > old(disk.hitches) || Manifest !in disk.files || Manifest in unsafe
                        || !disk.files[Manifest].Record?
  {
    var there := disk.Lstat(Manifest);
    if there != Present {
      return None;
    }
    var regular := disk.Probe();
    if !regular || Manifest in unsafe {
      return None;
    }
    m := ReadManifest(disk);
  }

  lemma OwnsByManifest(d: Dir, site: Site, version: string, hash: Hash)
    requires !(d.Keys !! OWNED)
    ensures Owns(d, site, version, hash)
            <==> Manifest in d && d[Manifest].Record? && ManifestOwns(d, d[Manifest].manifest, site, version, hash)
  {
  }

  lemma SafeOneByOne(d: Dir, unsafe: Unsafe)
    requires forall n :: n in {Ex5, Uninstaller, Manifest} && n in d ==> n !in unsafe
    requires Updater in d ==> Updater !in unsafe
    ensures Safe(d, unsafe)
  {
  }

  method ValidateOwnership(disk: Disk, unsafe: Unsafe, site: Site, version: string) returns (ok: bool)
    modifies disk`clock, disk`hitches
    ensures disk.hitches >= old(disk.hitches)
    ensures ok ==> disk.hitches == old(disk.hitches)
    ensures ok ==> Owns(disk.files, site, version, disk.hash) && Safe(disk.files, unsafe)
    ensures !ok ==> disk.hitches > old(disk.hitches) || !Safe(disk.files, unsafe)
                    || !Owns(disk.files, site, version, disk.hash)
  {
    var any := AnyOwnedPresent(disk);
    if any.None? || !any.value {
      assert any.Some? ==> forall n :: n in OWNED ==> n !in disk.files;
      return any.Some?;
    }
    OwnsByManifest(disk.files, site, version, disk.hash);
    var read := ReadOwnManifest(disk, unsafe);
    if read.None? {
      return false;
    }
    var fits := CheckManifestFits(disk, read.value, site, version);
    if !fits {
      return false;
    }
    ok := CheckFilesMatch(disk, unsafe, read.value);
    if ok {
      SafeOneByOne(disk.files, unsafe);
    }
  }

  /** `topologySame`: the recorded terminal, Experts and product paths still resolve as recorded. */
  method ReadVerifiedInstall(disk: Disk, unsafe: Unsafe, site: Site, topologySame: bool)
    returns (r: Option<InstallManifest>)
    modifies disk`clock, disk`hitches
    ensures disk.hitches >= old(disk.hitches)
    ensures r.Some? ==> disk.hitches == old(disk.hitches)
    ensures r.Some? ==> Verified(disk.files, site, r.value, disk.hash) && topologySame && unsafe * OWNED == {}
    ensures r.None? ==> disk.hitches > old(disk.hitches) || !Safe(disk.files, unsafe) || !topologySame
                        || forall m :: !Verified(disk.files, site, m, disk.hash)
  {
    var regular := disk.Probe();
    if !regular || Manifest in unsafe {
      return None;
    }
    var read := ReadManifest(disk);
    if read.None? {
      return None;
    }
    var m := read.value;
    if m.schema != SCHEMA || m.product != PRODUCT || Version.Parse(m.version).Err?
       || m.updaterHash == MISSING_HASH || m.installerHash == MISSING_HASH || m.ex5Hash == MISSING_HASH {
      return None;
    }
    var exact := CheckInventory(m.owned, OWNED);
    if !exact || m.site != site || !topologySame {
      return None;
    }
    var owned := [(Ex5, m.ex5Hash), (Updater, m.updaterHash), (Uninstaller, m.installerHash)];
    for i := 0 to 3
      invariant disk.hitches == old(disk.hitches)
      invariant forall k :: 0 <= k < i ==> owned[k].0 in disk.files && disk.hash(disk.files[owned[k].0]) == owned[k].1
      invariant forall k :: 0 <= k < i ==> owned[k].0 !in unsafe
    {
      var right := VerifyRequiredHash(disk, unsafe, owned[i].0, owned[i].1);
      if !right {
        return None;
      }
    }
    assert owned[0].0 in disk.files && owned[1].0 in disk.files && owned[2].0 in disk.files;
    assert owned[0].0 !in unsafe && owned[1].0 !in unsafe && owned[2].0 !in unsafe;
    r := read;
  }
}
