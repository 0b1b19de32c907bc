/** Uninstalling, and the delayed helper that removes the uninstaller after it has exited. Both run
    under the installation lock. */
module Uninstalling {
  import opened Wrappers
  import opened Directory
  import opened Installer
  import opened Sessions
  import Version

  /** One step of an uninstall: nothing, or one owned file goes, the manifest last. A running
      uninstaller stays behind when it has handed its own removal over to a helper. */
  ghost predicate RemovalStep(a: Dir, b: Dir, handedOver: bool) {
    || b == a || b == a - {Ex5} || b == a - {Updater} || b == a - {Uninstaller}
    || (b == a - {Manifest} && Ex5 !in a && Updater !in a && (Uninstaller in a ==> handedOver))
  }

  ghost predicate UninstallSession(script: seq<Dir>, handedOver: bool) {
    && |script| > 0
    && (forall k :: 0 < k < |script| ==> RemovalStep(script[k - 1], script[k], handedOver))
  }

  /** One step of the cleanup helper: only the uninstaller with the expected hash goes, and only
      while there is no manifest. */
  ghost predicate CleanupStep(a: Dir, b: Dir, expected: Digest, hash: Hash) {
    b == a ||
    (Manifest !in a && Uninstaller in a && hash(a[Uninstaller]) == expected && b == a - {Uninstaller})
  }

  ghost predicate CleanupSession(script: seq<Dir>, expected: Digest, hash: Hash) {
    && |script| > 0
    && (forall k :: 0 < k < |script| ==> CleanupStep(script[k - 1], script[k], expected, hash))
  }

  // ---- what removal steps keep ----

  /** Every file of one directory is in another, with the same content. */
  predicate PartOf(a: Dir, b: Dir) {
    forall n :: n in a ==> n in b && a[n] == b[n]
  }

  lemma StepIsPart(a: Dir, b: Dir, handedOver: bool)
    requires RemovalStep(a, b, handedOver)
    ensures PartOf(b, a)
  {
  }

  lemma PartIsPreflight(a: Dir, b: Dir, site: Site, version: string, hash: Hash)
    requires PartOf(b, a) && Manifest in b && Preflight(a, site, version, hash)
    ensures Preflight(b, site, version, hash)
  {
  }

  lemma PartIsOwned(a: Dir, b: Dir, site: Site, version: string, hash: Hash)
    requires PartOf(b, a) && Manifest in b && Owns(a, site, version, hash)
    ensures Owns(b, site, version, hash)
  {
    assert Manifest in a.Keys * OWNED;
    var m := a[Manifest].manifest;
    assert ManifestFits(b, m, site, version);
    assert FilesMatch(b, m, hash);
  }

  /** As long as the manifest is there, a removal step keeps both the uninstaller's preflight and an
      installer's ownership check satisfied. */
  lemma StepIsResumable(a: Dir, b: Dir, handedOver: bool, site: Site, version: string, hash: Hash)
    requires RemovalStep(a, b, handedOver) && Manifest in b
    ensures Preflight(a, site, version, hash) ==> Preflight(b, site, version, hash)
    ensures Manifest in a && Owns(a, site, version, hash) ==> Owns(b, site, version, hash)
  {
    StepIsPart(a, b, handedOver);
    if Preflight(a, site, version, hash) {
      PartIsPreflight(a, b, site, version, hash);
    }
    if Owns(a, site, version, hash) {
      PartIsOwned(a, b, site, version, hash);
    }
  }

  /** After any number of interrupted uninstalls, one after the other, the state that still holds a
      manifest holds the same one, can be uninstalled again, and can be reinstalled by exactly the
      installers that its manifest allows. */
  lemma {:induction false} Resumable(script: seq<Dir>, handedOver: bool, site: Site, version: string, hash: Hash)
    requires UninstallSession(script, handedOver) && Preflight(script[0], site, version, hash)
    requires Manifest in script[|script| - 1]
    ensures Preflight(script[|script| - 1], site, version, hash)
    ensures script[|script| - 1][Manifest] == script[0][Manifest]
    ensures Reinstallable(script[|script| - 1], site, version, hash)
    ensures Owns(script[0], site, version, hash) ==> Owns(script[|script| - 1], site, version, hash)
  {
    ReinstallableIff(script[0], site, version, hash);
    if |script| > 1 {
      var init := script[..|script| - 1];
      assert RemovalStep(script[|script| - 2], script[|script| - 1], handedOver);
      Resumable(init, handedOver, site, version, hash);
      StepIsResumable(script[|script| - 2], script[|script| - 1], handedOver, site, version, hash);
      ReinstallableIff(script[|script| - 1], site, version, hash);
    }
  }

  /** When an installer of some version may reinstall over a state that can be uninstalled: exactly when it is not
      older than what is recorded and the manifest records an updater hash. */
  ghost predicate Reinstallable(d: Dir, site: Site, version: string, hash: Hash)
    requires Manifest in d && d[Manifest].Record?
  {
    forall installer: string :: Owns(d, site, installer, hash)
      <==> Version.AtMost(version, installer) && d[Manifest].manifest.updaterHash != MISSING_HASH
  }

  lemma ReinstallableIff(d: Dir, site: Site, version: string, hash: Hash)
    requires Preflight(d, site, version, hash)
    ensures Reinstallable(d, site, version, hash)
    ensures Owns(d, site, version, hash)
            <==> Version.Parse(version).Ok? && d[Manifest].manifest.updaterHash != MISSING_HASH
  {
    assert Manifest in d.Keys * OWNED;
    forall installer: string
      ensures Owns(d, site, installer, hash)
              <==> Version.AtMost(version, installer) && d[Manifest].manifest.updaterHash != MISSING_HASH
    {
    }
  }

  /** A directory left with nothing but a manifest that records no updater hash. */
  function Leftover(site: Site, version: string): Dir {
    map[Manifest := Record(InstallManifest(SCHEMA, PRODUCT, version, site, MISSING_HASH, MISSING_HASH, MISSING_HASH,
                                           [Ex5, Updater, Uninstaller, Manifest]))]
  }

  /** It can be uninstalled, but no installer may write over it. */
  lemma UninstallableOnly(site: Site, version: string, installer: string, hash: Hash)
    ensures Preflight(Leftover(site, version), site, version, hash)
    ensures !Owns(Leftover(site, version), site, installer, hash)
  {
    var d := Leftover(site, version);
    assert Exact(d[Manifest].manifest.owned, OWNED);
    assert Preflight(d, site, version, hash);
    ReinstallableIff(d, site, version, hash);
  }

  /** An installation just completed can be uninstalled, and can be upgraded or repaired by every
      installer whose version is at least its own. */
  lemma InstalledIsManaged(d: Dir, site: Site, version: string, later: string, hash: Hash)
    requires InstalledAs(d, site, version, hash) && Version.AtMost(version, later)
    ensures Preflight(d, site, version, hash) && Owns(d, site, later, hash)
  {
  }

  // ---- the uninstaller ----

  datatype UninstallOutcome = Untouched | Incomplete | Completed

  method RemoveOwnedFile(disk: Disk, unsafe: Unsafe, n: Name, expected: Digest) returns (ok: bool)
    requires disk.Valid()
    modifies disk
    ensures disk.Valid() && disk.hitches >= old(disk.hitches)
    ensures ok ==> disk.hitches == old(disk.hitches)
    ensures (disk.trace == old(disk.trace) && disk.files == old(disk.files))
            || disk.trace == old(disk.trace) + [disk.files]
    ensures disk.files == old(disk.files)
            || (&& HashRight(old(disk.files), n, expected, disk.hash) && n !in unsafe
                && disk.files == old(disk.files) - {n})
    ensures ok ==> n !in disk.files
    ensures !ok ==> disk.hitches > old(disk.hitches) || (n in old(disk.files) && n in unsafe)
                    || !HashRight(old(disk.files), n, expected, disk.hash)
  {
    var there := disk.Lstat(n);
    if there != Present {
      return there == Absent;
    }
    var regular := disk.Probe();
    if !regular || n in unsafe {
      return false;
    }
    var actual := disk.Hash(n);
    if actual.None? || expected == MISSING_HASH || actual.value != expected {
      return false;
    }
    var removed := disk.Remove(n);
    ok := removed == Removed;
  }

  /** The part of runUninstall before any deletion. `contained`: the product directory resolves to a place inside
      the resolved Experts root. */
  method CheckPreflight(disk: Disk, unsafe: Unsafe, site: Site, version: string, contained: bool)
    returns (r: Option<InstallManifest>)
    modifies disk`clock, disk`hitches
    ensures disk.hitches >= old(disk.hitches)
    ensures r.Some? ==> disk.hitches == old(disk.hitches)
    ensures r.Some? ==>
      && Preflight(disk.files, site, version, disk.hash) && disk.files[Manifest] == Record(r.value)
      && contained && Safe(disk.files, unsafe)
    ensures r.None? ==> disk.hitches > old(disk.hitches) || !Safe(disk.files, unsafe) || !contained
                        || !Preflight(disk.files, site, version, disk.hash)
  {
    r := ReadManifest(disk);
    if r.None? {
      return;
    }
    var m := r.value;
    if m.product != PRODUCT || m.version != version || m.schema != SCHEMA {
      return None;
    }
    var exact := CheckInventory(m.owned, OWNED);
    if !exact {
      return None;
    }
    var productResolves := disk.Probe();
    var expertsResolves := disk.Probe();
    if !productResolves || !expertsResolves || m.site != site || !contained {
      return None;
    }
    var owned := [(Ex5, m.ex5Hash), (Uninstaller, m.installerHash), (Updater, m.updaterHash)];
    for i := 0 to 3
      invariant disk.hitches == old(disk.hitches)
      invariant forall k :: 0 <= k < i ==> HashRight(disk.files, owned[k].0, owned[k].1, disk.hash)
      invariant forall k :: 0 <= k < i && owned[k].0 in disk.files ==> owned[k].0 !in unsafe
    {
      var right := VerifyHashIfPresent(disk, unsafe, owned[i].0, owned[i].1);
      if !right {
        return None;
      }
    }
    assert HashRight(disk.files, owned[0].0, owned[0].1, disk.hash);
    assert HashRight(disk.files, owned[1].0, owned[1].1, disk.hash);
    assert HashRight(disk.files, owned[2].0, owned[2].1, disk.hash);
    var regular := disk.Probe();
    if !regular || Manifest in unsafe {
      return None;
    }
    assert owned[0].0 == Ex5 && owned[1].0 == Uninstaller && owned[2].0 == Updater;
    SafeOneByOne(disk.files, unsafe);
  }

  lemma ExtendRemoval(before: seq<Dir>, trace: seq<Dir>, d: Dir, handedOver: bool)
    requires 0 < |before| <= |trace| && UninstallSession(Script(trace, before), handedOver)
    requires RemovalStep(trace[|trace| - 1], d, handedOver)
    ensures UninstallSession(Script(trace + [d], before), handedOver)
  {
    var script, longer := Script(trace, before), Script(trace + [d], before);
    assert longer == script + [d];
    assert script[|script| - 1] == trace[|trace| - 1];
    forall k | 0 < k < |longer|
      ensures RemovalStep(longer[k - 1], longer[k], handedOver)
    {
      if k < |script| {
        assert RemovalStep(script[k - 1], script[k], handedOver);
      }
    }
  }

  /** removeOwnedFile on a file other than the manifest, within an uninstall session. */
  method RemoveInSession(disk: Disk, unsafe: Unsafe, n: Name, expected: Digest, ghost before: seq<Dir>,
                         ghost handedOver: bool)
    returns (ok: bool)
    requires disk.Valid() && n in {Ex5, Updater, Uninstaller}
    requires 0 < |before| <= |disk.trace| && UninstallSession(Script(disk.trace, before), handedOver)
    modifies disk
    ensures disk.Valid() && disk.hitches >= old(disk.hitches) && old(disk.trace) <= disk.trace
    ensures ok ==> disk.hitches == old(disk.hitches)
    ensures UninstallSession(Script(disk.trace, before), handedOver)
    ensures disk.files == old(disk.files) || disk.files == old(disk.files) - {n}
    ensures ok ==> n !in disk.files
    ensures !ok ==> disk.hitches > old(disk.hitches) || (n in old(disk.files) && n in unsafe)
                    || !HashRight(old(disk.files), n, expected, disk.hash)
  {
    ghost var trace := disk.trace;
    ok := RemoveOwnedFile(disk, unsafe, n, expected);
    if disk.trace != trace {
      ExtendRemoval(before, trace, disk.files, handedOver);
    }
  }

  /** The uninstaller is there with the hash that its helper is given. */
  predicate HandsOver(d: Dir, expected: Digest, hash: Hash) {
    expected != MISSING_HASH && Uninstaller in d && hash(d[Uninstaller]) == expected
  }

  /** The uninstaller removes itself: when it runs from the product directory, a helper is started
      with its hash; otherwise the file is removed like the others. */
  method RemoveUninstaller(disk: Disk, unsafe: Unsafe, expected: Digest, selfInstalled: bool, helperStarts: bool,
                           ghost before: seq<Dir>)
    returns (ok: bool, pending: Option<Digest>)
    requires disk.Valid() && Safe(disk.files, unsafe) && HashRight(disk.files, Uninstaller, expected, disk.hash)
    requires 0 < |before| <= |disk.trace| && UninstallSession(Script(disk.trace, before), selfInstalled)
    modifies disk
    ensures disk.Valid() && disk.hitches >= old(disk.hitches) && old(disk.trace) <= disk.trace
    ensures ok ==> disk.hitches == old(disk.hitches)
    ensures UninstallSession(Script(disk.trace, before), selfInstalled)
    ensures disk.files == old(disk.files) || disk.files == old(disk.files) - {Uninstaller}
    ensures pending.Some? ==> selfInstalled && HandsOver(disk.files, pending.value, disk.hash)
    ensures ok ==> (Uninstaller in disk.files <==> pending.Some?) && (pending.Some? <==> selfInstalled)
    ensures ok && selfInstalled ==> helperStarts && Uninstaller in old(disk.files)
    ensures !ok ==> || disk.hitches > old(disk.hitches)
                    || (selfInstalled && (!helperStarts || Uninstaller !in old(disk.files)))
  {
    pending := None;
    if selfInstalled {
      var right := VerifyRequiredHash(disk, unsafe, Uninstaller, expected);
      ok := right && helperStarts;
      if ok {
        pending := Some(expected);
      }
    } else {
      ok := RemoveInSession(disk, unsafe, Uninstaller, expected, before, selfInstalled);
    }
  }

  /** The first deletions of runUninstall: EX5 and updater. */
  method DeletePayload(disk: Disk, unsafe: Unsafe, m: InstallManifest, ghost before: seq<Dir>, ghost handedOver: bool)
    returns (gone: bool)
    requires disk.Valid() && Safe(disk.files, unsafe)
    requires 0 < |before| <= |disk.trace| && UninstallSession(Script(disk.trace, before), handedOver)
    requires HashRight(disk.files, Ex5, m.ex5Hash, disk.hash)
    requires HashRight(disk.files, Updater, m.updaterHash, disk.hash)
    modifies disk
    ensures disk.Valid() && disk.hitches >= old(disk.hitches) && old(disk.trace) <= disk.trace
    ensures gone <==> disk.hitches == old(disk.hitches)
    ensures UninstallSession(Script(disk.trace, before), handedOver)
    ensures forall n :: n != Ex5 && n != Updater ==> SameAt(old(disk.files), disk.files, n)
    ensures gone ==> Ex5 !in disk.files && Updater !in disk.files
    ensures Safe(disk.files, unsafe)
  {
    gone := RemoveInSession(disk, unsafe, Ex5, m.ex5Hash, before, handedOver);
    if gone {
      gone := RemoveInSession(disk, unsafe, Updater, m.updaterHash, before, handedOver);
    }
  }

  /** The deletions of runUninstall: EX5, updater, uninstaller, and the manifest last. */
  method DeleteOwned(disk: Disk, unsafe: Unsafe, m: InstallManifest, selfInstalled: bool, helperStarts: bool,
                     ghost before: seq<Dir>)
    returns (done: bool, pending: Option<Digest>)
    requires disk.Valid() && Manifest in disk.files && Safe(disk.files, unsafe)
    requires 0 < |before| <= |disk.trace| && UninstallSession(Script(disk.trace, before), selfInstalled)
    requires HashRight(disk.files, Ex5, m.ex5Hash, disk.hash)
    requires HashRight(disk.files, Updater, m.updaterHash, disk.hash)
    requires HashRight(disk.files, Uninstaller, m.installerHash, disk.hash)
    modifies disk
    ensures disk.Valid() && disk.hitches >= old(disk.hitches) && old(disk.trace) <= disk.trace
    ensures done ==> disk.hitches == old(disk.hitches)
    ensures UninstallSession(Script(disk.trace, before), selfInstalled)
    ensures done <==> Manifest !in disk.files
    ensures done ==> Ex5 !in disk.files && Updater !in disk.files && (Uninstaller in disk.files <==> pending.Some?)
    ensures pending.Some? ==> selfInstalled && HandsOver(disk.files, pending.value, disk.hash)
    ensures done ==> (pending.Some? <==> selfInstalled)
    ensures done && selfInstalled ==> helperStarts && Uninstaller in old(disk.files)
    ensures done || disk.hitches > old(disk.hitches)
            || (selfInstalled && (!helperStarts || Uninstaller !in old(disk.files)))
  {
    done, pending := false, None;
    var gone := DeletePayload(disk, unsafe, m, before, selfInstalled);
    assert SameAt(old(disk.files), disk.files, Uninstaller) && SameAt(old(disk.files), disk.files, Manifest);
    if !gone {
      return;
    }
    gone, pending := RemoveUninstaller(disk, unsafe, m.installerHash, selfInstalled, helperStarts, before);
    if !gone {
      return;
    }
    ghost var trace := disk.trace;
    var removed := disk.Remove(Manifest);
    done := removed != Refused;
    ExtendRemoval(before, trace, disk.files, selfInstalled);
  }

  /** The reasons for an uninstall not to touch anything. */
  ghost predicate Untouchable(d: Dir, unsafe: Unsafe, site: Site, version: string, contained: bool, confirmed: bool,
                              hash: Hash) {
    !contained || !confirmed || !Preflight(d, site, version, hash) || !Safe(d, unsafe)
  }

  /** The reasons, other than a failing operation, for an uninstall not to be carried through. */
  ghost predicate CannotUninstall(d: Dir, unsafe: Unsafe, site: Site, version: string, contained: bool, confirmed: bool,
                                  selfInstalled: bool, helperStarts: bool, hash: Hash) {
    || Untouchable(d, unsafe, site, version, contained, confirmed, hash)
    || (selfInstalled && (!helperStarts || Uninstaller !in d))
  }

  /** runUninstall, under the lock. */
  method RunUninstall(disk: Disk, unsafe: Unsafe, site: Site, version: string, contained: bool, confirmed: bool,
                      selfInstalled: bool, helperStarts: bool)
    returns (outcome: UninstallOutcome, pending: Option<Digest>)
    requires disk.Valid()
    modifies disk
    ensures disk.Valid() && disk.hitches >= old(disk.hitches) && old(disk.trace) <= disk.trace
    ensures outcome == Completed ==> disk.hitches == old(disk.hitches)
    ensures UninstallSession(Script(disk.trace, old(disk.trace)), selfInstalled)
    ensures outcome == Untouched ==> disk.files == old(disk.files) && disk.trace == old(disk.trace) && pending.None?
    ensures outcome == Untouched ==>
      || disk.hitches > old(disk.hitches)
      || Untouchable(old(disk.files), unsafe, site, version, contained, confirmed, disk.hash)
    ensures outcome != Untouched ==>
      && contained && confirmed
      && Preflight(old(disk.files), site, version, disk.hash) && Safe(old(disk.files), unsafe)
    ensures outcome == Incomplete ==>
      && Preflight(disk.files, site, version, disk.hash) && disk.files[Manifest] == old(disk.files[Manifest])
      && Reinstallable(disk.files, site, version, disk.hash)
    ensures outcome == Completed ==>
      && Ex5 !in disk.files && Updater !in disk.files && Manifest !in disk.files
      && (Uninstaller in disk.files <==> selfInstalled) && (pending.Some? <==> selfInstalled)
      && (selfInstalled ==> helperStarts && Uninstaller in old(disk.files))
    ensures pending.Some? ==> selfInstalled && HandsOver(disk.files, pending.value, disk.hash)
    ensures outcome == Completed || disk.hitches > old(disk.hitches)
            || CannotUninstall(old(disk.files), unsafe, site, version, contained, confirmed, selfInstalled,
                               helperStarts, disk.hash)
  {
    outcome, pending := Untouched, None;
    ghost var before, d := disk.trace, disk.files;
    assert Script(before, before) == [d];
    var manifest := CheckPreflight(disk, unsafe, site, version, contained);
    if manifest.None? || !confirmed {
      return;
    }
    ghost var trace := disk.trace;
    assert trace == before;
    var gone;
    gone, pending := DeleteOwned(disk, unsafe, manifest.value, selfInstalled, helperStarts, before);
    if gone {
      outcome := Completed;
    } else {
      outcome := Incomplete;
      StillManaged(d, disk.files, disk.trace, before, selfInstalled, site, version, disk.hash);
    }
  }

  lemma StillManaged(d: Dir, d': Dir, trace: seq<Dir>, before: seq<Dir>, handedOver: bool, site: Site,
                     version: string, hash: Hash)
    requires 0 < |before| <= |trace| && before <= trace && UninstallSession(Script(trace, before), handedOver)
    requires before[|before| - 1] == d && trace[|trace| - 1] == d' && Manifest in d'
    requires Preflight(d, site, version, hash)
    ensures Preflight(d', site, version, hash) && d'[Manifest] == d[Manifest] && Reinstallable(d', site, version, hash)
  {
    var script := Script(trace, before);
    assert script[0] == d && script[|script| - 1] == d';
    Resumable(script, handedOver, site, version, hash);
  }

  // ---- the delayed cleanup helper ----

  // The hexadecimal digits of a SHA-256.
  const DIGEST_LENGTH := 64
  // How often the helper tries to remove the uninstaller.
  const ATTEMPTS := 50

  /** Where the directory named in a cleanup request is now. */
  datatype Resolution = Nowhere | Elsewhere | AsExpected

  /** runCleanupHelper: at most fifty attempts to remove the uninstaller. `wellFormed`: the request names the
      uninstaller in its own directory, a parent process and a resolved path. */
  method RunCleanupHelper(disk: Disk, unsafe: Unsafe, expected: Digest, wellFormed: bool, resolution: Resolution)
    returns (ok: bool)
    requires disk.Valid()
    modifies disk
    ensures disk.Valid() && disk.hitches >= old(disk.hitches) && old(disk.trace) <= disk.trace
    ensures CleanupSession(Script(disk.trace, old(disk.trace)), expected, disk.hash)
    ensures disk.files == old(disk.files) || disk.files == old(disk.files) - {Uninstaller}
    ensures disk.files != old(disk.files) ==> wellFormed && |expected| == DIGEST_LENGTH && resolution == AsExpected
    ensures ok ==> Uninstaller !in disk.files || resolution == Nowhere
                   || (Manifest in disk.files && disk.files == old(disk.files))
    ensures !ok ==> disk.files == old(disk.files)
    ensures !ok ==> disk.trace == old(disk.trace) || |disk.trace| == |old(disk.trace)| + ATTEMPTS
    ensures !ok ==> disk.hitches > old(disk.hitches) || (Uninstaller in disk.files && Uninstaller in unsafe)
                    || !wellFormed || |expected| != DIGEST_LENGTH || resolution == Elsewhere
                    || !HashRight(disk.files, Uninstaller, expected, disk.hash)
  {
    ghost var before := disk.trace;
    assert Script(before, before) == [disk.files];
    if !wellFormed || |expected| != DIGEST_LENGTH {
      return false;
    }
    if resolution != AsExpected {
      return resolution == Nowhere;
    }
    ok := RemoveLeftUninstaller(disk, unsafe, expected);
  }

  /** The helper under the lock. */
  method RemoveLeftUninstaller(disk: Disk, unsafe: Unsafe, expected: Digest) returns (ok: bool)
    requires disk.Valid()
    modifies disk
    ensures disk.Valid() && disk.hitches >= old(disk.hitches) && old(disk.trace) <= disk.trace
    ensures CleanupSession(Script(disk.trace, old(disk.trace)), expected, disk.hash)
    ensures disk.files == old(disk.files) || disk.files == old(disk.files) - {Uninstaller}
    ensures ok ==> Uninstaller !in disk.files || (Manifest in disk.files && disk.files == old(disk.files))
    ensures !ok ==> disk.files == old(disk.files)
    ensures !ok ==> disk.trace == old(disk.trace) || |disk.trace| == |old(disk.trace)| + ATTEMPTS
    ensures !ok ==> disk.hitches > old(disk.hitches) || (Uninstaller in disk.files && Uninstaller in unsafe)
                    || !HashRight(disk.files, Uninstaller, expected, disk.hash)
  {
    ghost var before, d := disk.trace, disk.files;
    assert Script(before, before) == [d];
    var manifest := disk.Lstat(Manifest);
    if manifest != Absent {
      return manifest == Present;
    }
    var target := disk.Lstat(Uninstaller);
    if target != Present {
      return target == Absent;
    }
    ok := VerifyRequiredHash(disk, unsafe, Uninstaller, expected);
    if !ok {
      return;
    }
    ok := false;
    for attempt := 0 to ATTEMPTS
      invariant |disk.trace| == |before| + attempt
      invariant disk.Valid() && before <= disk.trace && !ok
      invariant disk.files == d && (attempt > 0 ==> disk.hitches > old(disk.hitches))
      invariant disk.hitches >= old(disk.hitches)
      invariant forall k :: |before| <= k < |disk.trace| ==> disk.trace[k] == d
      invariant CleanupSession(Script(disk.trace, before), expected, disk.hash)
    {
      ghost var trace := disk.trace;
      var removed := disk.Remove(Uninstaller);
      ExtendCleanup(before, trace, disk.files, expected, disk.hash);
      if removed != Refused {
        return true;
      }
    }
  }

  lemma ExtendCleanup(before: seq<Dir>, trace: seq<Dir>, d: Dir, expected: Digest, hash: Hash)
    requires 0 < |before| <= |trace| && CleanupSession(Script(trace, before), expected, hash)
    requires CleanupStep(trace[|trace| - 1], d, expected, hash)
    ensures CleanupSession(Script(trace + [d], before), expected, hash)
  {
    var script, longer := Script(trace, before), Script(trace + [d], before);
    assert longer == script + [d];
    assert script[|script| - 1] == trace[|trace| - 1];
    forall k | 0 < k < |longer|
      ensures CleanupStep(longer[k - 1], longer[k], expected, hash)
    {
      if k < |script| {
        assert CleanupStep(script[k - 1], script[k], expected, hash);
      }
    }
  }

  /** An uninstall and the helper it starts, one after the other: unless an operation fails, or one of the reasons
      for refusing holds, all four owned files go, also a running uninstaller; and nothing else ever changes. */
  method UninstallAndCleanUp(disk: Disk, unsafe: Unsafe, site: Site, version: string, contained: bool, confirmed: bool,
                             selfInstalled: bool, helperStarts: bool)
    returns (gone: bool)
    requires disk.Valid() && forall c :: |disk.hash(c)| == DIGEST_LENGTH
    modifies disk
    ensures disk.Valid() && disk.hitches >= old(disk.hitches)
    ensures gone ==> disk.files == old(disk.files) - OWNED
    ensures gone ==> !CannotUninstall(old(disk.files), unsafe, site, version, contained, confirmed, selfInstalled,
                                      helperStarts, disk.hash)
    ensures gone || disk.files != old(disk.files) ==>
      && contained && confirmed
      && Preflight(old(disk.files), site, version, disk.hash) && Safe(old(disk.files), unsafe)
    ensures forall n :: n !in OWNED ==> SameAt(old(disk.files), disk.files, n)
    ensures gone || disk.hitches > old(disk.hitches)
            || CannotUninstall(old(disk.files), unsafe, site, version, contained, confirmed, selfInstalled,
                               helperStarts, disk.hash)
  {
    ghost var before := disk.trace;
    var outcome, pending := RunUninstall(disk, unsafe, site, version, contained, confirmed, selfInstalled,
                                         helperStarts);
    RemovalTakesOwned(Script(disk.trace, before), selfInstalled);
    gone := outcome == Completed;
    if gone && pending.Some? {
      gone := RunCleanupHelper(disk, unsafe, pending.value, true, AsExpected);
    }
  }

  /** An uninstall takes owned names away and does nothing else. */
  lemma {:induction false} RemovalTakesOwned(script: seq<Dir>, handedOver: bool)
    requires UninstallSession(script, handedOver)
    ensures forall n :: n !in OWNED ==> SameAt(script[0], script[|script| - 1], n)
    ensures PartOf(script[|script| - 1], script[0])
  {
    if |script| > 1 {
      assert RemovalStep(script[|script| - 2], script[|script| - 1], handedOver);
      RemovalTakesOwned(script[..|script| - 1], handedOver);
    }
  }
}
