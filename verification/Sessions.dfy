/** The three critical sections under the installation lock: install, uninstall, delayed cleanup.

    Each method is tied to a predicate on the directory states it goes through (its script), from
    the state it finds to the state it leaves; Lifecycle reasons about interleaved processes from
    those predicates alone. */
module Sessions {
  import opened Wrappers
  import opened Directory
  import opened Transaction
  import opened Installer
  import Version

  // ---- scripts ----

  ghost predicate ForeignSame(a: Dir, b: Dir) {
    forall n: Name :: n.Foreign? ==> SameAt(a, b, n)
  }

  ghost predicate OwnedSame(a: Dir, b: Dir) {
    forall n :: n in OWNED ==> SameAt(a, b, n)
  }

  /** The states of the trace from position `base` on leave every foreign name alone. */
  ghost predicate KeepsForeign(trace: seq<Dir>, base: nat, orig: Dir) {
    forall k :: base <= k < |trace| ==> ForeignSame(orig, trace[k])
  }

  /** The states a method went through, the one it found first. */
  ghost function Script(trace: seq<Dir>, before: seq<Dir>): seq<Dir>
    requires 0 < |before| <= |trace|
  {
    trace[|before| - 1..]
  }

  // ---- staging ----

  ghost predicate OnlyStaged(a: Dir, b: Dir) {
    forall n: Name :: !n.Staged? ==> SameAt(a, b, n)
  }

  ghost predicate KeepsAllButStaged(trace: seq<Dir>, base: nat, orig: Dir) {
    forall k :: base <= k < |trace| ==> OnlyStaged(orig, trace[k])
  }

  /** copyToTempAndHash and writeJSONTemp: a temporary file is created, written, synced and closed;
      on a failure it is removed, as far as it can be. */
  method Stage(disk: Disk, content: Content) returns (name: Option<Name>)
    requires disk.Valid()
    modifies disk
    ensures disk.Valid() && disk.hitches >= old(disk.hitches) && old(disk.trace) <= disk.trace
    ensures name.Some? ==> disk.hitches == old(disk.hitches)
    ensures KeepsAllButStaged(disk.trace, |old(disk.trace)|, old(disk.files)) && OnlyStaged(old(disk.files), disk.files)
    ensures name.Some?
            ==> name.value.Staged? && name.value !in old(disk.files)
                && disk.files == old(disk.files)[name.value := content]
    ensures name.None? ==> disk.hitches > old(disk.hitches)
    ensures name.None? && disk.hitches == old(disk.hitches) + 1 ==> disk.files == old(disk.files)
  {
    name := disk.CreateTemp(false);
    if name.None? {
      return;
    }
    var written := disk.Write(name.value, content);
    if written {
      var synced := disk.Probe();
      if synced {
        assert disk.files == old(disk.files)[name.value := content];
        return;
      }
    }
    var removed := disk.Remove(name.value);
    name := None;
  }

  method Discard(disk: Disk, names: seq<Name>)
    requires disk.Valid() && forall i :: 0 <= i < |names| ==> names[i].Staged?
    modifies disk
    ensures disk.Valid() && disk.hitches >= old(disk.hitches) && old(disk.trace) <= disk.trace
    ensures KeepsAllButStaged(disk.trace, |old(disk.trace)|, old(disk.files)) && OnlyStaged(old(disk.files), disk.files)
    ensures disk.hitches == old(disk.hitches) ==> forall i :: 0 <= i < |names| ==> names[i] !in disk.files
    ensures forall n :: n !in names ==> SameAt(old(disk.files), disk.files, n)
  {
    for i := 0 to |names|
      invariant disk.Valid() && disk.hitches >= old(disk.hitches) && old(disk.trace) <= disk.trace
      invariant KeepsAllButStaged(disk.trace, |old(disk.trace)|, old(disk.files))
      invariant OnlyStaged(old(disk.files), disk.files)
      invariant disk.hitches == old(disk.hitches) ==> forall j :: 0 <= j < i ==> names[j] !in disk.files
      invariant forall n :: n !in names ==> SameAt(old(disk.files), disk.files, n)
    {
      var removed := disk.Remove(names[i]);
    }
  }

  /** What the installer reads outside the directory: the payload and its own executable when they
      are hashed, and the bytes each later copy reads. */
  datatype Sources = Sources(payload: Content, payloadCopy: Content, self: Content, uninstallerCopy: Content,
                             updaterCopy: Content)

  function NewManifest(s: Sources, site: Site, version: string, hash: Hash): InstallManifest {
    InstallManifest(SCHEMA, PRODUCT, version, site, hash(s.payloadCopy), hash(s.self), hash(s.updaterCopy),
                    [Ex5, Updater, Uninstaller, Manifest])
  }

  /** Distinct new staged files, and nothing else changed. */
  ghost predicate StagedSoFar(d: Dir, orig: Dir, names: seq<Name>) {
    && (forall i :: 0 <= i < |names| ==> names[i].Staged? && names[i] !in orig && names[i] in d)
    && (forall i, j :: 0 <= i < j < |names| ==> names[i] != names[j])
    && (forall n :: n !in names ==> SameAt(orig, d, n))
  }

  /** The four staged files, with the contents they will have once committed. */
  ghost predicate StagedAll(d: Dir, orig: Dir, names: seq<Name>, s: Sources, m: InstallManifest) {
    && |names| == 4 && StagedSoFar(d, orig, names)
    && d[names[0]] == s.payloadCopy && d[names[1]] == s.updaterCopy && d[names[2]] == s.uninstallerCopy
    && d[names[3]] == Record(m)
  }

  /** The copies have the hashes computed beforehand. */
  predicate CopiesMatch(s: Sources, hash: Hash) {
    hash(s.payloadCopy) == hash(s.payload) && hash(s.uninstallerCopy) == hash(s.self)
    && hash(s.updaterCopy) == hash(s.self)
  }

  lemma ExtendKeeps(trace: seq<Dir>, longer: seq<Dir>, base: nat, orig: Dir, d: Dir)
    requires trace <= longer && base <= |trace|
    requires KeepsAllButStaged(trace, base, orig) && OnlyStaged(orig, d) && KeepsAllButStaged(longer, |trace|, d)
    ensures KeepsAllButStaged(longer, base, orig)
  {
    forall k | base <= k < |longer|
      ensures OnlyStaged(orig, longer[k])
    {
      if k < |trace| {
        assert OnlyStaged(orig, trace[k]);
      } else {
        forall n: Name | !n.Staged?
          ensures SameAt(orig, longer[k], n)
        {
          assert SameAt(orig, d, n) && SameAt(d, longer[k], n);
        }
      }
    }
  }

  lemma AllDiscarded(orig: Dir, d: Dir, d': Dir, names: seq<Name>)
    requires StagedSoFar(d, orig, names)
    requires forall n :: n !in names ==> SameAt(d, d', n)
    requires forall i :: 0 <= i < |names| ==> names[i] !in d'
    ensures d' == orig
  {
    forall n
      ensures SameAt(orig, d', n)
    {
      if n !in names {
        assert SameAt(orig, d, n) && SameAt(d, d', n);
      }
    }
    SameEverywhere(orig, d');
  }

  lemma StagedMore(d: Dir, orig: Dir, done: seq<Name>, name: Name, content: Content)
    requires StagedSoFar(d, orig, done) && name.Staged? && name !in d
    ensures StagedSoFar(d[name := content], orig, done + [name])
  {
    var d', names := d[name := content], done + [name];
    assert name !in done;
    assert SameAt(orig, d, name);
    forall i | 0 <= i < |names|
      ensures names[i].Staged? && names[i] !in orig && names[i] in d'
    {
      if i < |done| { assert names[i] == done[i]; }
    }
    forall i, j | 0 <= i < j < |names|
      ensures names[i] != names[j]
    {
      if j < |done| { assert done[i] != done[j]; } else { assert names[i] == done[i] && done[i] in d; }
    }
    forall n | n !in names
      ensures SameAt(orig, d', n)
    {
      assert n !in done && n != name by {
        assert names[|done|] == name;
        assert forall k :: 0 <= k < |done| ==> names[k] == done[k];
      }
      assert SameAt(orig, d, n);
    }
  }

  /** One more staged file; when it fails, or does not have the expected hash, all are discarded. */
  method StageNext(disk: Disk, content: Content, expected: Option<Digest>, done: seq<Name>, ghost orig: Dir,
                   ghost base: nat)
    returns (names: Option<seq<Name>>)
    requires disk.Valid() && StagedSoFar(disk.files, orig, done)
    requires base <= |disk.trace| && KeepsAllButStaged(disk.trace, base, orig)
    modifies disk
    ensures disk.Valid() && disk.hitches >= old(disk.hitches) && old(disk.trace) <= disk.trace
    ensures names.Some? ==> disk.hitches == old(disk.hitches)
    ensures KeepsAllButStaged(disk.trace, base, orig) && OnlyStaged(orig, disk.files)
    ensures names.Some? ==>
      && |names.value| == |done| + 1 && names.value[..|done|] == done
      && StagedSoFar(disk.files, orig, names.value)
      && disk.files == old(disk.files)[names.value[|done|] := content]
      && (expected.Some? ==> disk.hash(content) == expected.value)
    ensures names.None? ==>
      || disk.hitches > old(disk.hitches)
      || (disk.files == orig && expected.Some? && disk.hash(content) != expected.value)
  {
    ghost var d, trace := disk.files, disk.trace;
    var staged := Stage(disk, content);
    ExtendKeeps(trace, disk.trace, base, orig, d);
    ghost var d1, trace1 := disk.files, disk.trace;
    if staged.Some? {
      StagedMore(d, orig, done, staged.value, content);
    }
    var all := if staged.Some? then done + [staged.value] else done;
    if staged.Some? && (expected.None? || disk.hash(content) == expected.value) {
      return Some(all);
    }
    Discard(disk, all);
    ExtendKeeps(trace1, disk.trace, base, orig, d1);
    if staged.Some? && disk.hitches == old(disk.hitches) {
      AllDiscarded(orig, d1, disk.files, all);
    }
    names := None;
  }

  /** The staging part of runInstall. The result lists the EX5, updater, uninstaller and manifest. */
  method StageAll(disk: Disk, s: Sources, site: Site, version: string) returns (names: Option<seq<Name>>)
    requires disk.Valid()
    modifies disk
    ensures disk.Valid() && disk.hitches >= old(disk.hitches) && old(disk.trace) <= disk.trace
    ensures names.Some? ==> disk.hitches == old(disk.hitches)
    ensures KeepsAllButStaged(disk.trace, |old(disk.trace)|, old(disk.files)) && OnlyStaged(old(disk.files), disk.files)
    ensures names.Some? ==>
      && CopiesMatch(s, disk.hash)
      && StagedAll(disk.files, old(disk.files), names.value, s, NewManifest(s, site, version, disk.hash))
    ensures names.None? ==>
      || disk.hitches > old(disk.hitches)
      || (disk.files == old(disk.files) && !CopiesMatch(s, disk.hash))
  {
    ghost var orig, base := disk.files, |disk.trace|;
    var all := StageNext(disk, s.payloadCopy, Some(disk.hash(s.payload)), [], orig, base);
    if all.None? {
      return None;
    }
    all := StageNext(disk, s.uninstallerCopy, Some(disk.hash(s.self)), all.value, orig, base);
    if all.None? {
      return None;
    }
    all := StageNext(disk, s.updaterCopy, Some(disk.hash(s.self)), all.value, orig, base);
    if all.None? {
      return None;
    }
    all := StageNext(disk, Record(NewManifest(s, site, version, disk.hash)), None, all.value, orig, base);
    if all.None? {
      return None;
    }
    names := Some([all.value[0], all.value[2], all.value[1], all.value[3]]);
    Reordered(disk.files, orig, all.value);
  }

  lemma Reordered(d: Dir, orig: Dir, names: seq<Name>)
    requires |names| == 4 && StagedSoFar(d, orig, names)
    ensures StagedSoFar(d, orig, [names[0], names[2], names[1], names[3]])
  {
    var other := [names[0], names[2], names[1], names[3]];
    forall n
      ensures n in names <==> n in other
    {
      assert other[0] == names[0] && other[1] == names[2] && other[2] == names[1] && other[3] == names[3];
    }
  }

  // ---- install ----

  /** Declined: nothing was committed. RolledBack: the commit or its verification failed and the old
      state is back. RecoveryNeeded: the rollback reported a failure. */
  datatype InstallOutcome = Declined | RolledBack | RecoveryNeeded | Installed

  ghost predicate InstalledAs(d: Dir, site: Site, version: string, hash: Hash) {
    && Manifest in d && d[Manifest].Record?
    && Verified(d, site, d[Manifest].manifest, hash)
    && d[Manifest].manifest.version == version
  }

  ghost predicate InstallSession(script: seq<Dir>, outcome: InstallOutcome, site: Site, version: string, hash: Hash) {
    && |script| > 0
    && (forall k :: 0 <= k < |script| ==> ForeignSame(script[0], script[k]))
    && (outcome == Declined || outcome == RolledBack ==> OwnedSame(script[0], script[|script| - 1]))
    && (outcome == Installed ==>
          && Owns(script[0], site, version, hash)
          && InstalledAs(script[|script| - 1], site, version, hash))
  }

  /** The records of the four prepared files, before the commit. */
  ghost function Start(names: seq<Name>): seq<Rec>
    requires |names| == 4
  {
    [Rec(Some(names[0]), Ex5, None, false, false, None),
     Rec(Some(names[1]), Updater, None, false, false, None),
     Rec(Some(names[2]), Uninstaller, None, false, false, None),
     Rec(Some(names[3]), Manifest, None, false, false, None)]
  }

  lemma StartIsPrepared(names: seq<Name>, d: Dir, orig: Dir, s: Sources, m: InstallManifest)
    requires StagedAll(d, orig, names, s, m)
    ensures Prepared(Start(names), d)
  {
    assert names[0] != names[1] && names[0] != names[2] && names[0] != names[3];
    assert names[1] != names[2] && names[1] != names[3] && names[2] != names[3];
    forall i | 0 <= i < 4
      ensures AtStart(Start(names)[i], d)
    {
      assert names[i] in d;
    }
  }

  /** The records of a transaction on the four owned names, at any moment. */
  ghost predicate OnOwned(rs: seq<Rec>, names: seq<Name>) {
    |names| == 4 && (forall i :: 0 <= i < 4 ==> names[i].Staged?) && SameFiles(Start(names), rs)
  }

  lemma OnOwnedFiles(rs: seq<Rec>, names: seq<Name>)
    requires OnOwned(rs, names)
    ensures |rs| == 4
    ensures rs[0].final == Ex5 && rs[1].final == Updater && rs[2].final == Uninstaller && rs[3].final == Manifest
    ensures forall i :: 0 <= i < 4 ==> rs[i].temp == Some(names[i])
  {
    forall i | 0 <= i < 4
      ensures Start(names)[i].temp == rs[i].temp && Start(names)[i].final == rs[i].final
    {
    }
  }

  /** A transaction on the owned names leaves every foreign name alone at every step. */
  lemma TransactionKeepsForeign(d: Dir, trace: seq<Dir>, base: nat, rs: seq<Rec>, orig: Dir, strays: set<Name>,
                                names: seq<Name>)
    requires Good(d, trace, base, rs, orig, strays) && OnOwned(rs, names)
    ensures KeepsForeign(trace, base, orig)
  {
    OnOwnedFiles(rs, names);
    forall k, n: Name | base <= k < |trace| && n.Foreign?
      ensures SameAt(orig, trace[k], n)
    {
      forall i | 0 <= i < |rs|
        ensures !Names(rs[i], n)
      {
        assert rs[i].slot.Some? ==> rs[i].slot.value.Backup?;
        assert rs[i].temp == Some(names[i]);
      }
      assert Elsewhere(rs, n);
      assert Conserved(trace[k], rs, orig);
    }
  }

  /** The staged files are gone and everything else is back, except, unless `clean`, for an empty reserved
      backup name. */
  ghost predicate BackAgain(orig: Dir, d: Dir, names: seq<Name>, clean: bool) {
    && (forall i :: 0 <= i < |names| ==> names[i] !in d)
    && (forall n :: n !in names ==> SameAt(orig, d, n) || (!clean && StrayIn(d, orig, n)))
  }

  lemma RestoredIsBack(d: Dir, rs: seq<Rec>, orig: Dir, strays: set<Name>, names: seq<Name>)
    requires OnOwned(rs, names) && (forall i :: 0 <= i < |rs| ==> rs[i].temp.Some?) && Restored(d, rs, orig, strays)
    ensures BackAgain(orig, d, names, strays == {})
  {
    OnOwnedFiles(rs, names);
    forall i | 0 <= i < |names|
      ensures names[i] !in d
    {
      assert rs[i].temp.value !in d;
    }
    forall n | n !in names
      ensures SameAt(orig, d, n) || (strays != {} && StrayIn(d, orig, n))
    {
      forall i | 0 <= i < |rs|
        ensures rs[i].temp.value != n
      {
        assert rs[i].temp == Some(names[i]);
      }
      if n in strays {
        assert StrayIn(d, orig, n);
      } else {
        assert SameAt(d, orig, n);
      }
    }
  }

  /** The old bytes of every owned file are in its place or under a backup name. */
  ghost predicate Recoverable(orig: Dir, d: Dir) {
    forall n :: n in OWNED && n in orig ==> (n in d && d[n] == orig[n]) || InBackup(d, orig[n])
  }

  ghost predicate InBackup(d: Dir, content: Content) {
    exists b: Name :: b.Backup? && b in d && d[b] == content
  }

  lemma ConservedIsRecoverable(d: Dir, rs: seq<Rec>, orig: Dir, strays: set<Name>, names: seq<Name>)
    requires Inv(d, rs, orig, strays) && OnOwned(rs, names)
    ensures Recoverable(orig, d)
  {
    OnOwnedFiles(rs, names);
    InvConserves(d, rs, orig, strays);
    forall n | n in OWNED && n in orig
      ensures (n in d && d[n] == orig[n]) || InBackup(d, orig[n])
    {
      var i := if n == Ex5 then 0 else if n == Updater then 1 else if n == Uninstaller then 2 else 3;
      assert Kept(d, rs[i], orig) && rs[i].final == n;
      assert rs[i].slot.Some? ==> rs[i].slot.value.Backup?;
    }
  }

  lemma ReplacedOwned(d: Dir, rs: seq<Rec>, orig: Dir, names: seq<Name>)
    requires OnOwned(rs, names) && Replaced(d, rs, orig)
    ensures forall i :: 0 <= i < 4 ==> names[i] in orig
    ensures Ex5 in d && d[Ex5] == orig[names[0]]
    ensures Updater in d && d[Updater] == orig[names[1]]
    ensures Uninstaller in d && d[Uninstaller] == orig[names[2]]
    ensures Manifest in d && d[Manifest] == orig[names[3]]
  {
    OnOwnedFiles(rs, names);
    assert Swapped(d, rs[0], orig) && Swapped(d, rs[1], orig) && Swapped(d, rs[2], orig) && Swapped(d, rs[3], orig);
  }

  /** The outside world as one installation meets it: whether the resolved destination is inside the
      Experts root, and whether the recorded topology still resolves. */
  datatype Surroundings = Surroundings(contained: bool, topologySame: bool)

  /** The reasons, other than a failing operation, for the verification to fail. */
  ghost predicate CannotVerify(d: Dir, unsafe: Unsafe, w: Surroundings, site: Site, version: string,
                               canonical: Digest, hash: Hash) {
    || unsafe * OWNED != {} || !w.contained || !w.topologySame
    || Ex5 !in d || hash(d[Ex5]) != canonical
    || !InstalledAs(d, site, version, hash)
  }

  /** The checks of runInstall after the commit. */
  method VerifyInstalled(disk: Disk, unsafe: Unsafe, w: Surroundings, site: Site, version: string, canonical: Digest)
    returns (ok: bool)
    modifies disk`clock, disk`hitches
    ensures disk.hitches >= old(disk.hitches)
    ensures ok ==> disk.hitches == old(disk.hitches)
    ensures ok ==> !CannotVerify(disk.files, unsafe, w, site, version, canonical, disk.hash)
    ensures !ok ==> disk.hitches > old(disk.hitches)
                    || CannotVerify(disk.files, unsafe, w, site, version, canonical, disk.hash)
  {
    var resolved := disk.Probe();
    if !resolved || !w.contained {
      return false;
    }
    var installed := disk.Hash(Ex5);
    if installed != Some(canonical) {
      return false;
    }
    var verified := ReadVerifiedInstall(disk, unsafe, site, w.topologySame);
    ok := verified.Some? && verified.value.version == version;
  }

  ghost predicate HasAll(d: Dir, s: Sources, m: InstallManifest) {
    && Ex5 in d && d[Ex5] == s.payloadCopy
    && Updater in d && d[Updater] == s.updaterCopy
    && Uninstaller in d && d[Uninstaller] == s.uninstallerCopy
    && Manifest in d && d[Manifest] == Record(m)
  }

  lemma SameOwnedHasAll(d: Dir, d': Dir, s: Sources, m: InstallManifest)
    requires OwnedSame(d, d') && HasAll(d, s, m)
    ensures HasAll(d', s, m)
  {
    assert SameAt(d, d', Ex5) && SameAt(d, d', Updater) && SameAt(d, d', Uninstaller) && SameAt(d, d', Manifest);
  }

  lemma UnsafeFinalIsOwned(names: seq<Name>, d: Dir, unsafe: Unsafe)
    requires |names| == 4
    ensures !SafeBefore(Start(names), 4, d, unsafe) ==> unsafe * OWNED != {}
  {
    if !SafeBefore(Start(names), 4, d, unsafe) {
      var i :| 0 <= i < 4 && UnsafeFinal(Start(names)[i], d, unsafe);
      assert Start(names)[i].final in unsafe * OWNED;
    }
  }

  lemma OnOwnedAgain(rs: seq<Rec>, rs': seq<Rec>, names: seq<Name>)
    requires OnOwned(rs, names) && SameFiles(rs, rs')
    ensures OnOwned(rs', names)
  {
    forall i | 0 <= i < 4
      ensures Start(names)[i].temp == rs'[i].temp && Start(names)[i].final == rs'[i].final
    {
      assert rs[i].temp == rs'[i].temp;
    }
  }

  lemma ReplacedForeign(d: Dir, rs: seq<Rec>, orig: Dir, names: seq<Name>)
    requires OnOwned(rs, names) && Replaced(d, rs, orig)
    ensures ForeignSame(orig, d)
  {
    OnOwnedFiles(rs, names);
    forall n: Name | n.Foreign?
      ensures SameAt(orig, d, n)
    {
      forall i | 0 <= i < |rs|
        ensures !Names(rs[i], n)
      {
        assert Swapped(d, rs[i], orig) && rs[i].temp == Some(names[i]);
      }
      assert Elsewhere(rs, n);
    }
  }

  lemma FinalizeKeepsOwned(d: Dir, trace: seq<Dir>, d': Dir, trace': seq<Dir>, base: nat, rs: seq<Rec>, orig: Dir,
                           names: seq<Name>)
    requires OnOwned(rs, names) && Replaced(d, rs, orig) && KeepsForeign(trace, base, orig)
    requires trace <= trace' && 0 < base <= |trace|
    requires forall k :: |trace| <= k < |trace'| ==> SameButBackups(d, trace'[k], rs)
    requires SameButBackups(d, d', rs) && ForeignSame(orig, d)
    ensures KeepsForeign(trace', base, orig) && OwnedSame(d, d')
  {
    forall n | IsBackup(rs, n)
      ensures n.Backup?
    {
      var i :| 0 <= i < |rs| && rs[i].backup == Some(n);
      assert Swapped(d, rs[i], orig);
    }
    forall k, n: Name | base <= k < |trace'| && n.Foreign?
      ensures SameAt(orig, trace'[k], n)
    {
      if k < |trace| {
        assert ForeignSame(orig, trace[k]);
      } else {
        assert SameAt(d, trace'[k], n);
      }
    }
  }

  /** The staged files are gone and nothing else but the owned names has changed, except, unless `clean`, for
      backups that could not be removed. */
  ghost predicate Tidy(orig: Dir, d: Dir, names: seq<Name>, clean: bool) {
    && (forall i :: 0 <= i < |names| ==> names[i] !in d)
    && (forall n :: n !in OWNED && n !in names ==> SameAt(orig, d, n) || (!clean && n.Backup? && n !in orig))
  }

  lemma FinalizeTidies(d: Dir, d': Dir, rs: seq<Rec>, orig: Dir, names: seq<Name>, clean: bool)
    requires OnOwned(rs, names) && Replaced(d, rs, orig) && SameButBackups(d, d', rs)
    requires clean ==> forall i :: 0 <= i < |rs| && rs[i].backup.Some? ==> rs[i].backup.value !in d'
    ensures Tidy(orig, d', names, clean)
  {
    OnOwnedFiles(rs, names);
    forall i | 0 <= i < |names|
      ensures names[i] !in d'
    {
      assert Swapped(d, rs[i], orig) && rs[i].temp == Some(names[i]);
    }
    forall n | n !in OWNED && n !in names
      ensures SameAt(orig, d', n) || (!clean && n.Backup? && n !in orig)
    {
      if Elsewhere(rs, n) {
        assert SameAt(d, orig, n);
        BackupIsNamed(d, rs, orig, n);
      } else {
        var i :| 0 <= i < |rs| && Names(rs[i], n);
        assert Swapped(d, rs[i], orig) && rs[i].temp == Some(names[i]);
        assert rs[i].backup == Some(n);
      }
    }
  }

  lemma BackupIsNamed(d: Dir, rs: seq<Rec>, orig: Dir, n: Name)
    requires Replaced(d, rs, orig) && Elsewhere(rs, n)
    ensures !IsBackup(rs, n)
  {
    forall i | 0 <= i < |rs|
      ensures rs[i].backup != Some(n)
    {
      assert Swapped(d, rs[i], orig) && !Names(rs[i], n);
    }
  }

  /** rollbackInstallation on the four owned files. */
  method UndoInstall(disk: Disk, files: seq<PreparedFile>, ghost base: nat, ghost rs: seq<Rec>, ghost orig: Dir,
                     ghost strays: set<Name>, ghost names: seq<Name>)
    returns (outcome: InstallOutcome)
    requires disk.Valid() && Distinct(files) && Views(files, rs) && OnOwned(rs, names)
    requires Good(disk.files, disk.trace, base, rs, orig, strays)
    modifies disk, files
    ensures disk.Valid() && disk.hitches >= old(disk.hitches) && old(disk.trace) <= disk.trace
    ensures KeepsForeign(disk.trace, base, orig)
    ensures outcome == RolledBack || (outcome == RecoveryNeeded && disk.hitches > old(disk.hitches))
    ensures outcome == RolledBack ==> BackAgain(orig, disk.files, names, strays == {})
    ensures outcome == RecoveryNeeded ==> Recoverable(orig, disk.files)
  {
    var restored, now := RollbackPrepared(disk, files, base, rs, orig, strays);
    OnOwnedAgain(rs, now, names);
    TransactionKeepsForeign(disk.files, disk.trace, base, now, orig, strays, names);
    if restored {
      RestoredIsBack(disk.files, now, orig, strays, names);
    } else {
      ConservedIsRecoverable(disk.files, now, orig, strays, names);
    }
    outcome := if restored then RolledBack else RecoveryNeeded;
  }

  /** finalizePrepared on the four owned files. */
  method FinalizeInstall(disk: Disk, files: seq<PreparedFile>, ghost base: nat, ghost rs: seq<Rec>, ghost orig: Dir,
                         ghost names: seq<Name>)
    requires disk.Valid() && Distinct(files) && Views(files, rs) && OnOwned(rs, names)
    requires Good(disk.files, disk.trace, base, rs, orig, {}) && Replaced(disk.files, rs, orig)
    requires 0 < base
    modifies disk, files
    ensures disk.Valid() && disk.hitches >= old(disk.hitches) && old(disk.trace) <= disk.trace
    ensures KeepsForeign(disk.trace, base, orig) && OwnedSame(old(disk.files), disk.files)
    ensures Tidy(orig, disk.files, names, disk.hitches == old(disk.hitches))
  {
    ghost var d, trace := disk.files, disk.trace;
    TransactionKeepsForeign(d, trace, base, rs, orig, {}, names);
    ReplacedForeign(d, rs, orig, names);
    FinalizePrepared(disk, files, rs);
    FinalizeKeepsOwned(d, trace, disk.files, disk.trace, base, rs, orig, names);
    FinalizeTidies(d, disk.files, rs, orig, names, disk.hitches == old(disk.hitches));
  }

  /** After the commit: verification, then rollback or finalizePrepared. */
  method VerifyOrUndo(disk: Disk, files: seq<PreparedFile>, unsafe: Unsafe, w: Surroundings, site: Site,
                      version: string, canonical: Digest, ghost base: nat, ghost rs: seq<Rec>, ghost orig: Dir,
                      ghost names: seq<Name>)
    returns (outcome: InstallOutcome)
    requires disk.Valid() && Distinct(files) && Views(files, rs) && OnOwned(rs, names)
    requires Good(disk.files, disk.trace, base, rs, orig, {}) && Replaced(disk.files, rs, orig)
    requires 0 < base
    modifies disk, files
    ensures disk.Valid() && disk.hitches >= old(disk.hitches) && old(disk.trace) <= disk.trace
    ensures KeepsForeign(disk.trace, base, orig)
    ensures outcome == RolledBack || outcome == Installed
            || (outcome == RecoveryNeeded && disk.hitches > old(disk.hitches))
    ensures outcome == RolledBack ==> BackAgain(orig, disk.files, names, true)
    ensures outcome == RecoveryNeeded ==> Recoverable(orig, disk.files)
    ensures outcome == Installed ==>
      && OwnedSame(old(disk.files), disk.files)
      && Tidy(orig, disk.files, names, disk.hitches == old(disk.hitches))
      && InstalledAs(disk.files, site, version, disk.hash)
      && !CannotVerify(old(disk.files), unsafe, w, site, version, canonical, disk.hash)
    ensures outcome == Installed || disk.hitches > old(disk.hitches)
            || CannotVerify(old(disk.files), unsafe, w, site, version, canonical, disk.hash)
  {
    var verified := VerifyInstalled(disk, unsafe, w, site, version, canonical);
    if !verified {
      outcome := UndoInstall(disk, files, base, rs, orig, {}, names);
      return;
    }
    ghost var d := disk.files;
    FinalizeInstall(disk, files, base, rs, orig, names);
    SameOwnedInstalled(d, disk.files, site, version, disk.hash);
    outcome := Installed;
  }

  lemma SameOwnedInstalled(d: Dir, d': Dir, site: Site, version: string, hash: Hash)
    requires OwnedSame(d, d') && InstalledAs(d, site, version, hash)
    ensures InstalledAs(d', site, version, hash)
  {
    assert SameAt(d, d', Ex5) && SameAt(d, d', Updater) && SameAt(d, d', Uninstaller) && SameAt(d, d', Manifest);
  }

  method Prepare(names: seq<Name>) returns (files: seq<PreparedFile>)
    requires |names| == 4
    ensures Distinct(files) && Views(files, Start(names)) && forall i :: 0 <= i < |files| ==> fresh(files[i])
  {
    var ex5 := new PreparedFile(names[0], Ex5);
    var updater := new PreparedFile(names[1], Updater);
    var uninstaller := new PreparedFile(names[2], Uninstaller);
    var manifest := new PreparedFile(names[3], Manifest);
    files := [ex5, updater, uninstaller, manifest];
  }

  /** What the transaction says about the four owned files when it fails. */
  lemma FailedCommit(d: Dir, trace: seq<Dir>, base: nat, rs: seq<Rec>, orig: Dir, strays: set<Name>,
                     names: seq<Name>, restored: bool)
    requires Good(d, trace, base, rs, orig, strays) && OnOwned(rs, names)
    requires restored ==> (forall i :: 0 <= i < |rs| ==> rs[i].temp.Some?) && Restored(d, rs, orig, strays)
    ensures KeepsForeign(trace, base, orig) && Recoverable(orig, d)
    ensures restored ==> BackAgain(orig, d, names, strays == {})
  {
    TransactionKeepsForeign(d, trace, base, rs, orig, strays, names);
    ConservedIsRecoverable(d, rs, orig, strays, names);
    if restored {
      RestoredIsBack(d, rs, orig, strays, names);
    }
  }

  /** The commit of runInstall: commitPrepared, verification, rollback or finalizePrepared. */
  method CommitInstall(disk: Disk, unsafe: Unsafe, w: Surroundings, site: Site, version: string, canonical: Digest,
                       names: seq<Name>, ghost orig: Dir, ghost s: Sources, ghost m: InstallManifest)
    returns (outcome: InstallOutcome)
    requires disk.Valid() && StagedAll(disk.files, orig, names, s, m)
    modifies disk
    ensures disk.Valid() && disk.hitches >= old(disk.hitches) && old(disk.trace) <= disk.trace
    ensures KeepsForeign(disk.trace, |old(disk.trace)|, old(disk.files))
    ensures outcome != Declined
    ensures outcome == RolledBack ==> BackAgain(old(disk.files), disk.files, names, disk.hitches == old(disk.hitches))
    ensures outcome == RecoveryNeeded ==> disk.hitches > old(disk.hitches) && Recoverable(old(disk.files), disk.files)
    ensures outcome == Installed ==>
      && InstalledAs(disk.files, site, version, disk.hash) && HasAll(disk.files, s, m)
      && Tidy(old(disk.files), disk.files, names, disk.hitches == old(disk.hitches))
      && unsafe * OWNED == {} && w.contained && w.topologySame && disk.hash(s.payloadCopy) == canonical
    ensures outcome == Installed || disk.hitches > old(disk.hitches) || unsafe * OWNED != {}
            || exists d :: HasAll(d, s, m) && CannotVerify(d, unsafe, w, site, version, canonical, disk.hash)
  {
    StartIsPrepared(names, disk.files, orig, s, m);
    ghost var d1, base := disk.files, |disk.trace|;
    var files := Prepare(names);
    var ok, restored, rs, strays := CommitPrepared(disk, files, unsafe, Start(names));
    if ok {
      ReplacedOwned(disk.files, rs, d1, names);
      ghost var d2 := disk.files;
      assert HasAll(d2, s, m);
      outcome := VerifyOrUndo(disk, files, unsafe, w, site, version, canonical, base, rs, d1, names);
      if outcome == Installed {
        SameOwnedHasAll(d2, disk.files, s, m);
      }
    } else {
      UnsafeFinalIsOwned(names, d1, unsafe);
      FailedCommit(disk.files, disk.trace, base, rs, d1, strays, names, restored);
      outcome := if restored then RolledBack else RecoveryNeeded;
    }
  }

  /** What the end of an install must be like, after staging. */
  ghost predicate Ended(orig: Dir, d1: Dir, d: Dir, outcome: InstallOutcome, site: Site, version: string, hash: Hash) {
    && (outcome == Declined || outcome == RolledBack ==> OwnedSame(d1, d))
    && (outcome == Installed ==> Owns(orig, site, version, hash) && InstalledAs(d, site, version, hash))
  }

  /** The script of an install, from the claims about its parts: staging, from `before` to `middle`, and the rest. */
  lemma InstallScript(before: seq<Dir>, middle: seq<Dir>, after: seq<Dir>, orig: Dir, d1: Dir, d: Dir,
                      outcome: InstallOutcome, site: Site, version: string, hash: Hash)
    requires 0 < |before| && before <= middle <= after
    requires before[|before| - 1] == orig && middle[|middle| - 1] == d1 && after[|after| - 1] == d
    requires KeepsAllButStaged(middle, |before|, orig) && OnlyStaged(orig, d1)
    requires KeepsForeign(after, |middle|, d1)
    requires Ended(orig, d1, d, outcome, site, version, hash)
    ensures InstallSession(Script(after, before), outcome, site, version, hash)
  {
    var script := Script(after, before);
    assert script[0] == orig && script[|script| - 1] == d;
    forall k, n: Name | 0 <= k < |script| && n.Foreign?
      ensures SameAt(orig, script[k], n)
    {
      var p := |before| - 1 + k;
      assert script[k] == after[p] && SameAt(orig, d1, n);
      if p >= |middle| {
        assert ForeignSame(d1, after[p]) && SameAt(d1, after[p], n);
      } else if p >= |before| {
        assert OnlyStaged(orig, middle[p]);
      }
    }
    forall n | n in OWNED
      ensures SameAt(orig, d1, n)
    {
    }
  }

  lemma DeclinedScript(before: seq<Dir>, after: seq<Dir>, orig: Dir, d: Dir, site: Site, version: string, hash: Hash)
    requires 0 < |before| && before <= after
    requires before[|before| - 1] == orig && after[|after| - 1] == d
    requires KeepsAllButStaged(after, |before|, orig) && OnlyStaged(orig, d)
    ensures InstallSession(Script(after, before), Declined, site, version, hash)
  {
    InstallScript(before, after, after, orig, d, d, Declined, site, version, hash);
  }

  /** The reasons, other than a failing operation, for an installation not to be accepted. */
  ghost predicate CannotInstall(d: Dir, unsafe: Unsafe, approved: bool, payloadUsable: bool, w: Surroundings,
                                site: Site, version: string, s: Sources, hash: Hash) {
    || !approved || !payloadUsable || unsafe * OWNED != {} || !w.contained || !w.topologySame
    || !Owns(d, site, version, hash) || !CopiesMatch(s, hash) || Version.Parse(version).Err?
    || hash(s.payload) == MISSING_HASH || hash(s.self) == MISSING_HASH
  }

  lemma NewManifestVerifies(d: Dir, s: Sources, site: Site, version: string, hash: Hash)
    requires HasAll(d, s, NewManifest(s, site, version, hash)) && CopiesMatch(s, hash) && Version.Parse(version).Ok?
    requires hash(s.payload) != MISSING_HASH && hash(s.self) != MISSING_HASH
    ensures InstalledAs(d, site, version, hash) && hash(d[Ex5]) == hash(s.payload)
  {
    assert Exact([Ex5, Updater, Uninstaller, Manifest], OWNED);
  }

  /** A complete set of files fails the verification only for one of these reasons. */
  lemma WhyNotInstalled(orig: Dir, unsafe: Unsafe, w: Surroundings, site: Site, version: string, s: Sources, hash: Hash)
    requires CopiesMatch(s, hash)
    requires unsafe * OWNED != {}
             || exists d :: HasAll(d, s, NewManifest(s, site, version, hash))
                            && CannotVerify(d, unsafe, w, site, version, hash(s.payload), hash)
    ensures CannotInstall(orig, unsafe, true, true, w, site, version, s, hash)
  {
    if !CannotInstall(orig, unsafe, true, true, w, site, version, s, hash) {
      var d :| HasAll(d, s, NewManifest(s, site, version, hash))
               && CannotVerify(d, unsafe, w, site, version, hash(s.payload), hash);
      NewManifestVerifies(d, s, site, version, hash);
    }
  }

  /** Everything is as it was, except, unless `clean`, for an empty reserved backup name. */
  ghost predicate RestoredTo(orig: Dir, d: Dir, clean: bool) {
    forall n :: SameAt(orig, d, n) || (!clean && StrayIn(d, orig, n))
  }

  lemma BackWithoutStaged(orig: Dir, d1: Dir, d: Dir, names: seq<Name>, clean: bool)
    requires StagedSoFar(d1, orig, names) && BackAgain(d1, d, names, clean)
    ensures RestoredTo(orig, d, clean)
    ensures clean ==> d == orig
    ensures OwnedSame(d1, d)
  {
    forall n
      ensures SameAt(orig, d, n) || (!clean && StrayIn(d, orig, n))
    {
      if n !in names {
        assert SameAt(orig, d1, n);
      }
    }
    if clean {
      SameEverywhere(orig, d);
    }
  }

  /** Nothing but the owned names has changed, except, unless `clean`, for backups that could not be removed. */
  ghost predicate OnlyOwned(orig: Dir, d: Dir, clean: bool) {
    forall n :: n !in OWNED ==> SameAt(orig, d, n) || (!clean && n.Backup? && n !in orig)
  }

  lemma TidyWithoutStaged(orig: Dir, d1: Dir, d: Dir, names: seq<Name>, clean: bool)
    requires StagedSoFar(d1, orig, names) && Tidy(d1, d, names, clean)
    ensures OnlyOwned(orig, d, clean)
  {
    forall n | n !in OWNED
      ensures SameAt(orig, d, n) || (!clean && n.Backup? && n !in orig)
    {
      if n !in names {
        assert SameAt(orig, d1, n);
      }
    }
  }

  lemma RecoverableWithoutStaged(orig: Dir, d1: Dir, d: Dir)
    requires OnlyStaged(orig, d1) && Recoverable(d1, d)
    ensures Recoverable(orig, d)
  {
    forall n | n in OWNED && n in orig
      ensures (n in d && d[n] == orig[n]) || InBackup(d, orig[n])
    {
      assert SameAt(orig, d1, n);
    }
  }

  lemma StagedIsOnlyStaged(d: Dir, orig: Dir, names: seq<Name>)
    requires StagedSoFar(d, orig, names)
    ensures OnlyStaged(orig, d)
  {
  }

  /** The reasons, other than a failing operation, for nothing to be committed. */
  ghost predicate Declines(d: Dir, unsafe: Unsafe, approved: bool, payloadUsable: bool, site: Site, version: string,
                           s: Sources, hash: Hash) {
    !approved || !payloadUsable || !Owns(d, site, version, hash) || !Safe(d, unsafe) || !CopiesMatch(s, hash)
  }

  lemma DeclinesIsCannot(d: Dir, unsafe: Unsafe, approved: bool, payloadUsable: bool, w: Surroundings, site: Site,
                         version: string, s: Sources, hash: Hash)
    requires Declines(d, unsafe, approved, payloadUsable, site, version, s, hash)
    ensures CannotInstall(d, unsafe, approved, payloadUsable, w, site, version, s, hash)
  {
    if !Safe(d, unsafe) {
      var n :| n in OWNED && n in d && n in unsafe;
      assert n in unsafe * OWNED;
    }
  }

  lemma InstalledCould(orig: Dir, d: Dir, unsafe: Unsafe, w: Surroundings, site: Site, version: string, s: Sources,
                       hash: Hash)
    requires Owns(orig, site, version, hash) && CopiesMatch(s, hash) && unsafe * OWNED == {}
    requires w.contained && w.topologySame
    requires InstalledAs(d, site, version, hash) && HasAll(d, s, NewManifest(s, site, version, hash))
    ensures !CannotInstall(orig, unsafe, true, true, w, site, version, s, hash)
  {
    assert d[Manifest].manifest == NewManifest(s, site, version, hash);
  }

  /** Staging, commit and verification, once the ownership of what is there has been checked. */
  method StageAndCommit(disk: Disk, unsafe: Unsafe, w: Surroundings, site: Site, version: string, s: Sources)
    returns (outcome: InstallOutcome)
    requires disk.Valid() && Owns(disk.files, site, version, disk.hash)
    modifies disk
    ensures disk.Valid() && disk.hitches >= old(disk.hitches) && old(disk.trace) <= disk.trace
    ensures InstallSession(Script(disk.trace, old(disk.trace)), outcome, site, version, disk.hash)
    ensures outcome == Declined ==> OnlyStaged(old(disk.files), disk.files)
    ensures outcome == Declined ==>
      disk.hitches > old(disk.hitches) || (disk.files == old(disk.files) && !CopiesMatch(s, disk.hash))
    ensures outcome == RolledBack ==> RestoredTo(old(disk.files), disk.files, disk.hitches == old(disk.hitches))
    ensures outcome == RecoveryNeeded ==> disk.hitches > old(disk.hitches) && Recoverable(old(disk.files), disk.files)
    ensures outcome == Installed ==>
      && HasAll(disk.files, s, NewManifest(s, site, version, disk.hash))
      && OnlyOwned(old(disk.files), disk.files, disk.hitches == old(disk.hitches))
      && !CannotInstall(old(disk.files), unsafe, true, true, w, site, version, s, disk.hash)
    ensures outcome == Installed || disk.hitches > old(disk.hitches)
            || CannotInstall(old(disk.files), unsafe, true, true, w, site, version, s, disk.hash)
  {
    ghost var orig, before := disk.files, disk.trace;
    var staged := StageAll(disk, s, site, version);
    if staged.None? {
      return Declined;
    }
    outcome := CommitStaged(disk, unsafe, w, site, version, s, staged.value, orig, before);
  }

  /** The commit of the staged files, seen from before they were staged. */
  method CommitStaged(disk: Disk, unsafe: Unsafe, w: Surroundings, site: Site, version: string, s: Sources,
                      names: seq<Name>, ghost orig: Dir, ghost before: seq<Dir>)
    returns (outcome: InstallOutcome)
    requires disk.Valid() && Owns(orig, site, version, disk.hash) && CopiesMatch(s, disk.hash)
    requires 0 < |before| && before <= disk.trace && before[|before| - 1] == orig
    requires KeepsAllButStaged(disk.trace, |before|, orig)
    requires StagedAll(disk.files, orig, names, s, NewManifest(s, site, version, disk.hash))
    modifies disk
    ensures disk.Valid() && disk.hitches >= old(disk.hitches) && old(disk.trace) <= disk.trace
    ensures InstallSession(Script(disk.trace, before), outcome, site, version, disk.hash) && outcome != Declined
    ensures outcome == RolledBack ==> RestoredTo(orig, disk.files, disk.hitches == old(disk.hitches))
    ensures outcome == RecoveryNeeded ==> disk.hitches > old(disk.hitches) && Recoverable(orig, disk.files)
    ensures outcome == Installed ==>
      && HasAll(disk.files, s, NewManifest(s, site, version, disk.hash))
      && OnlyOwned(orig, disk.files, disk.hitches == old(disk.hitches))
      && !CannotInstall(orig, unsafe, true, true, w, site, version, s, disk.hash)
    ensures outcome == Installed || disk.hitches > old(disk.hitches)
            || CannotInstall(orig, unsafe, true, true, w, site, version, s, disk.hash)
  {
    ghost var d1, middle, m := disk.files, disk.trace, NewManifest(s, site, version, disk.hash);
    outcome := CommitInstall(disk, unsafe, w, site, version, disk.hash(s.payload), names, orig, s, m);
    StagedIsOnlyStaged(d1, orig, names);
    AfterCommit(orig, d1, disk.files, names, outcome, disk.hitches == old(disk.hitches));
    if outcome == Installed {
      InstalledCould(orig, disk.files, unsafe, w, site, version, s, disk.hash);
    } else if disk.hitches == old(disk.hitches) {
      WhyNotInstalled(orig, unsafe, w, site, version, s, disk.hash);
    }
    InstallScript(before, middle, disk.trace, orig, d1, disk.files, outcome, site, version, disk.hash);
  }

  lemma AfterCommit(orig: Dir, d1: Dir, d: Dir, names: seq<Name>, outcome: InstallOutcome, clean: bool)
    requires StagedSoFar(d1, orig, names) && OnlyStaged(orig, d1)
    requires outcome == RolledBack ==> BackAgain(d1, d, names, clean)
    requires outcome == Installed ==> Tidy(d1, d, names, clean)
    requires outcome == RecoveryNeeded ==> Recoverable(d1, d)
    ensures outcome == RolledBack ==> RestoredTo(orig, d, clean) && OwnedSame(d1, d)
    ensures outcome == Installed ==> OnlyOwned(orig, d, clean)
    ensures outcome == RecoveryNeeded ==> Recoverable(orig, d)
  {
    match outcome
    case RolledBack => BackWithoutStaged(orig, d1, d, names, clean);
    case Installed => TidyWithoutStaged(orig, d1, d, names, clean);
    case RecoveryNeeded => RecoverableWithoutStaged(orig, d1, d);
    case Declined =>
  }

  /** runInstall, under the lock. */
  method RunInstall(disk: Disk, unsafe: Unsafe, approved: bool, payloadUsable: bool, w: Surroundings, site: Site,
                    version: string, s: Sources)
    returns (outcome: InstallOutcome)
    requires disk.Valid()
    modifies disk
    ensures disk.Valid() && disk.hitches >= old(disk.hitches) && old(disk.trace) <= disk.trace
    ensures InstallSession(Script(disk.trace, old(disk.trace)), outcome, site, version, disk.hash)
    ensures outcome == Declined ==> OnlyStaged(old(disk.files), disk.files)
    ensures outcome == Declined && disk.hitches == old(disk.hitches) ==>
      && disk.files == old(disk.files)
      && Declines(old(disk.files), unsafe, approved, payloadUsable, site, version, s, disk.hash)
    ensures outcome != Declined || disk.files != old(disk.files) ==>
      approved && payloadUsable && Owns(old(disk.files), site, version, disk.hash) && Safe(old(disk.files), unsafe)
    ensures outcome == RolledBack ==> RestoredTo(old(disk.files), disk.files, disk.hitches == old(disk.hitches))
    ensures outcome == RecoveryNeeded ==> disk.hitches > old(disk.hitches) && Recoverable(old(disk.files), disk.files)
    ensures outcome == Installed ==>
      && HasAll(disk.files, s, NewManifest(s, site, version, disk.hash))
      && OnlyOwned(old(disk.files), disk.files, disk.hitches == old(disk.hitches))
      && !CannotInstall(old(disk.files), unsafe, approved, payloadUsable, w, site, version, s, disk.hash)
    ensures outcome == Installed || disk.hitches > old(disk.hitches)
            || CannotInstall(old(disk.files), unsafe, approved, payloadUsable, w, site, version, s, disk.hash)
  {
    ghost var orig, before := disk.files, disk.trace;
    DeclinedScript(before, before, orig, orig, site, version, disk.hash);
    if Declines(orig, unsafe, approved, payloadUsable, site, version, s, disk.hash) {
      DeclinesIsCannot(orig, unsafe, approved, payloadUsable, w, site, version, s, disk.hash);
    }
    if !approved {
      return Declined;
    }
    var owns := ValidateOwnership(disk, unsafe, site, version);
    if !owns || !payloadUsable {
      return Declined;
    }
    outcome := StageAndCommit(disk, unsafe, w, site, version, s);
  }
}
