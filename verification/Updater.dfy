/** The updater: its persisted state, the offer of a newer version, and one worker from start to end. */
module Updater {
  import opened Wrappers
  import opened Directory
  import opened Installer
  import opened Sessions
  import NamedMutex
  import Version

  /** Nanoseconds since Go's zero time. */
  type Time = nat

  const ZERO: Time := 0
  const DAY: Time := 24 * 60 * 60 * 1_000_000_000
  const STATE_SCHEMA := 1

  datatype State = State(
    schema: int,
    id: string,
    lastAttempt: Time,
    lastSuccess: Time,
    deferredVersion: string,
    deferredUntil: Time)

  function FreshState(id: string): State { State(STATE_SCHEMA, id, ZERO, ZERO, "", ZERO) }

  predicate ShouldAttempt(s: State, now: Time) {
    s.lastAttempt == ZERO || now >= s.lastAttempt + DAY
  }

  predicate IsDeferred(s: State, version: string, now: Time) {
    s.deferredVersion == version && now < s.deferredUntil
  }

  /** What a check that reached the signed manifest offers: the available version, if it is strictly newer. */
  function Offer(current: string, available: string): Result<Option<string>> {
    var c, a := Version.Parse(current), Version.Parse(available);
    if c.Err? then Err("installed version")
    else if a.Err? then Err("available version")
    else if Version.Compare(a.value, c.value) <= 0 then Ok(None)
    else Ok(Some(available))
  }

  /** A version of greater rank. */
  predicate Newer(v: string, current: string) {
    && Version.Parse(v).Ok? && Version.Parse(current).Ok?
    && Version.Weight(Version.Parse(current).value) < Version.Weight(Version.Parse(v).value)
  }

  /** An offer is exactly a version of greater rank; no version is offered to itself, nor two to each other. */
  lemma OfferIsNewer(current: string, available: string)
    requires Version.Parse(current).Ok? && Version.Parse(available).Ok?
    ensures Offer(current, available) == Ok(Some(available)) <==> Newer(available, current)
    ensures Offer(current, available) == Ok(None) <==> Version.AtMost(available, current)
    ensures Newer(available, current) ==> Offer(available, current) == Ok(None)
  {
    Version.AtMostIsCompare(available, current);
    Version.AtMostIsCompare(current, available);
    Version.CompareIsTotalOrder(current, available, current);
  }

  // ---- the state file ----

  datatype Stored = Nothing | Unreadable | Saved(state: State)

  /** The state a worker starts from when the file reads back as it was saved. */
  function Known(stored: Stored, id: string): State {
    if stored.Saved? && stored.state.schema == STATE_SCHEMA && stored.state.id == id then stored.state
    else FreshState(id)
  }

  /** What others can see of a worker: a saved state, or an attempt to reach the network. */
  datatype Op = Save(state: State) | Fetch(at: Time)

  /** The operations of one worker that found `known`: nothing, or first the save of an attempt that is due,
      then at most one fetch, then saves that keep the recorded attempt. */
  ghost predicate CheckSession(ops: seq<Op>, known: State, id: string) {
    ops == []
    || (&& ops[0].Save? && ShouldAttempt(known, ops[0].state.lastAttempt)
        && (forall k :: 0 <= k < |ops| && ops[k].Save? ==> SameRecord(ops[0].state, ops[k].state, id))
        && (|ops| > 1 ==> ops[1] == Fetch(ops[0].state.lastAttempt))
        && (forall k :: 2 <= k < |ops| ==> ops[k].Save?))
  }

  predicate SameRecord(a: State, b: State, id: string) {
    b.schema == STATE_SCHEMA && b.id == id && b.lastAttempt == a.lastAttempt
  }

  lemma SessionGrows(ops: seq<Op>, s: State, known: State, id: string)
    requires CheckSession(ops, known, id) && |ops| >= 2 && SameRecord(ops[0].state, s, id)
    ensures CheckSession(ops + [Save(s)], known, id)
  {
  }

  class Store {
    const id: string
    var stored: Stored
    var clock: nat

    // The oracle: whether the n-th file operation fails.
    const faulty: nat -> bool

    ghost var log: seq<Op>

    // How many operations have failed.
    ghost var hitches: nat

    constructor (id: string, stored: Stored, faulty: nat -> bool)
      ensures this.id == id && this.stored == stored && this.faulty == faulty && clock == 0 && log == []
              && hitches == 0
    {
      this.id, this.stored, this.faulty, this.clock := id, stored, faulty, 0;
      this.log, this.hitches := [], 0;
    }

    /** The state directory and its log file are ready. */
    method Prepare() returns (ok: bool)
      modifies this`clock, this`hitches
      ensures clock == old(clock) + 1 && (ok <==> !faulty(old(clock)))
      ensures hitches == old(hitches) + if ok then 0 else 1
    {
      ok := !faulty(clock);
      hitches := hitches + if ok then 0 else 1;
      clock := clock + 1;
    }

    /** loadUpdaterState; None is an error. A missing file is a fresh state. */
    method Load() returns (r: Option<State>)
      modifies this`clock, this`hitches
      ensures clock == old(clock) + 1
      ensures hitches == old(hitches) + if faulty(old(clock)) then 1 else 0
      ensures r.Some? ==> r.value == Known(stored, id) && hitches == old(hitches)
      ensures r.None? ==> hitches > old(hitches) || Known(stored, id) == FreshState(id)
    {
      hitches := hitches + if faulty(clock) then 1 else 0;
      if faulty(clock) || stored.Unreadable? {
        r := None;
      } else if stored.Nothing? {
        r := Some(FreshState(id));
      } else if stored.state.schema != STATE_SCHEMA || stored.state.id != id {
        r := None;
      } else {
        r := Some(stored.state);
      }
      clock := clock + 1;
    }

    /** saveUpdaterState: the file is replaced as a whole, or stays as it is. */
    method Replace(s: State) returns (ok: bool)
      modifies this
      ensures clock == old(clock) + 1 && (ok <==> !faulty(old(clock)))
      ensures hitches == old(hitches) + if ok then 0 else 1
      ensures ok ==> stored == Saved(s) && log == old(log) + [Save(s)]
      ensures !ok ==> stored == old(stored) && log == old(log)
    {
      ok := !faulty(clock);
      hitches := hitches + if ok then 0 else 1;
      if ok {
        stored := Saved(s);
        log := log + [Save(s)];
      }
      clock := clock + 1;
    }

    /** Since `before` a worker that found `known` recorded an attempt, reached the network and kept the record. */
    ghost predicate Ran(before: seq<Op>, known: State, record: State)
      reads this
    {
      && |before| + 2 <= |log| && log[..|before|] == before && log[|before|] == Save(record)
      && CheckSession(log[|before|..], known, id)
      && stored.Saved? && SameRecord(record, stored.state, id)
    }

    /** A later save of the same worker. */
    method Update(s: State, ghost before: seq<Op>, ghost known: State, ghost record: State) returns (ok: bool)
      requires Ran(before, known, record) && SameRecord(record, s, id)
      modifies this
      ensures Ran(before, known, record) && clock == old(clock) + 1
      ensures hitches == old(hitches) + if ok then 0 else 1
      ensures stored == if ok then Saved(s) else old(stored)
    {
      ghost var ops := log[|before|..];
      ok := Replace(s);
      if ok {
        SessionGrows(ops, s, known, id);
        assert log[|before|..] == ops + [Save(s)];
      }
    }

    /** The check goes to the network. */
    method Reach(at: Time)
      requires stored.Saved? && stored.state.lastAttempt == at
      modifies this`log
      ensures log == old(log) + [Fetch(at)]
    {
      log := log + [Fetch(at)];
    }
  }

  // ---- the worker ----

  /** A downloaded installer: the version it installs and the files it carries. */
  datatype Package = Package(version: string, sources: Sources, payloadUsable: bool)

  /** What the world answers: three clock readings, the version of the signed manifest, the user's answer and the
      verified download. */
  datatype World = World(
    now: Time,
    checkedAt: Time,
    deferredAt: Time,
    workerHash: Digest,
    available: Option<string>,
    approves: bool,
    package: Option<Package>)

  /** Where the installation lives. */
  datatype Place = Place(unsafe: Unsafe, site: Site, around: Surroundings)

  datatype Outcome =
    | Failed
    | Busy
    | TooSoon
    | UpToDate
    | Postponed(version: string)
    | Updated(version: string)

  /** Taking a lock and releasing it leaves the lock table as it was. */
  method Release(kernel: NamedMutex.Kernel, mutex: NamedMutex.Mutex, ghost before: NamedMutex.State)
    requires kernel.Valid() && mutex.handle != 0 && mutex.Held(kernel)
    requires mutex.handle !in before.owning && mutex.handle !in before.transient
    requires kernel.state.transient == before.transient
    requires kernel.state.owning == before.owning[mutex.handle := mutex.name]
    modifies kernel, mutex
    ensures kernel.Valid() && kernel.state == before && kernel.hitches == old(kernel.hitches)
  {
    mutex.Close(kernel);
    assert kernel.state.owning == before.owning;
    assert kernel.state.transient == before.transient;
  }

  // ---- when an approved update is carried out ----

  /** The installation is complete and safe to read, and it still is the one that was checked. */
  ghost predicate AsChecked(d: Dir, place: Place, checked: InstallManifest, hash: Hash) {
    && place.around.topologySame && Safe(d, place.unsafe)
    && exists m :: Verified(d, place.site, m, hash)
                   && m.version == checked.version && m.installerHash == checked.installerHash
  }

  /** The reasons, other than a failing operation, for an approved update not to be carried out: no verified
      download, a package of another version, an installation under way, or an installer that declines. */
  ghost predicate CannotUpdate(d: Dir, locks: NamedMutex.State, place: Place, id: string, version: string,
                               package: Option<Package>, hash: Hash) {
    || package.None? || package.value.version != version
    || NamedMutex.Exists(locks, NamedMutex.InstallLock(id))
    || CannotInstall(d, place.unsafe, true, package.value.payloadUsable, place.around, place.site, version,
                     package.value.sources, hash)
  }

  /** The installer child: it takes the installation lock, which the updater's own lock never blocks. */
  method RunInstallerChild(kernel: NamedMutex.Kernel, disk: Disk, place: Place, id: string, p: Package)
    returns (outcome: InstallOutcome)
    requires kernel.Valid() && disk.Valid()
    modifies kernel, disk
    ensures kernel.Valid() && kernel.state == old(kernel.state) && disk.Valid()
    ensures kernel.hitches >= old(kernel.hitches) && disk.hitches >= old(disk.hitches)
    ensures NamedMutex.Exists(old(kernel.state), NamedMutex.InstallLock(id))
            ==> outcome == Declined && disk.files == old(disk.files)
    ensures outcome == Installed ==> InstalledAs(disk.files, place.site, p.version, disk.hash)
    ensures outcome == Installed ==>
      !CannotInstall(old(disk.files), place.unsafe, true, p.payloadUsable, place.around, place.site, p.version,
                     p.sources, disk.hash)
    ensures outcome == Installed || NamedMutex.Exists(old(kernel.state), NamedMutex.InstallLock(id))
            || kernel.hitches > old(kernel.hitches) || disk.hitches > old(disk.hitches)
            || CannotInstall(old(disk.files), place.unsafe, true, p.payloadUsable, place.around, place.site, p.version,
                             p.sources, disk.hash)
  {
    ghost var before := kernel.state;
    var mutex, _ := NamedMutex.AcquireNamedMutex(kernel, NamedMutex.InstallLock(id));
    if mutex == null {
      return Declined;
    }
    outcome := RunInstall(disk, place.unsafe, true, p.payloadUsable, place.around, place.site, p.version, p.sources);
    ghost var script := Script(disk.trace, old(disk.trace));
    assert script[0] == old(disk.files) && script[|script| - 1] == disk.files;
    Release(kernel, mutex, before);
  }

  /** downloadAndInstallUpdate: the installation must still be the one that was checked, and afterwards must be
      the version that was offered. */
  method DownloadAndInstall(kernel: NamedMutex.Kernel, disk: Disk, place: Place, id: string, installed: InstallManifest,
                            version: string, package: Option<Package>)
    returns (ok: bool)
    requires kernel.Valid() && disk.Valid()
    modifies kernel, disk
    ensures kernel.Valid() && kernel.state == old(kernel.state) && disk.Valid()
    ensures kernel.hitches >= old(kernel.hitches) && disk.hitches >= old(disk.hitches)
    ensures ok ==> InstalledAs(disk.files, place.site, version, disk.hash)
    ensures ok || disk.files != old(disk.files) ==> AsChecked(old(disk.files), place, installed, disk.hash)
    ensures ok ==>
      !CannotUpdate(old(disk.files), old(kernel.state), place, id, version, package, disk.hash)
    ensures ok || kernel.hitches > old(kernel.hitches) || disk.hitches > old(disk.hitches)
            || !AsChecked(old(disk.files), place, installed, disk.hash)
            || CannotUpdate(old(disk.files), old(kernel.state), place, id, version, package, disk.hash)
  {
    if package.None? {
      return false;
    }
    var current := ReadVerifiedInstall(disk, place.unsafe, place.site, place.around.topologySame);
    if current.None? || current.value.version != installed.version
       || current.value.installerHash != installed.installerHash {
      return false;
    }
    assert Verified(disk.files, place.site, current.value, disk.hash);
    assert AsChecked(disk.files, place, installed, disk.hash);
    var outcome := RunInstallerChild(kernel, disk, place, id, package.value);
    if outcome != Installed {
      return false;
    }
    var updated := ReadVerifiedInstall(disk, place.unsafe, place.site, place.around.topologySame);
    ok := updated.Some? && updated.value.version == version;
  }

  /** The reasons, other than a failing operation, for an approved offer to come to nothing. */
  ghost predicate Stuck(d: Dir, locks: NamedMutex.State, place: Place, id: string, checked: InstallManifest, w: World,
                        hash: Hash) {
    || w.available.None? || !AsChecked(d, place, checked, hash)
    || CannotUpdate(d, locks, place, id, w.available.value, w.package, hash)
  }

  // ---- what a check must come to ----

  /** The signed manifest holds a newer version. */
  predicate Offered(w: World, current: string) {
    w.available.Some? && Newer(w.available.value, current)
  }

  /** That version was declined before, and its day has not passed. */
  predicate OnHold(s: State, w: World) {
    w.available.Some? && s.deferredVersion == w.available.value && w.now < s.deferredUntil
  }

  /** What a check must come to, for an installed version, what the state file held, and what the world answers.
      `asked`: the user was asked; `lost`: an operation on the state file failed; `stuck`: the update could not be
      carried out. */
  ghost predicate Answers(outcome: Outcome, asked: bool, current: string, s: State, w: World, lost: bool, stuck: bool) {
    && outcome != Busy && outcome != TooSoon
    && (outcome == UpToDate ==> w.available.Some? && Version.AtMost(w.available.value, current))
    && (outcome.Postponed? || outcome.Updated? ==> Offered(w, current) && outcome.version == w.available.value)
    && (asked ==> Offered(w, current) && !OnHold(s, w))
    && (outcome.Postponed? && asked ==> !w.approves)
    && (outcome.Updated? ==> asked && w.approves)
    && (!lost && w.available.Some? && Version.AtMost(w.available.value, current) ==> outcome == UpToDate)
    && (!lost && Offered(w, current) && OnHold(s, w) ==> outcome.Postponed? && !asked)
    && (!lost && Offered(w, current) && !OnHold(s, w) ==>
          asked && (!w.approves ==> outcome.Postponed?) && (w.approves && !stuck ==> outcome.Updated?))
  }

  /** Only the deferral in the state matters to an answer. */
  lemma SameDeferral(outcome: Outcome, asked: bool, current: string, s: State, t: State, w: World, lost: bool,
                     stuck: bool)
    requires s.deferredVersion == t.deferredVersion && s.deferredUntil == t.deferredUntil
    ensures Answers(outcome, asked, current, s, w, lost, stuck) == Answers(outcome, asked, current, t, w, lost, stuck)
  {
  }

  /** What is on file about the check and about deferrals afterwards. */
  ghost predicate Remembers(stored: Stored, outcome: Outcome, asked: bool, s: State, w: World, lost: bool) {
    stored.Saved? ==>
    && (outcome.Postponed? && asked ==> stored.state.deferredVersion == outcome.version
                                        && stored.state.deferredUntil == w.deferredAt + DAY)
    && (outcome.Postponed? && !asked ==> stored.state.deferredVersion == s.deferredVersion
                                         && stored.state.deferredUntil == s.deferredUntil)
    && (outcome == UpToDate || (outcome.Updated? && !lost) ==> stored.state.deferredVersion == "")
    && (outcome == UpToDate || outcome.Postponed? || outcome.Updated? ==> stored.state.lastSuccess == w.checkedAt)
  }

  /** The user says no: the version is put off for 24 hours. */
  method Decline(store: Store, at: Time, state: State, version: string, ghost before: seq<Op>, ghost known: State,
                 ghost record: State)
    returns (outcome: Outcome)
    requires store.stored == Saved(state) && store.Ran(before, known, record)
    modifies store
    ensures store.Ran(before, known, record) && store.hitches >= old(store.hitches)
    ensures outcome == Postponed(version) || (outcome == Failed && store.hitches > old(store.hitches))
    ensures outcome.Postponed? ==>
      store.stored == Saved(state.(deferredVersion := version, deferredUntil := at + DAY))
  {
    var deferred := state.(deferredVersion := version, deferredUntil := at + DAY);
    var saved := store.Update(deferred, before, known, record);
    outcome := if saved then Postponed(version) else Failed;
  }

  /** The offer of a newer version: postponed while the deferral lasts, else put to the user. */
  method AskAndInstall(kernel: NamedMutex.Kernel, store: Store, disk: Disk, place: Place, id: string,
                       installed: InstallManifest, w: World, state: State, version: string,
                       ghost before: seq<Op>, ghost known: State, ghost record: State)
    returns (outcome: Outcome, ghost asked: bool)
    requires kernel.Valid() && disk.Valid()
    requires store.stored == Saved(state) && store.Ran(before, known, record)
    requires w.available == Some(version) && Newer(version, installed.version) && state.lastSuccess == w.checkedAt
    modifies kernel, store, disk
    ensures kernel.Valid() && kernel.state == old(kernel.state) && disk.Valid()
    ensures store.Ran(before, known, record)
    ensures kernel.hitches >= old(kernel.hitches) && disk.hitches >= old(disk.hitches)
    ensures store.hitches >= old(store.hitches)
    ensures Answers(outcome, asked, installed.version, state, w, store.hitches > old(store.hitches),
                    || disk.hitches > old(disk.hitches) || kernel.hitches > old(kernel.hitches)
                    || Stuck(old(disk.files), old(kernel.state), place, id, installed, w, disk.hash))
    ensures Remembers(store.stored, outcome, asked, state, w, store.hitches > old(store.hitches))
    ensures disk.files != old(disk.files) ==> asked && w.approves
    ensures outcome.Updated? ==> InstalledAs(disk.files, place.site, version, disk.hash)
    ensures outcome.Updated? ==> !Stuck(old(disk.files), old(kernel.state), place, id, installed, w, disk.hash)
    ensures !asked || !w.approves ==> kernel.hitches == old(kernel.hitches)
  {
    asked := false;
    if IsDeferred(state, version, w.now) { return Postponed(version), asked; }
    asked := true;
    if !w.approves {
      outcome := Decline(store, w.deferredAt, state, version, before, known, record);
      return;
    }
    var done := DownloadAndInstall(kernel, disk, place, id, installed, version, w.package);
    if !done { return Failed, asked; }
    var _ := store.Update(state.(deferredVersion := "", deferredUntil := ZERO), before, known, record);
    outcome := Updated(version);
  }

  /** The check and its record: the state that goes on file and the version offered, or None when the check or
      its record fails. */
  method RecordCheck(store: Store, current: string, w: World, state: State, ghost before: seq<Op>, ghost known: State)
    returns (checked: Option<State>, offered: Option<string>)
    requires Version.Parse(current).Ok?
    requires store.stored == Saved(state) && store.log == before + [Save(state)]
    requires state.schema == STATE_SCHEMA && state.id == store.id && ShouldAttempt(known, state.lastAttempt)
    requires state.lastAttempt == w.now
    modifies store
    ensures store.Ran(before, known, state) && store.hitches >= old(store.hitches)
    ensures checked.None? ==> offered.None?
    ensures checked.None? ==>
      store.hitches > old(store.hitches) || w.available.None? || Version.Parse(w.available.value).Err?
    ensures checked.Some? ==>
      w.available.Some? && store.stored == Saved(checked.value) && checked.value.lastSuccess == w.checkedAt
    ensures checked.Some? && offered.None? ==>
      Version.AtMost(w.available.value, current) && checked.value.deferredVersion == ""
    ensures checked.Some? && offered.Some? ==>
      && offered == w.available && Newer(offered.value, current)
      && checked.value.deferredVersion == state.deferredVersion && checked.value.deferredUntil == state.deferredUntil
  {
    checked, offered := None, None;
    store.Reach(w.now);
    assert store.log[|before|..] == [Save(state), Fetch(w.now)];
    if w.available.None? { return; }
    var offer := Offer(current, w.available.value);
    if offer.Err? { return; }
    OfferIsNewer(current, w.available.value);
    var s := state.(lastSuccess := w.checkedAt);
    if offer.value.None? {
      s := s.(deferredVersion := "", deferredUntil := ZERO);
    }
    var saved := store.Update(s, before, known, state);
    if saved { checked, offered := Some(s), offer.value; }
  }

  /** From the check to the end, after the attempt was recorded in `state`. */
  method CheckAndUpdate(kernel: NamedMutex.Kernel, store: Store, disk: Disk, place: Place, id: string,
                        installed: InstallManifest, w: World, state: State, ghost before: seq<Op>, ghost known: State)
    returns (outcome: Outcome, ghost asked: bool)
    requires kernel.Valid() && disk.Valid() && Version.Parse(installed.version).Ok?
    requires store.stored == Saved(state) && store.log == before + [Save(state)]
    requires state.schema == STATE_SCHEMA && state.id == store.id && ShouldAttempt(known, state.lastAttempt)
    requires state.lastAttempt == w.now
    modifies kernel, store, disk
    ensures kernel.Valid() && kernel.state == old(kernel.state) && disk.Valid()
    ensures store.Ran(before, known, state)
    ensures kernel.hitches >= old(kernel.hitches) && disk.hitches >= old(disk.hitches)
    ensures store.hitches >= old(store.hitches)
    ensures Answers(outcome, asked, installed.version, state, w, store.hitches > old(store.hitches),
                    || disk.hitches > old(disk.hitches) || kernel.hitches > old(kernel.hitches)
                    || Stuck(old(disk.files), old(kernel.state), place, id, installed, w, disk.hash))
    ensures Remembers(store.stored, outcome, asked, state, w, store.hitches > old(store.hitches))
    ensures disk.files != old(disk.files) ==> asked && w.approves
    ensures outcome.Updated? ==> InstalledAs(disk.files, place.site, outcome.version, disk.hash)
    ensures outcome.Updated? ==> !Stuck(old(disk.files), old(kernel.state), place, id, installed, w, disk.hash)
    ensures !asked || !w.approves ==> kernel.hitches == old(kernel.hitches)
  {
    asked := false;
    var checked, offered := RecordCheck(store, installed.version, w, state, before, known);
    if checked.None? { return Failed, asked; }
    if offered.None? { return UpToDate, asked; }
    outcome, asked := AskAndInstall(kernel, store, disk, place, id, installed, w, checked.value, offered.value, before,
                                    known, state);
    SameDeferral(outcome, asked, installed.version, checked.value, state, w, store.hitches > old(store.hitches),
                 || disk.hitches > old(disk.hitches) || kernel.hitches > old(kernel.hitches)
                 || Stuck(old(disk.files), old(kernel.state), place, id, installed, w, disk.hash));
  }

  /** The 24 hours since the recorded attempt have passed, or none was recorded. */
  predicate IsDue(s: State, now: Time) { s.lastAttempt == ZERO || s.lastAttempt + DAY <= now }

  /** The worker up to its record of the attempt: the state from which it goes on, None when it stops before. */
  method RecordAttempt(store: Store, now: Time) returns (state: Option<State>, tooSoon: bool, ghost known: State)
    modifies store
    ensures store.hitches >= old(store.hitches)
    ensures known == Known(old(store.stored), store.id)
            || (known == FreshState(store.id) && store.hitches > old(store.hitches))
    ensures state.None? ==> store.log == old(store.log) && store.stored == old(store.stored)
    ensures state.None? ==> tooSoon || store.hitches > old(store.hitches)
    ensures tooSoon ==> state.None? && !IsDue(known, now)
    ensures state.Some? ==>
      && IsDue(known, now)
      && state.value == known.(schema := STATE_SCHEMA, id := store.id, lastAttempt := now)
      && store.stored == Saved(state.value) && store.log == old(store.log) + [Save(state.value)]
  {
    state, tooSoon, known := None, false, Known(store.stored, store.id);
    var ready := store.Prepare();
    if !ready { return; }
    var loaded := store.Load();
    var current := if loaded.Some? then loaded.value else FreshState(store.id);
    known := current;
    if !ShouldAttempt(current, now) {
      tooSoon := true;
      return;
    }
    current := current.(schema := STATE_SCHEMA, id := store.id, lastAttempt := now);
    var saved := store.Replace(current);
    if saved { state := Some(current); }
  }

  /** What the worker does while it holds its lock. */
  method Attempt(kernel: NamedMutex.Kernel, store: Store, disk: Disk, place: Place, installed: InstallManifest,
                 w: World)
    returns (outcome: Outcome, ghost asked: bool, ghost known: State)
    requires kernel.Valid() && disk.Valid() && Version.Parse(installed.version).Ok?
    modifies kernel, store, disk
    ensures kernel.Valid() && kernel.state == old(kernel.state) && disk.Valid()
    ensures kernel.hitches >= old(kernel.hitches) && disk.hitches >= old(disk.hitches)
    ensures store.hitches >= old(store.hitches) && old(store.log) <= store.log
    ensures CheckSession(store.log[|old(store.log)|..], known, store.id)
    ensures known == Known(old(store.stored), store.id)
            || (known == FreshState(store.id) && store.hitches > old(store.hitches))
    ensures store.log == old(store.log) ==>
      store.stored == old(store.stored) && disk.files == old(disk.files) && !asked
    ensures store.log != old(store.log) ==>
      store.stored.Saved? && store.stored.state == Known(store.stored, store.id)
      && store.stored.state.lastAttempt == w.now
    ensures outcome == TooSoon || !IsDue(known, w.now) ==> store.log == old(store.log) && !asked
    ensures !IsDue(known, w.now) ==> outcome == TooSoon || (outcome == Failed && store.hitches > old(store.hitches))
    ensures IsDue(known, w.now) ==>
      Answers(outcome, asked, installed.version, known, w, store.hitches > old(store.hitches),
              || disk.hitches > old(disk.hitches) || kernel.hitches > old(kernel.hitches)
              || Stuck(old(disk.files), old(kernel.state), place, store.id, installed, w, disk.hash))
    ensures Remembers(store.stored, outcome, asked, known, w, store.hitches > old(store.hitches))
    ensures disk.files != old(disk.files) ==> asked && w.approves
    ensures outcome.Updated? ==> InstalledAs(disk.files, place.site, outcome.version, disk.hash)
    ensures outcome.Updated? ==>
      !Stuck(old(disk.files), old(kernel.state), place, store.id, installed, w, disk.hash)
    ensures !asked || !w.approves ==> kernel.hitches == old(kernel.hitches)
  {
    ghost var before := store.log;
    var state, tooSoon;
    asked := false;
    state, tooSoon, known := RecordAttempt(store, w.now);
    if state.None? { return if tooSoon then TooSoon else Failed, asked, known; }
    outcome, asked := CheckAndUpdate(kernel, store, disk, place, store.id, installed, w, state.value, before, known);
    SameDeferral(outcome, asked, installed.version, known, state.value, w, store.hitches > old(store.hitches),
                 || disk.hitches > old(disk.hitches) || kernel.hitches > old(kernel.hitches)
                 || Stuck(old(disk.files), old(kernel.state), place, store.id, installed, w, disk.hash));
  }

  /** Another lock's handle does not block an installer. */
  lemma UpdaterLockIsNotInstallLock(before: NamedMutex.State, handle: NamedMutex.Handle, id: string,
                                    during: NamedMutex.State)
    requires handle !in before.owning && during.transient == before.transient
    requires during.owning == before.owning[handle := NamedMutex.UpdaterLock(id)]
    ensures NamedMutex.Exists(during, NamedMutex.InstallLock(id))
            <==> NamedMutex.Exists(before, NamedMutex.InstallLock(id))
  {
    NamedMutex.LockNamesDiffer(id, id);
    forall h
      ensures h in during.owning && during.owning[h] == NamedMutex.InstallLock(id)
              <==> h in before.owning && before.owning[h] == NamedMutex.InstallLock(id)
    {
    }
  }

  /** The worker runs from a copy of the updater that the verified installation records. */
  ghost predicate MayWork(d: Dir, place: Place, w: World, m: InstallManifest, hash: Hash) {
    && Verified(d, place.site, m, hash) && place.around.topologySame && Safe(d, place.unsafe)
    && w.workerHash == m.updaterHash
  }

  /** The worker with its lock: it takes the lock, does its work and releases it, or leaves when the lock is taken. */
  method RunLocked(kernel: NamedMutex.Kernel, store: Store, disk: Disk, place: Place, installed: InstallManifest,
                   w: World)
    returns (outcome: Outcome, ghost asked: bool, ghost known: State)
    requires kernel.Valid() && disk.Valid() && Version.Parse(installed.version).Ok?
    modifies kernel, store, disk
    ensures kernel.Valid() && kernel.state == old(kernel.state) && disk.Valid()
    ensures kernel.hitches >= old(kernel.hitches) && disk.hitches >= old(disk.hitches)
    ensures store.hitches >= old(store.hitches) && old(store.log) <= store.log
    ensures CheckSession(store.log[|old(store.log)|..], known, store.id)
    ensures known == Known(old(store.stored), store.id)
            || (known == FreshState(store.id) && store.hitches > old(store.hitches))
    ensures store.log == old(store.log) ==>
      store.stored == old(store.stored) && disk.files == old(disk.files) && !asked
    ensures store.log != old(store.log) ==>
      store.stored.Saved? && store.stored.state == Known(store.stored, store.id)
      && store.stored.state.lastAttempt == w.now
    ensures outcome == Busy ==> NamedMutex.Exists(old(kernel.state), NamedMutex.UpdaterLock(store.id))
    ensures NamedMutex.Exists(old(kernel.state), NamedMutex.UpdaterLock(store.id)) ==>
      && store.log == old(store.log) && !asked
      && (outcome == Busy || (outcome == Failed && kernel.hitches > old(kernel.hitches)))
    ensures outcome == TooSoon || !IsDue(known, w.now) ==> store.log == old(store.log) && !asked
    ensures !NamedMutex.Exists(old(kernel.state), NamedMutex.UpdaterLock(store.id)) ==>
      if IsDue(known, w.now) then
        Answers(outcome, asked, installed.version, known, w,
                store.hitches > old(store.hitches) || kernel.hitches > old(kernel.hitches),
                || disk.hitches > old(disk.hitches) || kernel.hitches > old(kernel.hitches)
                || Stuck(old(disk.files), old(kernel.state), place, store.id, installed, w, disk.hash))
      else
        || outcome == TooSoon
        || (outcome == Failed && (store.hitches > old(store.hitches) || kernel.hitches > old(kernel.hitches)))
    ensures Remembers(store.stored, outcome, asked, known, w, store.hitches > old(store.hitches))
    ensures disk.files != old(disk.files) ==> asked && w.approves
    ensures outcome.Updated? ==> InstalledAs(disk.files, place.site, outcome.version, disk.hash)
    ensures outcome.Updated? ==>
      !Stuck(old(disk.files), old(kernel.state), place, store.id, installed, w, disk.hash)
  {
    ghost var before := kernel.state;
    asked, known := false, Known(store.stored, store.id);
    var mutex, result := NamedMutex.AcquireNamedMutex(kernel, NamedMutex.UpdaterLock(store.id));
    if mutex == null {
      outcome := if result == NamedMutex.Taken then Busy else Failed;
      return;
    }
    UpdaterLockIsNotInstallLock(before, mutex.handle, store.id, kernel.state);
    outcome, asked, known := Attempt(kernel, store, disk, place, installed, w);
    Release(kernel, mutex, before);
  }

  /** runUpdaterWorker. Whatever fails, what it did to the state file and the network is a session that starts from
      the state the file read back as; it changes the installation only with the user's consent to a strictly newer
      version; and it leaves no handle behind. `installed`: the manifest it found. */
  method RunUpdaterWorker(kernel: NamedMutex.Kernel, store: Store, disk: Disk, place: Place, w: World)
    returns (outcome: Outcome, ghost asked: bool, ghost known: State, ghost installed: Option<InstallManifest>)
    requires kernel.Valid() && disk.Valid()
    modifies kernel, store, disk
    ensures kernel.Valid() && kernel.state == old(kernel.state) && disk.Valid()
    ensures kernel.hitches >= old(kernel.hitches) && disk.hitches >= old(disk.hitches)
    ensures store.hitches >= old(store.hitches) && old(store.log) <= store.log
    // what others see of it
    ensures CheckSession(store.log[|old(store.log)|..], known, store.id)
    ensures known == Known(old(store.stored), store.id)
            || (known == FreshState(store.id) && store.hitches > old(store.hitches))
    ensures store.log == old(store.log) ==>
      store.stored == old(store.stored) && disk.files == old(disk.files) && !asked
    ensures store.log != old(store.log) ==>
      && store.stored.Saved? && store.stored.state == Known(store.stored, store.id)
      && store.stored.state.lastAttempt == w.now
    // when it does not come to a check
    ensures installed.Some? ==> MayWork(old(disk.files), place, w, installed.value, disk.hash)
    ensures installed.None? ==>
      && outcome == Failed && store.log == old(store.log) && !asked
      && (|| disk.hitches > old(disk.hitches)
          || forall m :: !MayWork(old(disk.files), place, w, m, disk.hash))
    ensures outcome == Busy ==> NamedMutex.Exists(old(kernel.state), NamedMutex.UpdaterLock(store.id))
    ensures installed.Some? && NamedMutex.Exists(old(kernel.state), NamedMutex.UpdaterLock(store.id)) ==>
      && store.log == old(store.log) && !asked
      && (outcome == Busy || (outcome == Failed && kernel.hitches > old(kernel.hitches)))
    ensures outcome == TooSoon || !IsDue(known, w.now) ==> store.log == old(store.log) && !asked
    // what the check comes to
    ensures installed.Some? && !NamedMutex.Exists(old(kernel.state), NamedMutex.UpdaterLock(store.id)) ==>
      if IsDue(known, w.now) then
        Answers(outcome, asked, installed.value.version, known, w,
                store.hitches > old(store.hitches) || kernel.hitches > old(kernel.hitches),
                || disk.hitches > old(disk.hitches) || w.available.None?
                || CannotUpdate(old(disk.files), old(kernel.state), place, store.id, w.available.value, w.package,
                                disk.hash))
      else
        || outcome == TooSoon
        || (outcome == Failed && (store.hitches > old(store.hitches) || kernel.hitches > old(kernel.hitches)))
    ensures Remembers(store.stored, outcome, asked, known, w, store.hitches > old(store.hitches))
    ensures disk.files != old(disk.files) ==> asked && w.approves
    ensures outcome.Updated? ==> InstalledAs(disk.files, place.site, outcome.version, disk.hash)
    ensures outcome.Updated? ==>
      !CannotUpdate(old(disk.files), old(kernel.state), place, store.id, outcome.version, w.package, disk.hash)
  {
    asked, known, installed := false, Known(store.stored, store.id), None;
    outcome := Failed;
    var read := ReadVerifiedInstall(disk, place.unsafe, place.site, place.around.topologySame);
    if read.None? || w.workerHash != read.value.updaterHash { return; }
    installed := read;
    assert AsChecked(disk.files, place, read.value, disk.hash);
    outcome, asked, known := RunLocked(kernel, store, disk, place, read.value, w);
  }

  lemma HeldThenAsked(earlier: Outcome, first: World, second: World, known: State, current: string, later: Outcome,
                      askedAgain: bool, stuck: bool)
    requires Offered(first, current) && earlier == Postponed(first.available.value)
    requires second.available == first.available
    requires known.deferredVersion == earlier.version && known.deferredUntil == first.deferredAt + DAY
    requires known.lastAttempt == first.now
    requires if IsDue(known, second.now) then Answers(later, askedAgain, current, known, second, false, stuck)
             else later == TooSoon && !askedAgain
    ensures second.now < first.deferredAt + DAY ==> !askedAgain && later in {TooSoon, earlier}
    ensures first.now + DAY <= second.now < first.deferredAt + DAY ==> later == earlier
    ensures first.now <= first.deferredAt && first.deferredAt + DAY <= second.now ==> askedAgain
  {
  }

  /** Two workers, one after the other, the first of which the user turns down at `first.deferredAt`. When nothing
      fails, the second does not ask about the same version until 24 hours after that moment, and then it does. */
  method AskAgain(kernel: NamedMutex.Kernel, store: Store, disk: Disk, place: Place, first: World, second: World)
    returns (earlier: Outcome, later: Outcome, ghost asked: bool, ghost askedAgain: bool)
    requires kernel.Valid() && disk.Valid()
    requires second.available == first.available && second.workerHash == first.workerHash
    modifies kernel, store, disk
    ensures kernel.Valid() && disk.Valid()
    ensures earlier.Postponed? && asked && store.hitches == old(store.hitches) && disk.hitches == old(disk.hitches)
            && kernel.hitches == old(kernel.hitches) ==>
      && (second.now < first.deferredAt + DAY ==> !askedAgain && later in {TooSoon, earlier})
      && (first.now + DAY <= second.now < first.deferredAt + DAY ==> later == earlier)
      && (first.now <= first.deferredAt && first.deferredAt + DAY <= second.now ==> askedAgain)
  {
    ghost var known, installed, installed', d;
    d := disk.files;
    earlier, asked, known, installed := RunUpdaterWorker(kernel, store, disk, place, first);
    ghost var stored := store.stored;
    later, askedAgain, known, installed' := RunUpdaterWorker(kernel, store, disk, place, second);
    if earlier.Postponed? && asked && store.hitches == old(store.hitches) && disk.hitches == old(disk.hitches)
       && kernel.hitches == old(kernel.hitches) {
      assert MayWork(d, place, second, installed.value, disk.hash);
      assert installed'.value == installed.value;
      assert known == stored.state;
      HeldThenAsked(earlier, first, second, known, installed.value.version, later, askedAgain,
                    || second.available.None?
                    || CannotUpdate(d, kernel.state, place, store.id, second.available.value, second.package,
                                    disk.hash));
    }
  }
}
