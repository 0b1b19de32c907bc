/** Installs, uninstalls, delayed cleanups and updater child installs, interleaved in every possible
    way on one product directory and its installation lock.

    A process that acquires the lock plays a script, one directory state at a time, that satisfies
    the session predicate its critical section is proved against; other processes may try for the
    lock, give up or appear between any two of its steps. A process may also die at any step. */
module Lifecycle {
  import opened Directory
  import opened Installer
  import opened Sessions
  import opened Uninstalling
  import NamedMutex
  import Version

  type Pid = nat

  /** The hash function, and the name of the installation lock of this product directory. */
  datatype Setting = Setting(hash: Hash, lock: string)

  datatype Work =
    | Installing(site: Site, version: string, outcome: InstallOutcome)
    | Removing(handedOver: bool)
    | Cleaning(expected: Digest)

  ghost predicate Performs(w: Work, script: seq<Dir>, hash: Hash) {
    match w
    case Installing(site, version, outcome) => InstallSession(script, outcome, site, version, hash)
    case Removing(handedOver) => UninstallSession(script, handedOver)
    case Cleaning(expected) => CleanupSession(script, expected, hash)
  }

  datatype Phase =
    | Arrived
    | Losing
    | Inside(work: Work, script: seq<Dir>, at: nat)
    | Gone

  /** `broken`: a rollback reported failure, or a process died inside its critical section. */
  datatype State = State(dir: Dir, locks: NamedMutex.State, procs: map<Pid, Phase>, broken: bool)

  datatype Event =
    | Arrive(p: Pid)
    | Try(p: Pid, work: Work, script: seq<Dir>)
    | GiveUp(p: Pid)
    | Play(p: Pid)
    | Leave(p: Pid)
    | Die(p: Pid)

  ghost predicate IsIn(s: State, p: Pid) {
    p in s.procs && s.procs[p].Inside?
  }

  ghost predicate Enabled(s: State, e: Event, c: Setting) {
    match e
    case Arrive(p) => p !in s.procs
    case Try(p, work, script) =>
      && p in s.procs && s.procs[p].Arrived?
      && |script| > 0 && script[0] == s.dir && Performs(work, script, c.hash)
    case GiveUp(p) => p in s.procs && s.procs[p].Losing?
    case Play(p) => IsIn(s, p) && s.procs[p].at + 1 < |s.procs[p].script|
    case Leave(p) => IsIn(s, p) && s.procs[p].at + 1 == |s.procs[p].script|
    case Die(p) => IsIn(s, p)
  }

  ghost predicate NeedsRecovery(w: Work) {
    w.Installing? && w.outcome == RecoveryNeeded
  }

  ghost function Next(s: State, e: Event, c: Setting): State {
    match e
    case Arrive(p) => s.(procs := s.procs[p := Arrived])
    case Try(p, work, script) =>
      var phase := if NamedMutex.Exists(s.locks, c.lock) then Losing else Inside(work, script, 0);
      s.(locks := NamedMutex.Next(s.locks, NamedMutex.Create(c.lock, p)), procs := s.procs[p := phase])
    case GiveUp(p) =>
      s.(locks := NamedMutex.Next(s.locks, NamedMutex.Close(c.lock, p)), procs := s.procs[p := Gone])
    case Play(p) =>
      if !IsIn(s, p) || s.procs[p].at + 1 >= |s.procs[p].script| then s else
      var phase := s.procs[p];
      s.(dir := phase.script[phase.at + 1], procs := s.procs[p := phase.(at := phase.at + 1)])
    case Leave(p) =>
      s.(locks := NamedMutex.Next(s.locks, NamedMutex.Close(c.lock, p)), procs := s.procs[p := Gone],
         broken := s.broken || (IsIn(s, p) && NeedsRecovery(s.procs[p].work)))
    case Die(p) =>
      s.(locks := NamedMutex.Next(s.locks, NamedMutex.Close(c.lock, p)), procs := s.procs[p := Gone], broken := true)
  }

  datatype Behavior = Behavior(states: seq<State>, events: seq<Event>)

  ghost predicate Runs(r: Behavior, c: Setting) {
    && |r.states| == |r.events| + 1
    && r.states[0].procs == map[] && r.states[0].locks == NamedMutex.NOTHING && !r.states[0].broken
    && (forall k :: 0 <= k < |r.events| ==>
          Enabled(r.states[k], r.events[k], c) && r.states[k + 1] == Next(r.states[k], r.events[k], c))
  }

  // ---- what a directory promises ----

  function RecordedHash(m: InstallManifest, n: Name): Digest {
    match n
    case Ex5 => m.ex5Hash
    case Updater => m.updaterHash
    case Uninstaller => m.installerHash
    case _ => MISSING_HASH
  }

  /** A manifest that is present records the right hash of every file it owns that is present. */
  ghost predicate Coherent(d: Dir, hash: Hash) {
    Manifest in d ==>
      && d[Manifest].Record?
      && forall n :: n in OWNED - {Manifest} && n in d[Manifest].manifest.owned && n in d ==>
           hash(d[n]) == RecordedHash(d[Manifest].manifest, n)
  }

  ghost predicate Free(s: State) {
    forall p :: p in s.procs ==> !s.procs[p].Inside?
  }

  // ---- sessions keep what the directory promises ----

  lemma SameOwnedIsCoherent(a: Dir, b: Dir, hash: Hash)
    requires OwnedSame(a, b) && Coherent(a, hash)
    ensures Coherent(b, hash)
  {
    assert SameAt(a, b, Manifest) && SameAt(a, b, Ex5) && SameAt(a, b, Updater) && SameAt(a, b, Uninstaller);
  }

  lemma {:induction false} RemovalIsCoherent(script: seq<Dir>, handedOver: bool, hash: Hash)
    requires UninstallSession(script, handedOver) && Coherent(script[0], hash)
    ensures Coherent(script[|script| - 1], hash)
  {
    if |script| > 1 {
      RemovalIsCoherent(script[..|script| - 1], handedOver, hash);
      assert RemovalStep(script[|script| - 2], script[|script| - 1], handedOver);
    }
  }

  lemma {:induction false} CleanupIsCoherent(script: seq<Dir>, expected: Digest, hash: Hash)
    requires CleanupSession(script, expected, hash) && Coherent(script[0], hash)
    ensures Coherent(script[|script| - 1], hash)
  {
    if |script| > 1 {
      CleanupIsCoherent(script[..|script| - 1], expected, hash);
      assert CleanupStep(script[|script| - 2], script[|script| - 1], expected, hash);
    }
  }

  lemma SessionIsCoherent(w: Work, script: seq<Dir>, hash: Hash)
    requires Performs(w, script, hash) && Coherent(script[0], hash) && !NeedsRecovery(w)
    ensures Coherent(script[|script| - 1], hash)
  {
    match w
    case Installing(site, version, outcome) =>
      if outcome != Installed {
        SameOwnedIsCoherent(script[0], script[|script| - 1], hash);
      }
    case Removing(handedOver) => RemovalIsCoherent(script, handedOver, hash);
    case Cleaning(expected) => CleanupIsCoherent(script, expected, hash);
  }

  lemma {:induction false} SessionKeepsForeign(w: Work, script: seq<Dir>, hash: Hash, k: nat)
    requires Performs(w, script, hash) && k < |script|
    ensures ForeignSame(script[0], script[k])
  {
    if !w.Installing? && k > 0 {
      SessionKeepsForeign(w, script, hash, k - 1);
      if w.Removing? {
        assert RemovalStep(script[k - 1], script[k], w.handedOver);
      } else {
        assert CleanupStep(script[k - 1], script[k], w.expected, hash);
      }
      forall n: Name | n.Foreign?
        ensures SameAt(script[0], script[k], n)
      {
        assert SameAt(script[0], script[k - 1], n);
      }
    }
  }

  // ---- the invariant ----

  /** Who is inside owns the lock, who lost has a transient handle, and nobody else has a handle. */
  ghost predicate LockAgrees(s: State, lock: string) {
    && NamedMutex.Exclusive(s.locks)
    && (forall p :: p in s.locks.owning <==> IsIn(s, p))
    && (forall p :: p in s.locks.transient <==> p in s.procs && s.procs[p].Losing?)
    && (forall p :: p in s.locks.owning ==> s.locks.owning[p] == lock)
    && (forall p :: p in s.locks.transient ==> s.locks.transient[p] == lock)
  }

  /** A process inside is where its script says, and found a state that kept its promises. */
  ghost predicate InsideWell(s: State, p: Pid, c: Setting, start: Dir)
    requires IsIn(s, p)
  {
    var f := s.procs[p];
    && f.at < |f.script| && f.script[f.at] == s.dir
    && Performs(f.work, f.script, c.hash)
    && ForeignSame(start, f.script[0])
    && (Coherent(start, c.hash) && !s.broken ==> Coherent(f.script[0], c.hash))
  }

  ghost predicate Inv(s: State, c: Setting, start: Dir) {
    && LockAgrees(s, c.lock)
    && ForeignSame(start, s.dir)
    && (forall p :: IsIn(s, p) ==> InsideWell(s, p, c, start))
    && (Coherent(start, c.hash) && Free(s) && !s.broken ==> Coherent(s.dir, c.hash))
  }

  /** At most one process is inside its critical section. */
  lemma OneInside(s: State, lock: string, p: Pid, q: Pid)
    requires LockAgrees(s, lock) && IsIn(s, p) && IsIn(s, q)
    ensures p == q
  {
    assert p in s.locks.owning && q in s.locks.owning;
  }

  lemma TryKeepsLock(s: State, p: Pid, work: Work, script: seq<Dir>, c: Setting)
    requires LockAgrees(s, c.lock) && Enabled(s, Try(p, work, script), c)
    ensures LockAgrees(Next(s, Try(p, work, script), c), c.lock)
    ensures IsIn(Next(s, Try(p, work, script), c), p) ==> Free(s)
  {
    assert p !in s.locks.owning && p !in s.locks.transient;
    NamedMutex.StepIsExclusive(s.locks, NamedMutex.Create(c.lock, p));
    forall q | IsIn(s, q)
      ensures NamedMutex.Exists(s.locks, c.lock)
    {
      assert q in s.locks.owning;
    }
    if !NamedMutex.Exists(s.locks, c.lock) {
      assert forall q :: q in s.procs && s.procs[q].Inside? ==> IsIn(s, q);
    }
  }

  lemma ExitKeepsLock(s: State, p: Pid, c: Setting, locks: NamedMutex.State, procs: map<Pid, Phase>)
    requires LockAgrees(s, c.lock) && (IsIn(s, p) || (p in s.procs && s.procs[p].Losing?))
    requires locks == NamedMutex.Next(s.locks, NamedMutex.Close(c.lock, p)) && procs == s.procs[p := Gone]
    ensures LockAgrees(s.(locks := locks, procs := procs), c.lock)
  {
    assert p in s.locks.owning || p in s.locks.transient;
    NamedMutex.StepIsExclusive(s.locks, NamedMutex.Close(c.lock, p));
  }

  lemma TryKeepsInv(s: State, p: Pid, work: Work, script: seq<Dir>, c: Setting, start: Dir)
    requires Inv(s, c, start) && Enabled(s, Try(p, work, script), c)
    ensures Inv(Next(s, Try(p, work, script), c), c, start)
  {
    var s' := Next(s, Try(p, work, script), c);
    TryKeepsLock(s, p, work, script, c);
    if Free(s') {
      forall q | q in s.procs
        ensures !s.procs[q].Inside?
      {
        assert q != p ==> s'.procs[q] == s.procs[q];
      }
    }
    forall q | IsIn(s', q)
      ensures InsideWell(s', q, c, start)
    {
      if q != p {
        assert IsIn(s, q);
      }
    }
  }

  /** A process without a directory of its own comes, gives up, or dies. */
  lemma OthersKeepInv(s: State, e: Event, c: Setting, start: Dir)
    requires Inv(s, c, start) && Enabled(s, e, c) && (e.Arrive? || e.GiveUp? || e.Die?)
    ensures Inv(Next(s, e, c), c, start)
  {
    var s' := Next(s, e, c);
    if !e.Arrive? {
      ExitKeepsLock(s, e.p, c, s'.locks, s'.procs);
    }
    forall q | IsIn(s', q)
      ensures InsideWell(s', q, c, start)
    {
      assert IsIn(s, q);
    }
    if Free(s') && !e.Die? {
      forall q | q in s.procs
        ensures !s.procs[q].Inside?
      {
        assert q != e.p ==> s'.procs[q] == s.procs[q];
      }
    }
  }

  lemma StepKeepsInv(s: State, e: Event, c: Setting, start: Dir)
    requires Inv(s, c, start) && Enabled(s, e, c)
    ensures Inv(Next(s, e, c), c, start)
  {
    match e
    case Try(p, work, script) => TryKeepsInv(s, p, work, script, c, start);
    case Play(p) => PlayKeepsInv(s, p, c, start);
    case Leave(p) => LeaveKeepsInv(s, p, c, start);
    case _ => OthersKeepInv(s, e, c, start);
  }

  lemma PlayKeepsInv(s: State, p: Pid, c: Setting, start: Dir)
    requires Inv(s, c, start) && Enabled(s, Play(p), c)
    ensures Inv(Next(s, Play(p), c), c, start)
  {
    var s', f := Next(s, Play(p), c), s.procs[p];
    SessionKeepsForeign(f.work, f.script, c.hash, f.at + 1);
    forall n: Name | n.Foreign?
      ensures SameAt(start, s'.dir, n)
    {
      assert SameAt(start, f.script[0], n) && SameAt(f.script[0], s'.dir, n);
    }
    forall q
      ensures IsIn(s', q) <==> IsIn(s, q)
      ensures IsIn(s', q) ==> InsideWell(s', q, c, start)
    {
      if IsIn(s', q) {
        OneInside(s, c.lock, p, q);
      }
    }
    assert IsIn(s', p);
  }

  lemma LeaveKeepsInv(s: State, p: Pid, c: Setting, start: Dir)
    requires Inv(s, c, start) && Enabled(s, Leave(p), c)
    ensures Inv(Next(s, Leave(p), c), c, start)
  {
    var s', f := Next(s, Leave(p), c), s.procs[p];
    ExitKeepsLock(s, p, c, s'.locks, s'.procs);
    forall q
      ensures !IsIn(s', q)
    {
      if IsIn(s', q) {
        OneInside(s, c.lock, p, q);
      }
    }
    if Coherent(start, c.hash) && !s'.broken {
      SessionIsCoherent(f.work, f.script, c.hash);
    }
  }

  // ---- the main results ----

  lemma {:induction false} EveryStateIsWell(r: Behavior, c: Setting, k: nat)
    requires Runs(r, c) && k < |r.states|
    ensures Inv(r.states[k], c, r.states[0].dir)
  {
    if k > 0 {
      EveryStateIsWell(r, c, k - 1);
      assert Enabled(r.states[k - 1], r.events[k - 1], c);
      StepKeepsInv(r.states[k - 1], r.events[k - 1], c, r.states[0].dir);
    }
  }

  /** Over every interleaving: at most one process is inside; whenever nobody is, and no rollback has
      reported failure, a manifest records the right hash of every owned file present; and no name
      outside the owned, staged and backup names ever changes. */
  lemma Safety(r: Behavior, c: Setting, k: nat)
    requires Runs(r, c) && k < |r.states|
    ensures forall p, q :: IsIn(r.states[k], p) && IsIn(r.states[k], q) ==> p == q
    ensures Coherent(r.states[0].dir, c.hash) && Free(r.states[k]) && !r.states[k].broken
            ==> Coherent(r.states[k].dir, c.hash)
    ensures ForeignSame(r.states[0].dir, r.states[k].dir)
  {
    EveryStateIsWell(r, c, k);
    forall p, q | IsIn(r.states[k], p) && IsIn(r.states[k], q)
      ensures p == q
    {
      OneInside(r.states[k], c.lock, p, q);
    }
  }

  /** A cleanup helper removes nothing but the uninstaller whose hash it was given, and that only
      while the directory holds no manifest, so never from an installation made since. */
  lemma HelperSparesInstallations(r: Behavior, c: Setting, k: nat, p: Pid)
    requires Runs(r, c) && k < |r.events|
    requires r.events[k] == Play(p) && IsIn(r.states[k], p) && r.states[k].procs[p].work.Cleaning?
    ensures var d, d' := r.states[k].dir, r.states[k + 1].dir;
            d' != d ==>
              && Manifest !in d && Uninstaller in d && d' == d - {Uninstaller}
              && c.hash(d[Uninstaller]) == r.states[k].procs[p].work.expected
  {
    EveryStateIsWell(r, c, k);
    var f := r.states[k].procs[p];
    assert Enabled(r.states[k], Play(p), c) && r.states[k + 1] == Next(r.states[k], Play(p), c);
    assert InsideWell(r.states[k], p, c, r.states[0].dir);
    assert CleanupStep(f.script[f.at], f.script[f.at + 1], f.work.expected, c.hash);
  }

  // ---- versions ----

  /** Both hold a manifest, and it is the same or one that records a version not older. */
  ghost predicate NotOlder(a: Dir, b: Dir) {
    && Manifest in a && Manifest in b
    && (a[Manifest] == b[Manifest]
        || (a[Manifest].Record? && b[Manifest].Record?
            && Version.AtMost(a[Manifest].manifest.version, b[Manifest].manifest.version)))
  }

  lemma NotOlderIsTransitive(a: Dir, b: Dir, d: Dir)
    requires NotOlder(a, b) && NotOlder(b, d)
    ensures NotOlder(a, d)
  {
    if a[Manifest] != b[Manifest] && b[Manifest] != d[Manifest] {
      Version.CompareIsTotalOrder(a[Manifest].manifest.version, b[Manifest].manifest.version,
                                  d[Manifest].manifest.version);
    }
  }

  lemma {:induction false} RemovalKeepsManifest(script: seq<Dir>, handedOver: bool)
    requires UninstallSession(script, handedOver) && Manifest in script[|script| - 1]
    ensures Manifest in script[0] && script[0][Manifest] == script[|script| - 1][Manifest]
  {
    if |script| > 1 {
      assert RemovalStep(script[|script| - 2], script[|script| - 1], handedOver);
      RemovalKeepsManifest(script[..|script| - 1], handedOver);
    }
  }

  lemma {:induction false} CleanupKeepsManifest(script: seq<Dir>, expected: Digest, hash: Hash)
    requires CleanupSession(script, expected, hash) && Manifest in script[|script| - 1]
    ensures Manifest in script[0] && script[0][Manifest] == script[|script| - 1][Manifest]
  {
    if |script| > 1 {
      assert CleanupStep(script[|script| - 2], script[|script| - 1], expected, hash);
      CleanupKeepsManifest(script[..|script| - 1], expected, hash);
    }
  }

  /** A session that finds a manifest and leaves one leaves one that is not older: an installer
      compares versions and commits under the same lock hold. */
  lemma SessionIsNotOlder(w: Work, script: seq<Dir>, hash: Hash)
    requires Performs(w, script, hash) && !NeedsRecovery(w)
    requires Manifest in script[0] && Manifest in script[|script| - 1]
    ensures NotOlder(script[0], script[|script| - 1])
  {
    var last := script[|script| - 1];
    match w
    case Installing(site, version, outcome) =>
      if outcome == Installed {
        assert Manifest in script[0].Keys * OWNED;
      } else {
        assert SameAt(script[0], last, Manifest);
      }
    case Removing(handedOver) => RemovalKeepsManifest(script, handedOver);
    case Cleaning(expected) => CleanupKeepsManifest(script, expected, hash);
  }

  /** Whenever nobody is inside between two moments, the directory holds a manifest. */
  ghost predicate StaysInstalled(r: Behavior, i: nat, j: nat) {
    forall k :: i <= k <= j && k < |r.states| && Free(r.states[k]) ==> Manifest in r.states[k].dir
  }

  /** Against the manifest at moment i, neither the directory nor what a process inside found is
      older. */
  ghost predicate NotOlderSince(start: Dir, s: State) {
    && (Free(s) ==> NotOlder(start, s.dir))
    && (forall p :: IsIn(s, p) ==> |s.procs[p].script| > 0 && NotOlder(start, s.procs[p].script[0]))
  }

  lemma TryIsNotOlder(start: Dir, s: State, p: Pid, work: Work, script: seq<Dir>, c: Setting)
    requires LockAgrees(s, c.lock) && Enabled(s, Try(p, work, script), c) && NotOlderSince(start, s)
    ensures NotOlderSince(start, Next(s, Try(p, work, script), c))
  {
    TryKeepsLock(s, p, work, script, c);
    SamePhases(s, Next(s, Try(p, work, script), c), p);
  }

  lemma LeaveIsNotOlder(start: Dir, s: State, p: Pid, c: Setting, dir0: Dir)
    requires Inv(s, c, dir0) && Enabled(s, Leave(p), c) && NotOlderSince(start, s)
    requires var s' := Next(s, Leave(p), c); !s'.broken && Manifest in s'.dir
    ensures NotOlderSince(start, Next(s, Leave(p), c))
  {
    var s', f := Next(s, Leave(p), c), s.procs[p];
    assert InsideWell(s, p, c, dir0);
    forall q
      ensures !IsIn(s', q)
    {
      if IsIn(s', q) {
        assert IsIn(s, q);
        OneInside(s, c.lock, p, q);
      }
    }
    assert NotOlder(start, f.script[0]);
    SessionIsNotOlder(f.work, f.script, c.hash);
    NotOlderIsTransitive(start, f.script[0], s'.dir);
  }

  lemma PlayIsNotOlder(start: Dir, s: State, p: Pid, c: Setting)
    requires Enabled(s, Play(p), c) && NotOlderSince(start, s)
    ensures NotOlderSince(start, Next(s, Play(p), c))
  {
    var s' := Next(s, Play(p), c);
    assert IsIn(s', p);
    SamePhases(s, s', p);
  }

  lemma OthersAreNotOlder(start: Dir, s: State, e: Event, c: Setting)
    requires Enabled(s, e, c) && NotOlderSince(start, s) && (e.Arrive? || e.GiveUp?)
    ensures NotOlderSince(start, Next(s, e, c))
  {
    SamePhases(s, Next(s, e, c), e.p);
  }

  lemma StepIsNotOlder(start: Dir, s: State, e: Event, c: Setting, dir0: Dir)
    requires Inv(s, c, dir0) && Enabled(s, e, c) && NotOlderSince(start, s)
    requires var s' := Next(s, e, c); !s'.broken && (Free(s') ==> Manifest in s'.dir)
    ensures NotOlderSince(start, Next(s, e, c))
  {
    match e
    case Try(p, work, script) => TryIsNotOlder(start, s, p, work, script, c);
    case Play(p) => PlayIsNotOlder(start, s, p, c);
    case Leave(p) =>
      LeaveFrees(s, p, c);
      LeaveIsNotOlder(start, s, p, c, dir0);
    case Die(_) =>
    case _ => OthersAreNotOlder(start, s, e, c);
  }

  lemma LeaveFrees(s: State, p: Pid, c: Setting)
    requires LockAgrees(s, c.lock) && Enabled(s, Leave(p), c)
    ensures Free(Next(s, Leave(p), c))
  {
    var s' := Next(s, Leave(p), c);
    forall q | q in s'.procs
      ensures !s'.procs[q].Inside?
    {
      if IsIn(s, q) {
        OneInside(s, c.lock, p, q);
      }
    }
  }

  lemma SamePhases(s: State, s': State, p: Pid)
    requires forall q :: q != p ==> (q in s.procs <==> q in s'.procs) && (q in s.procs ==> s'.procs[q] == s.procs[q])
    ensures forall q :: q != p ==> (IsIn(s, q) <==> IsIn(s', q))
    ensures Free(s') && !IsIn(s, p) ==> Free(s)
  {
    if Free(s') && !IsIn(s, p) {
      forall q | q in s.procs
        ensures !s.procs[q].Inside?
      {
        assert q != p ==> s'.procs[q] == s.procs[q];
      }
    }
  }

  lemma NotOlderAtOnce(r: Behavior, c: Setting, i: nat)
    requires Runs(r, c) && i < |r.states|
    requires Free(r.states[i]) && !r.states[i].broken && Manifest in r.states[i].dir
    ensures NotOlderSince(r.states[i].dir, r.states[i])
  {
    EveryStateIsWell(r, c, i);
  }

  lemma NotOlderStep(r: Behavior, c: Setting, start: Dir, k: nat)
    requires Runs(r, c) && k < |r.events|
    requires NotOlderSince(start, r.states[k])
    requires !r.states[k + 1].broken && (Free(r.states[k + 1]) ==> Manifest in r.states[k + 1].dir)
    ensures NotOlderSince(start, r.states[k + 1])
  {
    BrokenStays(r, c, k);
    EveryStateIsWell(r, c, k);
    StepIsNotOlder(start, r.states[k], r.events[k], c, r.states[0].dir);
  }

  lemma {:induction false} NeverBroken(r: Behavior, c: Setting, i: nat, j: nat)
    requires Runs(r, c) && i <= j < |r.states| && !r.states[j].broken
    ensures forall k :: i <= k <= j ==> !r.states[k].broken
    decreases j
  {
    if i < j {
      BrokenStays(r, c, j - 1);
      NeverBroken(r, c, i, j - 1);
    }
  }

  lemma {:induction false} NeverOlder(r: Behavior, c: Setting, i: nat, j: nat)
    requires Runs(r, c) && i <= j < |r.states|
    requires Free(r.states[i]) && StaysInstalled(r, i, j)
    requires forall k :: i <= k <= j ==> !r.states[k].broken
    ensures NotOlderSince(r.states[i].dir, r.states[j])
    decreases j
  {
    if i < j {
      NeverOlder(r, c, i, j - 1);
      NotOlderStep(r, c, r.states[i].dir, j - 1);
    } else {
      NotOlderAtOnce(r, c, i);
    }
  }

  lemma BrokenStays(r: Behavior, c: Setting, k: nat)
    requires Runs(r, c) && k < |r.events|
    ensures Enabled(r.states[k], r.events[k], c) && r.states[k + 1] == Next(r.states[k], r.events[k], c)
    ensures r.states[k].broken ==> r.states[k + 1].broken
  {
    assert Enabled(r.states[k], r.events[k], c);
  }

  /** Over every interleaving in which no rollback fails, the version of a manifest that stays in
      place never decreases. */
  lemma VersionsNeverDecrease(r: Behavior, c: Setting, i: nat, j: nat)
    requires Runs(r, c) && i <= j < |r.states|
    requires Free(r.states[i]) && Free(r.states[j]) && !r.states[j].broken && StaysInstalled(r, i, j)
    ensures NotOlder(r.states[i].dir, r.states[j].dir)
  {
    NeverBroken(r, c, i, j);
    NeverOlder(r, c, i, j);
  }
}
