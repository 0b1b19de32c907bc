/** Updater workers of one installation, launched in any number and interleaved in every possible way.

    A worker that acquires the updater lock plays its operations on the state file and the network one at a time;
    they form the session its code is proved against. It may leave after any of them: because it is done, because
    something failed, or because it died. */
module UpdaterRuns {
  import opened Updater
  import NamedMutex

  type Pid = nat

  /** The installation and the name of its updater lock. */
  datatype Setting = Setting(id: string, lock: string)

  datatype Phase =
    | Arrived
    | Losing
    | Inside(known: State, ops: seq<Op>, at: nat)
    | Gone

  /** `attempts`: the times of the network attempts so far, oldest first. */
  datatype Scene = Scene(stored: Stored, locks: NamedMutex.State, workers: map<Pid, Phase>, attempts: seq<Time>)

  datatype Event =
    | Arrive(p: Pid)
    | Try(p: Pid, ops: seq<Op>)
    | GiveUp(p: Pid)
    | Play(p: Pid)
    | Leave(p: Pid)

  ghost predicate IsIn(s: Scene, p: Pid) {
    p in s.workers && s.workers[p].Inside?
  }

  /** The state file reads back as it was last saved: the session starts from that state. */
  ghost predicate Enabled(s: Scene, e: Event, c: Setting) {
    match e
    case Arrive(p) => p !in s.workers
    case Try(p, ops) => p in s.workers && s.workers[p].Arrived? && CheckSession(ops, Known(s.stored, c.id), c.id)
    case GiveUp(p) => p in s.workers && s.workers[p].Losing?
    case Play(p) => IsIn(s, p) && s.workers[p].at < |s.workers[p].ops|
    case Leave(p) => IsIn(s, p)
  }

  ghost function Next(s: Scene, e: Event, c: Setting): Scene {
    match e
    case Arrive(p) => s.(workers := s.workers[p := Arrived])
    case Try(p, ops) =>
      var phase := if NamedMutex.Exists(s.locks, c.lock) then Losing else Inside(Known(s.stored, c.id), ops, 0);
      s.(locks := NamedMutex.Next(s.locks, NamedMutex.Create(c.lock, p)), workers := s.workers[p := phase])
    case Play(p) =>
      if !IsIn(s, p) || s.workers[p].at >= |s.workers[p].ops| then s else
      var phase := s.workers[p];
      var moved := s.(workers := s.workers[p := phase.(at := phase.at + 1)]);
      (match phase.ops[phase.at]
       case Save(t) => moved.(stored := Saved(t))
       case Fetch(t) => moved.(attempts := s.attempts + [t]))
    case _ =>
      s.(locks := NamedMutex.Next(s.locks, NamedMutex.Close(c.lock, e.p)), workers := s.workers[e.p := Gone])
  }

  datatype Behavior = Behavior(states: seq<Scene>, events: seq<Event>)

  ghost predicate Starts(s: Scene) {
    s.workers == map[] && s.locks == NamedMutex.NOTHING && s.attempts == []
  }

  ghost predicate Runs(r: Behavior, c: Setting) {
    && |r.states| == |r.events| + 1 && Starts(r.states[0])
    && (forall k :: 0 <= k < |r.events| ==>
          Enabled(r.states[k], r.events[k], c) && r.states[k + 1] == Next(r.states[k], r.events[k], c))
  }

  // ---- the invariant ----

  /** The lock has an owner exactly while a worker is inside; losers hold transient handles. */
  ghost predicate LockAgrees(s: Scene, lock: string) {
    && NamedMutex.Exclusive(s.locks)
    && (forall p :: p in s.locks.owning <==> IsIn(s, p))
    && (forall p :: p in s.locks.transient <==> p in s.workers && s.workers[p].Losing?)
    && (forall p :: p in s.locks.owning ==> s.locks.owning[p] == lock)
    && (forall p :: p in s.locks.transient ==> s.locks.transient[p] == lock)
  }

  /** Nothing was attempted in the 24 hours before t, unless at the zero time. */
  ghost predicate Due(attempts: seq<Time>, t: Time) {
    attempts == [] || attempts[|attempts| - 1] == ZERO || t >= attempts[|attempts| - 1] + DAY
  }

  ghost predicate Spaced(attempts: seq<Time>) {
    forall i :: 0 <= i && i + 1 < |attempts| ==> attempts[i] == ZERO || attempts[i + 1] >= attempts[i] + DAY
  }

  /** The state file is not behind the last attempt. */
  ghost predicate UpToDateWith(attempts: seq<Time>, stored: Stored, id: string) {
    attempts == [] || attempts[|attempts| - 1] == ZERO || Known(stored, id).lastAttempt >= attempts[|attempts| - 1]
  }

  /** Where a worker inside is in its session, and what it has made of file and network. */
  ghost predicate InsideWell(s: Scene, f: Phase, id: string)
    requires f.Inside?
  {
    && CheckSession(f.ops, f.known, id) && f.at <= |f.ops|
    && (f.at == 0 ==> Known(s.stored, id) == f.known)
    && (f.at > 0 ==> s.stored.Saved? && SameRecord(f.ops[0].state, s.stored.state, id))
    && (f.at == 1 ==> Due(s.attempts, f.ops[0].state.lastAttempt))
    && (f.at > 1 ==> s.attempts != [] && s.attempts[|s.attempts| - 1] == f.ops[0].state.lastAttempt)
  }

  ghost predicate Inv(s: Scene, c: Setting) {
    && LockAgrees(s, c.lock)
    && Spaced(s.attempts) && UpToDateWith(s.attempts, s.stored, c.id)
    && (forall p :: IsIn(s, p) ==> InsideWell(s, s.workers[p], c.id))
  }

  lemma OneInside(s: Scene, lock: string, p: Pid, q: Pid)
    requires LockAgrees(s, lock) && IsIn(s, p) && IsIn(s, q)
    ensures p == q
  {
    assert p in s.locks.owning && q in s.locks.owning;
  }

  /** An attempt that the state file finds due is due. */
  lemma DueByTheFile(attempts: seq<Time>, stored: Stored, id: string, t: Time)
    requires UpToDateWith(attempts, stored, id) && ShouldAttempt(Known(stored, id), t)
    ensures Due(attempts, t)
  {
  }

  lemma TryKeepsInv(s: Scene, p: Pid, ops: seq<Op>, c: Setting)
    requires Inv(s, c) && Enabled(s, Try(p, ops), c)
    ensures Inv(Next(s, Try(p, ops), c), c)
  {
    assert p !in s.locks.owning && p !in s.locks.transient;
    NamedMutex.StepIsExclusive(s.locks, NamedMutex.Create(c.lock, p));
    var s' := Next(s, Try(p, ops), c);
    forall q | IsIn(s', q)
      ensures InsideWell(s', s'.workers[q], c.id)
    {
      if q != p { assert IsIn(s, q); }
    }
  }

  lemma PlayKeepsInv(s: Scene, p: Pid, c: Setting)
    requires Inv(s, c) && Enabled(s, Play(p), c)
    ensures Inv(Next(s, Play(p), c), c)
  {
    var s', f := Next(s, Play(p), c), s.workers[p];
    assert InsideWell(s, f, c.id);
    if f.at == 0 {
      DueByTheFile(s.attempts, s.stored, c.id, f.ops[0].state.lastAttempt);
    }
    forall q
      ensures IsIn(s', q) <==> IsIn(s, q)
      ensures IsIn(s', q) ==> q == p
    {
      if IsIn(s', q) { OneInside(s, c.lock, p, q); }
    }
    assert s'.workers[p] == f.(at := f.at + 1);
    assert InsideWell(s', s'.workers[p], c.id);
  }

  lemma OthersKeepInv(s: Scene, e: Event, c: Setting)
    requires Inv(s, c) && Enabled(s, e, c) && (e.Arrive? || e.GiveUp? || e.Leave?)
    ensures Inv(Next(s, e, c), c)
  {
    var s' := Next(s, e, c);
    if !e.Arrive? {
      assert e.p in s.locks.owning || e.p in s.locks.transient;
      NamedMutex.StepIsExclusive(s.locks, NamedMutex.Close(c.lock, e.p));
    }
    forall q | IsIn(s', q)
      ensures InsideWell(s', s'.workers[q], c.id)
    {
      assert IsIn(s, q);
    }
  }

  lemma {:induction false} EveryStateIsWell(r: Behavior, c: Setting, k: nat)
    requires Runs(r, c) && k < |r.states|
    ensures Inv(r.states[k], c)
  {
    if k > 0 {
      EveryStateIsWell(r, c, k - 1);
      var s, e := r.states[k - 1], r.events[k - 1];
      assert Enabled(s, e, c) && r.states[k] == Next(s, e, c);
      match e
      case Try(p, ops) => TryKeepsInv(s, p, ops, c);
      case Play(p) => PlayKeepsInv(s, p, c);
      case _ => OthersKeepInv(s, e, c);
    }
  }

  // ---- the main results ----

  /** Over every run, at most one worker is inside, and two attempts in a row are at least 24 hours apart, unless the
      earlier one was recorded at the zero time. */
  lemma AttemptsAreADayApart(r: Behavior, c: Setting, k: nat)
    requires Runs(r, c) && k < |r.states|
    ensures forall p, q :: IsIn(r.states[k], p) && IsIn(r.states[k], q) ==> p == q
    ensures Spaced(r.states[k].attempts)
  {
    EveryStateIsWell(r, c, k);
    forall p, q | IsIn(r.states[k], p) && IsIn(r.states[k], q)
      ensures p == q
    {
      OneInside(r.states[k], c.lock, p, q);
    }
  }

  /** So n attempts after a real one take at least n days, whatever the clock did in between. */
  lemma {:induction false} DaysAddUp(attempts: seq<Time>, i: nat, j: nat)
    requires Spaced(attempts) && i <= j < |attempts| && attempts[i] != ZERO
    ensures attempts[j] >= attempts[i] + (j - i) * DAY
  {
    if i < j {
      DaysAddUp(attempts, i, j - 1);
      assert attempts[j - 1 + 1] >= attempts[j - 1] + DAY;
    }
  }

  /** A fetch is made only after its attempt is on file, and by the worker that put it there. */
  lemma RecordedBeforeFetch(r: Behavior, c: Setting, k: nat, p: Pid)
    requires Runs(r, c) && k < |r.events| && r.events[k] == Play(p)
    requires r.states[k + 1].attempts != r.states[k].attempts
    ensures var s := r.states[k];
      && IsIn(s, p) && s.workers[p].at == 1
      && s.stored.Saved? && s.stored.state.id == c.id
      && r.states[k + 1].attempts == s.attempts + [s.stored.state.lastAttempt]
  {
    EveryStateIsWell(r, c, k);
    var s := r.states[k];
    assert Enabled(s, r.events[k], c) && r.states[k + 1] == Next(s, r.events[k], c);
    assert InsideWell(s, s.workers[p], c.id);
  }

  // ---- the exception is real ----

  /** The operations of a worker that records an attempt at t and reaches the network. */
  function Attempting(t: Time, id: string): seq<Op> {
    [Save(FreshState(id).(lastAttempt := t)), Fetch(t)]
  }

  /** Free for the next worker: the lock table is empty. */
  ghost predicate Idle(s: Scene) { s.locks == NamedMutex.NOTHING }

  lemma AttemptSteps(s: Scene, p: Pid, t: Time, c: Setting) returns (states: seq<Scene>, events: seq<Event>)
    requires Idle(s) && p !in s.workers && CheckSession(Attempting(t, c.id), Known(s.stored, c.id), c.id)
    ensures |states| == 6 && |events| == 5 && states[0] == s
    ensures forall k :: 0 <= k < 5 ==>
      Enabled(states[k], events[k], c) && states[k + 1] == Next(states[k], events[k], c)
    ensures Idle(states[5]) && states[5].attempts == s.attempts + [t]
    ensures states[5].stored == Saved(FreshState(c.id).(lastAttempt := t))
    ensures states[5].workers.Keys == s.workers.Keys + {p}
  {
    var ops := Attempting(t, c.id);
    events := [Arrive(p), Try(p, ops), Play(p), Play(p), Leave(p)];
    var s1 := Next(s, events[0], c);
    var s2 := Next(s1, events[1], c);
    assert s2.workers[p] == Inside(Known(s.stored, c.id), ops, 0);
    var s3 := Next(s2, events[2], c);
    assert s3.workers[p] == Inside(Known(s.stored, c.id), ops, 1);
    var s4 := Next(s3, events[3], c);
    assert s4.workers[p] == Inside(Known(s.stored, c.id), ops, 2);
    var s5 := Next(s4, events[4], c);
    assert s5.locks.owning == map[] && s5.locks.transient == map[];
    states := [s, s1, s2, s3, s4, s5];
  }

  /** A clock that reads Go's zero time does not throttle: two workers may reach the network one nanosecond apart. */
  lemma ZeroTimeDoesNotThrottle(c: Setting) returns (r: Behavior)
    ensures Runs(r, c) && r.states[|r.states| - 1].attempts == [ZERO, 1]
  {
    var s := Scene(Nothing, NamedMutex.NOTHING, map[], []);
    var states, events := AttemptSteps(s, 1, ZERO, c);
    var later, more := AttemptSteps(states[5], 2, 1, c);
    r := Behavior(states[..5] + later, events + more);
    forall k | 0 <= k < |r.events|
      ensures Enabled(r.states[k], r.events[k], c) && r.states[k + 1] == Next(r.states[k], r.events[k], c)
    {
      if k < 5 {
        assert r.events[k] == events[k] && r.states[k] == states[k] && r.states[k + 1] == states[k + 1];
      } else {
        assert r.events[k] == more[k - 5] && r.states[k] == later[k - 5] && r.states[k + 1] == later[k - 4];
      }
    }
  }
}
