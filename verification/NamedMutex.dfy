/** Locks made of Windows named mutex objects: the lock belongs to whoever created the object.

    CreateMutexW opens a handle to the object of that name, creating it when no handle to it is
    open. Finding that it existed, the caller closes its handle again and has not acquired the lock.
    The object lives as long as any handle to it is open, also a handle of a caller about to close. */
module NamedMutex {
  type Handle = nat

  /** The open handles of each kind, with the name each refers to. */
  datatype State = State(owning: map<Handle, string>, transient: map<Handle, string>)

  const NOTHING := State(map[], map[])

  /** Some handle to the object is open. */
  predicate Exists(s: State, name: string) {
    (exists h :: h in s.owning && s.owning[h] == name) || (exists h :: h in s.transient && s.transient[h] == name)
  }

  datatype Event = Create(name: string, handle: Handle) | Close(name: string, handle: Handle)

  predicate Enabled(s: State, e: Event) {
    match e
    case Create(_, h) => h !in s.owning && h !in s.transient
    case Close(n, h) => (h in s.owning && s.owning[h] == n) || (h in s.transient && s.transient[h] == n)
  }

  function Next(s: State, e: Event): State {
    match e
    case Create(n, h) =>
      if Exists(s, n) then s.(transient := s.transient[h := n]) else s.(owning := s.owning[h := n])
    case Close(_, h) => State(s.owning - {h}, s.transient - {h})
  }

  ghost function Run(events: seq<Event>): State {
    if events == [] then NOTHING else Next(Run(events[..|events| - 1]), events[|events| - 1])
  }

  ghost predicate Legal(events: seq<Event>) {
    forall k :: 0 <= k < |events| ==> Enabled(Run(events[..k]), events[k])
  }

  /** No two open handles own the same name. */
  ghost predicate Exclusive(s: State) {
    && s.owning.Keys !! s.transient.Keys
    && (forall h, k :: h in s.owning && k in s.owning && s.owning[h] == s.owning[k] ==> h == k)
  }

  lemma StepIsExclusive(s: State, e: Event)
    requires Exclusive(s) && Enabled(s, e)
    ensures Exclusive(Next(s, e))
  {
  }

  /** In every reachable state at most one handle owns a name. */
  lemma {:induction false} AtMostOneOwner(events: seq<Event>)
    requires Legal(events)
    ensures Exclusive(Run(events))
  {
    if events != [] {
      var init := events[..|events| - 1];
      assert forall k :: 0 <= k < |init| ==> init[..k] == events[..k];
      AtMostOneOwner(init);
      assert Enabled(Run(init), events[|events| - 1]);
      StepIsExclusive(Run(init), events[|events| - 1]);
    }
  }

  // ---- one lock does not see another ----

  ghost function Only(m: map<Handle, string>, name: string): map<Handle, string> {
    map h | h in m && m[h] == name :: name
  }

  ghost function Restrict(s: State, name: string): State {
    State(Only(s.owning, name), Only(s.transient, name))
  }

  ghost function About(events: seq<Event>, name: string): seq<Event> {
    if events == [] then []
    else
      var last := events[|events| - 1];
      About(events[..|events| - 1], name) + (if last.name == name then [last] else [])
  }

  lemma ExistsInRestriction(s: State, name: string)
    ensures Exists(s, name) <==> Exists(Restrict(s, name), name)
  {
    var r := Restrict(s, name);
    forall h
      ensures h in r.owning <==> h in s.owning && s.owning[h] == name
      ensures h in r.transient <==> h in s.transient && s.transient[h] == name
    {
    }
  }

  lemma OnlyAfterAdd(m: map<Handle, string>, h: Handle, n: string, name: string)
    requires h !in m
    ensures Only(m[h := n], name) == if n == name then Only(m, name)[h := n] else Only(m, name)
  {
  }

  lemma OnlyAfterRemove(m: map<Handle, string>, h: Handle, name: string)
    ensures Only(m - {h}, name) == Only(m, name) - {h}
    ensures (h in m ==> m[h] != name) ==> Only(m - {h}, name) == Only(m, name)
  {
  }

  lemma StepInRestriction(s: State, e: Event, name: string)
    requires Enabled(s, e) && Exclusive(s)
    ensures e.name == name ==> Restrict(Next(s, e), name) == Next(Restrict(s, name), e)
    ensures e.name != name ==> Restrict(Next(s, e), name) == Restrict(s, name)
  {
    ExistsInRestriction(s, name);
    if e.Create? {
      OnlyAfterAdd(s.owning, e.handle, e.name, name);
      OnlyAfterAdd(s.transient, e.handle, e.name, name);
    } else {
      OnlyAfterRemove(s.owning, e.handle, name);
      OnlyAfterRemove(s.transient, e.handle, name);
    }
  }

  lemma RunAbout(events: seq<Event>, name: string)
    requires events != []
    ensures var init, last := events[..|events| - 1], events[|events| - 1];
            Run(About(events, name))
            == if last.name == name then Next(Run(About(init, name)), last) else Run(About(init, name))
  {
    var a := About(events[..|events| - 1], name);
    var last := events[|events| - 1];
    assert (a + [last])[..|a|] == a;
    assert a + [] == a;
  }

  /** What happens to a name is decided by the events about that name alone. So a process that holds
      the updater lock never keeps its installer child from the installation lock. */
  lemma {:induction false} LocksAreIndependent(events: seq<Event>, name: string)
    requires Legal(events)
    ensures Restrict(Run(events), name) == Run(About(events, name))
    ensures Exists(Run(events), name) <==> Exists(Run(About(events, name)), name)
  {
    if events != [] {
      var init, last := events[..|events| - 1], events[|events| - 1];
      assert forall k :: 0 <= k < |init| ==> init[..k] == events[..k];
      LocksAreIndependent(init, name);
      AtMostOneOwner(init);
      assert Enabled(Run(init), last);
      StepInRestriction(Run(init), last, name);
      RunAbout(events, name);
    }
    ExistsInRestriction(Run(events), name);
  }

  // ---- the lock names ----

  function UpdaterLock(id: string): string { "Local\\LotCraft-Updater-" + id }

  function InstallLock(id: string): string { "Global\\LotCraft-Install-" + id }

  lemma LockNamesDiffer(id: string, other: string)
    ensures UpdaterLock(id) != InstallLock(other)
    ensures InstallLock(id) == InstallLock(other) <==> id == other
  {
    assert UpdaterLock(id)[0] == 'L' && InstallLock(other)[0] == 'G';
    var n := |"Global\\LotCraft-Install-"|;
    assert InstallLock(id)[n..] == id && InstallLock(other)[n..] == other;
  }

  // ---- acquireNamedMutex and Close ----

  /** The kernel's table of open handles. The oracle says whether the n-th CreateMutexW fails. */
  class Kernel {
    var state: State
    var next: Handle
    var calls: nat

    const refuses: nat -> bool

    // How many calls have failed.
    ghost var hitches: nat

    constructor (refuses: nat -> bool)
      ensures Valid() && state == NOTHING && calls == 0 && hitches == 0 && this.refuses == refuses
    {
      state := NOTHING;
      next := 1;
      calls, hitches := 0, 0;
      this.refuses := refuses;
    }

    ghost predicate Valid()
      reads this
    {
      && Exclusive(state)
      && next > 0
      && (forall h :: h in state.owning || h in state.transient ==> 0 < h < next)
    }

    /** Handle 0 reports a failure. */
    method CreateMutex(name: string) returns (handle: Handle, existed: bool)
      requires Valid()
      modifies this
      ensures Valid() && calls == old(calls) + 1
      ensures handle == if refuses(old(calls)) then 0 else old(next)
      ensures hitches == old(hitches) + if handle == 0 then 1 else 0
      ensures handle == 0 ==> state == old(state)
      ensures handle != 0
              ==> Enabled(old(state), Create(name, handle)) && state == Next(old(state), Create(name, handle))
      ensures existed <==> handle != 0 && Exists(old(state), name)
    {
      if refuses(calls) {
        handle, existed := 0, false;
        hitches := hitches + 1;
      } else {
        handle, existed := next, Exists(state, name);
        StepIsExclusive(state, Create(name, handle));
        state := Next(state, Create(name, handle));
        next := next + 1;
      }
      calls := calls + 1;
    }

    method CloseHandle(name: string, handle: Handle)
      requires Valid() && Enabled(state, Close(name, handle))
      modifies this
      ensures Valid() && state == Next(old(state), Close(name, handle)) && calls == old(calls)
      ensures hitches == old(hitches)
    {
      StepIsExclusive(state, Close(name, handle));
      state := Next(state, Close(name, handle));
    }
  }

  /** A lock that was acquired; handle 0 means closed. */
  class Mutex {
    const name: string
    var handle: Handle

    constructor (name: string, handle: Handle)
      ensures this.name == name && this.handle == handle
    {
      this.name := name;
      this.handle := handle;
    }

    ghost predicate Held(kernel: Kernel)
      reads this, kernel
    {
      handle in kernel.state.owning && kernel.state.owning[handle] == name
    }

    /** Closing releases the lock once; closing again does nothing. */
    method Close(kernel: Kernel)
      requires kernel.Valid() && (handle != 0 ==> Held(kernel))
      modifies this, kernel
      ensures kernel.Valid() && handle == 0 && kernel.hitches == old(kernel.hitches)
      ensures kernel.state == if old(handle) == 0 then old(kernel.state)
                              else Next(old(kernel.state), Event.Close(name, old(handle)))
    {
      if handle != 0 {
        kernel.CloseHandle(name, handle);
        handle := 0;
      }
    }
  }

  /** What became of an attempt to acquire a lock. */
  datatype Acquisition = Acquired | Taken | Failed

  /** acquireNamedMutex, when no other process interferes between its two kernel calls: unless the
      kernel fails, it acquires the lock exactly when no handle to the name was open; and it leaves no
      handle behind otherwise. */
  method AcquireNamedMutex(kernel: Kernel, name: string) returns (mutex: Mutex?, result: Acquisition)
    requires kernel.Valid()
    modifies kernel
    ensures kernel.Valid()
    ensures result == if kernel.refuses(old(kernel.calls)) then Failed
                      else if Exists(old(kernel.state), name) then Taken else Acquired
    ensures mutex != null <==> result == Acquired
    ensures kernel.hitches == old(kernel.hitches) + if result == Failed then 1 else 0
    ensures mutex == null ==> kernel.state == old(kernel.state)
    ensures mutex != null ==> fresh(mutex) && mutex.name == name && mutex.handle != 0 && mutex.Held(kernel)
    ensures mutex != null ==> mutex.handle !in old(kernel.state).owning && mutex.handle !in old(kernel.state).transient
    ensures mutex != null ==> kernel.state.transient == old(kernel.state).transient
                              && kernel.state.owning == old(kernel.state).owning[mutex.handle := name]
  {
    var handle, existed := kernel.CreateMutex(name);
    if handle == 0 {
      return null, Failed;
    }
    if existed {
      kernel.CloseHandle(name, handle);
      assert kernel.state.transient == old(kernel.state).transient;
      assert kernel.state.owning == old(kernel.state).owning;
      return null, Taken;
    }
    mutex := new Mutex(name, handle);
    result := Acquired;
  }
}
