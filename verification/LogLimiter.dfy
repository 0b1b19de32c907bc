/** The log rate limiter: sixteen slots, filled in turn. */
module LogLimiter {
  import opened Wrappers

  const SLOTS := 16
  // MQL5 `ulong` arithmetic wraps here.
  const ULONG := 0x1_0000_0000_0000_0000

  type Time = t: int | 0 <= t < ULONG

  datatype Table = Table(keys: seq<string>, times: seq<Time>, cursor: nat)

  /** The globals as they start. */
  function Blank(): (t: Table)
    ensures Shaped(t) && t.cursor == 0
    ensures forall i :: 0 <= i < SLOTS ==> t.keys[i] == "" && t.times[i] == 0
  {
    Table(seq(SLOTS, _ => ""), seq(SLOTS, _ => 0), 0)
  }

  predicate Shaped(t: Table) {
    |t.keys| == SLOTS && |t.times| == SLOTS
  }

  /** Milliseconds from one tick count to a later one, as unsigned 64-bit subtraction gives it. */
  function Elapsed(since: Time, now: Time): Time {
    (now - since) % ULONG
  }

  /** The time that has passed is what leads from the one tick count to the other, also across the wrap. */
  lemma ElapsedLeadsOn(since: Time, now: Time)
    ensures (since + Elapsed(since, now)) % ULONG == now
    ensures since <= now ==> Elapsed(since, now) == now - since
    ensures since > now ==> Elapsed(since, now) == now + (ULONG - since)
  {
    if since > now {
      assert now - since == (-1) * ULONG + (now + ULONG - since);
    }
  }

  /** The first slot that holds a key. */
  function Find(keys: seq<string>, key: string): (i: nat)
    ensures i <= |keys|
    ensures i < |keys| ==> keys[i] == key
    ensures forall j :: 0 <= j < i ==> keys[j] != key
  {
    if keys == [] || keys[0] == key then 0 else 1 + Find(keys[1..], key)
  }

  datatype Call = Call(key: string, interval: Time, now: Time)

  /** What a call does to the table, and whether it may emit. */
  function Step(t: Table, c: Call): (Table, bool)
    requires Shaped(t)
  {
    var i := Find(t.keys, c.key);
    if i < SLOTS then
      if Elapsed(t.times[i], c.now) < c.interval then (t, false)
      else (Table(t.keys, t.times[i := c.now], t.cursor), true)
    else
      var slot := t.cursor % SLOTS;
      (Table(t.keys[slot := c.key], t.times[slot := c.now], t.cursor + 1), true)
  }

  /** The three globals of PS_Logging.mqh. */
  class Limiter {
    var keys: array<string>
    var times: array<Time>
    var cursor: int

    constructor ()
      ensures Valid() && fresh(keys) && fresh(times) && Contents() == Blank()
    {
      keys := new string[SLOTS]((i: nat) => "");
      times := new Time[SLOTS]((i: nat) => 0 as Time);
      cursor := 0;
      new;
      assert keys[..] == Blank().keys && times[..] == Blank().times;
    }

    ghost predicate Valid()
      reads this
    {
      keys.Length == SLOTS && times.Length == SLOTS && cursor >= 0
    }

    ghost function Contents(): (t: Table)
      requires Valid()
      reads this, keys, times
      ensures Shaped(t)
    {
      Table(keys[..], times[..], cursor)
    }

    /** PS_LogMayEmit, for fewer than 2^31 insertions: the source's cursor is a 32-bit int. */
    method MayEmit(key: string, interval: Time, now: Time) returns (emit: bool)
      requires Valid() && cursor < 0x7fff_ffff
      modifies this`cursor, keys, times
      ensures Valid() && keys == old(keys) && times == old(times)
      ensures (Contents(), emit) == Step(old(Contents()), Call(key, interval, now))
    {
      for i := 0 to keys.Length
        invariant forall j :: 0 <= j < i ==> keys[j] != key
      {
        if keys[i] == key {
          FoundAt(keys[..], key, i);
          if (now - times[i]) % ULONG < interval {
            return false;
          }
          times[i] := now;
          assert keys[..] == old(keys[..]) && times[..] == old(times[..])[i := now];
          return true;
        }
      }
      NotFound(keys[..], key);
      var slot := cursor % keys.Length;
      cursor := cursor + 1;
      keys[slot] := key;
      times[slot] := now;
      assert keys[..] == old(keys[..])[slot := key] && times[..] == old(times[..])[slot := now];
      emit := true;
    }
  }

  lemma FoundAt(keys: seq<string>, key: string, i: nat)
    requires i < |keys| && keys[i] == key && forall j :: 0 <= j < i ==> keys[j] != key
    ensures Find(keys, key) == i
  {
  }

  lemma NotFound(keys: seq<string>, key: string)
    requires forall j :: 0 <= j < |keys| ==> keys[j] != key
    ensures Find(keys, key) == |keys|
  {
  }

  // ---- runs ----

  function After(calls: seq<Call>): (t: Table)
    ensures Shaped(t)
  {
    if calls == [] then Blank() else Step(After(calls[..|calls| - 1]), calls[|calls| - 1]).0
  }

  /** Whether the last call of a sequence emits. */
  function Emits(calls: seq<Call>): bool
    requires calls != []
  {
    Step(After(calls[..|calls| - 1]), calls[|calls| - 1]).1
  }

  // ---- what the table remembers ----

  /** When a key last emitted, and which insertion, counted from 0, put it into the table. */
  datatype Entry = Entry(time: Time, seat: nat)

  function Logged(t: Table, log: map<string, Entry>, c: Call): map<string, Entry>
    requires Shaped(t)
  {
    if !Step(t, c).1 then log
    else if Find(t.keys, c.key) < SLOTS && c.key in log then log[c.key := Entry(c.now, log[c.key].seat)]
    else log[c.key := Entry(c.now, t.cursor)]
  }

  function Log(calls: seq<Call>): map<string, Entry> {
    if calls == [] then map[]
    else
      var init := calls[..|calls| - 1];
      Logged(After(init), Log(init), calls[|calls| - 1])
  }

  /** A slot in use holds the key of one of the last sixteen insertions, with its time. */
  ghost predicate SlotOk(t: Table, log: map<string, Entry>, i: nat)
    requires Shaped(t) && i < SLOTS
  {
    if i < t.cursor then
      var k := t.keys[i];
      && k in log && log[k].seat % SLOTS == i && t.cursor - SLOTS <= log[k].seat < t.cursor
      && log[k].time == t.times[i]
    else t.keys[i] == ""
  }

  /** A key is in its slot until sixteen more insertions have been made. */
  ghost predicate Seated(t: Table, log: map<string, Entry>, k: string)
    requires Shaped(t) && k in log
  {
    var seat := log[k].seat;
    k != "" && seat < t.cursor && (t.cursor <= seat + SLOTS ==> t.keys[seat % SLOTS] == k)
  }

  ghost predicate Remembers(t: Table, log: map<string, Entry>)
    requires Shaped(t)
  {
    && (forall i :: 0 <= i < SLOTS ==> SlotOk(t, log, i))
    && (forall k :: k in log ==> Seated(t, log, k))
  }

  lemma SameSlotFarApart(a: int, b: int)
    requires 0 <= a < b && a % SLOTS == b % SLOTS
    ensures b - a >= SLOTS
  {
  }

  lemma HitRemembers(t: Table, log: map<string, Entry>, c: Call, i: nat)
    requires Shaped(t) && Remembers(t, log) && c.key != "" && i == Find(t.keys, c.key) < SLOTS
    ensures c.key in log && log[c.key].time == t.times[i] && t.cursor <= log[c.key].seat + SLOTS
    ensures Remembers(t.(times := t.times[i := c.now]), log[c.key := Entry(c.now, log[c.key].seat)])
  {
    assert SlotOk(t, log, i);
    var t', log' := t.(times := t.times[i := c.now]), log[c.key := Entry(c.now, log[c.key].seat)];
    forall j | 0 <= j < SLOTS
      ensures SlotOk(t', log', j)
    {
      assert SlotOk(t, log, j);
    }
    forall k | k in log'
      ensures Seated(t', log', k)
    {
      assert Seated(t, log, k);
    }
  }

  /** The table and the log once a call has put its key into the next slot. */
  function Inserted(t: Table, c: Call): Table
    requires Shaped(t)
  {
    Table(t.keys[t.cursor % SLOTS := c.key], t.times[t.cursor % SLOTS := c.now], t.cursor + 1)
  }

  lemma OtherSlot(cursor: nat, j: nat, seat: int)
    requires j < SLOTS && j != cursor % SLOTS
    ensures j != cursor
    ensures seat % SLOTS == j && cursor - SLOTS <= seat ==> cursor - SLOTS < seat
  {
    assert (cursor - SLOTS) % SLOTS == cursor % SLOTS;
  }

  lemma InsertionKeepsSlot(t: Table, log: map<string, Entry>, c: Call, j: nat)
    requires Shaped(t) && Remembers(t, log) && Find(t.keys, c.key) >= SLOTS && j < SLOTS
    ensures SlotOk(Inserted(t, c), log[c.key := Entry(c.now, t.cursor)], j)
  {
    assert SlotOk(t, log, j);
    if j != t.cursor % SLOTS {
      assert Inserted(t, c).keys[j] == t.keys[j] != c.key;
      OtherSlot(t.cursor, j, if j < t.cursor then log[t.keys[j]].seat else j);
    }
  }

  lemma InsertionKeepsSeat(t: Table, log: map<string, Entry>, c: Call, k: string)
    requires Shaped(t) && Remembers(t, log) && c.key != "" && k in log && k != c.key
    ensures Seated(Inserted(t, c), log[c.key := Entry(c.now, t.cursor)], k)
  {
    assert Seated(t, log, k);
    if log[k].seat % SLOTS == t.cursor % SLOTS {
      SameSlotFarApart(log[k].seat, t.cursor);
    }
  }

  lemma MissRemembers(t: Table, log: map<string, Entry>, c: Call)
    requires Shaped(t) && Remembers(t, log) && c.key != "" && Find(t.keys, c.key) >= SLOTS
    ensures c.key in log ==> log[c.key].seat + SLOTS < t.cursor
    ensures Remembers(Inserted(t, c), log[c.key := Entry(c.now, t.cursor)])
  {
    var log' := log[c.key := Entry(c.now, t.cursor)];
    if c.key in log {
      assert Seated(t, log, c.key);
    }
    forall j | 0 <= j < SLOTS
      ensures SlotOk(Inserted(t, c), log', j)
    {
      InsertionKeepsSlot(t, log, c, j);
    }
    forall k | k in log'
      ensures Seated(Inserted(t, c), log', k)
    {
      if k != c.key {
        InsertionKeepsSeat(t, log, c, k);
      }
    }
  }

  lemma StepRemembers(t: Table, log: map<string, Entry>, c: Call)
    requires Shaped(t) && Remembers(t, log) && c.key != ""
    ensures Remembers(Step(t, c).0, Logged(t, log, c))
    ensures Step(t, c).1 && c.key in log && Elapsed(log[c.key].time, c.now) < c.interval
            ==> log[c.key].seat + SLOTS < t.cursor
    ensures !Step(t, c).1 ==> c.key in log && Elapsed(log[c.key].time, c.now) < c.interval
  {
    var i := Find(t.keys, c.key);
    if i < SLOTS {
      HitRemembers(t, log, c, i);
    } else {
      MissRemembers(t, log, c);
    }
  }

  ghost predicate Named(calls: seq<Call>) {
    forall i :: 0 <= i < |calls| ==> calls[i].key != ""
  }

  lemma {:induction false} AlwaysRemembers(calls: seq<Call>)
    requires Named(calls)
    ensures Remembers(After(calls), Log(calls))
  {
    if calls != [] {
      AlwaysRemembers(calls[..|calls| - 1]);
      StepRemembers(After(calls[..|calls| - 1]), Log(calls[..|calls| - 1]), calls[|calls| - 1]);
    }
  }

  /** No key is ever in two slots. */
  lemma KeysStayDistinct(calls: seq<Call>, i: nat, j: nat)
    requires Named(calls) && i < j < SLOTS && After(calls).keys[i] != ""
    ensures After(calls).keys[i] != After(calls).keys[j]
  {
    AlwaysRemembers(calls);
    assert SlotOk(After(calls), Log(calls), i) && SlotOk(After(calls), Log(calls), j);
  }

  /** The p-th call of a sequence put a key into the table, as its seat-th insertion. */
  ghost predicate Inserts(calls: seq<Call>, p: nat, key: string, seat: nat) {
    && p < |calls| && calls[p].key == key
    && Find(After(calls[..p]).keys, key) >= SLOTS && After(calls[..p]).cursor == seat
  }

  /** The seat of a key in the log is the insertion that last put it into the table. */
  lemma {:induction false} SeatsAreInsertions(calls: seq<Call>, key: string)
    requires Named(calls) && key in Log(calls)
    ensures exists p: nat :: Inserts(calls, p, key, Log(calls)[key].seat)
  {
    var init, c := calls[..|calls| - 1], calls[|calls| - 1];
    AlwaysRemembers(init);
    SeatAfterCall(After(init), Log(init), c, key);
    if key == c.key && Find(After(init).keys, key) >= SLOTS {
      assert Inserts(calls, |init|, key, Log(calls)[key].seat);
    } else {
      SeatsAreInsertions(init, key);
      var p: nat :| Inserts(init, p, key, Log(init)[key].seat);
      assert calls[..p] == init[..p];
      assert Inserts(calls, p, key, Log(calls)[key].seat);
    }
  }

  lemma SeatAfterCall(t: Table, log: map<string, Entry>, c: Call, key: string)
    requires Shaped(t) && Remembers(t, log) && c.key != "" && key in Logged(t, log, c)
    ensures key == c.key && Find(t.keys, key) >= SLOTS ==> Logged(t, log, c)[key].seat == t.cursor
    ensures !(key == c.key && Find(t.keys, key) >= SLOTS) ==> key in log && Logged(t, log, c)[key].seat == log[key].seat
  {
    if Find(t.keys, c.key) < SLOTS {
      HitRemembers(t, log, c, Find(t.keys, c.key));
    }
  }

  /** The sixteen slots hold sixteen different keys, none of them this one, and each was inserted after it. */
  ghost predicate SixteenOthersSince(t: Table, log: map<string, Entry>, key: string)
    requires Shaped(t) && key in log
  {
    && (forall i :: 0 <= i < SLOTS ==> NewerThan(t.keys[i], key, log))
    && (forall i, j :: 0 <= i < j < SLOTS ==> t.keys[i] != t.keys[j])
  }

  ghost predicate NewerThan(k: string, key: string, log: map<string, Entry>)
    requires key in log
  {
    k != "" && k != key && k in log && log[k].seat > log[key].seat
  }

  lemma EvictedBySixteen(t: Table, log: map<string, Entry>, key: string)
    requires Shaped(t) && Remembers(t, log) && key in log && Find(t.keys, key) >= SLOTS
    ensures SixteenOthersSince(t, log, key)
  {
    assert Seated(t, log, key);
    forall i | 0 <= i < SLOTS
      ensures NewerThan(t.keys[i], key, log)
    {
      assert SlotOk(t, log, i) && t.keys[i] != key;
      assert Seated(t, log, t.keys[i]);
    }
    forall i, j | 0 <= i < j < SLOTS
      ensures t.keys[i] != t.keys[j]
    {
      assert SlotOk(t, log, i) && SlotOk(t, log, j);
    }
  }

  /** A key in the table emits exactly when its interval has passed; a key that is not has been driven out. */
  lemma RepeatsOnTable(t: Table, log: map<string, Entry>, c: Call)
    requires Shaped(t) && Remembers(t, log) && c.key != ""
    ensures Find(t.keys, c.key) < SLOTS ==>
      c.key in log && (Step(t, c).1 <==> Elapsed(log[c.key].time, c.now) >= c.interval)
    ensures Find(t.keys, c.key) >= SLOTS ==>
      Step(t, c).1 && (c.key in log ==> SixteenOthersSince(t, log, c.key))
  {
    if Find(t.keys, c.key) < SLOTS {
      HitRemembers(t, log, c, Find(t.keys, c.key));
    } else if c.key in log {
      EvictedBySixteen(t, log, c.key);
    }
  }

  /** On every sequence of calls with non-empty keys: a call is suppressed only when its key emitted
      less than the interval ago; and when a key emits again within the interval, sixteen other keys,
      all different and all still in the table, have been inserted since it was. */
  lemma RepeatsNeedSixteenOthers(calls: seq<Call>)
    requires calls != [] && Named(calls)
    ensures var init, c := calls[..|calls| - 1], calls[|calls| - 1];
            && (!Emits(calls) ==> c.key in Log(init) && Elapsed(Log(init)[c.key].time, c.now) < c.interval)
            && (Emits(calls) && c.key in Log(init) && Elapsed(Log(init)[c.key].time, c.now) < c.interval ==>
                  && SixteenOthersSince(After(init), Log(init), c.key)
                  && After(init).cursor - (Log(init)[c.key].seat + 1) >= SLOTS)
  {
    var init, c := calls[..|calls| - 1], calls[|calls| - 1];
    AlwaysRemembers(init);
    StepRemembers(After(init), Log(init), c);
    RepeatsOnTable(After(init), Log(init), c);
  }

  // ---- the limiter with room for every key ----

  function Unbounded(calls: seq<Call>): map<string, Time> {
    if calls == [] then map[]
    else
      var m, c := Unbounded(calls[..|calls| - 1]), calls[|calls| - 1];
      if Passes(m, c) then m[c.key := c.now] else m
  }

  predicate Passes(m: map<string, Time>, c: Call) {
    c.key in m ==> Elapsed(m[c.key], c.now) >= c.interval
  }

  ghost function KeysOf(calls: seq<Call>): set<string> {
    set i | 0 <= i < |calls| :: calls[i].key
  }

  /** The log holds the times of the unbounded limiter. */
  ghost predicate SameTimes(log: map<string, Entry>, m: map<string, Time>) {
    log.Keys == m.Keys && forall k :: k in m ==> log[k].time == m[k]
  }

  /** With at most sixteen distinct keys, none empty, every call is decided as by the unbounded
      limiter. */
  lemma {:induction false} AgreesWithUnbounded(calls: seq<Call>)
    requires Named(calls) && |KeysOf(calls)| <= SLOTS
    ensures SameTimes(Log(calls), Unbounded(calls)) && Log(calls).Keys <= KeysOf(calls)
    ensures After(calls).cursor == |Log(calls).Keys|
    ensures calls != [] ==> (Emits(calls) <==> Passes(Unbounded(calls[..|calls| - 1]), calls[|calls| - 1]))
  {
    if calls != [] {
      var init, c := calls[..|calls| - 1], calls[|calls| - 1];
      assert KeysOf(init) <= KeysOf(calls) && c.key in KeysOf(calls);
      SubsetCard(KeysOf(init), KeysOf(calls));
      AgreesWithUnbounded(init);
      AlwaysRemembers(init);
      SubsetCard(Log(init).Keys, KeysOf(calls));
      UnboundedStep(After(init), Log(init), Unbounded(init), c);
    }
  }

  lemma UnboundedStep(t: Table, log: map<string, Entry>, m: map<string, Time>, c: Call)
    requires Shaped(t) && Remembers(t, log) && c.key != "" && t.cursor == |log.Keys| <= SLOTS && SameTimes(log, m)
    ensures Step(t, c).1 <==> Passes(m, c)
    ensures SameTimes(Logged(t, log, c), if Passes(m, c) then m[c.key := c.now] else m)
    ensures Step(t, c).0.cursor == |Logged(t, log, c).Keys| && Logged(t, log, c).Keys <= log.Keys + {c.key}
  {
    StepRemembers(t, log, c);
    CursorCountsKeys(t, log, c);
    assert c.key in log <==> c.key in m;
    assert Passes(m, c) <==> !(c.key in log && Elapsed(log[c.key].time, c.now) < c.interval);
    if Step(t, c).1 {
      var seat := LoggedSeat(t, log, c);
      SameTimesAfter(log, m, c.key, c.now, seat);
    }
  }

  lemma LoggedSeat(t: Table, log: map<string, Entry>, c: Call) returns (seat: nat)
    requires Shaped(t) && Step(t, c).1
    ensures Logged(t, log, c) == log[c.key := Entry(c.now, seat)]
  {
    seat := if Find(t.keys, c.key) < SLOTS && c.key in log then log[c.key].seat else t.cursor;
  }

  lemma SameTimesAfter(log: map<string, Entry>, m: map<string, Time>, key: string, now: Time, seat: nat)
    requires SameTimes(log, m)
    ensures SameTimes(log[key := Entry(now, seat)], m[key := now])
  {
    assert log[key := Entry(now, seat)].Keys == log.Keys + {key};
    assert m[key := now].Keys == m.Keys + {key};
  }

  lemma CursorCountsKeys(t: Table, log: map<string, Entry>, c: Call)
    requires Shaped(t) && Remembers(t, log) && c.key != "" && t.cursor == |log.Keys| <= SLOTS
    ensures Step(t, c).0.cursor == |Logged(t, log, c).Keys|
    ensures Logged(t, log, c).Keys <= log.Keys + {c.key}
    ensures Step(t, c).1 ==> Logged(t, log, c).Keys == log.Keys + {c.key} && Logged(t, log, c)[c.key].time == c.now
  {
    if Find(t.keys, c.key) < SLOTS {
      assert SlotOk(t, log, Find(t.keys, c.key));
    }
    if c.key in log {
      assert Seated(t, log, c.key);
      assert t.keys[log[c.key].seat % SLOTS] == c.key;
      assert log.Keys + {c.key} == log.Keys;
    }
  }

  lemma SubsetCard<T>(a: set<T>, b: set<T>)
    requires a <= b
    ensures |a| <= |b|
  {
    assert b == a + (b - a);
  }
}
