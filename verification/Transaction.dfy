/** The owned-file transaction: replacing a list of files by rename, with rollback.

    A `PreparedFile` carries the bookkeeping of one file. The specification speaks of its value
    (`Rec`), of the directory before the transaction (`orig`), and of `strays`, the names reserved
    for a backup that could not be released again. */
module Transaction {
  import opened Wrappers
  import opened Directory

  class PreparedFile {
    var temp: Option<Name>
    const final: Name
    var backup: Option<Name>
    var hadOld: bool
    var committed: bool

    // The backup path this file last moved its old bytes to.
    ghost var slot: Option<Name>

    constructor (temp: Name, final: Name)
      ensures View() == Rec(Some(temp), final, None, false, false, None)
    {
      this.temp := Some(temp);
      this.final := final;
      this.backup := None;
      this.hadOld := false;
      this.committed := false;
      this.slot := None;
    }

    ghost function View(): Rec
      reads this
    {
      Rec(temp, final, backup, hadOld, committed, slot)
    }
  }

  datatype Rec = Rec(
    temp: Option<Name>,
    final: Name,
    backup: Option<Name>,
    hadOld: bool,
    committed: bool,
    slot: Option<Name>)

  /** The values of a list of distinct files. */
  ghost predicate Views(files: seq<PreparedFile>, rs: seq<Rec>)
    reads files
  {
    && |files| == |rs|
    && (forall i :: 0 <= i < |files| ==> files[i].View() == rs[i])
  }

  ghost predicate Distinct(files: seq<PreparedFile>) {
    forall i, j :: 0 <= i < j < |files| ==> files[i] != files[j]
  }

  // ---- the transaction invariant ----

  /** The names of the transaction do not interfere with one another. */
  ghost predicate Wired(rs: seq<Rec>) {
    && (forall i :: 0 <= i < |rs| ==>
          rs[i].temp.Some? && !rs[i].temp.value.Backup? && !rs[i].final.Backup?)
    && (forall i :: 0 <= i < |rs| && rs[i].slot.Some? ==> rs[i].slot.value.Backup?)
    && (forall i, j :: 0 <= i < |rs| && 0 <= j < |rs| ==> rs[i].final != rs[j].temp.value)
    && (forall i, j :: 0 <= i < j < |rs| ==>
          && rs[i].final != rs[j].final
          && rs[i].temp.value != rs[j].temp.value
          && (rs[i].slot.Some? ==> rs[i].slot != rs[j].slot))
  }

  /** Where the old and the staged bytes of one file are, as its bookkeeping says. */
  ghost predicate Tracked(d: Dir, r: Rec, orig: Dir)
    requires r.temp.Some?
  {
    var F, T := r.final, r.temp.value;
    && T in orig
    && (r.hadOld <==> r.backup.Some?)
    && (r.backup.Some? ==> r.slot == r.backup && F in orig && r.backup.value in d && d[r.backup.value] == orig[F])
    && (r.slot.Some? ==> r.slot.value !in orig)
    && (r.slot.Some? && r.backup.None? ==> r.slot.value !in d)
    && (r.committed ==> F in d && d[F] == orig[T] && T !in d && (r.hadOld || F !in orig))
    && (!r.committed && r.hadOld ==> F !in d)
    && (!r.committed && !r.hadOld ==> SameAt(d, orig, F))
    && (!r.committed && T in d ==> d[T] == orig[T])
  }

  /** The file's staged, final or backup path. */
  ghost predicate Names(r: Rec, n: Name) {
    r.final == n || r.temp == Some(n) || r.slot == Some(n)
  }

  ghost predicate Elsewhere(rs: seq<Rec>, n: Name) {
    forall i :: 0 <= i < |rs| ==> !Names(rs[i], n)
  }

  ghost predicate StrayIn(d: Dir, orig: Dir, n: Name) {
    n.Backup? && n !in orig && n in d && d[n] == EMPTY
  }

  ghost predicate Inv(d: Dir, rs: seq<Rec>, orig: Dir, strays: set<Name>) {
    && Wired(rs)
    && (forall i :: 0 <= i < |rs| ==> Tracked(d, rs[i], orig))
    && (forall n :: n in strays ==> Elsewhere(rs, n) && StrayIn(d, orig, n))
    && (forall n :: Elsewhere(rs, n) && n !in strays ==> SameAt(d, orig, n))
  }

  /** Everything is as it was, except that the staged files are gone and strays may remain. */
  ghost predicate Restored(d: Dir, rs: seq<Rec>, orig: Dir, strays: set<Name>)
    requires forall i :: 0 <= i < |rs| ==> rs[i].temp.Some?
  {
    && (forall i :: 0 <= i < |rs| ==> rs[i].temp.value !in d)
    && (forall n :: (forall i :: 0 <= i < |rs| ==> rs[i].temp.value != n) && n !in strays ==> SameAt(d, orig, n))
    && (forall n :: n in strays ==> StrayIn(d, orig, n))
  }

  /** The old bytes of a file are at its final path or at its backup path, and at only one of them
      unless the staged bytes are the same bytes or the old file was empty. */
  ghost predicate Kept(d: Dir, r: Rec, orig: Dir)
    requires r.temp.Some? && r.temp.value in orig
  {
    var F := r.final;
    F in orig ==>
      var atFinal := F in d && d[F] == orig[F];
      var atBackup := r.slot.Some? && r.slot.value in d && d[r.slot.value] == orig[F];
      && (atFinal || atBackup)
      && (orig[F] != EMPTY && orig[F] != orig[r.temp.value] ==> !(atFinal && atBackup))
  }

  /** What every directory state of a commit and its rollback satisfies. */
  ghost predicate Conserved(d: Dir, rs: seq<Rec>, orig: Dir) {
    && (forall i :: 0 <= i < |rs| ==> rs[i].temp.Some? && rs[i].temp.value in orig && Kept(d, rs[i], orig))
    && (forall n :: Elsewhere(rs, n) ==> SameAt(d, orig, n) || StrayIn(d, orig, n))
  }

  lemma InvConserves(d: Dir, rs: seq<Rec>, orig: Dir, strays: set<Name>)
    requires Inv(d, rs, orig, strays)
    ensures Conserved(d, rs, orig)
  {
    forall i | 0 <= i < |rs|
      ensures rs[i].temp.Some? && rs[i].temp.value in orig && Kept(d, rs[i], orig)
    {
      assert Tracked(d, rs[i], orig);
    }
  }

  lemma ElsewhereBeforeStep(rs: seq<Rec>, i: nat, r: Rec, n: Name)
    requires i < |rs| && Elsewhere(rs[i := r], n)
    requires r.final == rs[i].final && r.temp == rs[i].temp && (r.slot == rs[i].slot || rs[i].slot.None?)
    ensures Elsewhere(rs, n)
  {
    forall j | 0 <= j < |rs|
      ensures !Names(rs[j], n)
    {
      assert !Names(rs[i := r][j], n);
    }
  }

  /** A file that moves its old bytes to a fresh backup path keeps every earlier state conserved. */
  lemma ConservedUnderNewSlot(s: Dir, rs: seq<Rec>, i: nat, r: Rec, orig: Dir)
    requires Conserved(s, rs, orig) && i < |rs|
    requires r.final == rs[i].final && r.temp == rs[i].temp && rs[i].slot.None? && r.slot.Some?
    requires Elsewhere(rs, r.slot.value) && r.slot.value !in orig
    ensures Conserved(s, rs[i := r], orig)
  {
    assert SameAt(s, orig, r.slot.value) || StrayIn(s, orig, r.slot.value);
    var rs' := rs[i := r];
    forall j | 0 <= j < |rs'|
      ensures rs'[j].temp.Some? && rs'[j].temp.value in orig && Kept(s, rs'[j], orig)
    {
      assert Kept(s, rs[j], orig);
    }
    forall n | Elsewhere(rs[i := r], n)
      ensures Elsewhere(rs, n)
    {
      ElsewhereBeforeStep(rs, i, r, n);
    }
  }

  /** Conservation depends only on the names of each file. */
  lemma ConservedUnderSameNames(s: Dir, rs: seq<Rec>, i: nat, r: Rec, orig: Dir)
    requires Conserved(s, rs, orig) && i < |rs|
    requires r.final == rs[i].final && r.temp == rs[i].temp && r.slot == rs[i].slot
    ensures Conserved(s, rs[i := r], orig)
  {
    var rs' := rs[i := r];
    forall j | 0 <= j < |rs'|
      ensures rs'[j].temp.Some? && rs'[j].temp.value in orig && Kept(s, rs'[j], orig)
    {
      assert Kept(s, rs[j], orig);
    }
    forall n | Elsewhere(rs[i := r], n)
      ensures Elsewhere(rs, n)
    {
      ElsewhereBeforeStep(rs, i, r, n);
    }
  }

  /** One step on file i: the directory changes only at that file's names, and the file stays
      tracked. */
  lemma StepKeepsInv(d: Dir, d': Dir, rs: seq<Rec>, i: nat, r: Rec, orig: Dir, strays: set<Name>)
    requires Inv(d, rs, orig, strays) && i < |rs|
    requires r.final == rs[i].final && r.temp == rs[i].temp
    requires r.slot == rs[i].slot || (rs[i].slot.None? && r.slot.Some? && r.slot.value.Backup? &&
                                      r.slot.value !in orig && Elsewhere(rs, r.slot.value) && r.slot.value !in strays)
    requires Tracked(d', r, orig)
    requires forall n :: n != r.final && Some(n) != r.temp && Some(n) != r.slot ==> SameAt(d, d', n)
    ensures Inv(d', rs[i := r], orig, strays)
  {
    var rs' := rs[i := r];
    assert Wired(rs');
    forall j | 0 <= j < |rs'|
      ensures Tracked(d', rs'[j], orig)
    {
      if j != i {
        assert Tracked(d, rs[j], orig);
        assert SameAt(d, d', rs[j].final) && SameAt(d, d', rs[j].temp.value);
        assert rs[j].slot.Some? ==> SameAt(d, d', rs[j].slot.value);
      }
    }
    forall n | Elsewhere(rs', n)
      ensures Elsewhere(rs, n) && SameAt(d, d', n)
    {
      ElsewhereBeforeStep(rs, i, r, n);
      assert !Names(rs'[i], n);
    }
    forall n | n in strays
      ensures Elsewhere(rs', n) && StrayIn(d', orig, n)
    {
      assert Elsewhere(rs, n);
      assert !Names(rs[i], n);
      assert SameAt(d, d', n);
    }
  }

  /** Reserving a fresh backup name, or leaving it behind, keeps the invariant. */
  lemma StrayKeepsInv(d: Dir, rs: seq<Rec>, orig: Dir, strays: set<Name>, b: Name)
    requires Inv(d, rs, orig, strays) && b.Backup? && b !in d
    requires forall i :: 0 <= i < |rs| && rs[i].slot.Some? ==> rs[i].slot.value in d
    ensures b !in orig && b !in strays && Elsewhere(rs, b)
    ensures Inv(d[b := EMPTY], rs, orig, strays + {b})
  {
    assert Elsewhere(rs, b);
    var d' := d[b := EMPTY];
    assert SameAt(d, orig, b);
    forall j | 0 <= j < |rs|
      ensures Tracked(d', rs[j], orig)
    {
      assert Tracked(d, rs[j], orig);
      assert !Names(rs[j], b);
    }
    forall n | Elsewhere(rs, n) && n !in strays + {b}
      ensures SameAt(d', orig, n)
    {
      assert SameAt(d, orig, n);
    }
  }

  /** When every file is back and every staged file gone, the directory is restored. */
  lemma AllBackIsRestored(d: Dir, rs: seq<Rec>, orig: Dir, strays: set<Name>)
    requires Inv(d, rs, orig, strays)
    requires forall i :: 0 <= i < |rs| ==> !rs[i].committed && !rs[i].hadOld && rs[i].temp.value !in d
    ensures Restored(d, rs, orig, strays)
  {
    forall n | (forall i :: 0 <= i < |rs| ==> rs[i].temp.value != n) && n !in strays
      ensures SameAt(d, orig, n)
    {
      if !Elsewhere(rs, n) {
        var i :| 0 <= i < |rs| && Names(rs[i], n);
        assert Tracked(d, rs[i], orig);
      }
    }
  }

  // ---- the transaction, run on a disk ----

  /** The files, as the installer prepares them: staged, and nothing moved yet. */
  ghost predicate Prepared(rs: seq<Rec>, d: Dir) {
    && Wired(rs)
    && (forall i :: 0 <= i < |rs| ==> AtStart(rs[i], d))
  }

  ghost predicate AtStart(r: Rec, d: Dir) {
    && r == Rec(r.temp, r.final, None, false, false, None)
    && r.temp.Some? && r.temp.value in d
  }

  lemma PreparedInv(rs: seq<Rec>, d: Dir)
    requires Prepared(rs, d)
    ensures Inv(d, rs, d, {})
  {
    forall i | 0 <= i < |rs|
      ensures Tracked(d, rs[i], d)
    {
      assert AtStart(rs[i], d);
    }
  }

  /** Every directory state from position `base` of the trace on is conserved. */
  ghost predicate AllConserved(trace: seq<Dir>, base: nat, rs: seq<Rec>, orig: Dir) {
    forall k :: base <= k < |trace| ==> Conserved(trace[k], rs, orig)
  }

  lemma AllConservedStep(trace: seq<Dir>, base: nat, rs: seq<Rec>, i: nat, r: Rec, orig: Dir)
    requires AllConserved(trace, base, rs, orig) && i < |rs|
    requires r.final == rs[i].final && r.temp == rs[i].temp
    requires r.slot == rs[i].slot || (rs[i].slot.None? && r.slot.Some? &&
                                      r.slot.value !in orig && Elsewhere(rs, r.slot.value))
    ensures AllConserved(trace, base, rs[i := r], orig)
  {
    forall k | base <= k < |trace|
      ensures Conserved(trace[k], rs[i := r], orig)
    {
      if r.slot == rs[i].slot {
        ConservedUnderSameNames(trace[k], rs, i, r, orig);
      } else {
        ConservedUnderNewSlot(trace[k], rs, i, r, orig);
      }
    }
  }

  /** The state every step of the transaction starts from and returns to, as a value. */
  ghost predicate Good(d: Dir, trace: seq<Dir>, base: nat, rs: seq<Rec>, orig: Dir, strays: set<Name>) {
    Inv(d, rs, orig, strays) && AllConserved(trace, base, rs, orig) && base <= |trace|
  }

  lemma GoodIdle(d: Dir, trace: seq<Dir>, base: nat, rs: seq<Rec>, orig: Dir, strays: set<Name>)
    requires Good(d, trace, base, rs, orig, strays)
    ensures Good(d, trace + [d], base, rs, orig, strays)
  {
    InvConserves(d, rs, orig, strays);
  }

  lemma GoodReserve(d: Dir, trace: seq<Dir>, base: nat, rs: seq<Rec>, orig: Dir, b: Name)
    requires Good(d, trace, base, rs, orig, {}) && b.Backup? && b !in d
    requires forall i :: 0 <= i < |rs| ==> rs[i].slot == rs[i].backup
    ensures b !in orig && Elsewhere(rs, b)
    ensures Good(d[b := EMPTY], trace + [d[b := EMPTY]], base, rs, orig, {b})
    ensures Good(d, trace + [d[b := EMPTY]], base, rs, orig, {})
  {
    forall i | 0 <= i < |rs| && rs[i].slot.Some?
      ensures rs[i].slot.value in d
    {
      assert Tracked(d, rs[i], orig);
    }
    StrayKeepsInv(d, rs, orig, {}, b);
    assert {} + {b} == {b};
    InvConserves(d[b := EMPTY], rs, orig, {b});
  }

  lemma GoodStep(d: Dir, d': Dir, trace: seq<Dir>, base: nat, rs: seq<Rec>, i: nat, r: Rec, orig: Dir,
                 strays: set<Name>)
    requires Good(d, trace, base, rs, orig, strays) && i < |rs|
    requires r.final == rs[i].final && r.temp == rs[i].temp
    requires r.slot == rs[i].slot || (rs[i].slot.None? && r.slot.Some? && r.slot.value.Backup? &&
                                      r.slot.value !in orig && Elsewhere(rs, r.slot.value) && r.slot.value !in strays)
    requires Tracked(d', r, orig)
    requires forall n :: n != r.final && Some(n) != r.temp && Some(n) != r.slot ==> SameAt(d, d', n)
    ensures Good(d', trace + [d'], base, rs[i := r], orig, strays)
  {
    StepKeepsInv(d, d', rs, i, r, orig, strays);
    AllConservedStep(trace, base, rs, i, r, orig);
    InvConserves(d', rs[i := r], orig, strays);
  }

  /** The four moves of the transaction on file i, each keeping every claim. */
  lemma GoodSetAside(d: Dir, trace: seq<Dir>, base: nat, rs: seq<Rec>, i: nat, b: Name, orig: Dir)
    requires Good(d, trace, base, rs, orig, {}) && i < |rs| && AtStart(rs[i], d) && rs[i].final in d
    requires b.Backup? && b !in d && b !in orig && Elsewhere(rs, b)
    ensures var d' := (d - {rs[i].final})[b := d[rs[i].final]];
            Good(d', trace + [d'], base, rs[i := rs[i].(backup := Some(b), hadOld := true, slot := Some(b))], orig, {})
  {
    assert Tracked(d, rs[i], orig);
    var d' := (d - {rs[i].final})[b := d[rs[i].final]];
    GoodStep(d, d', trace, base, rs, i, rs[i].(backup := Some(b), hadOld := true, slot := Some(b)), orig, {});
  }

  lemma GoodCommit(d: Dir, trace: seq<Dir>, base: nat, rs: seq<Rec>, i: nat, orig: Dir)
    requires Good(d, trace, base, rs, orig, {}) && i < |rs| && !rs[i].committed
    requires rs[i].temp.Some? && rs[i].temp.value in d && rs[i].final !in d
    ensures var d' := (d - {rs[i].temp.value})[rs[i].final := d[rs[i].temp.value]];
            Good(d', trace + [d'], base, rs[i := rs[i].(committed := true)], orig, {})
  {
    assert Tracked(d, rs[i], orig);
    var d' := (d - {rs[i].temp.value})[rs[i].final := d[rs[i].temp.value]];
    GoodStep(d, d', trace, base, rs, i, rs[i].(committed := true), orig, {});
  }

  lemma GoodRemoveNew(d: Dir, trace: seq<Dir>, base: nat, rs: seq<Rec>, i: nat, orig: Dir, strays: set<Name>)
    requires Good(d, trace, base, rs, orig, strays) && i < |rs| && rs[i].committed
    ensures rs[i].final in d
    ensures Good(d - {rs[i].final}, trace + [d - {rs[i].final}], base, rs[i := rs[i].(committed := false)], orig,
                 strays)
  {
    assert Tracked(d, rs[i], orig);
    GoodStep(d, d - {rs[i].final}, trace, base, rs, i, rs[i].(committed := false), orig, strays);
  }

  lemma GoodRestore(d: Dir, trace: seq<Dir>, base: nat, rs: seq<Rec>, i: nat, orig: Dir, strays: set<Name>)
    requires Good(d, trace, base, rs, orig, strays) && i < |rs| && !rs[i].committed && rs[i].hadOld
    ensures rs[i].backup.Some? && rs[i].backup.value in d && rs[i].final !in d
    ensures var d' := (d - {rs[i].backup.value})[rs[i].final := d[rs[i].backup.value]];
            Good(d', trace + [d'], base, rs[i := rs[i].(hadOld := false, backup := None)], orig, strays)
  {
    assert Tracked(d, rs[i], orig);
    var d' := (d - {rs[i].backup.value})[rs[i].final := d[rs[i].backup.value]];
    GoodStep(d, d', trace, base, rs, i, rs[i].(hadOld := false, backup := None), orig, strays);
  }

  lemma GoodRemoveStaged(d: Dir, trace: seq<Dir>, base: nat, rs: seq<Rec>, i: nat, orig: Dir, strays: set<Name>)
    requires Good(d, trace, base, rs, orig, strays) && i < |rs| && !rs[i].committed && rs[i].temp.Some?
    ensures Good(d - {rs[i].temp.value}, trace + [d - {rs[i].temp.value}], base, rs, orig, strays)
  {
    assert Tracked(d, rs[i], orig);
    assert rs[i := rs[i]] == rs;
    GoodStep(d, d - {rs[i].temp.value}, trace, base, rs, i, rs[i], orig, strays);
  }

  /** Reserve a name for a backup: a temporary file is created and closed. When closing fails, the
      name stays behind. */
  method ReserveSiblingName(disk: Disk) returns (ok: bool, name: Option<Name>)
    requires disk.Valid()
    modifies disk
    ensures disk.Valid() && disk.hitches >= old(disk.hitches) && (ok <==> disk.hitches == old(disk.hitches))
    ensures disk.trace == old(disk.trace) + [disk.files]
    ensures ok ==> name.Some?
    ensures name.Some? ==> name.value.Backup? && name.value !in old(disk.files) &&
                           disk.files == old(disk.files)[name.value := EMPTY]
    ensures name.None? ==> disk.files == old(disk.files)
  {
    ok := false;
    name := disk.CreateTemp(true);
    if name.Some? {
      ok := disk.Probe();
    }
  }

  /** A sibling name that nothing bears: reserved, then released again. */
  method FreshBackupName(disk: Disk, ghost base: nat, ghost rs: seq<Rec>, ghost orig: Dir)
    returns (name: Option<Name>, ghost strays: set<Name>)
    requires disk.Valid() && Good(disk.files, disk.trace, base, rs, orig, {})
    requires forall j :: 0 <= j < |rs| ==> rs[j].slot == rs[j].backup
    modifies disk
    ensures disk.Valid() && Good(disk.files, disk.trace, base, rs, orig, strays) && |strays| <= 1
    ensures disk.hitches >= old(disk.hitches) && old(disk.trace) <= disk.trace
    ensures forall n :: n in old(disk.files) ==> n in disk.files
    ensures name.Some? ==>
      && strays == {} && disk.files == old(disk.files)
      && name.value.Backup? && name.value !in disk.files && name.value !in orig && Elsewhere(rs, name.value)
    ensures name.None? <==> disk.hitches > old(disk.hitches)
  {
    ghost var d, trace := disk.files, disk.trace;
    strays := {};
    var reserved, sibling := ReserveSiblingName(disk);
    if sibling.None? {
      GoodIdle(d, trace, base, rs, orig, {});
      return None, {};
    }
    GoodReserve(d, trace, base, rs, orig, sibling.value);
    strays := {sibling.value};
    if !reserved {
      return None, strays;
    }
    trace := disk.trace;
    var released := disk.Remove(sibling.value);
    if released != Removed {
      GoodIdle(disk.files, trace, base, rs, orig, strays);
      return None, strays;
    }
    assert disk.files == d;
    GoodIdle(d, trace, base, rs, orig, {});
    return sibling, {};
  }

  /** The final path holds a file that is not regular, or a reparse point. */
  ghost predicate UnsafeFinal(r: Rec, d: Dir, unsafe: set<Name>) {
    r.final in d && r.final in unsafe
  }

  /** The first half of a commit step: an existing final file moves to a fresh sibling. */
  method SetAside(disk: Disk, file: PreparedFile, unsafe: set<Name>,
                  ghost base: nat, ghost rs: seq<Rec>, ghost i: nat, ghost orig: Dir)
    returns (ok: bool, ghost strays: set<Name>)
    requires disk.Valid() && Good(disk.files, disk.trace, base, rs, orig, {})
    requires i < |rs| && file.View() == rs[i] && AtStart(rs[i], disk.files)
    requires forall j :: 0 <= j < |rs| ==> rs[j].slot == rs[j].backup
    modifies disk, file
    ensures disk.Valid() && Good(disk.files, disk.trace, base, rs[i := file.View()], orig, strays) && |strays| <= 1
    ensures disk.hitches >= old(disk.hitches) && old(disk.trace) <= disk.trace
    ensures file.temp == old(file.temp) && !file.committed && file.slot == file.backup
    ensures forall n :: n in old(disk.files) && n != file.final ==> n in disk.files
    ensures ok ==> strays == {} && file.final !in disk.files && !UnsafeFinal(rs[i], old(disk.files), unsafe)
    ensures ok ==> disk.hitches == old(disk.hitches)
    ensures !ok ==> disk.hitches > old(disk.hitches) || UnsafeFinal(rs[i], old(disk.files), unsafe)
    ensures strays != {} ==> disk.hitches > old(disk.hitches)
  {
    strays := {};
    ghost var d := disk.files;
    assert Tracked(d, rs[i], orig);
    assert rs[i := file.View()] == rs;
    var there := disk.Lstat(file.final);
    if there != Present {
      return there == Absent, {};
    }
    var regular := disk.Probe();
    if !regular || file.final in unsafe {
      return false, {};
    }
    var backup;
    backup, strays := FreshBackupName(disk, base, rs, orig);
    if backup.None? {
      return false, strays;
    }
    ghost var trace := disk.trace;
    var moved := disk.Move(file.final, backup.value, false);
    if !moved {
      GoodIdle(d, trace, base, rs, orig, {});
      return false, {};
    }
    file.backup := backup;
    file.hadOld := true;
    file.slot := backup;
    GoodSetAside(d, trace, base, rs, i, backup.value, orig);
    ok := true;
  }

  /** The values of one transaction at two moments: the same files under the same names. */
  ghost predicate SameFiles(rs: seq<Rec>, rs': seq<Rec>) {
    && |rs| == |rs'|
    && (forall i :: 0 <= i < |rs| ==> rs[i].temp == rs'[i].temp && rs[i].final == rs'[i].final)
  }

  /** One round of the loop of commitPrepared: the old file aside, the staged file in its place. */
  method CommitOne(disk: Disk, file: PreparedFile, unsafe: set<Name>,
                   ghost base: nat, ghost rs: seq<Rec>, ghost i: nat, ghost orig: Dir)
    returns (ok: bool, ghost strays: set<Name>)
    requires disk.Valid() && Good(disk.files, disk.trace, base, rs, orig, {})
    requires i < |rs| && file.View() == rs[i] && AtStart(rs[i], disk.files)
    requires forall j :: 0 <= j < |rs| ==> rs[j].slot == rs[j].backup
    modifies disk, file
    ensures disk.Valid() && Good(disk.files, disk.trace, base, rs[i := file.View()], orig, strays) && |strays| <= 1
    ensures disk.hitches >= old(disk.hitches) && old(disk.trace) <= disk.trace
    ensures file.temp == old(file.temp) && file.slot == file.backup
    ensures forall n :: n in old(disk.files) && n != file.final && Some(n) != file.temp ==> n in disk.files
    ensures ok ==> strays == {} && file.committed && !UnsafeFinal(rs[i], orig, unsafe)
    ensures ok ==> disk.hitches == old(disk.hitches)
    ensures !ok ==> disk.hitches > old(disk.hitches) || UnsafeFinal(rs[i], orig, unsafe)
    ensures strays != {} ==> disk.hitches > old(disk.hitches)
  {
    assert Tracked(disk.files, rs[i], orig);
    ok, strays := SetAside(disk, file, unsafe, base, rs, i, orig);
    if ok {
      ghost var now := rs[i := file.View()];
      assert now[i] == file.View();
      assert file.temp.value in disk.files;
      GoodIdle(disk.files, disk.trace, base, now, orig, {});
      GoodCommit(disk.files, disk.trace, base, now, i, orig);
      ok := disk.Move(file.temp.value, file.final, true);
      if ok {
        file.committed := true;
        assert rs[i := file.View()] == now[i := file.View()];
      }
    }
  }

  /** No final path before the i-th holds an unsafe file. */
  ghost predicate SafeBefore(rs: seq<Rec>, i: nat, d: Dir, unsafe: set<Name>) {
    forall j :: 0 <= j < |rs| && j < i ==> !UnsafeFinal(rs[j], d, unsafe)
  }

  lemma NotSafeBefore(rs: seq<Rec>, i: nat, d: Dir, unsafe: set<Name>)
    requires i < |rs| && UnsafeFinal(rs[i], d, unsafe)
    ensures !SafeBefore(rs, |rs|, d, unsafe)
  {
  }

  /** After i rounds of the loop. */
  ghost predicate Halfway(rs: seq<Rec>, start: seq<Rec>, i: nat, d: Dir) {
    && SameFiles(start, rs)
    && (forall j :: 0 <= j < |rs| ==> rs[j].slot == rs[j].backup)
    && (forall j :: 0 <= j < |rs| && j < i ==> rs[j].committed)
    && (forall j :: i <= j < |rs| ==> AtStart(rs[j], d))
  }

  lemma RoundDone(d: Dir, d': Dir, rs: seq<Rec>, r: Rec, start: seq<Rec>, i: nat)
    requires i < |rs| && Halfway(rs, start, i, d) && Wired(rs)
    requires r.temp == rs[i].temp && r.final == rs[i].final
    requires forall n :: n in d && n != rs[i].final && Some(n) != rs[i].temp ==> n in d'
    ensures SameFiles(start, rs[i := r])
    ensures r.committed && r.slot == r.backup ==> Halfway(rs[i := r], start, i + 1, d')
  {
    forall j | i < j < |rs|
      ensures AtStart(rs[j], d')
    {
      assert AtStart(rs[j], d);
      assert rs[j].temp.value in d;
    }
  }

  lemma SafeAfter(rs: seq<Rec>, i: nat, d: Dir, unsafe: set<Name>)
    requires i < |rs| && SafeBefore(rs, i, d, unsafe) && !UnsafeFinal(rs[i], d, unsafe)
    ensures SafeBefore(rs, i + 1, d, unsafe)
  {
  }

  /** One round of the loop, among all files. */
  method CommitRound(disk: Disk, files: seq<PreparedFile>, i: nat, unsafe: set<Name>, ghost base: nat,
                     ghost start: seq<Rec>, ghost before: seq<Rec>, ghost orig: Dir)
    returns (ok: bool, ghost rs: seq<Rec>, ghost strays: set<Name>)
    requires disk.Valid() && Distinct(files) && Views(files, before) && i < |files|
    requires Halfway(before, start, i, disk.files) && SafeBefore(start, i, orig, unsafe)
    requires Good(disk.files, disk.trace, base, before, orig, {})
    modifies disk, files
    ensures disk.Valid() && Views(files, rs) && SameFiles(start, rs)
    ensures Good(disk.files, disk.trace, base, rs, orig, strays) && |strays| <= 1
    ensures disk.hitches >= old(disk.hitches) && old(disk.trace) <= disk.trace
    ensures ok ==> strays == {} && Halfway(rs, start, i + 1, disk.files) && SafeBefore(start, i + 1, orig, unsafe)
    ensures ok ==> disk.hitches == old(disk.hitches)
    ensures !ok ==> disk.hitches > old(disk.hitches) || !SafeBefore(start, |start|, orig, unsafe)
    ensures strays != {} ==> disk.hitches > old(disk.hitches)
  {
    ghost var d := disk.files;
    assert AtStart(before[i], d) && before[i].final == start[i].final;
    ok, strays := CommitOne(disk, files[i], unsafe, base, before, i, orig);
    RoundDone(d, disk.files, before, files[i].View(), start, i);
    rs := before[i := files[i].View()];
    if UnsafeFinal(start[i], orig, unsafe) {
      NotSafeBefore(start, i, orig, unsafe);
    } else {
      SafeAfter(start, i, orig, unsafe);
    }
  }

  /** The loop of commitPrepared, which stops at the first error. */
  method CommitEach(disk: Disk, files: seq<PreparedFile>, unsafe: set<Name>, ghost start: seq<Rec>)
    returns (ok: bool, ghost rs: seq<Rec>, ghost strays: set<Name>)
    requires disk.Valid() && Distinct(files) && Views(files, start) && Prepared(start, disk.files)
    modifies disk, files
    ensures disk.Valid() && Views(files, rs) && SameFiles(start, rs)
    ensures Good(disk.files, disk.trace, |old(disk.trace)|, rs, old(disk.files), strays) && |strays| <= 1
    ensures disk.hitches >= old(disk.hitches) && old(disk.trace) <= disk.trace
    ensures ok ==> strays == {} && Halfway(rs, start, |rs|, disk.files)
    ensures ok ==> SafeBefore(start, |start|, old(disk.files), unsafe) && disk.hitches == old(disk.hitches)
    ensures !ok ==> disk.hitches > old(disk.hitches) || !SafeBefore(start, |start|, old(disk.files), unsafe)
    ensures strays != {} ==> disk.hitches > old(disk.hitches)
  {
    ghost var base, orig := |disk.trace|, disk.files;
    PreparedInv(start, orig);
    rs, strays := start, {};
    for i := 0 to |files|
      invariant disk.Valid() && Views(files, rs) && Halfway(rs, start, i, disk.files)
      invariant Good(disk.files, disk.trace, base, rs, orig, {}) && strays == {}
      invariant disk.hitches == old(disk.hitches) && old(disk.trace) <= disk.trace
      invariant SafeBefore(start, i, orig, unsafe)
    {
      ok, rs, strays := CommitRound(disk, files, i, unsafe, base, start, rs, orig);
      if !ok {
        return;
      }
    }
    ok := true;
  }

  /** A file that is back where it was, with its staged copy gone. */
  ghost predicate Undone(r: Rec, d: Dir) {
    !r.committed && !r.hadOld && r.temp.Some? && r.temp.value !in d
  }

  /** Taking a committed file away again, restoring the old one, and removing the staged one: the
      three actions of a rollback on one file. */
  method RemoveNew(disk: Disk, file: PreparedFile, ghost base: nat, ghost rs: seq<Rec>, ghost i: nat, ghost orig: Dir,
                   ghost strays: set<Name>)
    returns (ok: bool)
    requires disk.Valid() && Good(disk.files, disk.trace, base, rs, orig, strays)
    requires i < |rs| && file.View() == rs[i] && file.committed
    modifies disk, file
    ensures disk.Valid() && Good(disk.files, disk.trace, base, rs[i := file.View()], orig, strays)
    ensures disk.hitches >= old(disk.hitches) && old(disk.trace) <= disk.trace
    ensures ok <==> disk.hitches == old(disk.hitches)
    ensures file.View() == if ok then rs[i].(committed := false) else rs[i]
    ensures disk.files == if ok then old(disk.files) - {file.final} else old(disk.files)
  {
    assert rs[i := file.View()] == rs;
    GoodRemoveNew(disk.files, disk.trace, base, rs, i, orig, strays);
    GoodIdle(disk.files, disk.trace, base, rs, orig, strays);
    var removed := disk.Remove(file.final);
    ok := removed != Refused;
    if ok {
      file.committed := false;
    }
  }

  method Restore(disk: Disk, file: PreparedFile, ghost base: nat, ghost rs: seq<Rec>, ghost i: nat, ghost orig: Dir,
                 ghost strays: set<Name>)
    returns (ok: bool)
    requires disk.Valid() && Good(disk.files, disk.trace, base, rs, orig, strays)
    requires i < |rs| && file.View() == rs[i] && !file.committed && file.hadOld && file.backup.Some?
    modifies disk, file
    ensures disk.Valid() && Good(disk.files, disk.trace, base, rs[i := file.View()], orig, strays)
    ensures disk.hitches >= old(disk.hitches) && old(disk.trace) <= disk.trace
    ensures ok <==> disk.hitches == old(disk.hitches)
    ensures file.View() == if ok then rs[i].(hadOld := false, backup := None) else rs[i]
    ensures forall n :: n != file.final && n !in old(disk.files) ==> n !in disk.files
  {
    assert rs[i := file.View()] == rs;
    GoodRestore(disk.files, disk.trace, base, rs, i, orig, strays);
    GoodIdle(disk.files, disk.trace, base, rs, orig, strays);
    ok := disk.Move(file.backup.value, file.final, false);
    if ok {
      file.hadOld := false;
      file.backup := None;
    }
  }

  method RemoveStaged(disk: Disk, file: PreparedFile, ghost base: nat, ghost rs: seq<Rec>, ghost i: nat,
                      ghost orig: Dir, ghost strays: set<Name>)
    returns (ok: bool)
    requires disk.Valid() && Good(disk.files, disk.trace, base, rs, orig, strays)
    requires i < |rs| && file.View() == rs[i] && !file.committed && file.temp.Some?
    modifies disk
    ensures disk.Valid() && Good(disk.files, disk.trace, base, rs, orig, strays)
    ensures disk.hitches >= old(disk.hitches) && old(disk.trace) <= disk.trace
    ensures ok <==> disk.hitches == old(disk.hitches)
    ensures ok ==> file.temp.value !in disk.files
    ensures forall n :: n !in old(disk.files) ==> n !in disk.files
  {
    GoodRemoveStaged(disk.files, disk.trace, base, rs, i, orig, strays);
    GoodIdle(disk.files, disk.trace, base, rs, orig, strays);
    var removed := disk.Remove(file.temp.value);
    ok := removed != Refused;
  }

  /** Rolling one file back; a failure leaves the bookkeeping fit for another attempt. */
  method RollbackOne(disk: Disk, file: PreparedFile, ghost base: nat, ghost rs: seq<Rec>, ghost i: nat, ghost orig: Dir,
                     ghost strays: set<Name>)
    returns (ok: bool)
    requires disk.Valid() && Good(disk.files, disk.trace, base, rs, orig, strays)
    requires i < |rs| && file.View() == rs[i] && file.temp.Some? && (file.hadOld <==> file.backup.Some?)
    modifies disk, file
    ensures disk.Valid() && Good(disk.files, disk.trace, base, rs[i := file.View()], orig, strays)
    ensures file.temp == old(file.temp) && file.slot == old(file.slot)
    ensures disk.hitches >= old(disk.hitches) && old(disk.trace) <= disk.trace
    ensures ok <==> disk.hitches == old(disk.hitches)
    ensures ok ==> Undone(file.View(), disk.files)
    ensures forall n :: n != file.final && n !in old(disk.files) ==> n !in disk.files
  {
    ghost var now := rs;
    if file.committed {
      var removed := RemoveNew(disk, file, base, now, i, orig, strays);
      now := now[i := file.View()];
      if !removed {
        return false;
      }
    }
    ok := true;
    if file.hadOld && file.backup.Some? {
      ok := Restore(disk, file, base, now, i, orig, strays);
      now := now[i := file.View()];
    }
    assert now == rs[i := file.View()];
    if file.temp.Some? {
      var removed := RemoveStaged(disk, file, base, now, i, orig, strays);
      ok := ok && removed;
    }
  }

  /** The files from position i on that are not undone. */
  ghost function Left(rs: seq<Rec>, i: nat, d: Dir): set<nat> {
    set j: nat | i <= j < |rs| && !Undone(rs[j], d)
  }

  lemma RoundLeaves(d: Dir, d': Dir, rs: seq<Rec>, i: nat, r: Rec)
    requires i < |rs| && Wired(rs) && r.final == rs[i].final
    requires forall n :: n != rs[i].final && n !in d ==> n !in d'
    ensures |Left(rs[i := r], i, d')| <= |Left(rs, i + 1, d)| + if Undone(r, d') then 0 else 1
  {
    var was, now := Left(rs, i + 1, d), Left(rs[i := r], i, d');
    assert i !in was;
    assert now <= was + if Undone(r, d') then {} else {i};
    SubsetCounts(now, was + if Undone(r, d') then {} else {i});
  }

  lemma NothingLeft(rs: seq<Rec>, d: Dir)
    requires |Left(rs, 0, d)| == 0
    ensures forall j :: 0 <= j < |rs| ==> Undone(rs[j], d)
  {
    forall j: nat | j < |rs|
      ensures Undone(rs[j], d)
    {
      assert j !in Left(rs, 0, d);
    }
  }

  lemma {:induction false} SubsetCounts(a: set<nat>, b: set<nat>)
    requires a <= b
    ensures |a| <= |b|
  {
    if a != {} {
      var x :| x in a;
      SubsetCounts(a - {x}, b - {x});
    }
  }

  /** One file's turn in a rollback, among all files. */
  method RollbackRound(disk: Disk, files: seq<PreparedFile>, i: nat, ghost base: nat, ghost before: seq<Rec>,
                       ghost orig: Dir, ghost strays: set<Name>)
    returns (undone: bool, ghost rs: seq<Rec>)
    requires disk.Valid() && Distinct(files) && Views(files, before) && i < |files|
    requires Good(disk.files, disk.trace, base, before, orig, strays)
    modifies disk, files
    ensures disk.Valid() && Views(files, rs) && SameFiles(before, rs)
    ensures Good(disk.files, disk.trace, base, rs, orig, strays)
    ensures disk.hitches >= old(disk.hitches) && old(disk.trace) <= disk.trace
    ensures undone <==> disk.hitches == old(disk.hitches)
    ensures |Left(rs, i, disk.files)| <= |Left(before, i + 1, old(disk.files))| + if undone then 0 else 1
  {
    ghost var d := disk.files;
    assert Tracked(d, before[i], orig);
    undone := RollbackOne(disk, files[i], base, before, i, orig, strays);
    RoundLeaves(d, disk.files, before, i, files[i].View());
    rs := before[i := files[i].View()];
  }

  /** rollbackPrepared: one pass over the files, last to first, that goes on after a failure. It can
      be run again after any number of failed passes, and restores everything once a pass meets no
      failing operation. */
  method RollbackPrepared(disk: Disk, files: seq<PreparedFile>, ghost base: nat, ghost rs: seq<Rec>, ghost orig: Dir,
                          ghost strays: set<Name>)
    returns (ok: bool, ghost rs': seq<Rec>)
    requires disk.Valid() && Distinct(files) && Views(files, rs)
    requires Good(disk.files, disk.trace, base, rs, orig, strays)
    modifies disk, files
    ensures disk.Valid() && Views(files, rs') && SameFiles(rs, rs')
    ensures Good(disk.files, disk.trace, base, rs', orig, strays)
    ensures disk.hitches >= old(disk.hitches) && old(disk.trace) <= disk.trace
    ensures ok <==> disk.hitches == old(disk.hitches)
    ensures ok ==> Restored(disk.files, rs', orig, strays)
    ensures |Left(rs', 0, disk.files)| <= disk.hitches - old(disk.hitches)
  {
    ok, rs' := true, rs;
    for i := |files| downto 0
      invariant disk.Valid() && Views(files, rs') && SameFiles(rs, rs')
      invariant Good(disk.files, disk.trace, base, rs', orig, strays)
      invariant disk.hitches >= old(disk.hitches) && old(disk.trace) <= disk.trace
      invariant ok <==> disk.hitches == old(disk.hitches)
      invariant |Left(rs', i, disk.files)| <= disk.hitches - old(disk.hitches)
    {
      var undone;
      undone, rs' := RollbackRound(disk, files, i, base, rs', orig, strays);
      ok := ok && undone;
    }
    if ok {
      NothingLeft(rs', disk.files);
      AllBackIsRestored(disk.files, rs', orig, strays);
    }
  }

  /** Every final path holds its staged bytes, every backup path the old bytes, and nothing else
      has changed. */
  ghost predicate Replaced(d: Dir, rs: seq<Rec>, orig: Dir) {
    && (forall i :: 0 <= i < |rs| ==> Swapped(d, rs[i], orig))
    && (forall n :: Elsewhere(rs, n) ==> SameAt(d, orig, n))
  }

  ghost predicate Swapped(d: Dir, r: Rec, orig: Dir) {
    && r.committed && r.temp.Some? && r.temp.value in orig && r.temp.value !in d
    && r.final in d && d[r.final] == orig[r.temp.value]
    && (r.hadOld <==> r.final in orig)
    && (r.hadOld <==> r.backup.Some?)
    && r.slot == r.backup
    && (r.hadOld ==> r.backup.value.Backup? && r.backup.value !in orig && r.backup.value in d &&
                     d[r.backup.value] == orig[r.final])
  }

  lemma AllCommittedIsReplaced(d: Dir, rs: seq<Rec>, orig: Dir)
    requires Inv(d, rs, orig, {}) && forall i :: 0 <= i < |rs| ==> rs[i].committed && rs[i].slot == rs[i].backup
    ensures Replaced(d, rs, orig)
  {
    forall i | 0 <= i < |rs|
      ensures Swapped(d, rs[i], orig)
    {
      assert Tracked(d, rs[i], orig);
    }
  }

  /** commitPrepared with its deferred rollback. */
  method CommitPrepared(disk: Disk, files: seq<PreparedFile>, unsafe: set<Name>, ghost start: seq<Rec>)
    returns (ok: bool, restored: bool, ghost rs: seq<Rec>, ghost strays: set<Name>)
    requires disk.Valid() && Distinct(files) && Views(files, start) && Prepared(start, disk.files)
    modifies disk, files
    ensures disk.Valid() && Views(files, rs) && SameFiles(start, rs)
    ensures Good(disk.files, disk.trace, |old(disk.trace)|, rs, old(disk.files), strays) && |strays| <= 1
    ensures disk.hitches >= old(disk.hitches) && old(disk.trace) <= disk.trace
    ensures ok ==> strays == {} && Replaced(disk.files, rs, old(disk.files))
    ensures !ok && restored ==> Restored(disk.files, rs, old(disk.files), strays)
    ensures !ok && !restored ==> disk.hitches > old(disk.hitches)
    ensures ok ==> SafeBefore(start, |start|, old(disk.files), unsafe) && disk.hitches == old(disk.hitches)
    ensures !ok ==> disk.hitches > old(disk.hitches) || !SafeBefore(start, |start|, old(disk.files), unsafe)
    ensures strays != {} ==> disk.hitches > old(disk.hitches)
  {
    restored := false;
    ok, rs, strays := CommitEach(disk, files, unsafe, start);
    if ok {
      AllCommittedIsReplaced(disk.files, rs, old(disk.files));
    } else {
      restored, rs := RollbackPrepared(disk, files, |old(disk.trace)|, rs, old(disk.files), strays);
    }
  }

  /** The backup paths that finalizePrepared removes, as far as it can. */
  ghost predicate IsBackup(rs: seq<Rec>, n: Name) {
    exists i :: 0 <= i < |rs| && rs[i].backup == Some(n)
  }

  ghost predicate SameButBackups(d: Dir, d': Dir, rs: seq<Rec>) {
    forall n :: !SameAt(d, d', n) ==> IsBackup(rs, n) && n !in d'
  }

  /** The first i files whose backups are still there. */
  ghost function LeftBackups(rs: seq<Rec>, i: nat, d: Dir): set<nat> {
    set j: nat | j < i && j < |rs| && rs[j].backup.Some? && rs[j].backup.value in d
  }

  lemma BackupLeaves(d: Dir, d': Dir, rs: seq<Rec>, i: nat)
    requires i < |rs| && forall n :: n in d' ==> n in d
    ensures |LeftBackups(rs, i + 1, d')|
            <= |LeftBackups(rs, i, d)| + if rs[i].backup.Some? && rs[i].backup.value in d' then 1 else 0
  {
    var was, now := LeftBackups(rs, i, d), LeftBackups(rs, i + 1, d');
    var more := if rs[i].backup.Some? && rs[i].backup.value in d' then {i} else {};
    assert i !in was && now <= was + more;
    SubsetCounts(now, was + more);
  }

  method FinalizePrepared(disk: Disk, files: seq<PreparedFile>, ghost rs: seq<Rec>)
    requires disk.Valid() && Distinct(files) && Views(files, rs)
    modifies disk, files
    ensures disk.Valid() && disk.hitches >= old(disk.hitches) && old(disk.trace) <= disk.trace
    ensures forall i :: 0 <= i < |files| ==> files[i].View() == rs[i].(temp := None)
    ensures forall k :: |old(disk.trace)| <= k < |disk.trace| ==> SameButBackups(old(disk.files), disk.trace[k], rs)
    ensures SameButBackups(old(disk.files), disk.files, rs)
    ensures disk.hitches == old(disk.hitches) ==>
      forall i :: 0 <= i < |rs| && rs[i].backup.Some? ==> rs[i].backup.value !in disk.files
    ensures |LeftBackups(rs, |rs|, disk.files)| <= disk.hitches - old(disk.hitches)
  {
    for i := 0 to |files|
      invariant disk.Valid() && disk.hitches >= old(disk.hitches) && old(disk.trace) <= disk.trace
      invariant forall j :: 0 <= j < i ==> files[j].View() == rs[j].(temp := None)
      invariant forall j :: i <= j < |files| ==> files[j].View() == rs[j]
      invariant forall k :: |old(disk.trace)| <= k < |disk.trace| ==> SameButBackups(old(disk.files), disk.trace[k], rs)
      invariant SameButBackups(old(disk.files), disk.files, rs)
      invariant |LeftBackups(rs, i, disk.files)| <= disk.hitches - old(disk.hitches)
    {
      var file := files[i];
      ghost var d := disk.files;
      if file.backup.Some? {
        assert IsBackup(rs, file.backup.value);
        var removed := disk.Remove(file.backup.value);
      }
      file.temp := None;
      BackupLeaves(d, disk.files, rs, i);
    }
    if disk.hitches == old(disk.hitches) {
      NoBackupLeft(rs, disk.files);
    }
  }

  lemma NoBackupLeft(rs: seq<Rec>, d: Dir)
    requires |LeftBackups(rs, |rs|, d)| == 0
    ensures forall i :: 0 <= i < |rs| && rs[i].backup.Some? ==> rs[i].backup.value !in d
  {
    forall i: nat | i < |rs| && rs[i].backup.Some?
      ensures rs[i].backup.value !in d
    {
      assert i !in LeftBackups(rs, |rs|, d);
    }
  }
}
