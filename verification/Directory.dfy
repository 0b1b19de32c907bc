/** The dedicated product directory, and the operations the installer performs in it.

    A directory is a map from names to contents. Every operation asks a fault oracle whether it
    fails, so a property of a method that runs on a Disk is a property for every fault pattern. */
module Directory {
  import opened Wrappers

  /** Names in the product directory: the four owned names, the two families of temporary names
      that os.CreateTemp draws from, and every name the installer has nothing to do with. */
  datatype Name =
    | Ex5
    | Updater
    | Uninstaller
    | Manifest
    | Staged(serial: nat)
    | Backup(serial: nat)
    | Foreign(text: string)

  const OWNED: set<Name> := {Ex5, Updater, Uninstaller, Manifest}

  /** A SHA-256 in hexadecimal, up to letter case; "" is the missing hash. */
  type Digest = string

  /** The resolved product directory and the resolved Experts root. */
  datatype Site = Site(product: string, experts: string)

  /** The fields of the ownership manifest that any decision depends on. */
  datatype InstallManifest = InstallManifest(
    schema: int,
    product: string,
    version: string,
    site: Site,
    ex5Hash: Digest,
    installerHash: Digest,
    updaterHash: Digest,
    owned: seq<Name>)

  datatype Content = Raw(bytes: string) | Record(manifest: InstallManifest)

  const EMPTY: Content := Raw("")

  type Dir = map<Name, Content>

  /** Two directories agree about a name: present in both with one content, or absent from both. */
  ghost predicate SameAt(a: Dir, b: Dir, n: Name) {
    (n in a <==> n in b) && (n in a ==> a[n] == b[n])
  }

  lemma SameEverywhere(a: Dir, b: Dir)
    requires forall n :: SameAt(a, b, n)
    ensures a == b
  {
    forall n
      ensures n in a.Keys <==> n in b.Keys
    {
      assert SameAt(a, b, n);
    }
    assert a.Keys == b.Keys;
    forall n | n in a
      ensures a[n] == b[n]
    {
      assert SameAt(a, b, n);
    }
  }

  datatype Presence = Present | Absent | Unknown

  datatype Removal = Removed | Missing | Refused

  class Disk {
    var files: Dir
    var clock: nat

    // The oracle: whether the n-th operation fails, which random suffix it draws, and what a
    // failed write leaves behind.
    const faulty: nat -> bool
    const suffix: nat -> nat
    const torn: nat -> Content

    const hash: Content -> Digest

    // Every directory state so far, oldest first, and the number of operations that failed because
    // the oracle said so or drew a name already in use.
    ghost var trace: seq<Dir>
    ghost var hitches: nat

    constructor (files: Dir, faulty: nat -> bool, suffix: nat -> nat, torn: nat -> Content, hash: Content -> Digest)
      ensures Valid() && this.files == files && clock == 0 && trace == [files] && hitches == 0
      ensures this.faulty == faulty && this.suffix == suffix && this.torn == torn && this.hash == hash
    {
      this.files := files;
      this.clock := 0;
      this.faulty := faulty;
      this.suffix := suffix;
      this.torn := torn;
      this.hash := hash;
      this.trace := [files];
      this.hitches := 0;
    }

    ghost predicate Valid()
      reads this
    {
      |trace| > 0 && trace[|trace| - 1] == files
    }

    /** The failures counted once the next operation has run. */
    ghost function Counted(clash: bool): nat
      reads this`clock, this`hitches
    {
      if faulty(clock) || clash then hitches + 1 else hitches
    }

    /** An operation that changes nothing: a handle closed, an attribute read, a path resolved. */
    method Probe() returns (ok: bool)
      modifies this`clock, this`hitches
      ensures clock == old(clock) + 1 && hitches == old(Counted(false))
      ensures ok <==> !faulty(old(clock))
    {
      hitches := Counted(false);
      ok := !faulty(clock);
      clock := clock + 1;
    }

    method Lstat(n: Name) returns (r: Presence)
      modifies this`clock, this`hitches
      ensures clock == old(clock) + 1 && hitches == old(Counted(false))
      ensures r == if faulty(old(clock)) then Unknown else if n in files then Present else Absent
    {
      hitches := Counted(false);
      r := if faulty(clock) then Unknown else if n in files then Present else Absent;
      clock := clock + 1;
    }

    method Read(n: Name) returns (r: Option<Content>)
      modifies this`clock, this`hitches
      ensures clock == old(clock) + 1 && hitches == old(Counted(false))
      ensures r == if faulty(old(clock)) || n !in files then None else Some(files[n])
    {
      hitches := Counted(false);
      r := if faulty(clock) || n !in files then None else Some(files[n]);
      clock := clock + 1;
    }

    method Hash(n: Name) returns (r: Option<Digest>)
      modifies this`clock, this`hitches
      ensures clock == old(clock) + 1 && hitches == old(Counted(false))
      ensures r == if faulty(old(clock)) || n !in files then None else Some(hash(files[n]))
    {
      hitches := Counted(false);
      r := if faulty(clock) || n !in files then None else Some(hash(files[n]));
      clock := clock + 1;
    }

    method Remove(n: Name) returns (r: Removal)
      requires Valid()
      modifies this
      ensures Valid() && clock == old(clock) + 1 && trace == old(trace) + [files] && hitches == old(Counted(false))
      ensures r == if faulty(old(clock)) then Refused else if n in old(files) then Removed else Missing
      ensures files == if r == Removed then old(files) - {n} else old(files)
    {
      hitches := Counted(false);
      r := if faulty(clock) then Refused else if n in files then Removed else Missing;
      if r == Removed {
        files := files - {n};
      }
      clock := clock + 1;
      trace := trace + [files];
    }

    /** MoveFileEx: without `replace`, an existing destination makes the move fail. */
    method Move(source: Name, destination: Name, replace: bool) returns (ok: bool)
      requires Valid()
      modifies this
      ensures Valid() && clock == old(clock) + 1 && trace == old(trace) + [files] && hitches == old(Counted(false))
      ensures ok <==> !faulty(old(clock)) && source in old(files) && (replace || destination !in old(files))
      ensures ok ==> files == (old(files) - {source})[destination := old(files)[source]]
      ensures !ok ==> files == old(files)
    {
      hitches := Counted(false);
      ok := !faulty(clock) && source in files && (replace || destination !in files);
      if ok {
        files := (files - {source})[destination := files[source]];
      }
      clock := clock + 1;
      trace := trace + [files];
    }

    /** The random name the next operation draws. */
    function TempName(backup: bool): Name
      reads this`clock
    {
      if backup then Backup(suffix(clock)) else Staged(suffix(clock))
    }

    /** os.CreateTemp: an empty file under a random name that no file bears. */
    method CreateTemp(backup: bool) returns (r: Option<Name>)
      requires Valid()
      modifies this
      ensures Valid() && clock == old(clock) + 1 && trace == old(trace) + [files]
      ensures hitches == old(Counted(TempName(backup) in files))
      ensures r.Some? ==> r.value == old(TempName(backup))
      ensures r.Some? <==> !faulty(old(clock)) && old(TempName(backup)) !in old(files)
      ensures files == if r.Some? then old(files)[r.value := EMPTY] else old(files)
    {
      hitches := Counted(TempName(backup) in files);
      var name := TempName(backup);
      if faulty(clock) || name in files {
        r := None;
      } else {
        files := files[name := EMPTY];
        r := Some(name);
      }
      clock := clock + 1;
      trace := trace + [files];
    }

    /** A write that fails leaves the file with a content of the oracle's choice. */
    method Write(n: Name, content: Content) returns (ok: bool)
      requires Valid() && n in files
      modifies this
      ensures Valid() && clock == old(clock) + 1 && trace == old(trace) + [files] && hitches == old(Counted(false))
      ensures ok <==> !faulty(old(clock))
      ensures files == old(files)[n := if ok then content else torn(old(clock))]
    {
      hitches := Counted(false);
      ok := !faulty(clock);
      files := files[n := if ok then content else torn(clock)];
      clock := clock + 1;
      trace := trace + [files];
    }
  }
}
