/** The checksum of a Portable Executable image: the CheckSum field described in the Microsoft PE
    Format, section "Optional Header Windows-Specific Fields". */
module PeChecksum {

  type Byte = b: int | 0 <= b < 256

  const WORD := 0x1_0000
  const DWORD := 0x1_0000_0000

  /** Number of 16-bit words, the last one possibly half filled. */
  function Words(n: nat): nat { (n + 1) / 2 }

  function At(raw: seq<Byte>, i: nat): nat
    requires i < |raw|
  {
    raw[i]
  }

  /** The k-th little-endian word; a missing last byte counts as zero. */
  function Word(raw: seq<Byte>, k: nat): nat
    requires k < Words(|raw|)
  {
    At(raw, 2 * k) + (if 2 * k + 1 < |raw| then 256 * At(raw, 2 * k + 1) else 0)
  }

  function Sum(raw: seq<Byte>, k: nat): nat
    requires k <= Words(|raw|)
  {
    if k == 0 then 0 else Sum(raw, k - 1) + Word(raw, k - 1)
  }

  /** The end-around-carry form of a sum: between 1 and 0xFFFF and congruent to it modulo 0xFFFF,
      or 0 when the sum is 0. */
  function Carried(sum: nat): nat {
    if sum == 0 then 0 else (sum - 1) % (WORD - 1) + 1
  }

  /** One round of the loop: add with end-around carry, twice folded. */
  function Fold(sum: nat): nat {
    sum % WORD + sum / WORD
  }

  lemma CarriedOf(sum: nat, q: nat, r: nat)
    requires 0 < r <= WORD - 1 && sum == q * (WORD - 1) + r
    ensures Carried(sum) == r
    ensures r % (WORD - 1) == sum % (WORD - 1)
  {
    assert sum - 1 == q * (WORD - 1) + (r - 1);
  }

  lemma CarriedRange(sum: nat)
    ensures Carried(sum) < WORD
    ensures Carried(sum) % (WORD - 1) == sum % (WORD - 1)
    ensures Carried(sum) == 0 <==> sum == 0
    ensures Fold(Carried(sum)) == Carried(sum)
  {
    if sum > 0 {
      CarriedOf(sum, (sum - 1) / (WORD - 1), Carried(sum));
    }
  }

  /** Folding is adding modulo 0xFFFF, on the representatives 1 to 0xFFFF. */
  lemma FoldCarries(sum: nat, word: nat)
    requires word < WORD
    ensures Fold(Fold(Carried(sum)) + word) == Carried(sum + word)
  {
    CarriedRange(sum);
    var c := Carried(sum);
    if sum > 0 {
      var q := (sum - 1) / (WORD - 1);
      var x := c + word;
      if x > WORD - 1 {
        FoldOver(x);
        CarriedOf(sum + word, q + 1, x - (WORD - 1));
      } else {
        CarriedOf(sum + word, q, x);
      }
    } else if word > 0 {
      CarriedOf(word, 0, word);
    }
  }

  lemma FoldOver(x: nat)
    requires WORD - 1 < x < 2 * WORD - 1
    ensures Fold(x) == x - (WORD - 1)
  {
  }

  /** Little-endian 32-bit values. */
  function Le32(raw: seq<Byte>, offset: nat): nat
    requires offset + 4 <= |raw|
  {
    At(raw, offset) + 256 * (At(raw, offset + 1) + 256 * (At(raw, offset + 2) + 256 * At(raw, offset + 3)))
  }

  function PackLe32(raw: seq<Byte>, offset: nat, value: nat): (r: seq<Byte>)
    requires offset + 4 <= |raw| && value < DWORD
    ensures |r| == |raw| && Le32(r, offset) == value
    ensures forall i :: 0 <= i < |raw| && !(offset <= i < offset + 4) ==> r[i] == raw[i]
  {
    var q1, q2, q3 := value / 256, value / 256 / 256, value / 256 / 256 / 256;
    raw[offset := value % 256][offset + 1 := q1 % 256][offset + 2 := q2 % 256][offset + 3 := q3]
  }

  /** What the checksum is: the words with the field zeroed, summed with end-around carry, plus the
      length. */
  function Checksum(raw: seq<Byte>, field: nat): nat
    requires field + 4 <= |raw|
  {
    var zeroed := PackLe32(raw, field, 0);
    (Carried(Sum(zeroed, Words(|zeroed|))) + |raw|) % DWORD
  }

  method PackInto(a: array<Byte>, offset: nat, value: nat)
    requires offset + 4 <= a.Length && value < DWORD
    modifies a
    ensures a[..] == PackLe32(old(a[..]), offset, value)
  {
    var q1, q2, q3 := value / 256, value / 256 / 256, value / 256 / 256 / 256;
    a[offset] := value % 256;
    a[offset + 1] := q1 % 256;
    a[offset + 2] := q2 % 256;
    a[offset + 3] := q3;
    assert a[..] == PackLe32(old(a[..]), offset, value);
  }

  /** One round of the loop. */
  lemma RoundCarries(raw: seq<Byte>, k: nat)
    requires k < Words(|raw|)
    ensures Fold(Fold(Carried(Sum(raw, k))) + Word(raw, k)) == Carried(Sum(raw, k + 1)) <= 0xFFFF
  {
    FoldCarries(Sum(raw, k), Word(raw, k));
    CarriedRange(Sum(raw, k + 1));
  }

  /** pe_checksum. */
  method Compute(raw: array<Byte>, field: nat) returns (r: nat)
    requires field + 4 <= raw.Length
    ensures r == Checksum(raw[..], field)
  {
    var working := new Byte[raw.Length];
    forall i | 0 <= i < raw.Length {
      working[i] := raw[i];
    }
    assert working[..] == raw[..];
    PackInto(working, field, 0);
    ghost var zeroed := working[..];
    var checksum: nat := 0;
    var offset: nat := 0;
    ghost var k: nat := 0;
    CarriedRange(0);
    while offset < working.Length
      invariant offset == 2 * k && k <= Words(|zeroed|) && working[..] == zeroed
      invariant checksum == Carried(Sum(zeroed, k)) && checksum <= 0xFFFF
    {
      var word := At(working[..], offset);
      if offset + 1 < working.Length {
        word := word + 256 * At(working[..], offset + 1);
      }
      assert word == Word(zeroed, k);
      RoundCarries(zeroed, k);
      checksum := Fold(checksum) + word;
      checksum := Fold(checksum);
      offset, k := offset + 2, k + 1;
    }
    CarriedRange(Sum(zeroed, k));
    checksum := Fold(checksum);
    r := (checksum + working.Length) % DWORD;
  }

  /** The checksum without its final length, modulo 2^32, is at most 0xFFFF and congruent, modulo 0xFFFF, to the
      sum of all words; it is 0 only if they all are. */
  lemma ChecksumMeaning(raw: seq<Byte>, field: nat)
    requires field + 4 <= |raw|
    ensures var words, body := Sum(PackLe32(raw, field, 0), Words(|raw|)), (Checksum(raw, field) - |raw|) % DWORD;
            0 <= body <= 0xFFFF && body % 0xFFFF == words % 0xFFFF && (body == 0 <==> words == 0)
  {
    var words := Sum(PackLe32(raw, field, 0), Words(|raw|));
    CarriedRange(words);
    LengthOff(Carried(words), |raw|);
  }

  lemma LengthOff(body: nat, length: nat)
    requires body < WORD
    ensures ((body + length) % DWORD - length) % DWORD == body
  {
    var q, r := (body + length) / DWORD, (body + length) % DWORD;
    assert r - length == body - q * DWORD;
    assert (body - q * DWORD) % DWORD == body;
  }

  /** The checksum does not depend on the four bytes it is stored in. */
  lemma IgnoresItsField(raw: seq<Byte>, other: seq<Byte>, field: nat)
    requires |raw| == |other| && field + 4 <= |raw|
    requires forall i :: 0 <= i < |raw| && !(field <= i < field + 4) ==> raw[i] == other[i]
    ensures Checksum(raw, field) == Checksum(other, field)
  {
    assert PackLe32(raw, field, 0) == PackLe32(other, field, 0);
  }

  /** What a byte counts for: itself at an even offset, 256 times itself at an odd one. */
  lemma {:induction false} ByteCounts(raw: seq<Byte>, i: nat, b: Byte, k: nat)
    requires i < |raw| && k <= Words(|raw|)
    ensures Sum(raw[i := b], k)
            == Sum(raw, k) + (if i < 2 * k then (b - raw[i]) * (if i % 2 == 0 then 1 else 256) else 0)
  {
    if k > 0 {
      ByteCounts(raw, i, b, k - 1);
    }
  }

  lemma ResiduesDiffer(x: int, y: int)
    requires x != y && -0xFFFF < x - y < 0xFFFF
    ensures x % 0xFFFF != y % 0xFFFF
  {
  }

  /** Any change of one byte outside the field changes the checksum. */
  lemma OneByteShows(raw: seq<Byte>, field: nat, i: nat, b: Byte)
    requires field + 4 <= |raw| && i < |raw| && !(field <= i < field + 4) && b != raw[i]
    ensures Checksum(raw[i := b], field) != Checksum(raw, field)
  {
    var zeroed := PackLe32(raw, field, 0);
    assert PackLe32(raw[i := b], field, 0) == zeroed[i := b];
    ByteCounts(zeroed, i, b, Words(|raw|));
    ResiduesDiffer(Sum(zeroed[i := b], Words(|raw|)), Sum(zeroed, Words(|raw|)));
    ChecksumMeaning(raw, field);
    ChecksumMeaning(raw[i := b], field);
  }

  /** The end of `stamp`: the recorded checksum is the one that a later reader computes. */
  method RecordChecksum(raw: array<Byte>, field: nat)
    requires field + 4 <= raw.Length
    modifies raw
    ensures raw[..] == PackLe32(old(raw[..]), field, Checksum(old(raw[..]), field))
    ensures Le32(raw[..], field) == Checksum(raw[..], field)
  {
    var checksum := Compute(raw, field);
    PackInto(raw, field, checksum);
    IgnoresItsField(old(raw[..]), raw[..], field);
  }
}
