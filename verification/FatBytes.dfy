/**
 What the bytes on the disk mean, in plain numbers: table entries, directory slots, and what a listing and a
 search make of a directory's bytes. Nothing here refers to how the driver computes it.
 */
module FatBytes {
  import opened Arith
  import opened Bytes
  import opened FatVolume
  import opened FatSlots
  import opened FatNames
  import opened FatDirs
  import opened FatMake

  /** The 16-bit number at a place, low byte first. */
  function Word(s: seq<byte>, off: nat): nat
    requires off + 2 <= |s|
  {
    var lo: int, hi: int := s[off], s[off + 1];
    lo + 256 * hi
  }

  /** Entry c of a table copy is the 32-bit number at byte 4 * c, low byte first, without its top four bits. */
  lemma EntryWord(disk: seq<seq<byte>>, start: nat, c: nat)
    requires DiskShape(disk) && start + c / 128 < |disk|
    ensures start + 4 * c / 512 < |disk|
    ensures var s, o := disk[start + 4 * c / 512], 4 * c % 512;
      EntryAt(disk, start, c) == (Word(s, o) + 65536 * Word(s, o + 2)) % 0x1000_0000
  {
    assert 4 * c / 512 == c / 128 && 4 * c % 512 == c % 128 * 4;
    var s, o := disk[start + c / 128], c % 128 * 4;
    var b3: int := s[o + 3];
    assert Word(s, o) + 65536 * Word(s, o + 2) == 0x1000_0000 * (b3 / 16) + LowBits(s, o);
    QuotientIs(Word(s, o) + 65536 * Word(s, o + 2), 0x1000_0000, b3 / 16, LowBits(s, o));
  }

  /** Storing an entry replaces the 28 bits and keeps the reserved four, and every other byte of the sector. */
  lemma EntryStored(s: seq<byte>, off: nat, v: nat)
    requires off + 4 <= |s| && v < 0x1000_0000
    ensures var r := StoreEntry(s, off, v);
      && |r| == |s| && (forall i :: 0 <= i < |s| && !(off <= i < off + 4) ==> r[i] == s[i])
      && (Word(r, off) + 65536 * Word(r, off + 2)) % 0x1000_0000 == v && r[off + 3] / 16 == s[off + 3] / 16
  {
    var r := StoreEntry(s, off, v);
    TopByte(v, s[off + 3]);
    StoredBytes(s, off, v);
    FourBytes(v);
    var b3: int := r[off + 3];
    QuotientIs(Word(r, off) + 65536 * Word(r, off + 2), 0x1000_0000, b3 / 16, v);
  }

  /** The fields of a slot: name, attributes, first cluster in two halves, size. */
  lemma SlotWords(s: Slot)
    ensures NameField(s) == s[..11] && AttrOf(s) == s[11]
    ensures ClusterOf(s) == Word(s, 26) + 65536 * Word(s, 20) && SizeOf(s) == Word(s, 28) + 65536 * Word(s, 30)
  {
  }

  /** Bit 4 of the attributes marks a directory, bit 3 a volume label. */
  lemma AttributeBits(attr: byte)
    ensures IsDirectory(attr) <==> (attr as bv8) & 0x10 != 0
    ensures IsVolumeLabel(attr) <==> (attr as bv8) & 0x08 != 0
  {
  }

  /** A new slot: its fields, one fixed date in three places, and zeros. */
  lemma NewSlotWords(name: seq<byte>, attr: byte, cluster: nat, size: nat)
    requires |name| == 11 && cluster < 0x1_0000_0000 && size < 0x1_0000_0000
    ensures var s := NewSlot(name, attr, cluster, size);
      && s[..11] == name && s[11] == attr && Word(s, 12) == Word(s, 14) == Word(s, 22) == 0
      && Word(s, 26) + 65536 * Word(s, 20) == cluster && Word(s, 28) + 65536 * Word(s, 30) == size
      && Word(s, 16) == Word(s, 18) == Word(s, 24) == 0x5821
  {
    NewSlotFields(name, attr, cluster, size);
    SlotWords(NewSlot(name, attr, cluster, size));
  }

  /** The bytes that fat32_mkdir stores: "." with the directory's own cluster, ".." with the parent's, and zeros. */
  lemma NewDirectoryBytes(self: nat, parent: nat, bpc: nat)
    requires 64 <= bpc && self < 0x1_0000_0000 && parent < 0x1_0000_0000
    ensures var c := NewDirectory(self, parent, bpc);
      && Holds(c[..11], [0x2E]) && Holds(c[32..43], [0x2E, 0x2E]) && c[11] == c[43] == 0x10
      && Word(c, 26) + 65536 * Word(c, 20) == self && Word(c, 58) + 65536 * Word(c, 52) == parent
      && forall i :: (12 <= i < 20 || 22 <= i < 26 || 28 <= i < 32 || 44 <= i < 52 || 54 <= i < 58 || 60 <= i < bpc)
           ==> c[i] == 0
  {
    var a: seq<byte>, b: seq<byte> := DotSlot(SELF, self), DotSlot(PARENT, parent);
    DotSlotFields(SELF, self);
    DotSlotFields(PARENT, parent);
    SlotWords(a);
    SlotWords(b);
    var c := NewDirectory(self, parent, bpc);
    assert c == a + b + Zeros(bpc - 64);
  }

  // ---- Listing ----

  /** Slot r is in use and is no volume label. */
  predicate InUse(c: seq<byte>, r: nat)
    requires r < |c| / 32
  {
    c[32 * r] != 0 && c[32 * r] != 0xE5 && c[32 * r + 11] / 8 % 2 == 0
  }

  ghost function CountInUse(c: seq<byte>, from: nat, to: nat): nat
    requires from <= to <= |c| / 32
    decreases |c| / 32 - from
  {
    if from == to then 0 else (if InUse(c, from) then 1 else 0) + CountInUse(c, from + 1, to)
  }

  /** No slot from p to r starts with a zero byte. */
  ghost predicate NoEnd(c: seq<byte>, p: nat, r: nat)
    requires r < |c| / 32
  {
    forall k :: p <= k <= r ==> c[32 * k] != 0
  }

  lemma SlotInUse(c: seq<byte>, r: nat)
    requires r < |c| / 32
    ensures r < Slots(c) && (Listed(SlotAt(c, r)) <==> InUse(c, r)) && SlotAt(c, r)[0] == c[32 * r]
    ensures NameField(SlotAt(c, r)) == c[32 * r..32 * r + 11]
  {
    assert SlotAt(c, r)[11] == c[32 * r + 11];
  }

  /** Listing number i is the slot in use with i others in use before it and no zero byte up to it. */
  lemma {:induction false} ListingExact(c: seq<byte>, p: nat, i: nat, r: nat)
    requires p <= |c| / 32
    ensures NthListed(c, p, i) == Some(r)
      <==> p <= r < |c| / 32 && NoEnd(c, p, r) && InUse(c, r) && CountInUse(c, p, r) == i
    decreases |c| / 32 - p
  {
    hide SlotAt, Listed, InUse;
    if p < |c| / 32 {
      SlotInUse(c, p);
      if c[32 * p] != 0 {
        ListingExact(c, p + 1, i, r);
        if i > 0 { ListingExact(c, p + 1, i - 1, r); }
      }
    }
  }

  // ---- Searching ----

  /** Slot r is in use, is no dot entry, and is shown under name x, up to the case of letters. */
  predicate NamedAt(c: seq<byte>, r: nat, x: seq<byte>)
    requires r < |c| / 32
  {
    && InUse(c, r)
    && var shown := Parse83(c[32 * r..32 * r + 11]);
    && shown != [0x2E] && shown != [0x2E, 0x2E] && SameLetters(shown, x)
  }

  lemma MatchesNamed(c: seq<byte>, r: nat, x: seq<byte>)
    requires r < |c| / 32
    ensures r < Slots(c) && (Matches(SlotAt(c, r), x) <==> NamedAt(c, r, x))
  {
    SlotInUse(c, r);
    SameNameExact(NameOf(SlotAt(c, r)), x);
    hide SlotAt, Parse83, SameName;
  }

  /** A search finds the first slot of that name before any zero byte, and nothing exactly if there is none. */
  lemma {:induction false} SearchExact(c: seq<byte>, p: nat, x: seq<byte>, r: nat)
    requires p <= |c| / 32
    ensures FirstMatch(c, p, x) == Some(r)
      <==> p <= r < |c| / 32 && NoEnd(c, p, r) && NamedAt(c, r, x) && forall k :: p <= k < r ==> !NamedAt(c, k, x)
    decreases |c| / 32 - p
  {
    hide SlotAt, Matches, NamedAt;
    if p < |c| / 32 {
      SlotInUse(c, p);
      MatchesNamed(c, p, x);
      if c[32 * p] != 0 && !Matches(SlotAt(c, p), x) { SearchExact(c, p + 1, x, r); }
    }
  }

}
