/**
 Directory slots: 32-byte records at fixed places inside a directory's bytes. Offsets follow the
 packed Fat32DirEntry: name 0-7, extension 8-10, attributes 11, first cluster 20-21 (high half)
 and 26-27 (low half), size 28-31.
 */
module FatSlots {
  import opened Bytes
  import Arith

  const ATTR_DIRECTORY := 0x10
  const ATTR_ARCHIVE := 0x20
  const ATTR_LFN := 0x0F
  const SLOT_END := 0x00
  const SLOT_DELETED := 0xE5

  predicate IsDirectory(attr: byte) { attr / 16 % 2 == 1 }

  predicate IsVolumeLabel(attr: byte) { attr / 8 % 2 == 1 }

  type Slot = s: seq<byte> | |s| == 32 witness seq(32, i => 0)

  function Slots(content: seq<byte>): nat { |content| / 32 }

  function SlotAt(content: seq<byte>, r: nat): Slot
    requires r < Slots(content)
  {
    content[32 * r..32 * r + 32]
  }

  function PutSlot(content: seq<byte>, r: nat, s: Slot): (c: seq<byte>)
    requires r < Slots(content)
    ensures |c| == |content|
  {
    Splice(content, 32 * r, s)
  }

  lemma PutSlotAt(content: seq<byte>, r: nat, s: Slot, k: nat)
    requires r < Slots(content) && k < Slots(content)
    ensures SlotAt(PutSlot(content, r, s), k) == if k == r then s else SlotAt(content, k)
  {
    var c := PutSlot(content, r, s);
    forall i | 0 <= i < 32 ensures c[32 * k + i] == if k == r then s[i] else content[32 * k + i] {
      SpliceAt(content, 32 * r, s, 32 * k + i);
    }
    assert SlotAt(c, k) == if k == r then s else SlotAt(content, k);
  }

  function Half(s: Slot, off: nat): (v: nat)
    requires off + 2 <= 32
    ensures v < 65536
  {
    var lo: int, hi: int := s[off], s[off + 1];
    lo + 256 * hi
  }

  function ClusterOf(s: Slot): nat { Half(s, 26) + 65536 * Half(s, 20) }

  function SizeOf(s: Slot): nat { Half(s, 28) + 65536 * Half(s, 30) }

  function AttrOf(s: Slot): byte { s[11] }

  function NameField(s: Slot): seq<byte> { s[..11] }

  function LittleEndian16(v: nat): (r: seq<byte>)
    ensures |r| == 2
  {
    [v % 256, v / 256 % 256]
  }

  /** The stores of update_dir_entry: cluster_hi, cluster_lo and size; the rest stays. */
  function PatchSlot(s: Slot, cluster: nat, size: nat): Slot {
    s[..20] + LittleEndian16(cluster / 65536) + s[22..26] + LittleEndian16(cluster)
    + LittleEndian16(size) + LittleEndian16(size / 65536)
  }

  lemma HalfOfLittleEndian(s: Slot, off: nat, v: nat)
    requires off + 2 <= 32 && s[off..off + 2] == LittleEndian16(v)
    ensures Half(s, off) == v % 65536
  {
    assert s[off] == s[off..off + 2][0] && s[off + 1] == s[off..off + 2][1];
    LowBytes(v);
  }

  lemma LowBytes(v: nat)
    ensures v % 256 + 256 * (v / 256 % 256) == v % 65536
  {
    var low, m := v % 256, v / 256;
    assert v == 65536 * (m / 256) + (256 * (m % 256) + low);
    Arith.QuotientIs(v, 65536, m / 256, 256 * (m % 256) + low);
  }

  /** Reading back a patched slot gives the stored cluster and size, and the old name and attributes. */
  lemma PatchSlotFields(s: Slot, cluster: nat, size: nat)
    requires cluster < 0x1_0000_0000 && size < 0x1_0000_0000
    ensures var p := PatchSlot(s, cluster, size);
      ClusterOf(p) == cluster && SizeOf(p) == size && AttrOf(p) == AttrOf(s) && NameField(p) == NameField(s)
  {
    var p := PatchSlot(s, cluster, size);
    assert p[20..22] == LittleEndian16(cluster / 65536);
    assert p[26..28] == LittleEndian16(cluster);
    assert p[28..30] == LittleEndian16(size);
    assert p[30..32] == LittleEndian16(size / 65536);
    HalfOfLittleEndian(p, 20, cluster / 65536);
    HalfOfLittleEndian(p, 26, cluster);
    HalfOfLittleEndian(p, 28, size);
    HalfOfLittleEndian(p, 30, size / 65536);
  }

  function Blank(n: nat): (r: seq<byte>)
    ensures |r| == n
  {
    seq(n, i => 0x20)
  }

  /** The slot write_dir_entry composes; 0x5821 is its fixed date. */
  function NewSlot(name: seq<byte>, attr: byte, cluster: nat, size: nat): Slot
    requires |name| == 11
  {
    name + [attr, 0, 0, 0, 0, 0x21, 0x58, 0x21, 0x58] + LittleEndian16(cluster / 65536)
    + [0, 0, 0x21, 0x58] + LittleEndian16(cluster) + LittleEndian16(size) + LittleEndian16(size / 65536)
  }

  lemma NewSlotFields(name: seq<byte>, attr: byte, cluster: nat, size: nat)
    requires |name| == 11 && cluster < 0x1_0000_0000 && size < 0x1_0000_0000
    ensures var s := NewSlot(name, attr, cluster, size);
      ClusterOf(s) == cluster && SizeOf(s) == size && AttrOf(s) == attr && NameField(s) == name
  {
    var s := NewSlot(name, attr, cluster, size);
    assert s[20..22] == LittleEndian16(cluster / 65536);
    assert s[26..28] == LittleEndian16(cluster);
    assert s[28..30] == LittleEndian16(size);
    assert s[30..32] == LittleEndian16(size / 65536);
    HalfOfLittleEndian(s, 20, cluster / 65536);
    HalfOfLittleEndian(s, 26, cluster);
    HalfOfLittleEndian(s, 28, size);
    HalfOfLittleEndian(s, 30, size / 65536);
  }

  lemma PatchTwice(s: Slot, c1: nat, n1: nat, c2: nat, n2: nat)
    ensures PatchSlot(PatchSlot(s, c1, n1), c2, n2) == PatchSlot(s, c2, n2)
  {
    var p := PatchSlot(s, c1, n1);
    assert p[..20] == s[..20] && p[22..26] == s[22..26];
  }

  lemma PutTwice(content: seq<byte>, r: nat, a: Slot, b: Slot)
    requires r < Slots(content)
    ensures PutSlot(PutSlot(content, r, a), r, b) == PutSlot(content, r, b)
  {
    var once, twice := PutSlot(content, r, a), PutSlot(PutSlot(content, r, a), r, b);
    forall k | 0 <= k < |content| ensures twice[k] == PutSlot(content, r, b)[k] {
      SpliceAt(content, 32 * r, a, k);
      SpliceAt(once, 32 * r, b, k);
      SpliceAt(content, 32 * r, b, k);
    }
  }
}
