/**
 The FAT32 volume as the driver sees it: a disk of 512-byte sectors, two copies of the file
 allocation table, one cached FAT sector, and the data region cut into clusters.

 The driver's file-scope variables are the fields of one class. Above this module nobody looks
 at sectors again: a volume is the table fat and the cluster contents data, and Valid() says
 that the disk stores exactly these.
 */
module FatVolume {
  import opened Bytes

  const FAT_EOF := 0x0FFF_FFFF
  const NO_LBA := 0xFFFF_FFFF
  const ENTRY_SPAN := 0x1000_0000

  // ---- One 32-bit FAT entry inside a sector ----

  function LowBits(s: seq<byte>, off: nat): (v: nat)
    requires off + 4 <= |s|
    ensures v < ENTRY_SPAN
  {
    var b0: int, b1: int, b2: int, b3: int := s[off], s[off + 1], s[off + 2], s[off + 3];
    b0 + 256 * b1 + 65536 * b2 + 16777216 * (b3 % 16)
  }

  function TopNibble(s: seq<byte>, off: nat): nat
    requires off + 4 <= |s|
  {
    s[off + 3] / 16
  }

  /** The four byte stores of fat_set; the last one keeps the top four bits of the old byte. */
  function StoreEntry(s: seq<byte>, off: nat, v: nat): (r: seq<byte>)
    requires off + 4 <= |s| && v < ENTRY_SPAN
    ensures |r| == |s|
  {
    s[off := v % 256][off + 1 := v / 256 % 256][off + 2 := v / 65536 % 256]
     [off + 3 := v / 16777216 + s[off + 3] / 16 * 16]
  }

  /** The last byte keeps its top four bits and takes the top four bits of v. */
  lemma TopByte(v: nat, was: byte)
    requires v < ENTRY_SPAN
    ensures v / 16777216 < 16
    ensures var b3 := v / 16777216 + was / 16 * 16; 0 <= b3 < 256 && b3 % 16 == v / 16777216 && b3 / 16 == was / 16
  {
  }

  lemma FourBytes(v: nat)
    ensures v == v % 256 + 256 * (v / 256 % 256) + 65536 * (v / 65536 % 256) + 16777216 * (v / 16777216)
  {
    var a := v / 256;
    var b := a / 256;
    assert b == v / 65536 && b / 256 == v / 16777216;
    assert v == v % 256 + 256 * a && a == a % 256 + 256 * b && b == b % 256 + 256 * (b / 256);
  }

  lemma StoreThenLoad(s: seq<byte>, off: nat, v: nat, other: nat)
    requires off + 4 <= |s| && v < ENTRY_SPAN
    requires other + 4 <= |s| && (other == off || other + 4 <= off || off + 4 <= other)
    ensures LowBits(StoreEntry(s, off, v), other) == if other == off then v else LowBits(s, other)
    ensures TopNibble(StoreEntry(s, off, v), other) == TopNibble(s, other)
  {
    TopByte(v, s[off + 3]);
    var r := StoreEntry(s, off, v);
    if other == off {
      StoredBytes(s, off, v);
      FourBytes(v);
    } else {
      assert r[other] == s[other] && r[other + 1] == s[other + 1];
      assert r[other + 2] == s[other + 2] && r[other + 3] == s[other + 3];
    }
  }

  lemma StoredBytes(s: seq<byte>, off: nat, v: nat)
    requires off + 4 <= |s| && v < ENTRY_SPAN
    ensures var r := StoreEntry(s, off, v);
      && r[off] == v % 256 && r[off + 1] == v / 256 % 256 && r[off + 2] == v / 65536 % 256
      && r[off + 3] == v / 16777216 + s[off + 3] / 16 * 16
  {
  }

  // ---- The table inside a disk ----

  ghost predicate DiskShape(disk: seq<seq<byte>>) {
    forall i :: 0 <= i < |disk| ==> |disk[i]| == 512
  }

  /** Entry c of the table copy that starts at sector start. */
  function EntryAt(disk: seq<seq<byte>>, start: nat, c: nat): (v: nat)
    requires DiskShape(disk) && start + c / 128 < |disk|
    ensures v < ENTRY_SPAN
  {
    LowBits(disk[start + c / 128], c % 128 * 4)
  }

  function NibbleAt(disk: seq<seq<byte>>, start: nat, c: nat): nat
    requires DiskShape(disk) && start + c / 128 < |disk|
  {
    TopNibble(disk[start + c / 128], c % 128 * 4)
  }

  function PutEntry(disk: seq<seq<byte>>, start: nat, c: nat, v: nat): (r: seq<seq<byte>>)
    requires DiskShape(disk) && start + c / 128 < |disk| && v < ENTRY_SPAN
    ensures DiskShape(r) && |r| == |disk|
  {
    disk[start + c / 128 := StoreEntry(disk[start + c / 128], c % 128 * 4, v)]
  }

  /** Storing entry c of one copy changes no other entry of that copy and no reserved bits. */
  lemma PutEntryAt(disk: seq<seq<byte>>, start: nat, c: nat, v: nat, k: nat)
    requires DiskShape(disk) && start + c / 128 < |disk| && v < ENTRY_SPAN
    requires start + k / 128 < |disk|
    ensures EntryAt(PutEntry(disk, start, c, v), start, k) == if k == c then v else EntryAt(disk, start, k)
    ensures NibbleAt(PutEntry(disk, start, c, v), start, k) == NibbleAt(disk, start, k)
  {
    if k / 128 == c / 128 {
      assert k % 128 == c % 128 <==> k == c;
      StoreThenLoad(disk[start + c / 128], c % 128 * 4, v, k % 128 * 4);
    }
  }

  ghost predicate StoresCopy(disk: seq<seq<byte>>, start: nat, fat: seq<nat>) {
    && DiskShape(disk) && start + (|fat| + 127) / 128 <= |disk|
    && forall c {:trigger EntryAt(disk, start, c)} :: 0 <= c < |fat| ==> fat[c] == EntryAt(disk, start, c)
  }

  /** The reserved top four bits of the first n entries of one copy are the same on both disks. */
  ghost predicate SameNibbles(was: seq<seq<byte>>, now: seq<seq<byte>>, start: nat, n: nat) {
    && DiskShape(was) && DiskShape(now)
    && start + (n + 127) / 128 <= |was| && start + (n + 127) / 128 <= |now|
    && forall c {:trigger NibbleAt(now, start, c)} :: 0 <= c < n ==>
         NibbleAt(now, start, c) == NibbleAt(was, start, c)
  }

  lemma NibblesPut(disk: seq<seq<byte>>, start: nat, c: nat, v: nat, n: nat)
    requires DiskShape(disk) && start + (n + 127) / 128 <= |disk| && c < n && v < ENTRY_SPAN
    ensures SameNibbles(disk, PutEntry(disk, start, c, v), start, n)
  {
    hide TopNibble, StoreEntry;
    forall k | 0 <= k < n ensures NibbleAt(PutEntry(disk, start, c, v), start, k) == NibbleAt(disk, start, k) {
      PutEntryAt(disk, start, c, v, k);
    }
  }

  lemma NibblesElsewhere(was: seq<seq<byte>>, now: seq<seq<byte>>, start: nat, n: nat)
    requires DiskShape(was) && DiskShape(now) && |now| == |was| && start + (n + 127) / 128 <= |was|
    requires forall s :: start <= s < start + (n + 127) / 128 ==> now[s] == was[s]
    ensures SameNibbles(was, now, start, n)
  {
  }

  lemma StoresCopyElsewhere(was: seq<seq<byte>>, now: seq<seq<byte>>, start: nat, fat: seq<nat>)
    requires StoresCopy(was, start, fat) && DiskShape(now) && |now| == |was|
    requires forall s :: start <= s < start + (|fat| + 127) / 128 ==> now[s] == was[s]
    ensures StoresCopy(now, start, fat)
  {
    forall c | 0 <= c < |fat| ensures fat[c] == EntryAt(now, start, c) {
      assert fat[c] == EntryAt(was, start, c);
    }
  }

  lemma PutEntryStores(disk: seq<seq<byte>>, start: nat, c: nat, v: nat, fat: seq<nat>)
    requires StoresCopy(disk, start, fat) && c < |fat| && v < ENTRY_SPAN
    ensures StoresCopy(PutEntry(disk, start, c, v), start, fat[c := v])
  {
    forall k | 0 <= k < |fat| ensures fat[c := v][k] == EntryAt(PutEntry(disk, start, c, v), start, k) {
      PutEntryAt(disk, start, c, v, k);
      assert fat[k] == EntryAt(disk, start, k);
    }
  }

  /** Storing an entry of one copy leaves another copy alone. */
  lemma PutEntryElsewhere(disk: seq<seq<byte>>, start: nat, other: nat, c: nat, v: nat, fat: seq<nat>)
    requires StoresCopy(disk, other, fat) && c < |fat| && v < ENTRY_SPAN && start + (|fat| + 127) / 128 <= |disk|
    requires start + (|fat| + 127) / 128 <= other || other + (|fat| + 127) / 128 <= start
    ensures StoresCopy(PutEntry(disk, start, c, v), other, fat)
  {
    StoresCopyElsewhere(disk, PutEntry(disk, start, c, v), other, fat);
  }

  lemma PutBoth(disk: seq<seq<byte>>, a: nat, b: nat, c: nat, v: nat, fat: seq<nat>)
    requires StoresCopy(disk, a, fat) && StoresCopy(disk, b, fat) && c < |fat| && v < ENTRY_SPAN
    requires a + (|fat| + 127) / 128 <= b && b + (|fat| + 127) / 128 <= |disk|
    ensures var two := PutEntry(PutEntry(disk, a, c, v), b, c, v);
      StoresCopy(two, a, fat[c := v]) && StoresCopy(two, b, fat[c := v])
  {
    var one := PutEntry(disk, a, c, v);
    hide StoresCopy, PutEntry;
    PutEntryStores(disk, a, c, v, fat);
    PutEntryElsewhere(disk, a, b, c, v, fat);
    PutEntryStores(one, b, c, v, fat);
    PutEntryElsewhere(one, b, a, c, v, fat[c := v]);
  }

  // ---- The clusters inside a disk ----

  function SectorRun(disk: seq<seq<byte>>, lba: nat, n: nat): (r: seq<byte>)
    requires DiskShape(disk) && lba + n <= |disk|
    ensures |r| == 512 * n
  {
    if n == 0 then [] else SectorRun(disk, lba, n - 1) + disk[lba + n - 1]
  }

  lemma {:induction false} SectorRunFrame(d: seq<seq<byte>>, e: seq<seq<byte>>, lba: nat, n: nat)
    requires DiskShape(d) && DiskShape(e) && lba + n <= |d| && lba + n <= |e|
    requires forall i :: lba <= i < lba + n ==> d[i] == e[i]
    ensures SectorRun(d, lba, n) == SectorRun(e, lba, n)
  {
    if n > 0 {
      SectorRunFrame(d, e, lba, n - 1);
    }
  }

  lemma {:induction false} SectorRunOf(disk: seq<seq<byte>>, lba: nat, n: nat, buf: seq<byte>)
    requires DiskShape(disk) && lba + n <= |disk| && 512 * n <= |buf|
    requires forall i :: 0 <= i < n ==> disk[lba + i] == buf[512 * i..512 * i + 512]
    ensures SectorRun(disk, lba, n) == buf[..512 * n]
  {
    if n > 0 {
      SectorRunOf(disk, lba, n - 1, buf);
      assert disk[lba + (n - 1)] == buf[512 * (n - 1)..512 * (n - 1) + 512];
    }
  }

  /** Where cluster c starts, counted from cluster 2 at sector base. */
  function LbaOf(base: nat, spc: nat, c: nat): (lba: nat)
    requires 2 <= c
    ensures lba >= base
    decreases c
  {
    if c == 2 then base else LbaOf(base, spc, c - 1) + spc
  }

  /** LbaOf is the product that cluster_to_lba computes. */
  lemma {:induction false} LbaOfIsProduct(base: nat, spc: nat, c: nat)
    requires 2 <= c
    ensures LbaOf(base, spc, c) == base + (c - 2) * spc
    decreases c
  {
    if c > 2 {
      LbaOfIsProduct(base, spc, c - 1);
      assert (c - 2) * spc == (c - 3) * spc + spc;
    }
  }

  /** Sectors of different clusters do not overlap. */
  lemma {:induction false} ClustersApart(base: nat, spc: nat, c: nat, d: nat)
    requires 2 <= c < d
    ensures LbaOf(base, spc, c) + spc <= LbaOf(base, spc, d)
    decreases d
  {
    if c + 1 < d {
      ClustersApart(base, spc, c, d - 1);
    }
  }

  lemma QuotientBound(a: nat, b: nat)
    requires 0 < b
    ensures a / b <= a
  {
    assert a == a / b * b + a % b;
    assert a / b * b >= a / b by {
      var q, k := a / b, b - 1;
      assert q * (k + 1) == q * k + q;
    }
  }

  /** The variables of the mounted driver, and the disk behind them. */
  class Volume {
    const sectorCount: nat     // ata_sectors_count()
    const fatStart: nat
    const fatSectors: nat
    const dataStart: nat
    const rootCluster: nat
    const spc: nat             // sectors per cluster
    const limit: nat           // one past the last data cluster
    const scanned: nat         // the bound of the allocation scan: sectorCount / spc

    var disk: seq<seq<byte>>
    const cache: array<byte>
    var cacheLba: nat
    var cacheDirty: bool

    ghost var fat: seq<nat>
    ghost var data: seq<seq<byte>>

    function Bpc(): nat {
      512 * spc
    }

    /** The layout the driver takes for granted: two FAT copies, then the data region. */
    ghost predicate Geometry() {
      && 0 < spc
      && scanned <= sectorCount < FAT_EOF
      && 2 <= limit <= scanned <= 128 * fatSectors
      && fatStart + 2 * fatSectors <= dataStart
      && LbaOf(dataStart, spc, limit) <= sectorCount
      && 2 <= rootCluster < limit
    }

    function ClusterLba(c: nat): (lba: nat)
      requires Geometry() && 2 <= c < limit
      ensures dataStart <= lba && lba + spc <= sectorCount
    {
      ClustersApart(dataStart, spc, c, limit);
      LbaOf(dataStart, spc, c)
    }

    ghost predicate StoresFat(disk: seq<seq<byte>>, fat: seq<nat>)
      requires Geometry()
    {
      && DiskShape(disk) && |disk| == sectorCount
      && |fat| == scanned
      && StoresCopy(disk, fatStart, fat) && StoresCopy(disk, fatStart + fatSectors, fat)
    }

    ghost predicate StoresData(disk: seq<seq<byte>>, data: seq<seq<byte>>)
      requires Geometry()
    {
      && DiskShape(disk) && |disk| == sectorCount
      && |data| == limit
      && forall c {:trigger SectorRun(disk, ClusterLba(c), spc)} :: 2 <= c < limit ==>
           data[c] == SectorRun(disk, ClusterLba(c), spc)
    }

    /** fat32_init once the layout is known: nothing is cached yet. */
    constructor (image: seq<seq<byte>>, fatStart: nat, fatSectors: nat, dataStart: nat,
                 rootCluster: nat, spc: nat, limit: nat)
      requires 0 < spc && |image| < FAT_EOF && DiskShape(image)
      requires 2 <= rootCluster < limit <= |image| / spc <= 128 * fatSectors
      requires fatStart + 2 * fatSectors <= dataStart && LbaOf(dataStart, spc, limit) <= |image|
      // the two copies agree, and slots past the last data cluster are reserved
      requires forall c :: 0 <= c < |image| / spc ==>
        EntryAt(image, fatStart, c) == EntryAt(image, fatStart + fatSectors, c)
      requires forall c :: limit <= c < |image| / spc ==> EntryAt(image, fatStart, c) != 0
      ensures Valid() && fresh(cache) && disk == image
      ensures this.limit == limit && this.spc == spc && this.rootCluster == rootCluster
    {
      this.fatStart, this.fatSectors, this.dataStart := fatStart, fatSectors, dataStart;
      this.rootCluster, this.spc, this.limit := rootCluster, spc, limit;
      sectorCount, scanned := |image|, |image| / spc;
      QuotientBound(|image|, spc);
      disk := image;
      cache := new byte[512];
      cacheLba, cacheDirty := NO_LBA, false;
      new;
      fat := seq(scanned, c requires 0 <= c < scanned => EntryAt(image, fatStart, c));
      data := seq(limit, c requires 0 <= c < limit =>
        if c < 2 then [] else SectorRun(image, ClusterLba(c), spc));
    }

    /** What the disk holds once the cached sector has been written back. */
    ghost function Settled(): seq<seq<byte>>
      reads this, cache
    {
      if cacheDirty && cacheLba < |disk| then disk[cacheLba := cache[..]] else disk
    }

    ghost predicate CacheOk()
      reads this, cache
    {
      && Geometry()
      && cache.Length == 512
      && DiskShape(disk) && |disk| == sectorCount
      && (cacheLba == NO_LBA || cacheLba < dataStart)
      && (cacheDirty ==> cacheLba != NO_LBA)
      && (!cacheDirty && cacheLba != NO_LBA ==> cache[..] == disk[cacheLba])
    }

    ghost predicate Valid()
      reads this, cache
    {
      && CacheOk() && !cacheDirty
      && Geometry() && |fat| == scanned && |data| == limit
      && StoresFat(disk, fat)
      && StoresData(disk, data)
      // slots past the last data cluster are reserved, so no scan can hand one out
      && (forall c :: limit <= c < |fat| ==> fat[c] != 0)
      && (forall c :: 2 <= c < limit ==> |data[c]| == Bpc())
    }

    method FlushCache()
      requires CacheOk()
      modifies this`disk, this`cacheDirty
      ensures CacheOk() && !cacheDirty
      ensures disk == old(Settled())
    {
      if !cacheDirty { return; }
      disk := disk[cacheLba := cache[..]];
      cacheDirty := false;
    }

    method ReadSector(lba: nat)
      requires CacheOk() && lba < dataStart
      modifies this`disk, this`cacheDirty, this`cacheLba, cache
      ensures CacheOk() && cacheLba == lba
      ensures Settled() == old(Settled())
      ensures cache[..] == old(Settled())[lba]
      ensures !old(cacheDirty) ==> !cacheDirty && disk == old(disk)
    {
      if cacheLba == lba { return; }
      FlushCache();
      var sector := disk[lba];
      forall i | 0 <= i < 512 { cache[i] := sector[i]; }
      assert cache[..] == sector;
      cacheLba := lba;
    }

    /** fat_get: the low 28 bits of entry c, whichever sector the cache held before. */
    method FatGet(c: nat) returns (v: nat)
      requires Valid() && c < scanned
      modifies this`disk, this`cacheDirty, this`cacheLba, cache
      ensures Valid() && v == fat[c] && disk == old(disk)
    {
      var fatOffset := c * 4;
      var lba := fatStart + fatOffset / 512;
      var off := fatOffset % 512;
      assert fatOffset / 512 == c / 128 && off == c % 128 * 4;
      ReadSector(lba);
      assert cache[..] == disk[lba];
      v := LowBits(cache[..], off);
      assert v == EntryAt(disk, fatStart, c);
    }

    /** One round of fat_set's loop: entry c of the copy that starts at sector start. */
    method SetCopy(start: nat, c: nat, v: nat)
      requires CacheOk() && !cacheDirty && v < ENTRY_SPAN
      requires start + c / 128 < dataStart
      modifies this`disk, this`cacheDirty, this`cacheLba, cache
      ensures CacheOk() && !cacheDirty
      ensures DiskShape(old(disk)) && disk == PutEntry(old(disk), start, c, v)
    {
      var fatOffset := c * 4;
      var lba := start + fatOffset / 512;
      var off := fatOffset % 512;
      assert fatOffset / 512 == c / 128 && off == c % 128 * 4;
      ReadSector(lba);
      ghost var was := cache[..];
      var high := cache[off + 3] / 16 * 16;
      cache[off] := v % 256;
      cache[off + 1] := v / 256 % 256;
      cache[off + 2] := v / 65536 % 256;
      cache[off + 3] := v / 16777216 + high;
      assert cache[..] == StoreEntry(was, off, v);
      cacheDirty := true;
      FlushCache();
    }

    /** fat_set: both copies of entry c, and nothing else on the volume. */
    method FatSet(c: nat, value: nat)
      requires Valid() && 2 <= c < limit
      modifies this`disk, this`cacheDirty, this`cacheLba, this`fat, cache
      ensures Valid()
      ensures fat == old(fat)[c := value % ENTRY_SPAN]
      ensures SameNibbles(old(disk), disk, fatStart, scanned)
      ensures SameNibbles(old(disk), disk, fatStart + fatSectors, scanned)
    {
      var v := value % ENTRY_SPAN;
      var copy := 0;
      while copy < 2
        invariant 0 <= copy <= 2
        invariant CacheOk() && !cacheDirty && fat == old(fat)
        invariant copy == 0 ==> disk == old(disk)
        invariant copy == 1 ==> disk == PutEntry(old(disk), fatStart, c, v)
        invariant copy == 2 ==>
          disk == PutEntry(PutEntry(old(disk), fatStart, c, v), fatStart + fatSectors, c, v)
      {
        SetCopy(fatStart + copy * fatSectors, c, v);
        copy := copy + 1;
      }
      fat := fat[c := v];
      FatSetStores(old(disk), old(fat), c, v);
      FatSetKeepsData(old(disk), data, c, v);
      FatSetKeepsNibbles(old(disk), c, v);
    }

    /** The two stores of fat_set represent the update of one entry of the table. */
    lemma FatSetStores(was: seq<seq<byte>>, t: seq<nat>, c: nat, v: nat)
      requires Geometry() && StoresFat(was, t) && c < limit && v < ENTRY_SPAN
      ensures StoresFat(PutEntry(PutEntry(was, fatStart, c, v), fatStart + fatSectors, c, v), t[c := v])
    {
      hide StoresCopy, PutEntry;
      PutBoth(was, fatStart, fatStart + fatSectors, c, v, t);
    }

    lemma FatSetKeepsData(was: seq<seq<byte>>, d: seq<seq<byte>>, c: nat, v: nat)
      requires Geometry() && StoresData(was, d) && c < limit && v < ENTRY_SPAN
      ensures StoresData(PutEntry(PutEntry(was, fatStart, c, v), fatStart + fatSectors, c, v), d)
    {
      var two := PutEntry(PutEntry(was, fatStart, c, v), fatStart + fatSectors, c, v);
      forall k | 2 <= k < limit ensures d[k] == SectorRun(two, ClusterLba(k), spc) {
        SectorRunFrame(was, two, ClusterLba(k), spc);
      }
    }

    /** fat_set leaves the reserved top four bits of every entry of both copies as they were. */
    lemma FatSetKeepsNibbles(was: seq<seq<byte>>, c: nat, v: nat)
      requires Geometry() && DiskShape(was) && |was| == sectorCount
      requires c < scanned && v < ENTRY_SPAN
      ensures var now := PutEntry(PutEntry(was, fatStart, c, v), fatStart + fatSectors, c, v);
        && SameNibbles(was, now, fatStart, scanned)
        && SameNibbles(was, now, fatStart + fatSectors, scanned)
    {
      hide TopNibble, StoreEntry;
      var one := PutEntry(was, fatStart, c, v);
      var two := PutEntry(one, fatStart + fatSectors, c, v);
      NibblesPut(was, fatStart, c, v, scanned);
      NibblesElsewhere(was, one, fatStart + fatSectors, scanned);
      NibblesPut(one, fatStart + fatSectors, c, v, scanned);
      NibblesElsewhere(one, two, fatStart, scanned);
    }

    /** cluster_read: the sectors of one cluster, one after the other. */
    method ClusterRead(c: nat) returns (buf: seq<byte>)
      requires Valid() && 2 <= c < limit
      ensures buf == data[c]
    {
      LbaOfIsProduct(dataStart, spc, c);
      var lba := dataStart + (c - 2) * spc;
      assert lba == ClusterLba(c);
      buf := [];
      var i := 0;
      while i < spc
        invariant 0 <= i <= spc
        invariant buf == SectorRun(disk, lba, i)
      {
        buf := buf + disk[lba + i];
        i := i + 1;
      }
    }

    /** cluster_write: the whole buffer, one sector after the other. */
    method ClusterWrite(c: nat, buf: seq<byte>)
      requires Valid() && 2 <= c < limit && |buf| == Bpc()
      modifies this`disk, this`data
      ensures Valid() && data == old(data)[c := buf]
    {
      LbaOfIsProduct(dataStart, spc, c);
      var lba := dataStart + (c - 2) * spc;
      assert lba == ClusterLba(c);
      var i := 0;
      while i < spc
        invariant 0 <= i <= spc
        invariant |disk| == sectorCount && DiskShape(disk) && data == old(data)
        invariant forall k :: 0 <= k < i ==> disk[lba + k] == buf[512 * k..512 * k + 512]
        invariant forall s :: 0 <= s < |disk| && !(lba <= s < lba + spc) ==> disk[s] == old(disk)[s]
      {
        disk := disk[lba + i := buf[512 * i..512 * i + 512]];
        i := i + 1;
      }
      SectorRunOf(disk, lba, spc, buf);
      assert buf[..512 * spc] == buf;
      data := data[c := buf];
      ClusterWriteStores(old(disk), disk, old(data), c, buf);
      ClusterWriteKeepsFat(old(disk), disk, fat);
    }

    lemma ClusterWriteKeepsFat(was: seq<seq<byte>>, now: seq<seq<byte>>, t: seq<nat>)
      requires Geometry() && StoresFat(was, t)
      requires DiskShape(now) && |now| == sectorCount
      requires forall s :: 0 <= s < dataStart ==> now[s] == was[s]
      ensures StoresFat(now, t)
    {
      StoresCopyElsewhere(was, now, fatStart, t);
      StoresCopyElsewhere(was, now, fatStart + fatSectors, t);
    }

    lemma ClusterWriteStores(was: seq<seq<byte>>, now: seq<seq<byte>>, d: seq<seq<byte>>, c: nat, buf: seq<byte>)
      requires Geometry() && StoresData(was, d) && 2 <= c < limit
      requires DiskShape(now) && |now| == sectorCount && SectorRun(now, ClusterLba(c), spc) == buf
      requires forall s :: 0 <= s < |now| && !(ClusterLba(c) <= s < ClusterLba(c) + spc) ==> now[s] == was[s]
      ensures StoresData(now, d[c := buf])
    {
      forall k | 2 <= k < limit ensures d[c := buf][k] == SectorRun(now, ClusterLba(k), spc) {
        if k < c {
          ClustersApart(dataStart, spc, k, c);
          SectorRunFrame(was, now, ClusterLba(k), spc);
        } else if c < k {
          ClustersApart(dataStart, spc, c, k);
          SectorRunFrame(was, now, ClusterLba(k), spc);
        }
      }
    }
  }
}
