/**
 Two-level page tables over the page bitmap. Above this module an address space is one flat map from
 virtual pages to entries. Physical pages that hold page tables are taken to be directly addressable.
 When a table is needed and no page is left the source goes on with a table at address zero; here
 that case is the outcome fault, about which nothing is claimed beyond when it happens.
 */
module Paging {
  import opened Frames
  import Arith

  const WORD := 0x1_0000_0000
  const PAGES := 0x10_0000      // virtual pages

  predicate Present(e: nat) { e % 2 == 1 }

  function FrameOf(e: nat): nat { e / PAGE }

  /** (phys & ~0xFFF) | (flags & 0xFFF) | PAGE_PRESENT */
  function MakeEntry(phys: nat, flags: nat): (e: nat)
    ensures Present(e) && FrameOf(e) == phys / PAGE && e % PAGE / 2 == flags % PAGE / 2
  {
    var f := flags % PAGE;
    var g: nat := if f % 2 == 1 then f else f + 1;
    EntryParts(phys / PAGE, g);
    phys / PAGE * PAGE + g
  }

  /** Bits 1 and 2 of an entry let programs write to a page, and use it in user mode. */
  predicate Writable(e: nat) { e / 2 % 2 == 1 }

  predicate UserPage(e: nat) { e / 4 % 2 == 1 }

  /** The page is there, in the given frame, with the given flags and no others. */
  predicate Grants(e: nat, frame: nat, flags: nat) {
    && e % 2 == 1 && e / 4096 == frame && (Writable(e) <==> flags / 2 % 2 == 1) && (UserPage(e) <==> flags / 4 % 2 == 1)
    && e % 4096 / 2 == flags % 4096 / 2
  }

  lemma EntryGrants(phys: nat, flags: nat)
    ensures Grants(MakeEntry(phys, flags), phys / 4096, flags)
  {
    var e := MakeEntry(phys, flags);
    hide MakeEntry;
    LowBits(e);
    LowBits(flags);
  }

  /** Bits 1 and 2 are among the low twelve bits. */
  lemma LowBits(e: nat)
    ensures e / 2 % 2 == e % PAGE / 2 % 2 && e / 4 % 2 == e % PAGE / 2 / 2 % 2
  {
    var q, low := e / PAGE, e % PAGE;
    var half := low / 2;
    Arith.QuotientIs(e, 2, 2048 * q + half, low % 2);
    Arith.QuotientIs(e, 4, 1024 * q + half / 2, low % 2 + 2 * (half % 2));
    Arith.QuotientIs(2048 * q + half, 2, 1024 * q + half / 2, half % 2);
    Arith.QuotientIs(1024 * q + half / 2, 2, 512 * q + half / 2 / 2, half / 2 % 2);
  }

  lemma EntryParts(q: nat, g: nat)
    requires g < PAGE
    ensures (q * PAGE + g) / PAGE == q && (Present(q * PAGE + g) <==> g % 2 == 1)
  {
  }

  /** Virtual page number of the i-th page from an address; addresses wrap around. */
  function PageAt(virt: nat, i: nat): (vp: nat)
    ensures vp < PAGES
  {
    (virt / PAGE + i) % PAGES
  }

  lemma PageOfSum(virt: nat, i: nat)
    ensures (virt + i * PAGE) % WORD / PAGE == PageAt(virt, i)
  {
    var q, rem := virt / PAGE + i, virt % PAGE;
    assert virt + i * PAGE == WORD * (q / PAGES) + (PAGE * (q % PAGES) + rem);
    Arith.QuotientIs(virt + i * PAGE, WORD, q / PAGES, PAGE * (q % PAGES) + rem);
    Arith.QuotientIs(PAGE * (q % PAGES) + rem, PAGE, q % PAGES, rem);
  }

  lemma PagesDiffer(virt: nat, i: nat, j: nat)
    requires i < j < i + PAGES
    ensures PageAt(virt, i) != PageAt(virt, j)
  {
  }

  /** Round a size up to pages, in 32-bit arithmetic. */
  function PageCount(size: nat): (n: nat)
    ensures n < PAGES
  {
    (size + 4095) % WORD / PAGE
  }

  /** As many pages as cover the size, except that the last 4095 sizes wrap around to none. */
  lemma PagesCover(size: nat)
    requires size < WORD
    ensures size <= 0xFFFF_F000 ==> size <= 4096 * PageCount(size) < size + 4096
    ensures size > 0xFFFF_F000 ==> PageCount(size) == 0
  {
  }

  // ---- Directory and tables as values ----

  type Tables = map<nat, seq<nat>>

  /** Different directory slots never share a page table. */
  ghost predicate TablesOk(dir: seq<nat>, tables: Tables) {
    && |dir| == 1024
    && (forall d :: 0 <= d < 1024 && Present(dir[d]) ==> FrameOf(dir[d]) in tables)
    && (forall f :: f in tables ==> |tables[f]| == 1024)
    && (forall d, e :: 0 <= d < e < 1024 && Present(dir[d]) && Present(dir[e]) ==> FrameOf(dir[d]) != FrameOf(dir[e]))
  }

  /** The flat map: the entry of a virtual page, 0 if its table does not exist. */
  ghost function EntryIn(dir: seq<nat>, tables: Tables, vp: nat): nat
    requires TablesOk(dir, tables) && vp < PAGES
  {
    if Present(dir[vp / 1024]) then tables[FrameOf(dir[vp / 1024])][vp % 1024] else 0
  }

  /** Page tables and pages handed out are in use, and no page is both. */
  ghost predicate PagesOk(bits: seq<bool>, tables: Tables, given: set<nat>) {
    && (forall f :: f in tables ==> f < |bits| && bits[f])
    && (forall f :: f in given ==> f < |bits| && bits[f] && f !in tables)
  }

  ghost predicate SameEntries(dir: seq<nat>, tables: Tables, dir2: seq<nat>, tables2: Tables) {
    && TablesOk(dir, tables) && TablesOk(dir2, tables2)
    && forall vp :: 0 <= vp < PAGES ==> EntryIn(dir2, tables2, vp) == EntryIn(dir, tables, vp)
  }

  /** Page vp has the entry; every other page has the one it had. */
  ghost predicate OnlyEntry(dir: seq<nat>, tables: Tables, dir2: seq<nat>, tables2: Tables, vp: nat, entry: nat) {
    && TablesOk(dir, tables) && TablesOk(dir2, tables2)
    && forall w :: 0 <= w < PAGES ==> EntryIn(dir2, tables2, w) == if w == vp then entry else EntryIn(dir, tables, w)
  }

  /** A new, empty table changes no entry. */
  lemma CreateKeeps(dir: seq<nat>, tables: Tables, d: nat, page: nat)
    requires TablesOk(dir, tables) && d < 1024 && !Present(dir[d]) && page !in tables
    ensures SameEntries(dir, tables, dir[d := page * PAGE + 7], tables[page := seq(1024, i => 0)])
    ensures Present(page * PAGE + 7) && FrameOf(page * PAGE + 7) == page
  {
    EntryParts(page, 7);
    hide FrameOf, Present;
  }

  /** pt[i] = entry, for the table in page f */
  function WithEntry(tables: Tables, f: nat, i: nat, entry: nat): Tables
    requires f in tables && i < |tables[f]|
  {
    var t: seq<nat> := tables[f][i := entry];
    tables[f := t]
  }

  /** Storing an entry changes one page's translation. */
  lemma PutKeeps(dir: seq<nat>, tables: Tables, vp: nat, entry: nat)
    requires TablesOk(dir, tables) && vp < PAGES && Present(dir[vp / 1024])
    ensures var f := FrameOf(dir[vp / 1024]);
      var now := WithEntry(tables, f, vp % 1024, entry);
      && TablesOk(dir, now)
      && forall w :: 0 <= w < PAGES ==> EntryIn(dir, now, w) == if w == vp then entry else EntryIn(dir, tables, w)
  {
    hide FrameOf, Present;
    var f := FrameOf(dir[vp / 1024]);
    var now := WithEntry(tables, f, vp % 1024, entry);
    assert TablesOk(dir, now);
    forall w | 0 <= w < PAGES ensures EntryIn(dir, now, w) == if w == vp then entry else EntryIn(dir, tables, w) {
      OnePlace(w, vp);
      if Present(dir[w / 1024]) && FrameOf(dir[w / 1024]) == f { SameSlot(dir, tables, w / 1024, vp / 1024); }
    }
  }

  lemma OnePlace(w: nat, vp: nat)
    ensures w == vp <==> w / 1024 == vp / 1024 && w % 1024 == vp % 1024
  {
  }

  lemma PutAfter(wasDir: seq<nat>, wasTables: Tables, dir: seq<nat>, tables: Tables, vp: nat, entry: nat)
    requires SameEntries(wasDir, wasTables, dir, tables) && vp < PAGES && Present(dir[vp / 1024])
    ensures var now := WithEntry(tables, FrameOf(dir[vp / 1024]), vp % 1024, entry);
      TablesOk(dir, now) && OnlyEntry(wasDir, wasTables, dir, now, vp, entry) && EntryIn(dir, now, vp) == entry
  {
    hide FrameOf, Present, EntryIn, WithEntry;
    PutKeeps(dir, tables, vp, entry);
  }

  lemma SameSlot(dir: seq<nat>, tables: Tables, d: nat, e: nat)
    requires TablesOk(dir, tables) && d < 1024 && e < 1024 && Present(dir[d]) && Present(dir[e])
    requires FrameOf(dir[d]) == FrameOf(dir[e])
    ensures d == e
  {
    hide FrameOf, Present;
  }

  function IdentityTable(first: nat): (t: seq<nat>)
    ensures |t| == 1024
  {
    seq(1024, i => (first + i) * PAGE + 3)
  }

  /** The two tables of paging_init map the first eight megabytes to themselves. */
  lemma IdentityMap(dir: seq<nat>, tables: Tables, low: nat, high: nat)
    requires |dir| == 1024 && low != high && dir[0] == low * PAGE + 3 && dir[1] == high * PAGE + 3
    requires forall d :: 2 <= d < 1024 ==> dir[d] == 0
    requires tables == map[low := IdentityTable(0), high := IdentityTable(1024)]
    ensures TablesOk(dir, tables)
    ensures forall vp :: 0 <= vp < PAGES ==> EntryIn(dir, tables, vp) == if vp < 2048 then vp * PAGE + 3 else 0
  {
    EntryParts(low, 3);
    EntryParts(high, 3);
    hide FrameOf;
    forall vp | 0 <= vp < PAGES ensures EntryIn(dir, tables, vp) == if vp < 2048 then vp * PAGE + 3 else 0 {
      if vp < 1024 {
        assert IdentityTable(0)[vp % 1024] == vp * PAGE + 3;
      } else if vp < 2048 {
        assert IdentityTable(1024)[vp % 1024] == vp * PAGE + 3;
      }
    }
  }

  // ---- The page tables of the machine ----

  class AddressSpace {
    const pmm: Bitmap
    const directory: array<nat>
    var tables: Tables                 // what the pages that hold page tables contain
    ghost var given: set<nat>          // pages handed out by paging_alloc_region

    ghost predicate Valid()
      reads this, directory, pmm, pmm.bytes
    {
      && pmm.Valid() && 0 < pmm.total && pmm.Bits()[0]
      && TablesOk(directory[..], tables) && PagesOk(pmm.Bits(), tables, given)
    }

    ghost function Entry(vp: nat): nat
      reads this, directory
      requires TablesOk(directory[..], tables) && vp < PAGES
    {
      EntryIn(directory[..], tables, vp)
    }

    /** paging_init */
    constructor (pmm: Bitmap, low: nat, high: nat)
      requires pmm.Valid() && low < pmm.total && high < pmm.total && low != high && 0 < pmm.total
      requires pmm.Bits()[0] && pmm.Bits()[low] && pmm.Bits()[high]
      ensures Valid() && this.pmm == pmm && fresh(directory) && given == {}
      ensures forall vp :: 0 <= vp < PAGES ==> Entry(vp) == if vp < 2048 then vp * PAGE + 3 else 0
    {
      this.pmm := pmm;
      var slots := new nat[1024](i => 0);
      slots[0] := low * PAGE + 3;
      slots[1] := high * PAGE + 3;
      directory := slots;
      tables := map[low := IdentityTable(0), high := IdentityTable(1024)];
      given := {};
      new;
      IdentityMap(directory[..], tables, low, high);
    }

    /** get_or_create_pt */
    method GetOrCreate(d: nat) returns (fault: bool, frame: nat)
      requires Valid() && d < 1024
      modifies this`tables, directory, pmm`used, pmm.bytes
      ensures fault <==> !Present(old(directory[d])) && forall i :: 0 <= i < pmm.total ==> old(pmm.Bits())[i]
      ensures Valid() && SameEntries(old(directory[..]), old(tables), directory[..], tables)
      ensures Used(old(pmm.Bits()), pmm.Bits())
      ensures !fault ==> Present(directory[d]) && frame == FrameOf(directory[d])
      ensures NewTablesOpen(old(directory[..]), directory[..])
    {
      hide Present, FrameOf, EntryIn, NewTablesOpen, TablesOk, SameEntries;
      SameOpen(directory[..]);
      SameHere(directory[..], tables);
      if !Present(directory[d]) {
        var page := pmm.Alloc();
        if page == 0 { return true, 0; }
        CreateKeeps(directory[..], tables, d, page);
        CreateOpens(directory[..], tables, d, page);
        tables := tables[page := seq(1024, i => 0)];
        directory[d] := page * PAGE + 7;
        assert directory[..] == old(directory[..])[d := page * PAGE + 7];
      }
      return false, FrameOf(directory[d]);
    }

    /** paging_map */
    method Map(virt: nat, phys: nat, flags: nat) returns (fault: bool)
      requires Valid() && virt < WORD
      modifies this`tables, directory, pmm`used, pmm.bytes
      ensures Valid() && Used(old(pmm.Bits()), pmm.Bits())
      ensures fault <==>
        !Present(old(directory[virt / 0x40_0000])) && forall i :: 0 <= i < pmm.total ==> old(pmm.Bits())[i]
      ensures fault ==> SameEntries(old(directory[..]), old(tables), directory[..], tables)
      ensures !fault ==>
        OnlyEntry(old(directory[..]), old(tables), directory[..], tables, virt / PAGE, MakeEntry(phys, flags))
      ensures !fault ==> Grants(Entry(virt / PAGE), phys / 4096, flags)
      ensures NewTablesOpen(old(directory[..]), directory[..])
    {
      hide Present, FrameOf, EntryIn, MakeEntry, Used, SameEntries, OnlyEntry, NewTablesOpen, Grants;
      EntryGrants(phys, flags);
      var frame;
      fault, frame := GetOrCreate(virt / 0x40_0000);
      if fault { return; }
      assert virt / 0x40_0000 == virt / PAGE / 1024;
      PutAfter(old(directory[..]), old(tables), directory[..], tables, virt / PAGE, MakeEntry(phys, flags));
      tables := WithEntry(tables, frame, virt / PAGE % 1024, MakeEntry(phys, flags));
    }

    /** paging_unmap */
    method Unmap(virt: nat)
      requires Valid() && virt < WORD
      modifies this`tables
      ensures Valid() && OnlyEntry(old(directory[..]), old(tables), directory[..], tables, virt / PAGE, 0)
    {
      hide FrameOf;
      var d := virt / 0x40_0000;
      assert d == virt / PAGE / 1024;
      if !Present(directory[d]) { return; }
      PutKeeps(directory[..], tables, virt / PAGE, 0);
      var frame := FrameOf(directory[d]);
      tables := WithEntry(tables, frame, virt / PAGE % 1024, 0);
    }

    /** paging_get_physaddr; 0 stands for not mapped, and so also for a page mapped to address 0 */
    method PhysAddr(virt: nat) returns (phys: nat)
      requires Valid() && virt < WORD
      ensures phys == if Present(Entry(virt / PAGE)) then FrameOf(Entry(virt / PAGE)) * PAGE + virt % PAGE else 0
    {
      var d := virt / 0x40_0000;
      assert d == virt / PAGE / 1024;
      if !Present(directory[d]) { return 0; }
      var entry := tables[FrameOf(directory[d])][virt / PAGE % 1024];
      assert entry == Entry(virt / PAGE);
      if !Present(entry) { return 0; }
      phys := FrameOf(entry) * PAGE + virt % PAGE;
    }

    /** paging_map_region */
    method MapRegion(virt: nat, phys: nat, size: nat, flags: nat) returns (fault: bool, ghost n: nat)
      requires Valid() && virt < WORD && phys < WORD && size < WORD
      modifies this`tables, directory, pmm`used, pmm.bytes
      ensures Valid() && Used(old(pmm.Bits()), pmm.Bits())
      ensures n <= PageCount(size) && (fault <==> n < PageCount(size))
      ensures RegionMapped(old(directory[..]), old(tables), directory[..], tables, virt, RunEntries(phys, flags, n))
      ensures fault ==> forall i :: 0 <= i < pmm.total ==> pmm.Bits()[i]
      ensures RunGranted(directory[..], tables, virt, phys, flags, n)
      ensures NewTablesOpen(old(directory[..]), directory[..])
    {
      hide Present, FrameOf, EntryIn, MakeEntry, PageAt, TablesOk, RegionMapped, OnlyEntry, NewTablesOpen, Grants,
        RunGranted;
      SameOpen(directory[..]);
      var pages := (size + 4095) % WORD / PAGE;
      fault := false;
      NothingYet(directory[..], tables, virt, pmm.Bits());
      var i := 0;
      n := 0;
      while i < pages
        invariant 0 <= i == n <= pages && Valid() && Used(old(pmm.Bits()), pmm.Bits())
        invariant RegionMapped(old(directory[..]), old(tables), directory[..], tables, virt, RunEntries(phys, flags, i))
        invariant NewTablesOpen(old(directory[..]), directory[..])
      {
        PageOfSum(virt, i);
        ghost var dir, tabs := directory[..], tables;
        fault := Map((virt + i * PAGE) % WORD, (phys + i * PAGE) % WORD, flags);
        OpenOn(old(directory[..]), dir, directory[..]);
        ghost var entries := RunEntries(phys, flags, i);
        if fault {
          StillMapped(old(directory[..]), old(tables), dir, tabs, directory[..], tables, virt, entries);
          RunGrants(old(directory[..]), old(tables), directory[..], tables, virt, phys, flags, i);
          return;
        }
        ghost var entry := MakeEntry((phys + i * PAGE) % WORD, flags);
        OneMoreMapped(old(directory[..]), old(tables), dir, tabs, directory[..], tables, virt, entries, entry);
        assert RunEntries(phys, flags, i + 1) == entries + [entry];
        i := i + 1;
        n := n + 1;
      }
      RunGrants(old(directory[..]), old(tables), directory[..], tables, virt, phys, flags, i);
    }

    /** One round of paging_alloc_region: a page, and its mapping. */
    method AllocOne(virt: nat, flags: nat) returns (fault: bool, page: nat)
      requires Valid() && virt < WORD
      modifies this`tables, this`given, directory, pmm`used, pmm.bytes
      ensures Valid() && Used(old(pmm.Bits()), pmm.Bits())
      ensures page == 0 <==> forall i :: 0 <= i < pmm.total ==> old(pmm.Bits())[i]
      ensures page == 0 ==> !fault && given == old(given) && pmm.Bits() == old(pmm.Bits())
      ensures page == 0 ==> SameEntries(old(directory[..]), old(tables), directory[..], tables)
      ensures page != 0 ==> page < pmm.total && !old(pmm.Bits())[page] && given == old(given) + {page}
      ensures page != 0 ==> Used(old(pmm.Bits())[page := true], pmm.Bits())
      ensures page != 0 && fault ==> SameEntries(old(directory[..]), old(tables), directory[..], tables)
      ensures fault ==> forall i :: 0 <= i < pmm.total ==> pmm.Bits()[i]
      ensures page != 0 && !fault ==>
        OnlyEntry(old(directory[..]), old(tables), directory[..], tables, virt / PAGE, MakeEntry(page * PAGE, flags))
      ensures NewTablesOpen(old(directory[..]), directory[..])
    {
      hide Present, FrameOf, EntryIn, MakeEntry, NewTablesOpen, Grants, TablesOk, SameEntries, OnlyEntry;
      SameOpen(directory[..]);
      SameHere(directory[..], tables);
      fault := false;
      page := pmm.Alloc();
      if page == 0 { return; }
      given := given + {page};
      fault := Map(virt, page * PAGE, flags);
    }

    /**
     paging_alloc_region: its pages are mapped to pairwise different pages that were free. When it
     gives up, no page is free any more, and the first part of the region is mapped; when a page table
     cannot be had, the last page taken is mapped nowhere.
     */
    method AllocRegion(virt: nat, size: nat, flags: nat) returns (fault: bool, ok: bool, ghost frames: seq<nat>)
      requires Valid() && virt < WORD && size < WORD
      modifies this`tables, this`given, directory, pmm`used, pmm.bytes
      ensures Valid() && FreshPages(frames, old(pmm.Bits()), pmm.Bits()) && Used(old(pmm.Bits()), pmm.Bits())
      ensures given == old(given) + set f | f in frames
      ensures !fault ==> |frames| <= PageCount(size) && (ok <==> |frames| == PageCount(size))
      ensures !fault && !ok ==> forall i :: 0 <= i < pmm.total ==> pmm.Bits()[i]
      ensures fault ==> 0 < |frames| <= PageCount(size) && forall i :: 0 <= i < pmm.total ==> pmm.Bits()[i]
      ensures RegionMapped(old(directory[..]), old(tables), directory[..], tables, virt,
                           PageEntries(if fault then frames[..|frames| - 1] else frames, flags))
      ensures PagesGranted(directory[..], tables, virt, if fault then frames[..|frames| - 1] else frames, flags)
      ensures NewTablesOpen(old(directory[..]), directory[..])
    {
      hide Present, FrameOf, EntryIn, MakeEntry, PageAt, TablesOk, PagesOk, FreshPages, Used, RegionMapped, OnlyEntry,
        NewTablesOpen, Grants, PagesGranted;
      SameOpen(directory[..]);
      var pages := (size + 4095) % WORD / PAGE;
      fault, ok, frames := false, false, [];
      NothingYet(directory[..], tables, virt, pmm.Bits());
      assert PageEntries([], flags) == [];
      var i := 0;
      while i < pages
        invariant 0 <= i <= pages && Valid() && |frames| == i
        invariant FreshPages(frames, old(pmm.Bits()), pmm.Bits()) && Used(old(pmm.Bits()), pmm.Bits())
        invariant given == old(given) + set f | f in frames
        invariant RegionMapped(old(directory[..]), old(tables), directory[..], tables, virt, PageEntries(frames, flags))
        invariant NewTablesOpen(old(directory[..]), directory[..])
      {
        PageOfSum(virt, i);
        ghost var bits, dir, tabs, entries := pmm.Bits(), directory[..], tables, PageEntries(frames, flags);
        var page;
        fault, page := AllocOne((virt + i * PAGE) % WORD, flags);
        OpenOn(old(directory[..]), dir, directory[..]);
        if page == 0 {
          StillMapped(old(directory[..]), old(tables), dir, tabs, directory[..], tables, virt, entries);
          PagesGrant(old(directory[..]), old(tables), directory[..], tables, virt, frames, flags);
          return;
        }
        OneMorePage(frames, old(pmm.Bits()), bits, page, pmm.Bits());
        frames := frames + [page];
        if fault {
          assert frames[..i] + [page] == frames;
          StillMapped(old(directory[..]), old(tables), dir, tabs, directory[..], tables, virt, entries);
          PagesGrant(old(directory[..]), old(tables), directory[..], tables, virt, frames[..i], flags);
          return;
        }
        OneMoreMapped(old(directory[..]), old(tables), dir, tabs, directory[..], tables, virt, entries,
                      MakeEntry(page * PAGE, flags));
        assert PageEntries(frames, flags) == entries + [MakeEntry(page * PAGE, flags)];
        i := i + 1;
      }
      PagesGrant(old(directory[..]), old(tables), directory[..], tables, virt, frames, flags);
      ok := true;
    }
  }

  /** Entries for pages that follow each other in memory, addresses wrapping around. */
  ghost function RunEntries(phys: nat, flags: nat, n: nat): (r: seq<nat>)
    ensures |r| == n
  {
    seq(n, i requires 0 <= i < n => MakeEntry((phys + i * PAGE) % WORD, flags))
  }

  /** Entries for the given pages. */
  ghost function PageEntries(frames: seq<nat>, flags: nat): (r: seq<nat>)
    ensures |r| == |frames|
  {
    seq(|frames|, i requires 0 <= i < |frames| => MakeEntry(frames[i] * PAGE, flags))
  }

  /** The region's first pages have the given entries, and no other page's entry changed. */
  ghost predicate RegionMapped(wasDir: seq<nat>, wasTables: Tables, dir: seq<nat>, tables: Tables,
                               virt: nat, entries: seq<nat>)
  {
    && TablesOk(wasDir, wasTables) && TablesOk(dir, tables)
    && (forall i :: 0 <= i < |entries| ==> EntryIn(dir, tables, PageAt(virt, i)) == entries[i])
    && (forall vp :: 0 <= vp < PAGES && Outside(virt, |entries|, vp) ==>
          EntryIn(dir, tables, vp) == EntryIn(wasDir, wasTables, vp))
  }

  /** Directory entries are kept, but for new tables, which are open to writing and to user mode. */
  ghost predicate NewTablesOpen(was: seq<nat>, now: seq<nat>) {
    |now| == |was| && forall d :: 0 <= d < |was| ==> now[d] == was[d] || (was[d] % 2 == 0 && now[d] % 4096 == 7)
  }

  lemma SameOpen(dir: seq<nat>)
    ensures NewTablesOpen(dir, dir)
  {
  }

  lemma OpenOn(was: seq<nat>, dir: seq<nat>, now: seq<nat>)
    requires NewTablesOpen(was, dir) && NewTablesOpen(dir, now)
    ensures NewTablesOpen(was, now)
  {
  }

  lemma CreateOpens(dir: seq<nat>, tables: Tables, d: nat, page: nat)
    requires d < |dir| && !Present(dir[d])
    requires SameEntries(dir, tables, dir[d := page * PAGE + 7], tables[page := seq(1024, i => 0)])
    ensures NewTablesOpen(dir, dir[d := page * PAGE + 7])
    ensures TablesOk(dir[d := page * PAGE + 7], tables[page := seq(1024, i => 0)])
  {
    assert (page * PAGE + 7) % 4096 == 7;
  }

  lemma SameHere(dir: seq<nat>, tables: Tables)
    requires TablesOk(dir, tables)
    ensures SameEntries(dir, tables, dir, tables) && |dir| == 1024
  {
  }

  /** The pages that follow each other from virt on lead to the frames that follow each other from phys on. */
  ghost predicate RunGranted(dir: seq<nat>, tables: Tables, virt: nat, phys: nat, flags: nat, n: nat) {
    && TablesOk(dir, tables)
    && forall i :: 0 <= i < n ==>
         Grants(EntryIn(dir, tables, (virt / 4096 + i) % 0x10_0000), (phys + i * 4096) % 0x1_0000_0000 / 4096, flags)
  }

  ghost predicate PagesGranted(dir: seq<nat>, tables: Tables, virt: nat, frames: seq<nat>, flags: nat) {
    && TablesOk(dir, tables)
    && forall i :: 0 <= i < |frames| ==>
         Grants(EntryIn(dir, tables, (virt / 4096 + i) % 0x10_0000), frames[i], flags)
  }

  lemma RunGrants(wasDir: seq<nat>, wasTables: Tables, dir: seq<nat>, tables: Tables, virt: nat, phys: nat,
                  flags: nat, n: nat)
    requires RegionMapped(wasDir, wasTables, dir, tables, virt, RunEntries(phys, flags, n))
    ensures RunGranted(dir, tables, virt, phys, flags, n)
  {
    hide EntryIn, Grants, MakeEntry;
    forall i | 0 <= i < n
      ensures Grants(EntryIn(dir, tables, (virt / 4096 + i) % 0x10_0000), (phys + i * 4096) % 0x1_0000_0000 / 4096,
                     flags)
    {
      EntryGrants((phys + i * PAGE) % WORD, flags);
      assert EntryIn(dir, tables, PageAt(virt, i)) == RunEntries(phys, flags, n)[i];
    }
  }

  lemma PagesGrant(wasDir: seq<nat>, wasTables: Tables, dir: seq<nat>, tables: Tables, virt: nat, frames: seq<nat>,
                   flags: nat)
    requires RegionMapped(wasDir, wasTables, dir, tables, virt, PageEntries(frames, flags))
    ensures PagesGranted(dir, tables, virt, frames, flags)
  {
    hide EntryIn, Grants, MakeEntry;
    forall i | 0 <= i < |frames|
      ensures Grants(EntryIn(dir, tables, (virt / 4096 + i) % 0x10_0000), frames[i], flags)
    {
      EntryGrants(frames[i] * PAGE, flags);
      assert EntryIn(dir, tables, PageAt(virt, i)) == PageEntries(frames, flags)[i];
    }
  }

  lemma NothingYet(dir: seq<nat>, tables: Tables, virt: nat, bits: seq<bool>)
    requires TablesOk(dir, tables)
    ensures RegionMapped(dir, tables, dir, tables, virt, []) && FreshPages([], bits, bits) && Used(bits, bits)
    ensures forall phys, flags :: RunEntries(phys, flags, 0) == []
  {
  }

  lemma StillMapped(wasDir: seq<nat>, wasTables: Tables, dir: seq<nat>, tables: Tables, dir2: seq<nat>, tables2: Tables,
                    virt: nat, entries: seq<nat>)
    requires RegionMapped(wasDir, wasTables, dir, tables, virt, entries) && SameEntries(dir, tables, dir2, tables2)
    ensures RegionMapped(wasDir, wasTables, dir2, tables2, virt, entries)
  {
    hide TablesOk, EntryIn, PageAt;
  }

  lemma OneMoreMapped(wasDir: seq<nat>, wasTables: Tables, dir: seq<nat>, tables: Tables, dir2: seq<nat>,
                      tables2: Tables,
                      virt: nat, entries: seq<nat>, entry: nat)
    requires RegionMapped(wasDir, wasTables, dir, tables, virt, entries) && |entries| < PAGES
    requires OnlyEntry(dir, tables, dir2, tables2, PageAt(virt, |entries|), entry)
    ensures RegionMapped(wasDir, wasTables, dir2, tables2, virt, entries + [entry])
  {
    hide TablesOk, EntryIn, PageAt;
    EarlierPages(virt, |entries|);
    forall vp | 0 <= vp < PAGES && Outside(virt, |entries| + 1, vp)
      ensures EntryIn(dir2, tables2, vp) == EntryIn(wasDir, wasTables, vp)
    {
      assert Outside(virt, |entries|, vp);
    }
  }

  /** Pages that were free before, no two the same, and in use now. */
  ghost predicate FreshPages(frames: seq<nat>, was: seq<bool>, now: seq<bool>) {
    && |now| == |was|
    && (forall i :: 0 <= i < |frames| ==> frames[i] < |was| && !was[frames[i]] && now[frames[i]])
    && (forall i, j :: 0 <= i < j < |frames| ==> frames[i] != frames[j])
  }

  /** One more page from pmm_alloc, and perhaps another one for a table. */
  lemma OneMorePage(frames: seq<nat>, was: seq<bool>, now: seq<bool>, page: nat, later: seq<bool>)
    requires FreshPages(frames, was, now) && Used(was, now) && page < |now| && !now[page]
    requires Used(now[page := true], later)
    ensures FreshPages(frames + [page], was, later) && Used(was, later)
  {
  }

  /** Pages in use stay in use. */
  ghost predicate Used(was: seq<bool>, now: seq<bool>) {
    |now| == |was| && forall i :: 0 <= i < |was| && was[i] ==> now[i]
  }

  ghost predicate Outside(virt: nat, pages: nat, vp: nat) {
    forall i :: 0 <= i < pages ==> vp != PageAt(virt, i)
  }

  lemma EarlierPages(virt: nat, i: nat)
    requires i < PAGES
    ensures forall k :: 0 <= k < i ==> PageAt(virt, k) != PageAt(virt, i)
  {
    forall k | 0 <= k < i ensures PageAt(virt, k) != PageAt(virt, i) {
      PagesDiffer(virt, k, i);
    }
  }
}
