/**
  The firmware's page-table builder, against a walk of the tables by the rules of
  4-level paging (Intel SDM volume 3A, section 4.5).

  Memory is the pages from `BASE` on, each a row of 512 64-bit words.
 */
module Paging {
  import opened Bytes
  import opened Arith

  const BASE := 0x60000
  const PAGES := 13

  const PML4 := 0x60000
  const PDPT := 0x61000
  const PDPT2 := 0x65000
  const PD9 := 0x66000

  const GB := 0x4000_0000
  const HUGE := 0x20_0000
  const MAX_RAM_GB := 8
  const MMIO := 0x4_0000_0000
  const M64 := 0x1_0000_0000_0000_0000
  const VA_TOP := 0x1_0000_0000_0000

  /** Present and writable. */
  const TABLE := 3
  /** Present, writable, user, page size. */
  const PAGE := 0x87

  /** The page directory of the g-th GiB. */
  function PdAddr(g: nat): (a: nat)
    requires g < MAX_RAM_GB
    ensures BASE <= a < BASE + PAGES * 0x1000 && a % 0x1000 == 0
  {
    if g == 0 then 0x62000 else if g == 1 then 0x64000 else 0x65000 + g * 0x1000
  }

  /** The row of memory a table occupies. */
  function Row(table: nat): nat
    requires table >= BASE
  {
    (table - BASE) / 0x1000
  }

  // ---- walking ----

  /** A word of memory; outside the modelled tables nothing is present. */
  function Word(mem: array2<U64>, table: nat, i: nat): U64
    requires i < 512 && mem.Length1 == 512
    reads mem
  {
    if BASE <= table && table % 0x1000 == 0 && Row(table) < mem.Length0 then mem[Row(table), i] else 0
  }

  predicate Present(e: U64) { e % 2 == 1 }

  predicate Large(e: U64) { e / 0x80 % 2 == 1 }

  /** Bits 51..12 of an entry. */
  function Frame(e: U64): nat { e / 0x1000 % 0x100_0000_0000 * 0x1000 }

  datatype Translation = Fault | To(phys: nat)

  /** The translation of a 48-bit linear address, with 1 GiB and 2 MiB pages. */
  function Walk(mem: array2<U64>, va: nat): Translation
    requires va < VA_TOP && mem.Length1 == 512
    reads mem
  {
    var e4 := Word(mem, PML4, va / 0x80_0000_0000);
    if !Present(e4) then Fault else
    var e3 := Word(mem, Frame(e4), va / GB % 512);
    if !Present(e3) then Fault
    else if Large(e3) then To(Frame(e3) / GB * GB + va % GB)
    else
      var e2 := Word(mem, Frame(e3), va / HUGE % 512);
      if !Present(e2) then Fault
      else if Large(e2) then To(Frame(e2) / HUGE * HUGE + va % HUGE)
      else
        var e1 := Word(mem, Frame(e2), va / 0x1000 % 512);
        if Present(e1) then To(Frame(e1) + va % 0x1000) else Fault
  }

  // ---- what the builder leaves ----

  /** The GiB count as computed: the sum wraps at 2^64 and the quotient is cut to 32 bits. */
  function MappedGb(ramBytes: U64): (g: nat)
    ensures 1 <= g <= MAX_RAM_GB
  {
    var g := (ramBytes + GB - 1) % M64 / GB % 0x1_0000_0000;
    if g == 0 then 1 else if g > MAX_RAM_GB then MAX_RAM_GB else g
  }

  /** RAM rounded up to whole GiB, at least one and at most eight. */
  function RamGb(ramBytes: nat): nat {
    var g := (ramBytes + 0x3FFF_FFFF) / 0x4000_0000;
    if g == 0 then 1 else if g > 8 then 8 else g
  }

  predicate Built(mem: array2<U64>, gb: nat)
    requires mem.Length0 == PAGES && mem.Length1 == 512 && gb <= MAX_RAM_GB
    reads mem
  {
    && (forall i :: 0 <= i < 512 ==>
          mem[Row(PML4), i] == if i == 0 then PDPT + TABLE else if i == 511 then PDPT2 + TABLE else 0)
    && (forall i :: 0 <= i < 512 ==> mem[Row(PDPT), i] == if i < gb then PdAddr(i) + TABLE else 0)
    && (forall g, i :: 0 <= g < gb && 0 <= i < 512 ==> mem[Row(PdAddr(g)), i] == g * GB + i * HUGE + PAGE)
    && (forall i :: 0 <= i < 512 ==> mem[Row(PDPT2), i] == if i == 511 then PD9 + TABLE else 0)
    && (forall i :: 0 <= i < 512 ==> mem[Row(PD9), i] == if i == 511 then MMIO + PAGE else 0)
  }

  lemma TableEntry(table: nat)
    requires table % 0x1000 == 0 && table < 0x10_0000
    ensures Present(table + TABLE) && !Large(table + TABLE) && Frame(table + TABLE) == table
  {
  }

  /** An entry for the k-th 2 MiB page. */
  lemma PageEntry(k: nat)
    requires k < 0x10_0000
    ensures Present(k * HUGE + PAGE) && Large(k * HUGE + PAGE) && Frame(k * HUGE + PAGE) / HUGE * HUGE == k * HUGE
  {
    var e := k * HUGE + PAGE;
    DivUnique(e, 2, k * 0x10_0000 + 0x43, 1);
    DivUnique(e, 0x80, k * 0x4000 + 1, 7);
    DivUnique(k * 0x4000 + 1, 2, k * 0x2000, 1);
    DivUnique(e, 0x1000, k * 512, PAGE);
    DivUnique(k * HUGE, HUGE, k, 0);
  }

  lemma NotPresentZero()
    ensures !Present(0)
  {
  }

  lemma Decompose(va: nat)
    ensures va / HUGE == va / GB * 512 + va / HUGE % 512
    ensures va / HUGE * HUGE + va % HUGE == va
  {
  }

  /**
    Every 48-bit address: below the mapped GiB the walk is the identity, the top 2 MiB
    go to the MMIO window, and everything else faults.
   */
  lemma WalkBuilt(mem: array2<U64>, gb: nat, va: nat)
    requires mem.Length0 == PAGES && mem.Length1 == 512 && 1 <= gb <= MAX_RAM_GB && Built(mem, gb) && va < VA_TOP
    ensures Walk(mem, va) ==
              if va < gb * 0x4000_0000 then To(va)
              else if va >= 0xFFFF_FFE0_0000 then To(0x4_0000_0000 + (va - 0xFFFF_FFE0_0000))
              else Fault
  {
    hide Frame, Present, Large, Built, Walk;
    if va / 0x80_0000_0000 == 0 {
      WalkLow(mem, gb, va);
    } else if va / 0x80_0000_0000 == 511 {
      WalkHigh(mem, gb, va);
    } else {
      WalkMiddle(mem, gb, va);
    }
  }

  lemma WalkMiddle(mem: array2<U64>, gb: nat, va: nat)
    requires mem.Length0 == PAGES && mem.Length1 == 512 && gb <= MAX_RAM_GB && Built(mem, gb) && va < VA_TOP
    requires 0 < va / 0x80_0000_0000 < 511
    ensures Walk(mem, va) == Fault
  {
    hide Frame, Large;
  }

  lemma WalkLow(mem: array2<U64>, gb: nat, va: nat)
    requires mem.Length0 == PAGES && mem.Length1 == 512 && 1 <= gb <= MAX_RAM_GB && Built(mem, gb)
    requires va < 0x80_0000_0000
    ensures Walk(mem, va) == if va < gb * GB then To(va) else Fault
  {
    hide Frame, Present, Large;
    TableEntry(PDPT);
    NotPresentZero();
    var g, i := va / GB, va / HUGE % 512;
    if g < gb {
      TableEntry(PdAddr(g));
      Decompose(va);
      PageEntry(va / HUGE);
      assert mem[Row(PdAddr(g)), i] == va / HUGE * HUGE + PAGE;
    }
  }

  lemma WalkHigh(mem: array2<U64>, gb: nat, va: nat)
    requires mem.Length0 == PAGES && mem.Length1 == 512 && 1 <= gb <= MAX_RAM_GB && Built(mem, gb) && va < VA_TOP
    requires va / 0x80_0000_0000 == 511
    ensures Walk(mem, va) == if va >= VA_TOP - HUGE then To(MMIO + (va - (VA_TOP - HUGE))) else Fault
  {
    hide Frame, Present, Large;
    NotPresentZero();
    TableEntry(PDPT2);
    TableEntry(PD9);
    PageEntry(MMIO / HUGE);
    TopPage(va);
  }

  /** The three table indices and the offset of an address. */
  lemma Indices(va: nat)
    ensures var a, b, c, d := va / 0x80_0000_0000, va / GB % 512, va / HUGE % 512, va % HUGE;
            va == a * 0x80_0000_0000 + b * GB + c * HUGE + d && 0 <= b < 512 && 0 <= c < 512 && 0 <= d < HUGE
  {
    Decompose(va);
    var g := va / GB;
    assert g / 512 == va / 0x80_0000_0000;
    assert g == g / 512 * 512 + g % 512;
  }

  lemma TopIndices(va: nat, b: nat, c: nat, d: nat)
    requires va == 511 * 0x80_0000_0000 + b * GB + c * HUGE + d && b < 512 && c < 512 && d < HUGE
    ensures va >= VA_TOP - HUGE <==> b == 511 && c == 511
    ensures va >= VA_TOP - HUGE ==> d == va - (VA_TOP - HUGE)
  {
  }

  lemma TopPage(va: nat)
    requires va < VA_TOP && va / 0x80_0000_0000 == 511
    ensures va >= VA_TOP - HUGE <==> va / GB % 512 == 511 && va / HUGE % 512 == 511
    ensures va >= VA_TOP - HUGE ==> va % HUGE == va - (VA_TOP - HUGE)
  {
    Indices(va);
    TopIndices(va, va / GB % 512, va / HUGE % 512, va % HUGE);
  }

  // ---- the builder ----

  /** A table entry pointing at `addr`, with the given flags. */
  function Entry(addr: U64, flags: nat): (e: U64)
    requires addr % 0x1000 == 0 && addr < 0x10_0000_0000_0000 && flags < 0x1000
    ensures e == addr + flags
  {
    addr / 0x1000 % 0x100_0000_0000 * 0x1000 + flags
  }

  /** Zeroes all twelve tables; the page between the second and third is not one of them. */
  method ClearTables(mem: array2<U64>)
    requires mem.Length0 == PAGES && mem.Length1 == 512
    modifies mem
    ensures forall t, i :: 0 <= t < PAGES && t != 3 && 0 <= i < 512 ==> mem[t, i] == 0
  {
    for i := 0 to 512
      invariant forall t, k :: 0 <= t < PAGES && t != 3 && 0 <= k < i ==> mem[t, k] == 0
    {
      mem[Row(PML4), i] := 0;
      mem[Row(PDPT), i] := 0;
      mem[Row(PdAddr(0)), i] := 0;
      mem[Row(PdAddr(1)), i] := 0;
      mem[Row(PdAddr(2)), i] := 0;
      mem[Row(PdAddr(3)), i] := 0;
      mem[Row(PdAddr(4)), i] := 0;
      mem[Row(PdAddr(5)), i] := 0;
      mem[Row(PdAddr(6)), i] := 0;
      mem[Row(PdAddr(7)), i] := 0;
      mem[Row(PDPT2), i] := 0;
      mem[Row(PD9), i] := 0;
    }
  }

  /** Identity-maps one GiB with 512 large pages. */
  method FillDirectory(mem: array2<U64>, g: nat)
    requires mem.Length0 == PAGES && mem.Length1 == 512 && g < MAX_RAM_GB
    modifies mem
    ensures forall i :: 0 <= i < 512 ==> mem[Row(PdAddr(g)), i] == g * GB + i * HUGE + PAGE
    ensures forall t, i :: 0 <= t < PAGES && t != Row(PdAddr(g)) && 0 <= i < 512 ==> mem[t, i] == old(mem[t, i])
  {
    var row := Row(PdAddr(g));
    for i := 0 to 512
      invariant forall k :: 0 <= k < i ==> mem[row, k] == g * GB + k * HUGE + PAGE
      invariant forall t, k :: 0 <= t < PAGES && t != row && 0 <= k < 512 ==> mem[t, k] == old(mem[t, k])
    {
      var addr := g * GB + i * HUGE;
      assert addr == (g * 0x4_0000 + i * 512) * 0x1000;
      mem[row, i] := Entry(addr, PAGE);
    }
  }

  /** Hangs the first `ramGb` page directories under the low page-directory-pointer table. */
  method MapRam(mem: array2<U64>, ramGb: nat)
    requires mem.Length0 == PAGES && mem.Length1 == 512 && ramGb <= MAX_RAM_GB
    requires forall i :: 0 <= i < 512 ==> mem[Row(PDPT), i] == 0
    modifies mem
    ensures forall i :: 0 <= i < 512 ==> mem[Row(PDPT), i] == if i < ramGb then PdAddr(i) + TABLE else 0
    ensures forall g, i :: 0 <= g < ramGb && 0 <= i < 512 ==> mem[Row(PdAddr(g)), i] == g * GB + i * HUGE + PAGE
    ensures forall t, i :: t in {Row(PML4), Row(PDPT2), Row(PD9)} && 0 <= i < 512 ==> mem[t, i] == old(mem[t, i])
  {
    for gb := 0 to ramGb
      invariant forall i :: 0 <= i < 512 ==> mem[Row(PDPT), i] == if i < gb then PdAddr(i) + TABLE else 0
      invariant forall g, i :: 0 <= g < gb && 0 <= i < 512 ==> mem[Row(PdAddr(g)), i] == g * GB + i * HUGE + PAGE
      invariant forall t, i :: t in {Row(PML4), Row(PDPT2), Row(PD9)} && 0 <= i < 512 ==> mem[t, i] == old(mem[t, i])
    {
      mem[Row(PDPT), gb] := Entry(PdAddr(gb), TABLE);
      FillDirectory(mem, gb);
    }
  }

  method PagingInit(mem: array2<U64>, ramBytes: U64)
    requires mem.Length0 == PAGES && mem.Length1 == 512
    modifies mem
    ensures Built(mem, MappedGb(ramBytes))
  {
    ClearTables(mem);
    mem[Row(PML4), 0] := Entry(PDPT, TABLE);
    var ramGb := (ramBytes + GB - 1) % M64 / GB % 0x1_0000_0000;
    if ramGb == 0 {
      ramGb := 1;
    }
    if ramGb > MAX_RAM_GB {
      ramGb := MAX_RAM_GB;
    }
    MapRam(mem, ramGb);
    mem[Row(PML4), 511] := Entry(PDPT2, TABLE);
    mem[Row(PDPT2), 511] := Entry(PD9, TABLE);
    mem[Row(PD9), 511] := Entry(MMIO, PAGE);
  }

  // ---- the GiB count ----

  /** The 64-bit sum and the cut to 32 bits are harmless exactly under these two conditions. */
  lemma MappedGbExact(ramBytes: U64)
    ensures MappedGb(ramBytes) == RamGb(ramBytes)
       <==> ramBytes + 0x3FFF_FFFF < 0x1_0000_0000_0000_0000
            && var g := (ramBytes + 0x3FFF_FFFF) / 0x4000_0000; g < 0x1_0000_0000 || g % 0x1_0000_0000 >= 8
  {
  }

  /** The smallest RAM size for which the count is wrong, 2^62 - 2^30 + 1 bytes, maps one GiB instead of eight. */
  lemma HugeRamMapsOneGb()
    ensures MappedGb(0x3FFF_FFFF_C000_0001) == 1 && RamGb(0x3FFF_FFFF_C000_0001) == 8
    ensures forall ramBytes: U64 :: ramBytes < 0x3FFF_FFFF_C000_0001 ==> MappedGb(ramBytes) == RamGb(ramBytes)
  {
    forall ramBytes: U64 | ramBytes < 0x3FFF_FFFF_C000_0001 ensures MappedGb(ramBytes) == RamGb(ramBytes) {
      MappedGbExact(ramBytes);
    }
  }
}
