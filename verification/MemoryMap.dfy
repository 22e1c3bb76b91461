/**
  The memory map the host injects into guest memory, the firmware's reading of it, and
  the UEFI descriptors made from it.
 */
module MemoryMap {
  import opened Bytes

  const MAGIC: U32 := 0xFE02_FE02
  const MAX_ENTRIES := 32
  const ENTRY_SIZE := 20
  const CONVENTIONAL := 7
  const PAGE := 0x1000
  const M64 := 0x1_0000_0000_0000_0000
  const DESCRIPTOR_SIZE := 40

  const WRITE_BACK: U64 := 0x8
  const RUNTIME: U64 := 0x8000_0000_0000_0000

  datatype Entry = Entry(start: U64, end: U64, kind: U32)

  // ---- the host's encoding ----

  function EntryBytes(e: Entry): (b: seq<Byte>)
    ensures |b| == ENTRY_SIZE
  {
    ToLe(e.start, 8) + ToLe(e.end, 8) + ToLe(e.kind, 4)
  }

  function EntriesBytes(es: seq<Entry>): (b: seq<Byte>)
    ensures |b| == ENTRY_SIZE * |es|
  {
    if es == [] then [] else EntriesBytes(es[..|es| - 1]) + EntryBytes(es[|es| - 1])
  }

  function HostBytes(es: seq<Entry>): (b: seq<Byte>)
    ensures |b| == 8 + ENTRY_SIZE * |es|
  {
    ToLe(0xFE02_FE02, 4) + ToLe(|es|, 4) + EntriesBytes(es)
  }

  // ---- the guest's decoding ----

  /** The header and every entry it announces, as far as the firmware looks, lie in memory. */
  predicate MapPresent(b: seq<Byte>) {
    8 <= |b| && 8 + ENTRY_SIZE * Announced(b) <= |b|
  }

  function Announced(b: seq<Byte>): nat
    requires 8 <= |b|
  {
    if U32At(b, 0) != MAGIC then 0
    else if U32At(b, 4) < MAX_ENTRIES then U32At(b, 4) else MAX_ENTRIES
  }

  function EntryAt(b: seq<Byte>, i: nat): Entry
    requires 8 + ENTRY_SIZE * (i + 1) <= |b|
  {
    WidthBounds();
    var at := 8 + ENTRY_SIZE * i;
    Entry(U64At(b, at), U64At(b, at + 8), U32At(b, at + 16))
  }

  /** Copies the announced entries, at most 32 of them, into the firmware's table. */
  method InitMemmap(b: seq<Byte>, table: array<Entry>) returns (length: nat)
    requires MapPresent(b) && table.Length == MAX_ENTRIES
    modifies table
    ensures length == if U32At(b, 0) == MAGIC then U32At(b, 4) else 0
    ensures forall i :: 0 <= i < Announced(b) ==> table[i] == EntryAt(b, i)
    ensures forall i :: Announced(b) <= i < MAX_ENTRIES ==> table[i] == old(table[i])
  {
    hide EntryAt;
    length := 0;
    if U32At(b, 0) == MAGIC {
      length := U32At(b, 4);
      var i := 0;
      while i < length && i < MAX_ENTRIES
        invariant 0 <= i <= Announced(b)
        invariant forall k :: 0 <= k < i ==> table[k] == EntryAt(b, k)
        invariant forall k :: i <= k < MAX_ENTRIES ==> table[k] == old(table[k])
      {
        table[i] := EntryAt(b, i);
        i := i + 1;
      }
    }
  }

  /** The highest end of conventional memory; 0 without a map. */
  method RamTop(b: seq<Byte>) returns (top: nat)
    requires MapPresent(b)
    ensures forall i :: 0 <= i < Announced(b) && EntryAt(b, i).kind == CONVENTIONAL ==> EntryAt(b, i).end <= top
    ensures top == 0
         || exists i :: 0 <= i < Announced(b) && EntryAt(b, i).kind == CONVENTIONAL && EntryAt(b, i).end == top
  {
    hide EntryAt;
    if U32At(b, 0) != MAGIC || U32At(b, 4) == 0 {
      return 0;
    }
    var n := if U32At(b, 4) > MAX_ENTRIES then MAX_ENTRIES else U32At(b, 4);
    top := 0;
    for i := 0 to n
      invariant n == Announced(b)
      invariant forall k :: 0 <= k < i && EntryAt(b, k).kind == CONVENTIONAL ==> EntryAt(b, k).end <= top
      invariant top == 0 || exists k :: 0 <= k < i && EntryAt(b, k).kind == CONVENTIONAL && EntryAt(b, k).end == top
    {
      var e := EntryAt(b, i);
      if e.kind == CONVENTIONAL && e.end > top {
        top := e.end;
      }
    }
  }

  // ---- the round trip ----

  lemma {:induction false} EntriesSlice(es: seq<Entry>, i: nat)
    requires i < |es|
    ensures EntriesBytes(es)[ENTRY_SIZE * i..ENTRY_SIZE * (i + 1)] == EntryBytes(es[i])
  {
    hide EntryBytes;
    var n := |es| - 1;
    if i < n {
      EntriesSlice(es[..n], i);
      assert EntriesBytes(es)[ENTRY_SIZE * i..ENTRY_SIZE * (i + 1)]
          == EntriesBytes(es[..n])[ENTRY_SIZE * i..ENTRY_SIZE * (i + 1)];
    }
  }

  lemma DecodeEntry(b: seq<Byte>, i: nat, e: Entry)
    requires 8 + ENTRY_SIZE * (i + 1) <= |b|
    requires b[8 + ENTRY_SIZE * i..8 + ENTRY_SIZE * (i + 1)] == EntryBytes(e)
    ensures EntryAt(b, i) == e
  {
    hide ToLe, FromLe, Pow256;
    var at := 8 + ENTRY_SIZE * i;
    var s := EntryBytes(e);
    SliceSlice(b, at, at + ENTRY_SIZE, 0, 8);
    SliceSlice(b, at, at + ENTRY_SIZE, 8, 8);
    SliceSlice(b, at, at + ENTRY_SIZE, 16, 4);
    assert s[0..0 + 8] == ToLe(e.start, 8) && s[8..8 + 8] == ToLe(e.end, 8) && s[16..16 + 4] == ToLe(e.kind, 4);
    WidthBounds();
    FromToLe(e.start, 8);
    FromToLe(e.end, 8);
    FromToLe(e.kind, 4);
  }

  /** Whatever follows it in memory, a map is read back as the host wrote it, its first 32 entries at least. */
  lemma RoundTrip(es: seq<Entry>, after: seq<Byte>)
    requires |es| < 0x1_0000_0000
    ensures var b := HostBytes(es) + after;
            && MapPresent(b) && U32At(b, 0) == MAGIC && U32At(b, 4) == |es|
            && Announced(b) == (if |es| < 32 then |es| else 32)
            && (forall i :: 0 <= i < |es| ==> EntryAt(b, i) == es[i])
  {
    hide ToLe, FromLe, Pow256, EntryAt, EntriesBytes;
    var b := HostBytes(es) + after;
    assert b[0..4] == ToLe(MAGIC, 4) && b[4..8] == ToLe(|es|, 4);
    WidthBounds();
    FromToLe(MAGIC, 4);
    FromToLe(|es|, 4);
    forall i | 0 <= i < |es| ensures EntryAt(b, i) == es[i] {
      EntriesSlice(es, i);
      HostSlice(es, after, i);
      DecodeEntry(b, i, es[i]);
    }
  }

  lemma HostSlice(es: seq<Entry>, after: seq<Byte>, i: nat)
    requires i < |es|
    ensures (HostBytes(es) + after)[8 + ENTRY_SIZE * i..8 + ENTRY_SIZE * (i + 1)]
         == EntriesBytes(es)[ENTRY_SIZE * i..ENTRY_SIZE * (i + 1)]
  {
    hide ToLe, EntriesBytes;
    var b, m := HostBytes(es) + after, EntriesBytes(es);
    assert b[8..8 + |m|] == m;
    SliceSlice(b, 8, 8 + |m|, ENTRY_SIZE * i, ENTRY_SIZE);
  }

  // ---- UEFI descriptors ----

  datatype Descriptor = Descriptor(kind: U32, pad: U32, start: U64, virtualStart: U64, pages: nat, attribute: U64) {
    function End(): nat { start + pages * PAGE }
    predicate CoversPage(p: nat) { start <= p * PAGE < End() }
  }

  /** Runtime services regions must stay mapped under the operating system. */
  function Attribute(kind: U32): U64 {
    if kind == 5 || kind == 6 then WRITE_BACK + RUNTIME else WRITE_BACK
  }

  /** The entry cut down to whole pages; rounding the start up wraps at 2^64. */
  function Converted(e: Entry): seq<Descriptor> {
    var start := (e.start + 0xFFF) % M64 / PAGE * PAGE;
    var end := e.end / PAGE * PAGE;
    if end <= start then [] else [Descriptor(e.kind, 0, start, 0, (end - start) / PAGE, Attribute(e.kind))]
  }

  function ConvertedAll(es: seq<Entry>): (ds: seq<Descriptor>)
    ensures |ds| <= |es|
  {
    if es == [] then [] else ConvertedAll(es[..|es| - 1]) + Converted(es[|es| - 1])
  }

  lemma ConvertedNothing()
    ensures ConvertedAll([]) == []
  {
  }

  lemma ConvertedSnoc(es: seq<Entry>, e: Entry)
    ensures ConvertedAll(es + [e]) == ConvertedAll(es) + Converted(e)
  {
    hide Converted;
    assert (es + [e])[..|es|] == es;
  }

  method MemmapToUefi(table: array<Entry>, length: nat, buf: array<Descriptor>, bufLen: nat) returns (out: nat)
    requires buf.Length == bufLen / 40
    requires length <= table.Length || buf.Length <= table.Length
    modifies buf
    ensures var n := if length < buf.Length then length else buf.Length;
            && out == |ConvertedAll(table[..n])| && buf[..out] == ConvertedAll(table[..n])
            && buf[out..] == old(buf[out..])
  {
    hide ConvertedAll;
    var maxEntries := bufLen / DESCRIPTOR_SIZE;
    out := 0;
    ConvertedNothing();
    assert table[..0] == [];
    if length < maxEntries {
      maxEntries := length;
    }
    for i := 0 to maxEntries
      invariant out <= i && out == |ConvertedAll(table[..i])| && buf[..out] == ConvertedAll(table[..i])
      invariant forall k :: out <= k < buf.Length ==> buf[k] == old(buf[k])
    {
      ghost var before := buf[..out];
      var e := table[i];
      assert table[..i + 1] == table[..i] + [e];
      ConvertedSnoc(table[..i], e);
      var start := (e.start + 0xFFF) % M64 / PAGE * PAGE;
      var end := e.end / PAGE * PAGE;
      if end <= start {
        continue;
      }
      buf[out] := Descriptor(e.kind, 0, start, 0, (end - start) / PAGE, Attribute(e.kind));
      out := out + 1;
      assert buf[..out] == before + Converted(e);
    }
  }

  /** Page p lies entirely inside the entry. */
  predicate WholePage(e: Entry, p: nat) {
    e.start <= p * PAGE && (p + 1) * PAGE <= e.end
  }

  predicate Covered(ds: seq<Descriptor>, p: nat) {
    exists i :: 0 <= i < |ds| && ds[i].CoversPage(p)
  }

  /** Rounding the start up does not wrap, or there is nothing below the end to cover. */
  predicate StartRounds(e: Entry) {
    e.start + 0xFFF < M64 || e.end < PAGE
  }

  lemma ConvertedRoundsIn(e: Entry)
    requires StartRounds(e)
    ensures |Converted(e)| <= 1
    ensures Converted(e) != [] ==>
              var d := Converted(e)[0];
              && e.start <= d.start < e.start + PAGE && d.start % PAGE == 0
              && d.End() == e.end / PAGE * PAGE && d.kind == e.kind && d.pad == 0 && d.virtualStart == 0
              && d.attribute == (if e.kind in {5, 6} then 0x8000_0000_0000_0008 else 0x8)
    ensures Converted(e) == [] ==> e.end / PAGE * PAGE < e.start + PAGE
  {
  }

  lemma PageBounds(p: nat, x: nat)
    ensures (p + 1) * PAGE <= x <==> p * PAGE < x / PAGE * PAGE
  {
  }

  lemma ConvertedPage(e: Entry, p: nat)
    requires StartRounds(e)
    ensures Covered(Converted(e), p) <==> WholePage(e, p)
  {
    hide Converted;
    ConvertedRoundsIn(e);
    PageBounds(p, e.end);
    if Converted(e) != [] {
      var d := Converted(e)[0];
      assert Covered(Converted(e), p) <==> d.CoversPage(p);
    }
  }

  /** An entry's descriptor covers exactly its whole pages if and only if its start rounds. */
  lemma ConvertedExact(e: Entry)
    ensures (forall p :: Covered(Converted(e), p) <==> WholePage(e, p)) <==> StartRounds(e)
  {
    if StartRounds(e) {
      forall p: nat ensures Covered(Converted(e), p) <==> WholePage(e, p) {
        ConvertedPage(e, p);
      }
    } else {
      var d := Converted(e)[0];
      assert d.CoversPage(0);
      assert Covered(Converted(e), 0) && !WholePage(e, 0);
    }
  }

  /** Near 2^64 the rounded start wraps to 0: a few bytes at the very top come out as a descriptor from page 0 on. */
  lemma TopEntryCoversPageZero()
    ensures var e := Entry(0xFFFF_FFFF_FFFF_F001, 0xFFFF_FFFF_FFFF_FFFF, CONVENTIONAL);
            Converted(e) != [] && Converted(e)[0].start == 0 && Covered(Converted(e), 0) && forall p :: !WholePage(e, p)
  {
    var e := Entry(0xFFFF_FFFF_FFFF_F001, 0xFFFF_FFFF_FFFF_FFFF, CONVENTIONAL);
    assert Converted(e)[0].CoversPage(0);
  }

  predicate Sorted(es: seq<Entry>) {
    && (forall i :: 0 <= i < |es| ==> StartRounds(es[i]))
    && (forall i, j :: 0 <= i < j < |es| ==> es[i].end <= es[j].start)
  }

  lemma {:induction false} EndsBelow(es: seq<Entry>, bound: nat)
    requires forall i :: 0 <= i < |es| ==> StartRounds(es[i]) && es[i].end <= bound
    ensures forall i :: 0 <= i < |ConvertedAll(es)| ==> ConvertedAll(es)[i].End() <= bound
  {
    hide Converted;
    if es != [] {
      EndsBelow(es[..|es| - 1], bound);
      ConvertedRoundsIn(es[|es| - 1]);
    }
  }

  predicate DescriptorsSorted(ds: seq<Descriptor>) {
    forall i, j :: 0 <= i < j < |ds| ==> ds[i].End() <= ds[j].start
  }

  /** A sorted map of disjoint entries becomes a sorted list of disjoint descriptors. */
  lemma {:induction false} ConvertedSorted(es: seq<Entry>)
    requires Sorted(es)
    ensures DescriptorsSorted(ConvertedAll(es))
  {
    hide Converted;
    if es != [] {
      var n := |es| - 1;
      ConvertedSorted(es[..n]);
      EndsBelow(es[..n], es[n].start);
      ConvertedRoundsIn(es[n]);
      var before, ds := ConvertedAll(es[..n]), ConvertedAll(es);
      forall i, j | 0 <= i < j < |ds| ensures ds[i].End() <= ds[j].start {
        assert ds[i] == before[i] && before[i].End() <= es[n].start;
        if j < |before| {
          assert ds[j] == before[j];
          assert before[i].End() <= before[j].start;
        } else {
          assert ds[j] == Converted(es[n])[0];
          assert es[n].start <= ds[j].start;
        }
      }
    }
  }

  /** The whole map: a page is described exactly when some entry contains all of it. */
  lemma {:induction false} ConvertedAllExact(es: seq<Entry>, p: nat)
    requires forall i :: 0 <= i < |es| ==> StartRounds(es[i])
    ensures Covered(ConvertedAll(es), p) <==> exists i :: 0 <= i < |es| && WholePage(es[i], p)
  {
    hide Converted, WholePage;
    if es != [] {
      var n := |es| - 1;
      ConvertedAllExact(es[..n], p);
      ConvertedPage(es[n], p);
      CoveredJoin(ConvertedAll(es[..n]), Converted(es[n]), p);
      if exists i :: 0 <= i < |es| && WholePage(es[i], p) {
        var i :| 0 <= i < |es| && WholePage(es[i], p);
        if i < n {
          assert WholePage(es[..n][i], p);
        }
      }
    }
  }

  lemma CoveredJoin(a: seq<Descriptor>, b: seq<Descriptor>, p: nat)
    ensures Covered(a + b, p) <==> Covered(a, p) || Covered(b, p)
  {
    if Covered(a, p) {
      var i :| 0 <= i < |a| && a[i].CoversPage(p);
      assert (a + b)[i].CoversPage(p);
    }
    if Covered(b, p) {
      var i :| 0 <= i < |b| && b[i].CoversPage(p);
      assert (a + b)[|a| + i].CoversPage(p);
    }
  }

  // ---- the whole trip ----

  /** `top` is the highest end of a conventional entry, type 7, of the list. */
  predicate IsTop(es: seq<Entry>, top: nat) {
    && (forall i :: 0 <= i < |es| && es[i].kind == 7 ==> es[i].end <= top)
    && (top == 0 || exists i :: 0 <= i < |es| && es[i].kind == 7 && es[i].end == top)
  }

  /**
    From the host's list through memory to the firmware: with room for a descriptor per entry,
    the descriptors are those of the host's list, they cover exactly its whole pages and stay
    sorted, and the top of RAM is the list's own.
   */
  method MapTrip(es: seq<Entry>, after: seq<Byte>, table: array<Entry>, buf: array<Descriptor>)
    returns (out: nat, top: nat)
    requires |es| <= 32 == table.Length && |es| <= buf.Length
    modifies table, buf
    ensures out <= buf.Length && buf[..out] == ConvertedAll(es)
    ensures (forall i :: 0 <= i < |es| ==> StartRounds(es[i])) ==>
              forall p :: Covered(buf[..out], p) <==> exists i :: 0 <= i < |es| && WholePage(es[i], p)
    ensures Sorted(es) ==> DescriptorsSorted(buf[..out])
    ensures IsTop(es, top)
  {
    hide EntryAt, Converted, HostBytes, WholePage, Covered, DescriptorsSorted, StartRounds;
    var b := HostBytes(es) + after;
    RoundTrip(es, after);
    var length := InitMemmap(b, table);
    top := RamTop(b);
    out := MemmapToUefi(table, length, buf, DESCRIPTOR_SIZE * buf.Length);
    assert table[..|es|] == es;
    if forall i :: 0 <= i < |es| ==> StartRounds(es[i]) {
      forall p: nat ensures Covered(buf[..out], p) <==> exists i :: 0 <= i < |es| && WholePage(es[i], p) {
        ConvertedAllExact(es, p);
      }
    }
    if Sorted(es) {
      ConvertedSorted(es);
    }
  }
}
