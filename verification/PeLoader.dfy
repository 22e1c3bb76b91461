/**
  The PE loader: placing headers and sections at the load base, and applying base
  relocations so that every absolute address in the image means the same place.

  The image is the memory from the load base on; positions in it are RVAs.
 */
module PeLoader {
  import opened Arith
  import opened Bytes

  const M64 := 0x1_0000_0000_0000_0000
  const BLOCK_HEADER := 8
  const DIR64 := 10

  function Put(b: seq<Byte>, at: nat, data: seq<Byte>): (b': seq<Byte>)
    requires at + |data| <= |b|
    ensures |b'| == |b|
  {
    b[..at] + data + b[at + |data|..]
  }

  lemma PutOther(b: seq<Byte>, at: nat, data: seq<Byte>, x: nat, n: nat)
    requires at + |data| <= |b| && x + n <= |b| && Apart(at, |data|, x, n)
    ensures Put(b, at, data)[x..x + n] == b[x..x + n]
  {
    var c := Put(b, at, data);
    forall i | x <= i < x + n ensures c[i] == b[i] {
    }
  }

  lemma PutSame(b: seq<Byte>, at: nat, data: seq<Byte>)
    requires at + |data| <= |b|
    ensures Put(b, at, data)[at..at + |data|] == data
  {
  }

  // ---- the relocation table ----

  function BlockSize(img: seq<Byte>, p: nat): U32
    requires p + BLOCK_HEADER <= |img|
  {
    U32At(img, p + 4)
  }

  function EntryCount(img: seq<Byte>, p: nat): nat
    requires p + BLOCK_HEADER <= |img|
  {
    if BlockSize(img, p) < BLOCK_HEADER then 0 else (BlockSize(img, p) - BLOCK_HEADER) / 2
  }

  /** The slots named by the first `n` entries of the block at `p`. */
  function BlockSlots(img: seq<Byte>, p: nat, n: nat): seq<nat>
    requires p + BLOCK_HEADER + 2 * n <= |img|
  {
    if n == 0 then []
    else
      var e := U16At(img, p + BLOCK_HEADER + 2 * (n - 1));
      BlockSlots(img, p, n - 1) + if e / 0x1000 == DIR64 then [U32At(img, p) + e % 0x1000] else []
  }

  /** Every block the walk visits lies inside the image. */
  predicate TableInside(img: seq<Byte>, p: nat, end: nat)
    decreases |img| - p
  {
    p >= end || (
      && p + BLOCK_HEADER <= |img|
      && (BlockSize(img, p) >= BLOCK_HEADER ==>
            p + BlockSize(img, p) <= |img| && TableInside(img, p + BlockSize(img, p), end)))
  }

  /** The slots of the whole table, in order; a block shorter than its header ends it. */
  function TableSlots(img: seq<Byte>, p: nat, end: nat): seq<nat>
    requires TableInside(img, p, end)
    decreases |img| - p
  {
    if p >= end || BlockSize(img, p) < BLOCK_HEADER then []
    else BlockSlots(img, p, EntryCount(img, p)) + TableSlots(img, p + BlockSize(img, p), end)
  }

  /** The end of the last byte of the table the walk reads. */
  function TableEnd(img: seq<Byte>, p: nat, end: nat): (e: nat)
    requires TableInside(img, p, end)
    ensures p <= e && (p < end ==> p + BLOCK_HEADER <= e <= |img|)
    decreases |img| - p
  {
    if p >= end then p
    else if BlockSize(img, p) < BLOCK_HEADER then p + BLOCK_HEADER
    else
      var q := p + BlockSize(img, p);
      if q >= end then q else TableEnd(img, q, end)
  }

  // ---- patching ----

  /** Adds `delta` to the 64-bit word at `at`, modulo 2^64. */
  function AddAt(img: seq<Byte>, at: nat, delta: U64): (img': seq<Byte>)
    requires at + 8 <= |img|
    ensures |img'| == |img|
  {
    Put(img, at, ToLe((U64At(img, at) + delta) % M64, 8))
  }

  predicate SlotsInside(img: seq<Byte>, slots: seq<nat>) {
    forall i :: 0 <= i < |slots| ==> slots[i] + 8 <= |img|
  }

  function Patched(img: seq<Byte>, slots: seq<nat>, delta: U64): (img': seq<Byte>)
    requires SlotsInside(img, slots)
    ensures |img'| == |img|
  {
    if slots == [] then img
    else AddAt(Patched(img, slots[..|slots| - 1], delta), slots[|slots| - 1], delta)
  }

  predicate DisjointSlots(slots: seq<nat>) {
    forall i, j :: 0 <= i < j < |slots| ==> Apart(slots[i], 8, slots[j], 8)
  }

  lemma AddAtFacts(img: seq<Byte>, at: nat, delta: U64)
    requires at + 8 <= |img|
    ensures U64At(AddAt(img, at, delta), at) == (U64At(img, at) + delta) % M64
  {
    hide ToLe, FromLe, Put;
    var v := (U64At(img, at) + delta) % M64;
    PutSame(img, at, ToLe(v, 8));
    WidthBounds();
    FromToLe(v, 8);
  }

  /** Bytes clear of every slot are untouched. */
  lemma {:induction false} PatchedOther(img: seq<Byte>, slots: seq<nat>, delta: U64, x: nat, n: nat)
    requires SlotsInside(img, slots) && x + n <= |img|
    requires forall i :: 0 <= i < |slots| ==> Apart(slots[i], 8, x, n)
    ensures Patched(img, slots, delta)[x..x + n] == img[x..x + n]
  {
    hide ToLe, Put, U64At;
    if slots != [] {
      var k := |slots| - 1;
      var before := Patched(img, slots[..k], delta);
      PatchedOther(img, slots[..k], delta, x, n);
      PutOther(before, slots[k], ToLe((U64At(before, slots[k]) + delta) % M64, 8), x, n);
    }
  }

  /** With disjoint slots, every slot moves by exactly `delta`. */
  lemma {:induction false} PatchedSlot(img: seq<Byte>, slots: seq<nat>, delta: U64, i: nat)
    requires SlotsInside(img, slots) && DisjointSlots(slots) && i < |slots|
    ensures U64At(Patched(img, slots, delta), slots[i]) == (U64At(img, slots[i]) + delta) % M64
  {
    hide ToLe, Put, FromLe;
    var k := |slots| - 1;
    var before := Patched(img, slots[..k], delta);
    if i < k {
      PatchedSlot(img, slots[..k], delta, i);
      PutOther(before, slots[k], ToLe((U64At(before, slots[k]) + delta) % M64, 8), slots[i], 8);
    } else {
      PatchedOther(img, slots[..k], delta, slots[k], 8);
      AddAtFacts(before, slots[k], delta);
    }
  }

  /** The difference between where the image is and where it was linked to be. */
  function Delta(loadBase: U64, imageBase: U64): U64 {
    (loadBase - imageBase) % M64
  }

  /** A slot that pointed at an RVA of the linked image points at the same RVA of the loaded one. */
  lemma RelocationKeepsMeaning(img: seq<Byte>, slots: seq<nat>, loadBase: U64, imageBase: U64, i: nat, rva: nat)
    requires SlotsInside(img, slots) && DisjointSlots(slots) && i < |slots|
    requires U64At(img, slots[i]) == (imageBase + rva) % M64
    ensures U64At(Patched(img, slots, Delta(loadBase, imageBase)), slots[i]) == (loadBase + rva) % M64
  {
    hide U64At, Patched;
    PatchedSlot(img, slots, Delta(loadBase, imageBase), i);
  }

  // ---- the table as a linker lays it out ----

  type Kind = x: int | 0 <= x < 16
  type PageOffset = x: int | 0 <= x < 0x1000

  /** One fixup of a page: what kind it is, and where in the page. */
  datatype Fixup = Fixup(kind: Kind, offset: PageOffset) {
    function Word(): U16 { kind * 0x1000 + offset }
  }

  datatype Block = Block(page: U32, fixups: seq<Fixup>) {
    /** Page, size of the block with its header, then a word for each fixup. */
    function Encoded(): (s: seq<Byte>)
      ensures |s| == 8 + 2 * |fixups|
    {
      ToLe(page, 4) + ToLe(8 + 2 * |fixups|, 4) + Words(fixups)
    }
  }

  function Words(fixups: seq<Fixup>): (s: seq<Byte>)
    ensures |s| == 2 * |fixups|
  {
    if fixups == [] then [] else ToLe(fixups[0].Word(), 2) + Words(fixups[1..])
  }

  function Encoded(blocks: seq<Block>): seq<Byte> {
    if blocks == [] then [] else blocks[0].Encoded() + Encoded(blocks[1..])
  }

  /** The places to move: those of the fixups of kind 10, a 64-bit address; kind 0 is padding. */
  function Targets(page: U32, fixups: seq<Fixup>): seq<nat> {
    if fixups == [] then []
    else (if fixups[0].kind == 10 then [page + fixups[0].offset] else []) + Targets(page, fixups[1..])
  }

  function AllTargets(blocks: seq<Block>): seq<nat> {
    if blocks == [] then [] else Targets(blocks[0].page, blocks[0].fixups) + AllTargets(blocks[1..])
  }

  /** The sizes of all blocks fit their 32-bit fields. */
  predicate Sized(blocks: seq<Block>) {
    forall i :: 0 <= i < |blocks| ==> 8 + 2 * |blocks[i].fixups| < 0x1_0000_0000
  }

  lemma {:induction false} WordAt(fixups: seq<Fixup>, i: nat)
    requires i < |fixups|
    ensures Words(fixups)[2 * i..2 * i + 2] == ToLe(fixups[i].Word(), 2)
  {
    hide ToLe;
    if i > 0 {
      WordAt(fixups[1..], i - 1);
      assert Words(fixups)[2 * i..2 * i + 2] == Words(fixups[1..])[2 * (i - 1)..2 * (i - 1) + 2];
    }
  }

  lemma {:induction false} TargetsSnoc(page: U32, fixups: seq<Fixup>, f: Fixup)
    ensures Targets(page, fixups + [f]) == Targets(page, fixups) + if f.kind == 10 then [page + f.offset] else []
  {
    if fixups != [] {
      assert (fixups + [f])[1..] == fixups[1..] + [f];
      TargetsSnoc(page, fixups[1..], f);
    }
  }

  /** The header and the words of a block in the image read as they were written. */
  lemma BlockReads(img: seq<Byte>, p: nat, b: Block)
    requires Holds(img, p, b.Encoded()) && 8 + 2 * |b.fixups| < 0x1_0000_0000
    ensures p + BLOCK_HEADER + 2 * |b.fixups| <= |img|
    ensures U32At(img, p) == b.page && BlockSize(img, p) == 8 + 2 * |b.fixups|
    ensures forall i :: 0 <= i < |b.fixups| ==> U16At(img, p + BLOCK_HEADER + 2 * i) == b.fixups[i].Word()
  {
    hide ToLe, FromLe, Words, Holds, U16At, U32At;
    var data := b.Encoded();
    HeldLength(img, p, data);
    HoldsPart(img, p, data, 0, ToLe(b.page, 4));
    HoldsNumber(img, p, b.page);
    assert data[4..8] == ToLe(8 + 2 * |b.fixups|, 4);
    HoldsPart(img, p, data, 4, ToLe(8 + 2 * |b.fixups|, 4));
    HoldsNumber(img, p + 4, 8 + 2 * |b.fixups|);
    forall i | 0 <= i < |b.fixups| ensures U16At(img, p + BLOCK_HEADER + 2 * i) == b.fixups[i].Word() {
      WordAt(b.fixups, i);
      assert data[8 + 2 * i..8 + 2 * i + 2] == Words(b.fixups)[2 * i..2 * i + 2];
      HoldsPart(img, p, data, 8 + 2 * i, ToLe(b.fixups[i].Word(), 2));
      HoldsNumber(img, p + 8 + 2 * i, b.fixups[i].Word());
    }
  }

  lemma {:induction false} BlockSlotsAre(img: seq<Byte>, p: nat, b: Block, n: nat)
    requires p + BLOCK_HEADER + 2 * |b.fixups| <= |img| && U32At(img, p) == b.page && n <= |b.fixups|
    requires forall i :: 0 <= i < |b.fixups| ==> U16At(img, p + BLOCK_HEADER + 2 * i) == b.fixups[i].Word()
    ensures BlockSlots(img, p, n) == Targets(b.page, b.fixups[..n])
  {
    hide U16At, U32At, Targets;
    BlockSlotsStep(img, p, 0);
    NoTargets(b.page);
    if n > 0 {
      BlockSlotsAre(img, p, b, n - 1);
      BlockSlotsStep(img, p, n - 1);
      var f := b.fixups[n - 1];
      assert b.fixups[..n] == b.fixups[..n - 1] + [f];
      TargetsSnoc(b.page, b.fixups[..n - 1], f);
      DivUnique(f.Word(), 0x1000, f.kind, f.offset);
    }
  }

  lemma NoTargets(page: U32)
    ensures Targets(page, []) == []
  {
  }

  /** Where a walk of the table may end: at its end, or before a block shorter than its header. */
  predicate TableStops(img: seq<Byte>, p: nat, end: nat) {
    p >= end || (p + BLOCK_HEADER <= |img| && U32At(img, p + 4) < 8)
  }

  /** The table at [p, end) names these slots. */
  predicate Names(img: seq<Byte>, p: nat, end: nat, slots: seq<nat>) {
    TableInside(img, p, end) && TableSlots(img, p, end) == slots
  }

  /** A table laid out block by block names exactly its fixups of kind 10, in order. */
  lemma {:induction false} TableSlotsAre(img: seq<Byte>, p: nat, end: nat, blocks: seq<Block>)
    requires Holds(img, p, Encoded(blocks)) && Sized(blocks) && p + |Encoded(blocks)| <= end
    requires TableStops(img, p + |Encoded(blocks)|, end)
    ensures Names(img, p, end, AllTargets(blocks))
    decreases |blocks|
  {
    hide U16At, U32At, Targets, Holds, BlockSlots, Block.Encoded;
    if blocks != [] {
      var b, data := blocks[0], Encoded(blocks);
      HeldLength(img, p, data);
      HoldsPart(img, p, data, 0, b.Encoded());
      HoldsPart(img, p, data, |b.Encoded()|, Encoded(blocks[1..]));
      BlockReads(img, p, b);
      BlockSlotsAre(img, p, b, |b.fixups|);
      assert b.fixups[..|b.fixups|] == b.fixups;
      TableSlotsAre(img, p + |b.Encoded()|, end, blocks[1..]);
    }
  }

  // ---- applying the table in place ----

  /** Slots may be patched while [lo, hi) is read: they lie in the image and outside that range. */
  predicate SlotsSafe(img: seq<Byte>, slots: seq<nat>, lo: nat, hi: nat) {
    && lo <= hi <= |img| && SlotsInside(img, slots)
    && forall i :: 0 <= i < |slots| ==> Apart(slots[i], 8, lo, hi - lo)
  }

  lemma SafePrefix(img: seq<Byte>, a: seq<nat>, b: seq<nat>, lo: nat, hi: nat)
    requires a <= b && SlotsSafe(img, b, lo, hi)
    ensures SlotsSafe(img, a, lo, hi)
  {
    assert forall i :: 0 <= i < |a| ==> a[i] == b[i];
  }

  lemma PatchedSnoc(img: seq<Byte>, slots: seq<nat>, s: nat, delta: U64)
    requires SlotsInside(img, slots + [s])
    ensures SlotsInside(img, slots) && s + 8 <= |img|
    ensures Patched(img, slots + [s], delta) == AddAt(Patched(img, slots, delta), s, delta)
  {
    assert (slots + [s])[..|slots|] == slots && (slots + [s])[|slots|] == s;
    assert forall i :: 0 <= i < |slots| ==> slots[i] == (slots + [s])[i];
  }

  /** Slots all clear of [lo, hi) leave every number stored there as it was. */
  lemma TableUntouched(img: seq<Byte>, slots: seq<nat>, delta: U64, lo: nat, hi: nat, at: nat)
    requires SlotsSafe(img, slots, lo, hi) && lo <= at <= hi
    ensures at + 2 <= hi ==> U16At(Patched(img, slots, delta), at) == U16At(img, at)
    ensures at + 4 <= hi ==> U32At(Patched(img, slots, delta), at) == U32At(img, at)
  {
    hide Patched;
    if at + 2 <= hi {
      PatchedOther(img, slots, delta, at, 2);
    }
    if at + 4 <= hi {
      PatchedOther(img, slots, delta, at, 4);
    }
  }

  method ApplyBlock(image: array<Byte>, ghost img: seq<Byte>, ghost done: seq<nat>, p: nat, delta: U64,
                    ghost lo: nat, ghost hi: nat)
    requires |img| == image.Length && lo <= p && p + BLOCK_HEADER <= hi <= |img|
    requires BlockSize(img, p) >= BLOCK_HEADER && p + BlockSize(img, p) <= hi
    requires SlotsSafe(img, done + BlockSlots(img, p, EntryCount(img, p)), lo, hi)
    requires SlotsInside(img, done) && image[..] == Patched(img, done, delta)
    modifies image
    ensures SlotsInside(img, done + BlockSlots(img, p, EntryCount(img, p)))
    ensures image[..] == Patched(img, done + BlockSlots(img, p, EntryCount(img, p)), delta)
  {
    hide Patched, AddAt, U16At, U32At, U64At, BlockSlots, SlotsInside, Apart;
    ghost var all := done + BlockSlots(img, p, EntryCount(img, p));
    SafePrefix(img, done, all, lo, hi);
    TableUntouched(img, done, delta, lo, hi, p);
    TableUntouched(img, done, delta, lo, hi, p + 4);
    var base := U32At(image[..], p);
    var count := (U32At(image[..], p + 4) - BLOCK_HEADER) / 2;
    BlockSlotsStep(img, p, 0);
    assert done + [] == done;
    for i := 0 to count
      invariant count == EntryCount(img, p)
      invariant SlotsSafe(img, done + BlockSlots(img, p, i), lo, hi)
      invariant image[..] == Patched(img, done + BlockSlots(img, p, i), delta)
    {
      ghost var now, later := done + BlockSlots(img, p, i), done + BlockSlots(img, p, i + 1);
      BlockSlotsStep(img, p, i);
      BlockSlotsPrefix(img, p, i + 1, count);
      SafePrefix(img, later, all, lo, hi);
      TableUntouched(img, now, delta, lo, hi, p + BLOCK_HEADER + 2 * i);
      var e := U16At(image[..], p + BLOCK_HEADER + 2 * i);
      if e / 0x1000 == DIR64 {
        var target := base + e % 0x1000;
        assert later == now + [target];
        PatchedSnoc(img, now, target, delta);
        AddInPlace(image, target, delta);
      } else {
        assert later == now;
      }
    }
  }

  method PutInPlace(image: array<Byte>, at: nat, data: seq<Byte>)
    requires at + |data| <= image.Length
    modifies image
    ensures image[..] == Put(old(image[..]), at, data)
  {
    CopyInto(image, at, data);
  }

  method AddInPlace(image: array<Byte>, at: nat, delta: U64)
    requires at + 8 <= image.Length
    modifies image
    ensures image[..] == AddAt(old(image[..]), at, delta)
  {
    hide ToLe, Put;
    PutInPlace(image, at, ToLe((U64At(image[..], at) + delta) % M64, 8));
  }

  lemma BlockSlotsStep(img: seq<Byte>, p: nat, i: nat)
    requires p + BLOCK_HEADER + 2 * i <= |img|
    ensures i == 0 ==> BlockSlots(img, p, i) == []
    ensures p + BLOCK_HEADER + 2 * (i + 1) <= |img| ==>
              var e := U16At(img, p + BLOCK_HEADER + 2 * i);
              BlockSlots(img, p, i + 1)
              == BlockSlots(img, p, i) + if e / 0x1000 == DIR64 then [U32At(img, p) + e % 0x1000] else []
  {
  }

  lemma {:induction false} BlockSlotsPrefix(img: seq<Byte>, p: nat, i: nat, n: nat)
    requires i <= n && p + BLOCK_HEADER + 2 * n <= |img|
    ensures BlockSlots(img, p, i) <= BlockSlots(img, p, n)
  {
    hide U16At, U32At;
    if i < n {
      BlockSlotsPrefix(img, p, i, n - 1);
    }
  }

  /** The optional header lists a relocation directory, and it is not empty. */
  predicate HasTable(dirCount: U32, va: U32, size: U32) {
    dirCount > 5 && size != 0 && va != 0
  }

  /** The table and its slots lie in the image, and no slot lies in the table. */
  predicate TableSafe(img: seq<Byte>, va: U32, size: U32) {
    && TableInside(img, va, va + size)
    && SlotsSafe(img, TableSlots(img, va, va + size), va, TableEnd(img, va, va + size))
  }

  function Relocated(img: seq<Byte>, loadBase: U64, imageBase: U64, dirCount: U32, va: U32, size: U32)
    : (img': seq<Byte>)
    requires HasTable(dirCount, va, size) ==> TableSafe(img, va, size)
    ensures |img'| == |img|
  {
    if HasTable(dirCount, va, size) then
      Patched(img, TableSlots(img, va, va + size), Delta(loadBase, imageBase))
    else img
  }

  /**
    The table walk.  Each block advances it by at least eight bytes, so it ends; the
    slots patched are exactly those of the table as it stood before.
   */
  method ApplyRelocations(image: array<Byte>, loadBase: U64, imageBase: U64, dirCount: U32, va: U32, size: U32)
    requires HasTable(dirCount, va, size) ==> TableSafe(image[..], va, size)
    modifies image
    ensures image[..] == Relocated(old(image[..]), loadBase, imageBase, dirCount, va, size)
  {
    hide Patched, BlockSlots, U32At, SlotsInside, Apart;
    if dirCount <= 5 {
      return;
    }
    if size == 0 || va == 0 {
      return;
    }
    var delta := Delta(loadBase, imageBase);
    ghost var img, hi := image[..], TableEnd(image[..], va, va + size);
    ghost var all := TableSlots(img, va, va + size);
    if delta == 0 {
      PatchedByZero(img, all);
      return;
    }
    var p, end := va, va + size;
    ghost var done: seq<nat> := [];
    NothingPatched(img, delta);
    assert [] + all == all;
    while p < end
      invariant va <= p && TableInside(img, p, end)
      invariant p < end ==> TableEnd(img, p, end) == hi
      invariant all == done + TableSlots(img, p, end)
      invariant SlotsInside(img, done) && image[..] == Patched(img, done, delta)
      decreases |img| - p
    {
      ghost var slots := BlockSlots(img, p, EntryCount(img, p));
      SafePrefix(img, done, all, va, hi);
      TableUntouched(img, done, delta, va, hi, p + 4);
      var blockSize := U32At(image[..], p + 4);
      if blockSize < BLOCK_HEADER {
        assert all == done + [] == done;
        return;
      }
      TableSplit(img, p, end, done, all);
      SafePrefix(img, done + slots, all, va, hi);
      ApplyBlock(image, img, done, p, delta, va, hi);
      done := done + slots;
      p := p + blockSize;
    }
    assert all == done + [] == done;
  }

  lemma NothingPatched(img: seq<Byte>, delta: U64)
    ensures SlotsInside(img, []) && Patched(img, [], delta) == img
  {
  }

  lemma {:induction false} PatchedByZero(img: seq<Byte>, slots: seq<nat>)
    requires SlotsInside(img, slots)
    ensures Patched(img, slots, 0) == img
  {
    hide ToLe, FromLe;
    if slots != [] {
      var k := |slots| - 1;
      PatchedByZero(img, slots[..k]);
      ToFromLe(img[slots[k]..slots[k] + 8]);
    }
  }

  lemma TableSplit(img: seq<Byte>, p: nat, end: nat, done: seq<nat>, all: seq<nat>)
    requires p < end && TableInside(img, p, end) && BlockSize(img, p) >= BLOCK_HEADER
    requires all == done + TableSlots(img, p, end)
    ensures var slots, q := BlockSlots(img, p, EntryCount(img, p)), p + BlockSize(img, p);
            && all == (done + slots) + TableSlots(img, q, end)
            && q <= TableEnd(img, p, end)
            && (q < end ==> TableEnd(img, q, end) == TableEnd(img, p, end))
  {
    hide BlockSlots, U32At;
  }

  // ---- placing headers and sections ----

  /** A section header's four sizes and positions. */
  datatype Section = Section(va: U32, virtSize: U32, raw: U32, rawSize: U32) {
    function Extent(): nat { if rawSize < virtSize then virtSize else rawSize }

    /** What the section holds once loaded: its raw data, then zeros up to the virtual size. */
    function Bytes(exe: seq<Byte>): (s: seq<Byte>)
      requires raw + rawSize <= |exe|
      ensures |s| == Extent()
    {
      exe[raw..raw + rawSize] + Zeros(Extent() - rawSize)
    }
  }

  predicate SectionsInside(img: seq<Byte>, exe: seq<Byte>, secs: seq<Section>) {
    forall i :: 0 <= i < |secs| ==> secs[i].va + secs[i].Extent() <= |img| && secs[i].raw + secs[i].rawSize <= |exe|
  }

  function Loaded(img: seq<Byte>, exe: seq<Byte>, secs: seq<Section>): (img': seq<Byte>)
    requires SectionsInside(img, exe, secs)
    ensures |img'| == |img|
  {
    if secs == [] then img
    else
      var k := |secs| - 1;
      Put(Loaded(img, exe, secs[..k]), secs[k].va, secs[k].Bytes(exe))
  }

  predicate DisjointSections(secs: seq<Section>) {
    forall i, j :: 0 <= i < j < |secs| ==> Apart(secs[i].va, secs[i].Extent(), secs[j].va, secs[j].Extent())
  }

  lemma {:induction false} LoadedOther(img: seq<Byte>, exe: seq<Byte>, secs: seq<Section>, x: nat, n: nat)
    requires SectionsInside(img, exe, secs) && x + n <= |img|
    requires forall i :: 0 <= i < |secs| ==> Apart(secs[i].va, secs[i].Extent(), x, n)
    ensures Loaded(img, exe, secs)[x..x + n] == img[x..x + n]
  {
    hide Put;
    if secs != [] {
      var k := |secs| - 1;
      LoadedOther(img, exe, secs[..k], x, n);
      PutOther(Loaded(img, exe, secs[..k]), secs[k].va, secs[k].Bytes(exe), x, n);
    }
  }

  /** With disjoint sections, each is in place: copied, then zero filled; everything else is as before. */
  lemma {:induction false} SectionInPlace(img: seq<Byte>, exe: seq<Byte>, secs: seq<Section>, i: nat)
    requires SectionsInside(img, exe, secs) && DisjointSections(secs) && i < |secs|
    ensures var s, out := secs[i], Loaded(img, exe, secs);
            out[s.va..s.va + s.Extent()] == s.Bytes(exe)
  {
    hide Put, Section.Bytes, Section.Extent;
    var k := |secs| - 1;
    var before := Loaded(img, exe, secs[..k]);
    if i < k {
      SectionInPlace(img, exe, secs[..k], i);
      PutOther(before, secs[k].va, secs[k].Bytes(exe), secs[i].va, secs[i].Extent());
    } else {
      PutSame(before, secs[k].va, secs[k].Bytes(exe));
    }
  }

  method LoadSection(image: array<Byte>, exe: seq<Byte>, s: Section)
    requires s.va + s.Extent() <= image.Length && s.raw + s.rawSize <= |exe|
    modifies image
    ensures image[..] == Put(old(image[..]), s.va, s.Bytes(exe))
  {
    hide Put;
    ghost var before := image[..];
    if s.rawSize > 0 {
      PutInPlace(image, s.va, exe[s.raw..s.raw + s.rawSize]);
    }
    ghost var mid := image[..];
    if s.virtSize > s.rawSize {
      PutInPlace(image, s.va + s.rawSize, Zeros(s.virtSize - s.rawSize));
    }
    PutTwice(before, mid, image[..], s, exe);
  }

  method LoadSections(image: array<Byte>, exe: seq<Byte>, secs: seq<Section>)
    requires SectionsInside(image[..], exe, secs)
    modifies image
    ensures image[..] == Loaded(old(image[..]), exe, secs)
  {
    hide Put;
    ghost var img := image[..];
    for i := 0 to |secs|
      invariant SectionsInside(img, exe, secs[..i])
      invariant image[..] == Loaded(img, exe, secs[..i])
    {
      LoadSection(image, exe, secs[i]);
      assert secs[..i + 1][..i] == secs[..i];
    }
    assert secs[..|secs|] == secs;
  }

  lemma PutTwice(before: seq<Byte>, mid: seq<Byte>, after: seq<Byte>, s: Section, exe: seq<Byte>)
    requires s.va + s.Extent() <= |before| && s.raw + s.rawSize <= |exe|
    requires mid == if s.rawSize > 0 then Put(before, s.va, exe[s.raw..s.raw + s.rawSize]) else before
    requires after == if s.virtSize > s.rawSize then Put(mid, s.va + s.rawSize, Zeros(s.virtSize - s.rawSize)) else mid
    ensures after == Put(before, s.va, s.Bytes(exe))
  {
  }

  // ---- loading a whole file ----

  const LOAD_BASE: U64 := 0x120_0000

  /** The header fields the loader uses, at their offsets from the NT signature. */
  datatype Header = Header(nt: nat, imageBase: U64, headerSize: U32, dirCount: U32, relocVa: U32, relocSize: U32,
                           secs: seq<Section>)

  function SectionAt(exe: seq<Byte>, at: nat): Section
    requires at + 40 <= |exe|
  {
    Section(U32At(exe, at + 12), U32At(exe, at + 8), U32At(exe, at + 20), U32At(exe, at + 16))
  }

  /** The DOS header and, behind its pointer, the NT headers and section table are all there. */
  predicate HeadersInside(exe: seq<Byte>) {
    && 64 <= |exe|
    && var nt := U32At(exe, 60);
    && nt + 264 <= |exe|
    && nt + 24 + U16At(exe, nt + 20) + 40 * U16At(exe, nt + 6) <= |exe|
  }

  /** An EFI application in PE32+ form, by the loader's four tests. */
  predicate Accepted(exe: seq<Byte>)
    requires HeadersInside(exe)
  {
    var nt := U32At(exe, 60);
    && U16At(exe, 0) == 0x5A4D
    && U32At(exe, nt) == 0x4550
    && U16At(exe, nt + 24) == 0x20B
    && U16At(exe, nt + 24 + 68) == 10
  }

  function ParseHeader(exe: seq<Byte>): Header
    requires HeadersInside(exe)
  {
    var nt := U32At(exe, 60);
    var table := nt + 24 + U16At(exe, nt + 20);
    var count := U16At(exe, nt + 6);
    Header(nt, U64At(exe, nt + 24 + 24), U32At(exe, nt + 24 + 60), U32At(exe, nt + 24 + 108),
           U32At(exe, nt + 24 + 152), U32At(exe, nt + 24 + 156),
           seq(count, i requires 0 <= i < count => SectionAt(exe, table + 40 * i)))
  }

  /** The sizes in the headers fit the file and the memory they are copied to. */
  predicate Fits(img: seq<Byte>, exe: seq<Byte>, h: Header) {
    && h.headerSize <= |exe| && h.headerSize <= |img| && h.nt + 56 <= |img|
    && SectionsInside(img, exe, h.secs)
    && (HasTable(h.dirCount, h.relocVa, h.relocSize) ==>
          TableSafe(Loaded(Put(img, 0, exe[..h.headerSize]), exe, h.secs), h.relocVa, h.relocSize))
  }

  function Image(img: seq<Byte>, exe: seq<Byte>, h: Header): (img': seq<Byte>)
    requires Fits(img, exe, h)
    ensures |img'| == |img|
  {
    var placed := Loaded(Put(img, 0, exe[..h.headerSize]), exe, h.secs);
    var moved := Relocated(placed, LOAD_BASE, h.imageBase, h.dirCount, h.relocVa, h.relocSize);
    Put(moved, h.nt + 48, ToLe(LOAD_BASE, 8))
  }

  /**
    Places, relocates and re-bases an accepted file, and writes the new base back into the
    file's own header too; a refused one changes nothing.
   */
  method FormatPe(file: array<Byte>, image: array<Byte>) returns (accepted: bool)
    requires file != image && HeadersInside(file[..])
    requires Accepted(file[..]) ==> Fits(image[..], file[..], ParseHeader(file[..]))
    modifies file, image
    ensures accepted == Accepted(old(file[..]))
    ensures !accepted ==> image[..] == old(image[..]) && file[..] == old(file[..])
    ensures accepted ==>
              var exe := old(file[..]);
              && image[..] == Image(old(image[..]), exe, ParseHeader(exe))
              && file[..] == Rebased(exe)
  {
    hide Put, Loaded, Relocated, TableSafe, ToLe, U16At, U32At;
    var exe := file[..];
    if !Accepted(exe) {
      return false;
    }
    var h := ParseHeader(exe);
    PutInPlace(image, 0, exe[..h.headerSize]);
    LoadSections(image, exe, h.secs);
    ApplyRelocations(image, LOAD_BASE, h.imageBase, h.dirCount, h.relocVa, h.relocSize);
    PutInPlace(image, h.nt + 48, ToLe(LOAD_BASE, 8));
    PutInPlace(file, h.nt + 48, ToLe(LOAD_BASE, 8));
    return true;
  }

  // ---- the headers as a linker lays them out ----

  /** The fields the loader looks at, and the bytes between them it does not. */
  datatype Layout = Layout(dosMagic: U16, stub: seq<Byte>, signature: U32, machine: seq<Byte>, stamp: seq<Byte>,
                           optSize: U16, flags: seq<Byte>, magic: U16, code: seq<Byte>, versions: seq<Byte>,
                           checksum: seq<Byte>, subsystem: U16, stack: seq<Byte>, dirs: seq<Byte>, h: Header) {
    predicate Whole() {
      && |stub| == 58 && |machine| == 2 && |stamp| == 12 && |flags| == 2 && |code| == 22 && |versions| == 28
      && |checksum| == 4 && |stack| == 38 && |dirs| == 40 && h.nt < 0x1_0000_0000 && |h.secs| < 0x1_0000
    }

    function Dos(): seq<Byte>
      requires Whole()
    {
      ToLe(dosMagic, 2) + stub + ToLe(h.nt, 4)
    }

    /** Signature and file header. */
    function FileHeader(): (s: seq<Byte>)
      requires Whole()
      ensures |s| == 24
    {
      ToLe(signature, 4) + machine + ToLe(|h.secs|, 2) + stamp + ToLe(optSize, 2) + flags
    }

    /** The optional header up to the relocation directory. */
    function Optional(): (s: seq<Byte>)
      requires Whole()
      ensures |s| == 160
    {
      ToLe(magic, 2) + code + ToLe(h.imageBase, 8) + versions + ToLe(h.headerSize, 4) + checksum
      + ToLe(subsystem, 2) + stack + ToLe(h.dirCount, 4) + dirs + ToLe(h.relocVa, 4) + ToLe(h.relocSize, 4)
    }
  }

  /** A section header: name, virtual size and address, raw size and position, and what is not looked at. */
  predicate HoldsSection(exe: seq<Byte>, at: nat, s: Section) {
    && at + 40 <= |exe|
    && exe[at + 8..at + 24] == ToLe(s.virtSize, 4) + ToLe(s.va, 4) + ToLe(s.rawSize, 4) + ToLe(s.raw, 4)
  }

  /** The file starts with these headers. */
  predicate Carries(exe: seq<Byte>, l: Layout) {
    && l.Whole() && Holds(exe, 0, l.Dos()) && Holds(exe, l.h.nt, l.FileHeader() + l.Optional())
    && l.h.nt + 264 <= |exe|
    && forall i :: 0 <= i < |l.h.secs| ==> HoldsSection(exe, l.h.nt + 24 + l.optSize + 40 * i, l.h.secs[i])
  }

  lemma ReadsDos(exe: seq<Byte>, l: Layout)
    requires l.Whole() && Holds(exe, 0, l.Dos())
    ensures 64 <= |exe| && U16At(exe, 0) == l.dosMagic && U32At(exe, 60) == l.h.nt
  {
    hide ToLe, U16At, U32At, Holds;
    var data := l.Dos();
    HeldLength(exe, 0, data);
    assert data[0..2] == ToLe(l.dosMagic, 2) && data[60..64] == ToLe(l.h.nt, 4);
    HoldsPart(exe, 0, data, 0, ToLe(l.dosMagic, 2));
    HoldsPart(exe, 0, data, 60, ToLe(l.h.nt, 4));
    HoldsNumber(exe, 0, l.dosMagic);
    HoldsNumber(exe, 60, l.h.nt);
  }

  lemma ReadsFileHeader(exe: seq<Byte>, l: Layout)
    requires l.Whole() && Holds(exe, l.h.nt, l.FileHeader())
    ensures l.h.nt + 24 <= |exe| && U32At(exe, l.h.nt) == l.signature
    ensures U16At(exe, l.h.nt + 6) == |l.h.secs| && U16At(exe, l.h.nt + 20) == l.optSize
  {
    hide ToLe, U16At, U32At, Holds;
    var data, nt := l.FileHeader(), l.h.nt;
    HeldLength(exe, nt, data);
    assert data[0..4] == ToLe(l.signature, 4);
    assert data[6..8] == ToLe(|l.h.secs|, 2);
    assert data[20..22] == ToLe(l.optSize, 2);
    HoldsPart(exe, nt, data, 0, ToLe(l.signature, 4));
    HoldsPart(exe, nt, data, 6, ToLe(|l.h.secs|, 2));
    HoldsPart(exe, nt, data, 20, ToLe(l.optSize, 2));
    HoldsNumber(exe, nt, l.signature);
    HoldsNumber(exe, nt + 6, |l.h.secs|);
    HoldsNumber(exe, nt + 20, l.optSize);
  }

  lemma ReadsOptional(exe: seq<Byte>, l: Layout)
    requires l.Whole() && Holds(exe, l.h.nt + 24, l.Optional())
    ensures l.h.nt + 24 + 160 <= |exe|
    ensures var opt, h := l.h.nt + 24, l.h;
            && U16At(exe, opt) == l.magic && U64At(exe, opt + 24) == h.imageBase
            && U32At(exe, opt + 60) == h.headerSize && U16At(exe, opt + 68) == l.subsystem
            && U32At(exe, opt + 108) == h.dirCount && U32At(exe, opt + 152) == h.relocVa
            && U32At(exe, opt + 156) == h.relocSize
  {
    hide ToLe, U16At, U32At, U64At, Holds;
    var data, opt, h := l.Optional(), l.h.nt + 24, l.h;
    HeldLength(exe, opt, data);
    assert data[0..2] == ToLe(l.magic, 2);
    assert data[24..32] == ToLe(h.imageBase, 8);
    assert data[60..64] == ToLe(h.headerSize, 4);
    assert data[68..70] == ToLe(l.subsystem, 2);
    assert data[108..112] == ToLe(h.dirCount, 4);
    assert data[152..156] == ToLe(h.relocVa, 4);
    assert data[156..160] == ToLe(h.relocSize, 4);
    HoldsPart(exe, opt, data, 0, ToLe(l.magic, 2));
    HoldsPart(exe, opt, data, 24, ToLe(h.imageBase, 8));
    HoldsPart(exe, opt, data, 60, ToLe(h.headerSize, 4));
    HoldsPart(exe, opt, data, 68, ToLe(l.subsystem, 2));
    HoldsPart(exe, opt, data, 108, ToLe(h.dirCount, 4));
    HoldsPart(exe, opt, data, 152, ToLe(h.relocVa, 4));
    HoldsPart(exe, opt, data, 156, ToLe(h.relocSize, 4));
    HoldsNumber(exe, opt, l.magic);
    HoldsNumber(exe, opt + 24, h.imageBase);
    HoldsNumber(exe, opt + 60, h.headerSize);
    HoldsNumber(exe, opt + 68, l.subsystem);
    HoldsNumber(exe, opt + 108, h.dirCount);
    HoldsNumber(exe, opt + 152, h.relocVa);
    HoldsNumber(exe, opt + 156, h.relocSize);
  }

  lemma ReadsSection(exe: seq<Byte>, at: nat, s: Section)
    requires HoldsSection(exe, at, s)
    ensures SectionAt(exe, at) == s
  {
    hide ToLe, U32At, Holds;
    var data := ToLe(s.virtSize, 4) + ToLe(s.va, 4) + ToLe(s.rawSize, 4) + ToLe(s.raw, 4);
    HoldsAt(exe, at + 8, data);
    FourWords(ToLe(s.virtSize, 4), ToLe(s.va, 4), ToLe(s.rawSize, 4), ToLe(s.raw, 4));
    HoldsPart(exe, at + 8, data, 0, ToLe(s.virtSize, 4));
    HoldsPart(exe, at + 8, data, 4, ToLe(s.va, 4));
    HoldsPart(exe, at + 8, data, 8, ToLe(s.rawSize, 4));
    HoldsPart(exe, at + 8, data, 12, ToLe(s.raw, 4));
    HoldsNumber(exe, at + 8, s.virtSize);
    HoldsNumber(exe, at + 12, s.va);
    HoldsNumber(exe, at + 16, s.rawSize);
    HoldsNumber(exe, at + 20, s.raw);
  }

  /** The loader reads from a file the headers it carries, and accepts it by four of the fields. */
  lemma HeadersReadBack(exe: seq<Byte>, l: Layout)
    requires Carries(exe, l)
    requires l.h.nt + 24 + l.optSize + 40 * |l.h.secs| <= |exe|
    ensures HeadersInside(exe) && ParseHeader(exe) == l.h
    ensures Accepted(exe) <==>
            l.dosMagic == 0x5A4D && l.signature == 0x4550 && l.magic == 0x20B && l.subsystem == 10
  {
    hide U16At, U32At, U64At, Holds, Layout.Dos, Layout.FileHeader, Layout.Optional, HoldsSection, SectionAt;
    ReadsDos(exe, l);
    var data := l.FileHeader() + l.Optional();
    HoldsPart(exe, l.h.nt, data, 0, l.FileHeader());
    HoldsPart(exe, l.h.nt, data, 24, l.Optional());
    ReadsFileHeader(exe, l);
    ReadsOptional(exe, l);
    forall i | 0 <= i < |l.h.secs| ensures SectionAt(exe, l.h.nt + 24 + l.optSize + 40 * i) == l.h.secs[i] {
      ReadsSection(exe, l.h.nt + 24 + l.optSize + 40 * i, l.h.secs[i]);
    }
    assert ParseHeader(exe).secs == l.h.secs;
  }

  /** The file with the load base in its optional header. */
  function Rebased(exe: seq<Byte>): (exe': seq<Byte>)
    requires HeadersInside(exe)
    ensures |exe'| == |exe|
  {
    Put(exe, ParseHeader(exe).nt + 48, ToLe(LOAD_BASE, 8))
  }

  /** Writing the new base into a file changes no other field the loader reads. */
  lemma HeaderRebased(exe: seq<Byte>)
    requires HeadersInside(exe) && U32At(exe, 60) >= 64 && U16At(exe, U32At(exe, 60) + 20) >= 32
    ensures HeadersInside(Rebased(exe))
    ensures ParseHeader(Rebased(exe)) == ParseHeader(exe).(imageBase := 0x120_0000)
  {
    hide Put, ToLe, FromLe;
    var h, nt, base := ParseHeader(exe), U32At(exe, 60), ToLe(LOAD_BASE, 8);
    var exe', at := Rebased(exe), nt + 48;
    PutOther(exe, at, base, 60, 4);
    PutOther(exe, at, base, nt + 6, 2);
    PutOther(exe, at, base, nt + 20, 2);
    PutOther(exe, at, base, nt + 84, 4);
    PutOther(exe, at, base, nt + 132, 4);
    PutOther(exe, at, base, nt + 176, 4);
    PutOther(exe, at, base, nt + 180, 4);
    PutSame(exe, at, base);
    WidthBounds();
    FromToLe(LOAD_BASE, 8);
    forall i | 0 <= i < |h.secs| ensures ParseHeader(exe').secs[i] == h.secs[i] {
      SectionStays(exe, at, base, nt + 24 + U16At(exe, nt + 20) + 40 * i);
    }
  }

  lemma SectionStays(exe: seq<Byte>, at: nat, data: seq<Byte>, x: nat)
    requires at + |data| <= x && x + 40 <= |exe|
    ensures SectionAt(Put(exe, at, data), x) == SectionAt(exe, x)
  {
    hide Put, FromLe;
    PutOther(exe, at, data, x + 8, 4);
    PutOther(exe, at, data, x + 12, 4);
    PutOther(exe, at, data, x + 16, 4);
    PutOther(exe, at, data, x + 20, 4);
  }

  /** The loaded image carries the new base in the same place. */
  lemma ImageRebased(img: seq<Byte>, exe: seq<Byte>, h: Header)
    requires Fits(img, exe, h)
    ensures U64At(Image(img, exe, h), h.nt + 24 + 24) == 0x120_0000
  {
    hide Put, ToLe, FromLe, Loaded, Relocated;
    var placed := Loaded(Put(img, 0, exe[..h.headerSize]), exe, h.secs);
    var moved := Relocated(placed, LOAD_BASE, h.imageBase, h.dirCount, h.relocVa, h.relocSize);
    PutSame(moved, h.nt + 48, ToLe(LOAD_BASE, 8));
    WidthBounds();
    FromToLe(LOAD_BASE, 8);
  }

  // ---- end to end ----

  /** The table of the file: it has one, laid out as `blocks` inside the raw data of section `j`. */
  predicate HasBlocks(exe: seq<Byte>, h: Header, j: nat, blocks: seq<Block>) {
    && j < |h.secs| && h.dirCount > 5 && h.relocVa != 0 && blocks != [] && Sized(blocks)
    && h.relocSize == |Encoded(blocks)|
    && var s := h.secs[j];
    && s.va <= h.relocVa && h.relocVa + h.relocSize <= s.va + s.rawSize
    && Holds(exe, s.raw + (h.relocVa - s.va), Encoded(blocks))
  }

  function Placed(img: seq<Byte>, exe: seq<Byte>, h: Header): (p: seq<Byte>)
    requires Fits(img, exe, h)
    ensures |p| == |img|
  {
    Loaded(Put(img, 0, exe[..h.headerSize]), exe, h.secs)
  }

  lemma HasBlocksHasTable(exe: seq<Byte>, h: Header, j: nat, blocks: seq<Block>)
    requires HasBlocks(exe, h, j, blocks)
    ensures HasTable(h.dirCount, h.relocVa, h.relocSize)
  {
    hide Holds;
    assert |blocks[0].Encoded()| >= 8;
  }

  /** Once loaded, the table names the targets of its blocks. */
  lemma LoadedTargets(img: seq<Byte>, exe: seq<Byte>, h: Header, j: nat, blocks: seq<Block>)
    requires Fits(img, exe, h) && DisjointSections(h.secs) && HasBlocks(exe, h, j, blocks)
    ensures Names(Placed(img, exe, h), h.relocVa, h.relocVa + h.relocSize, AllTargets(blocks))
  {
    hide Loaded, Put, Encoded, AllTargets, TableInside, TableSlots, TableEnd;
    var placed := Placed(img, exe, h);
    RawBytes(Put(img, 0, exe[..h.headerSize]), exe, h.secs, j, h.relocVa, h.relocSize);
    TableSlotsAre(placed, h.relocVa, h.relocVa + h.relocSize, blocks);
  }

  /**
    End to end: a pointer stored in the raw data of a section, listed in the file's relocation
    table as a fixup of kind 10, and equal to the linked base plus an RVA, is found in the
    loaded image at the section's place, equal to the load base plus the same RVA.
   */
  lemma LoadedPointersMove(img: seq<Byte>, exe: seq<Byte>, h: Header, j: nat, blocks: seq<Block>,
                           i: nat, slot: nat, rva: nat)
    requires Fits(img, exe, h) && DisjointSections(h.secs) && HasBlocks(exe, h, j, blocks)
    requires DisjointSlots(AllTargets(blocks)) && slot in AllTargets(blocks)
    requires i < |h.secs|
    requires var s := h.secs[i];
             && s.va <= slot && slot + 8 <= s.va + s.rawSize
             && Apart(slot, 8, h.nt + 48, 8)
             && U64At(exe, s.raw + (slot - s.va)) == (h.imageBase + rva) % M64
    ensures slot + 8 <= |img| && U64At(Image(img, exe, h), slot) == (0x120_0000 + rva) % M64
  {
    hide Put, Loaded, Patched, FromLe, ToLe, TableSlots, TableInside, TableEnd, Delta, AllTargets, HasBlocks;
    var placed, slots := Placed(img, exe, h), AllTargets(blocks);
    HasBlocksHasTable(exe, h, j, blocks);
    LoadedTargets(img, exe, h, j, blocks);
    var k :| 0 <= k < |slots| && slots[k] == slot;
    RawPointer(Put(img, 0, exe[..h.headerSize]), exe, h.secs, i, slot);
    RelocationKeepsMeaning(placed, slots, LOAD_BASE, h.imageBase, k, rva);
    var moved := Patched(placed, slots, Delta(LOAD_BASE, h.imageBase));
    PutOther(moved, h.nt + 48, ToLe(LOAD_BASE, 8), slot, 8);
  }

  /** And nothing else moves: bytes of a section apart from every target and from the base field are the file's. */
  lemma LoadedBytesStay(img: seq<Byte>, exe: seq<Byte>, h: Header, j: nat, blocks: seq<Block>,
                        i: nat, at: nat, n: nat)
    requires Fits(img, exe, h) && DisjointSections(h.secs) && HasBlocks(exe, h, j, blocks)
    requires i < |h.secs| && h.secs[i].va <= at && at + n <= h.secs[i].va + h.secs[i].rawSize
    requires Apart(at, n, h.nt + 48, 8)
    requires forall k :: 0 <= k < |AllTargets(blocks)| ==> Apart(AllTargets(blocks)[k], 8, at, n)
    ensures var from := h.secs[i].raw + (at - h.secs[i].va);
            at + n <= |img| && Image(img, exe, h)[at..at + n] == exe[from..from + n]
  {
    hide Put, Loaded, Patched, FromLe, ToLe, TableSlots, TableInside, TableEnd, Delta, AllTargets, HasBlocks;
    var placed, slots := Placed(img, exe, h), AllTargets(blocks);
    HasBlocksHasTable(exe, h, j, blocks);
    LoadedTargets(img, exe, h, j, blocks);
    RawBytes(Put(img, 0, exe[..h.headerSize]), exe, h.secs, i, at, n);
    PatchedOther(placed, slots, Delta(LOAD_BASE, h.imageBase), at, n);
    var moved := Patched(placed, slots, Delta(LOAD_BASE, h.imageBase));
    PutOther(moved, h.nt + 48, ToLe(LOAD_BASE, 8), at, n);
  }

  /** A file without a relocation directory, or with an empty one, is only placed. */
  lemma LoadedUnmoved(img: seq<Byte>, exe: seq<Byte>, h: Header, i: nat, at: nat, n: nat)
    requires Fits(img, exe, h) && DisjointSections(h.secs)
    requires h.dirCount <= 5 || h.relocSize == 0 || h.relocVa == 0
    requires i < |h.secs| && h.secs[i].va <= at && at + n <= h.secs[i].va + h.secs[i].rawSize
    requires Apart(at, n, h.nt + 48, 8)
    ensures var from := h.secs[i].raw + (at - h.secs[i].va);
            at + n <= |img| && Image(img, exe, h)[at..at + n] == exe[from..from + n]
  {
    hide Put, Loaded, ToLe, TableSafe;
    RawBytes(Put(img, 0, exe[..h.headerSize]), exe, h.secs, i, at, n);
    PutOther(Placed(img, exe, h), h.nt + 48, ToLe(LOAD_BASE, 8), at, n);
  }

  lemma RawBytes(img: seq<Byte>, exe: seq<Byte>, secs: seq<Section>, i: nat, at: nat, n: nat)
    requires SectionsInside(img, exe, secs) && DisjointSections(secs) && i < |secs|
    requires secs[i].va <= at && at + n <= secs[i].va + secs[i].rawSize
    ensures at + n <= |img|
    ensures var from := secs[i].raw + (at - secs[i].va);
            Loaded(img, exe, secs)[at..at + n] == exe[from..from + n]
  {
    hide Loaded;
    var s, out := secs[i], Loaded(img, exe, secs);
    SectionInPlace(img, exe, secs, i);
    var d := at - s.va;
    SliceSlice(out, s.va, s.va + s.Extent(), d, n);
    SliceSlice(exe, s.raw, s.raw + s.rawSize, d, n);
    assert s.Bytes(exe)[d..d + n] == exe[s.raw..s.raw + s.rawSize][d..d + n];
  }

  lemma RawPointer(img: seq<Byte>, exe: seq<Byte>, secs: seq<Section>, i: nat, slot: nat)
    requires SectionsInside(img, exe, secs) && DisjointSections(secs) && i < |secs|
    requires secs[i].va <= slot && slot + 8 <= secs[i].va + secs[i].rawSize
    ensures slot + 8 <= |img|
    ensures U64At(Loaded(img, exe, secs), slot) == U64At(exe, secs[i].raw + (slot - secs[i].va))
  {
    hide Loaded, FromLe;
    RawBytes(img, exe, secs, i, slot, 8);
  }
}
