/**
  GPU resources and TRANSFER_TO_HOST_2D: copying a rectangle of pixels out of a
  scatter-gather list of guest pages into a resource.
 */
module GpuTransfer {
  import opened Bytes
  import opened GuestRam
  import opened Arith

  const BPP := 4
  const MAX_RESOURCE_BYTES := 256 * 1024 * 1024
  const MAX_RESOURCE_DIMENSION := 16384
  const SUPPORTED_FORMATS: set<U32> := {1, 2, 3, 4}
  const TOP := 0x1_0000_0000_0000_0000

  datatype MemEntry = MemEntry(addr: U64, length: U32)

  datatype Rect = Rect(x: U32, y: U32, width: U32, height: U32)

  datatype Resource = Resource(width: U32, height: U32, backing: seq<MemEntry>, data: seq<Byte>, stride: nat)

  function SatAdd(a: nat, b: nat): nat {
    if a + b < TOP then a + b else TOP - 1
  }

  function SatSub(a: nat, b: nat): nat {
    if a > b then a - b else 0
  }

  function SatAdd32(a: U32, b: U32): U32 {
    if a + b < 0x1_0000_0000 then a + b else 0xFFFF_FFFF
  }

  /** True if `rect` lies entirely inside the resource. */
  predicate Contains(res: Resource, rect: Rect) {
    && rect.width != 0 && rect.height != 0
    && rect.x < res.width && rect.y < res.height
    && SatAdd32(rect.x, rect.width) <= res.width
    && SatAdd32(rect.y, rect.height) <= res.height
  }

  /** What every resource in the table satisfies. */
  predicate Shaped(res: Resource) {
    && 0 < res.width <= MAX_RESOURCE_DIMENSION && 0 < res.height <= MAX_RESOURCE_DIMENSION
    && res.stride == BPP * res.width
    && |res.data| == res.stride * res.height <= MAX_RESOURCE_BYTES
    && |res.backing| < 0x1_0000
  }

  /** The attached pages as one byte string. */
  function Backing(r: Ram, pages: seq<MemEntry>): seq<Byte> {
    if pages == [] then []
    else Read(r, pages[0].addr, pages[0].length) + Backing(r, pages[1..])
  }

  /** Every non-empty page is backed by RAM below 2^64. */
  predicate PagesInRam(r: Ram, pages: seq<MemEntry>) {
    && r.start + |r.bytes| <= TOP
    && forall i :: 0 <= i < |pages| && pages[i].length > 0 ==> InRam(r, pages[i].addr, pages[i].length)
  }

  /** Overwrites the front of `out` with the part of `bytes` from `start` on. */
  function Fetch(bytes: seq<Byte>, start: nat, out: seq<Byte>): (s: seq<Byte>)
    ensures |s| == |out|
  {
    if start >= |bytes| then out
    else if start + |out| <= |bytes| then bytes[start..start + |out|]
    else bytes[start..] + out[|bytes| - start..]
  }

  /**
    What copying from the page list does to `out`, page by page: a page is read where it
    is needed, and an address that would pass 2^64 ends the copy.
   */
  function FetchPages(r: Ram, pages: seq<MemEntry>, from: nat, out: seq<Byte>): (s: seq<Byte>)
    ensures |s| == |out|
    decreases |pages|
  {
    if pages == [] || out == [] then out
    else if from >= pages[0].length then FetchPages(r, pages[1..], from - pages[0].length, out)
    else if pages[0].addr + from >= TOP then out
    else
      var n := Min(pages[0].length - from, |out|);
      Read(r, pages[0].addr + from, n) + FetchPages(r, pages[1..], 0, out[n..])
  }

  method ReadBackingRange(mem: GuestMemory, pages: seq<MemEntry>, start: nat, out: array<Byte>)
    requires out != mem.ram && start < TOP
    modifies out
    ensures out[..] == FetchPages(mem.View(), pages, start, old(out[..]))
  {
    hide Read, FetchPages, Progress;
    ghost var r := mem.View();
    ghost var goal := FetchPages(r, pages, start, out[..]);
    var copied, skipped := 0, 0;
    var i := 0;
    ProgressStart(goal, r, pages, start, out[..]);
    assert pages[0..] == pages;
    while i < |pages| && copied < out.Length
      invariant 0 <= i <= |pages| && 0 <= copied <= out.Length
      invariant mem.View() == r
      invariant Progress(goal, out[..], copied, r, pages[i..], SatSub(start, skipped))
    {
      var entry := pages[i];
      var from := SatSub(start, skipped);
      assert pages[i..][0] == entry && pages[i..][1..] == pages[i + 1..];
      if from < entry.length {
        if entry.addr + from >= TOP {
          ProgressStop(goal, out[..], copied, r, pages[i..], from);
          return;
        }
        var n := Min(entry.length - from, out.Length - copied);
        var tmp := mem.ReadBytes(entry.addr + from, n);
        ghost var before := out[..];
        CopyInto(out, copied, tmp);
        ProgressCopy(goal, before, out[..], copied, r, pages[i..], from);
        copied := copied + n;
      } else {
        ProgressSkip(goal, out[..], copied, r, pages[i..], from);
      }
      skipped := SatAdd(skipped, entry.length);
      i := i + 1;
    }
    ProgressStop(goal, out[..], copied, r, pages[i..], SatSub(start, skipped));
  }

  /** `goal` is what `o` becomes once the rest is fetched past `copied`. */
  predicate Progress(goal: seq<Byte>, o: seq<Byte>, copied: nat, r: Ram, pages: seq<MemEntry>, from: nat) {
    copied <= |o| && goal == o[..copied] + FetchPages(r, pages, from, o[copied..])
  }

  lemma ProgressStart(goal: seq<Byte>, r: Ram, pages: seq<MemEntry>, start: nat, o: seq<Byte>)
    requires goal == FetchPages(r, pages, start, o)
    ensures Progress(goal, o, 0, r, pages, start)
  {
    assert o[0..] == o;
  }

  lemma ProgressCopy(goal: seq<Byte>, o: seq<Byte>, o': seq<Byte>, copied: nat, r: Ram, pages: seq<MemEntry>, from: nat)
    requires pages != [] && from < pages[0].length && pages[0].addr + from < TOP && copied < |o|
    requires Progress(goal, o, copied, r, pages, from)
    requires var n := Min(pages[0].length - from, |o| - copied);
             o' == o[..copied] + Read(r, pages[0].addr + from, n) + o[copied + n..]
    ensures Progress(goal, o', copied + Min(pages[0].length - from, |o| - copied), r, pages[1..], 0)
  {
    hide Read;
    var n := Min(pages[0].length - from, |o| - copied);
    assert o'[..copied + n] == o[..copied] + Read(r, pages[0].addr + from, n);
    assert o'[copied + n..] == o[copied..][n..];
  }

  lemma ProgressSkip(goal: seq<Byte>, o: seq<Byte>, copied: nat, r: Ram, pages: seq<MemEntry>, from: nat)
    requires pages != [] && from >= pages[0].length && copied < |o|
    requires Progress(goal, o, copied, r, pages, from)
    ensures Progress(goal, o, copied, r, pages[1..], from - pages[0].length)
  {
  }

  lemma ProgressStop(goal: seq<Byte>, o: seq<Byte>, copied: nat, r: Ram, pages: seq<MemEntry>, from: nat)
    requires Progress(goal, o, copied, r, pages, from)
    requires pages == [] || copied == |o| || (from < pages[0].length && pages[0].addr + from >= TOP)
    ensures goal == o
  {
  }

  // ---- fetching is slicing the joined pages ----

  lemma FetchSkips(page: seq<Byte>, rest: seq<Byte>, from: nat, out: seq<Byte>)
    requires from >= |page|
    ensures Fetch(page + rest, from, out) == Fetch(rest, from - |page|, out)
  {
    if from < |page + rest| {
      assert (page + rest)[from..] == rest[from - |page|..];
    }
  }

  lemma FetchTakes(page: seq<Byte>, rest: seq<Byte>, from: nat, out: seq<Byte>)
    requires from < |page|
    ensures var n := Min(|page| - from, |out|);
            Fetch(page + rest, from, out) == page[from..from + n] + Fetch(rest, 0, out[n..])
  {
    var n := Min(|page| - from, |out|);
    var whole := Fetch(page + rest, from, out);
    var split := page[from..from + n] + Fetch(rest, 0, out[n..]);
    assert |whole| == |split|;
    forall i | 0 <= i < |whole| ensures whole[i] == split[i] {
    }
  }

  /** For pages in RAM, in any number and of any sizes, zero included, fetching slices the joined pages. */
  lemma {:induction false} FetchPagesSlices(r: Ram, pages: seq<MemEntry>, from: nat, out: seq<Byte>)
    requires PagesInRam(r, pages)
    ensures FetchPages(r, pages, from, out) == Fetch(Backing(r, pages), from, out)
    decreases |pages|
  {
    hide Read, Fetch;
    if pages == [] || out == [] {
      FetchNothing(Backing(r, pages), from, out);
    } else {
      var e, page := pages[0], Read(r, pages[0].addr, pages[0].length);
      if from >= e.length {
        FetchSkips(page, Backing(r, pages[1..]), from, out);
        FetchPagesSlices(r, pages[1..], from - e.length, out);
      } else {
        var n := Min(e.length - from, |out|);
        FetchTakes(page, Backing(r, pages[1..]), from, out);
        ReadPart(r, e.addr, e.length, from, n);
        FetchPagesSlices(r, pages[1..], 0, out[n..]);
      }
    }
  }

  lemma FetchNothing(bytes: seq<Byte>, from: nat, out: seq<Byte>)
    requires bytes == [] || out == []
    ensures Fetch(bytes, from, out) == out
  {
  }

  // ---- the size of the backing ----

  /** The running total of page lengths, saturating as the source's does. */
  function BackingLen(pages: seq<MemEntry>): nat {
    if pages == [] then 0
    else SatAdd(BackingLen(pages[..|pages| - 1]), pages[|pages| - 1].length)
  }

  lemma {:induction false} BackingSnoc(r: Ram, pages: seq<MemEntry>, e: MemEntry)
    ensures Backing(r, pages + [e]) == Backing(r, pages) + Read(r, e.addr, e.length)
  {
    hide Read;
    if pages == [] {
      assert (pages + [e])[1..] == [];
    } else {
      assert (pages + [e])[1..] == pages[1..] + [e];
      BackingSnoc(r, pages[1..], e);
    }
  }

  /** Below 65536 pages the total never saturates. */
  lemma {:induction false} BackingLenExact(r: Ram, pages: seq<MemEntry>)
    requires |pages| < 0x1_0000
    ensures BackingLen(pages) == |Backing(r, pages)| <= |pages| * 0xFFFF_FFFF
  {
    hide Read;
    if pages != [] {
      var n := |pages| - 1;
      BackingLenExact(r, pages[..n]);
      assert pages[..n] + [pages[n]] == pages;
      BackingSnoc(r, pages[..n], pages[n]);
    }
  }

  // ---- the rows ----

  function PutRow(data: seq<Byte>, at: nat, row: seq<Byte>): (d: seq<Byte>)
    requires at + |row| <= |data|
    ensures |d| == |data|
  {
    data[..at] + row + data[at + |row|..]
  }

  /** Where row `k` of the rectangle starts in the resource. */
  function RowStart(res: Resource, rect: Rect, k: nat): nat {
    (rect.y + k) * res.stride + rect.x * BPP
  }

  lemma RowFits(res: Resource, rect: Rect, k: nat)
    requires Shaped(res) && Contains(res, rect) && k < rect.height
    ensures rect.x * BPP + rect.width * BPP <= res.stride
    ensures RowStart(res, rect, k) + rect.width * BPP <= |res.data|
  {
    MulGap(res.height, rect.y + k, res.stride);
  }

  /** The row buffer after `k` rows; it is reused from row to row. */
  function RowBuf(r: Ram, res: Resource, base: nat, rowLen: nat, k: nat): (b: seq<Byte>)
    ensures |b| == rowLen
  {
    if k == 0 then Zeros(rowLen)
    else FetchPages(r, res.backing, base + (k - 1) * res.stride, RowBuf(r, res, base, rowLen, k - 1))
  }

  /** The resource's pixels after `k` rows. */
  function Painted(r: Ram, res: Resource, rect: Rect, base: nat, k: nat): (d: seq<Byte>)
    requires Shaped(res) && Contains(res, rect) && k <= rect.height
    ensures |d| == |res.data|
  {
    if k == 0 then res.data
    else
      RowFits(res, rect, k - 1);
      PutRow(Painted(r, res, rect, base, k - 1), RowStart(res, rect, k - 1),
             RowBuf(r, res, base, rect.width * BPP, k))
  }

  /** Copies the rectangle row by row; the clamp against the end of the pixels never bites. */
  method TransferRows(mem: GuestMemory, res: Resource, rect: Rect, base: nat) returns (data: seq<Byte>)
    requires Shaped(res) && Contains(res, rect) && base <= BackingLen(res.backing)
    ensures data == Painted(mem.View(), res, rect, base, rect.height)
  {
    hide Read, FetchPages;
    ghost var r := mem.View();
    BackingLenExact(r, res.backing);
    var rowLen := rect.width * BPP;
    var rowBuf := new Byte[rowLen](_ => 0);
    assert rowBuf[..] == Zeros(rowLen);
    data := res.data;
    for row := 0 to rect.height
      invariant mem.View() == r
      invariant rowBuf[..] == RowBuf(r, res, base, rowLen, row)
      invariant data == Painted(r, res, rect, base, row)
    {
      RowFits(res, rect, row);
      RowBelowTop(res, rect, row);
      ReadBackingRange(mem, res.backing, base + row * res.stride, rowBuf);
      var dst := (rect.y + row) * res.stride + rect.x * BPP;
      var copyLen := if rowLen < |data| - dst then rowLen else |data| - dst;
      assert copyLen == rowLen;
      data := data[..dst] + rowBuf[..copyLen] + data[dst + copyLen..];
    }
  }

  lemma RowBelowTop(res: Resource, rect: Rect, k: nat)
    requires Shaped(res) && Contains(res, rect) && k < rect.height
    ensures 0 <= k * res.stride <= MAX_RESOURCE_BYTES
  {
    MulGap(res.height, k, res.stride);
  }

  // ---- pixel exactness ----

  /** Byte `i` of the resource lies in rows [y, y+rows) and the columns of the rectangle. */
  predicate InRows(res: Resource, rect: Rect, rows: nat, i: nat)
    requires res.stride > 0
  {
    && rect.y <= i / res.stride < rect.y + rows
    && rect.x * BPP <= i % res.stride < (rect.x + rect.width) * BPP
  }

  lemma RowIndex(i: nat, line: nat, stride: nat, lo: nat, n: nat)
    requires stride > 0 && lo + n <= stride
    ensures line * stride + lo <= i < line * stride + lo + n <==> i / stride == line && lo <= i % stride < lo + n
  {
    if line * stride + lo <= i < line * stride + lo + n {
      DivUnique(i, stride, line, i - line * stride);
    }
  }

  /** The joined pages reach to the end of the rectangle's last row. */
  predicate Covers(r: Ram, res: Resource, rect: Rect, offset: nat) {
    && PagesInRam(r, res.backing)
    && rect.height > 0
    && offset + RowStart(res, rect, rect.height - 1) + rect.width * BPP <= |Backing(r, res.backing)|
  }

  lemma CoveredRow(r: Ram, res: Resource, rect: Rect, offset: nat, k: nat)
    requires Covers(r, res, rect, offset) && 0 < k <= rect.height
    ensures var src := offset + RowStart(res, rect, k - 1);
            && src + rect.width * BPP <= |Backing(r, res.backing)|
            && RowBuf(r, res, offset + RowStart(res, rect, 0), rect.width * BPP, k)
            == Backing(r, res.backing)[src..src + rect.width * BPP]
  {
    hide Backing, FetchPages, RowStart, Fetch, PagesInRam;
    var base := offset + RowStart(res, rect, 0);
    var src := offset + RowStart(res, rect, k - 1);
    RowStarts(res, rect, k - 1, rect.height - 1);
    var before := RowBuf(r, res, base, rect.width * BPP, k - 1);
    FetchPagesSlices(r, res.backing, src, before);
    FetchInside(Backing(r, res.backing), src, before);
    assert base + (k - 1) * res.stride == src;
  }

  lemma FetchInside(bytes: seq<Byte>, from: nat, out: seq<Byte>)
    requires from + |out| <= |bytes|
    ensures Fetch(bytes, from, out) == bytes[from..from + |out|]
  {
  }

  lemma RowStarts(res: Resource, rect: Rect, j: nat, k: nat)
    requires j <= k
    ensures RowStart(res, rect, j) == RowStart(res, rect, 0) + j * res.stride
    ensures RowStart(res, rect, j) <= RowStart(res, rect, k)
  {
    assert (rect.y + j) * res.stride == rect.y * res.stride + j * res.stride;
    if j < k {
      MulGap(rect.y + k, rect.y + j, res.stride);
    }
  }

  lemma {:induction false} PaintedExact(r: Ram, res: Resource, rect: Rect, offset: nat, k: nat, i: nat)
    requires Shaped(res) && Contains(res, rect) && Covers(r, res, rect, offset) && k <= rect.height && i < |res.data|
    ensures InRows(res, rect, k, i) ==> offset + i < |Backing(r, res.backing)|
    ensures Painted(r, res, rect, offset + RowStart(res, rect, 0), k)[i]
         == if InRows(res, rect, k, i) then Backing(r, res.backing)[offset + i] else res.data[i]
  {
    hide Backing, FetchPages, RowBuf, RowStart, InRows, Covers;
    if k > 0 {
      PaintedExact(r, res, rect, offset, k - 1, i);
      CoveredRow(r, res, rect, offset, k);
      RowFits(res, rect, k - 1);
    }
    RowsGrow(res, rect, k, i);
  }

  lemma RowsGrow(res: Resource, rect: Rect, k: nat, i: nat)
    requires Shaped(res) && Contains(res, rect) && k <= rect.height
    ensures InRows(res, rect, k, i)
       <==> k > 0 && (InRows(res, rect, k - 1, i)
                      || 0 <= i - RowStart(res, rect, k - 1) < rect.width * BPP)
  {
    if k > 0 {
      RowIndex(i, rect.y + (k - 1), res.stride, rect.x * BPP, rect.width * BPP);
    }
  }

  /**
    When the pages cover the rectangle, every byte inside it is the byte of the joined
    pages `offset` further on, and every byte outside it is untouched.
   */
  lemma TransferIsPixelExact(r: Ram, res: Resource, rect: Rect, offset: nat)
    requires Shaped(res) && Contains(res, rect) && Covers(r, res, rect, offset)
    ensures var data := Painted(r, res, rect, offset + RowStart(res, rect, 0), rect.height);
            && |data| == |res.data|
            && (forall i :: 0 <= i < |data| && InRows(res, rect, rect.height, i) ==>
                  offset + i < |Backing(r, res.backing)| && data[i] == Backing(r, res.backing)[offset + i])
            && (forall i :: 0 <= i < |data| && !InRows(res, rect, rect.height, i) ==> data[i] == res.data[i])
  {
    hide Backing, Painted, Covers, Contains;
    forall i | 0 <= i < |res.data|
      ensures InRows(res, rect, rect.height, i) ==> offset + i < |Backing(r, res.backing)|
      ensures Painted(r, res, rect, offset + RowStart(res, rect, 0), rect.height)[i]
           == if InRows(res, rect, rect.height, i) then Backing(r, res.backing)[offset + i] else res.data[i]
    {
      PaintedExact(r, res, rect, offset, rect.height, i);
    }
  }

  /** In the coordinates of the command: row r, byte c of the rectangle. */
  lemma TransferRowByRow(r: Ram, res: Resource, rect: Rect, offset: nat, row: nat, c: nat)
    requires Shaped(res) && Contains(res, rect) && Covers(r, res, rect, offset)
    requires row < rect.height && c < rect.width * BPP
    ensures var i := RowStart(res, rect, row) + c;
            && i < |res.data| && offset + i < |Backing(r, res.backing)|
            && Painted(r, res, rect, offset + RowStart(res, rect, 0), rect.height)[i]
            == Backing(r, res.backing)[offset + i]
  {
    hide Backing, Painted, Covers, RowStart;
    var i := RowStart(res, rect, row) + c;
    RowFits(res, rect, row);
    PixelInRows(res, rect, row, c);
    PaintedExact(r, res, rect, offset, rect.height, i);
  }

  lemma PixelInRows(res: Resource, rect: Rect, r: nat, c: nat)
    requires Shaped(res) && Contains(res, rect) && r < rect.height && c < rect.width * BPP
    ensures InRows(res, rect, rect.height, RowStart(res, rect, r) + c)
  {
    RowIndex(RowStart(res, rect, r) + c, rect.y + r, res.stride, rect.x * BPP, rect.width * BPP);
  }

  // ---- transfers that are not covered ----

  /**
    What column c of the row buffer holds after `k` rows: the byte of the last of those rows
    that still reached into the pages, or 0 if none did.
   */
  function Latest(bytes: seq<Byte>, base: nat, stride: nat, c: nat, k: nat): Byte {
    if k == 0 then 0
    else if base + (k - 1) * stride + c < |bytes| then bytes[base + (k - 1) * stride + c]
    else Latest(bytes, base, stride, c, k - 1)
  }

  /** `j` is the last row before `k` whose column c lies inside the pages. */
  predicate LastInside(bytes: seq<Byte>, base: nat, stride: nat, c: nat, k: nat, j: nat) {
    j < k && base + j * stride + c < |bytes| && forall m :: j < m < k ==> base + m * stride + c >= |bytes|
  }

  /** It is the byte of the last row inside the pages or, when no row is, 0. */
  lemma {:induction false} LatestIs(bytes: seq<Byte>, base: nat, stride: nat, c: nat, k: nat)
    ensures if exists j: nat :: LastInside(bytes, base, stride, c, k, j)
            then forall j: nat | LastInside(bytes, base, stride, c, k, j) ::
                   Latest(bytes, base, stride, c, k) == bytes[base + j * stride + c]
            else Latest(bytes, base, stride, c, k) == 0 && forall j :: 0 <= j < k ==> base + j * stride + c >= |bytes|
    decreases k
  {
    if k > 0 {
      var m := k - 1;
      LatestIs(bytes, base, stride, c, m);
      if base + m * stride + c < |bytes| {
        assert LastInside(bytes, base, stride, c, k, m);
        forall j: nat | LastInside(bytes, base, stride, c, k, j) ensures j == m {
        }
      } else {
        forall j: nat ensures LastInside(bytes, base, stride, c, k, j) <==> LastInside(bytes, base, stride, c, m, j) {
          if LastInside(bytes, base, stride, c, m, j) {
            forall i | j < i < k ensures base + i * stride + c >= |bytes| {
            }
          }
        }
      }
    }
  }

  lemma FetchIndex(bytes: seq<Byte>, start: nat, out: seq<Byte>, c: nat)
    requires c < |out|
    ensures Fetch(bytes, start, out)[c] == if start + c < |bytes| then bytes[start + c] else out[c]
  {
  }

  lemma {:induction false} RowBufAny(r: Ram, res: Resource, base: nat, rowLen: nat, k: nat, c: nat)
    requires PagesInRam(r, res.backing) && c < rowLen
    ensures RowBuf(r, res, base, rowLen, k)[c] == Latest(Backing(r, res.backing), base, res.stride, c, k)
    decreases k
  {
    hide Backing, FetchPages, Fetch, PagesInRam;
    if k > 0 {
      RowBufAny(r, res, base, rowLen, k - 1, c);
      var before := RowBuf(r, res, base, rowLen, k - 1);
      assert base + (k - 1) * res.stride >= 0;
      FetchPagesSlices(r, res.backing, base + (k - 1) * res.stride, before);
      FetchIndex(Backing(r, res.backing), base + (k - 1) * res.stride, before, c);
    }
  }

  /** Row and column of byte i inside the rectangle. */
  function RowOf(res: Resource, rect: Rect, i: nat): int
    requires res.stride > 0
  {
    i / res.stride - rect.y
  }

  function ColumnOf(res: Resource, rect: Rect, i: nat): int
    requires res.stride > 0
  {
    i % res.stride - rect.x * BPP
  }

  lemma RowAndColumn(res: Resource, rect: Rect, k: nat, i: nat)
    requires Shaped(res) && Contains(res, rect) && 0 < k <= rect.height
    requires 0 <= i - RowStart(res, rect, k - 1) < rect.width * BPP
    ensures RowOf(res, rect, i) == k - 1 && ColumnOf(res, rect, i) == i - RowStart(res, rect, k - 1)
  {
    RowIndex(i, rect.y + (k - 1), res.stride, rect.x * BPP, rect.width * BPP);
    var line := rect.y + (k - 1);
    assert i == line * res.stride + i % res.stride;
  }

  /**
    Any transfer over pages in RAM, covered or not: byte c of row j of the rectangle is the
    byte of the latest row up to j that reaches into the joined pages, or 0 if there is none;
    bytes outside the rectangle are untouched.
   */
  lemma {:induction false} TransferYields(r: Ram, res: Resource, rect: Rect, base: nat, k: nat, i: nat)
    requires Shaped(res) && Contains(res, rect) && PagesInRam(r, res.backing) && k <= rect.height && i < |res.data|
    ensures InRows(res, rect, k, i) ==> RowOf(res, rect, i) >= 0 && ColumnOf(res, rect, i) >= 0
    ensures Painted(r, res, rect, base, k)[i]
         == if InRows(res, rect, k, i)
            then Latest(Backing(r, res.backing), base, res.stride, ColumnOf(res, rect, i), RowOf(res, rect, i) + 1)
            else res.data[i]
    decreases k
  {
    hide Backing, RowBuf, RowStart, InRows, Latest, Contains, RowOf, ColumnOf, PagesInRam;
    RowsGrow(res, rect, k, i);
    NotBefore(res, rect, k, i);
    if k > 0 {
      TransferYields(r, res, rect, base, k - 1, i);
      RowFits(res, rect, k - 1);
      var c := i - RowStart(res, rect, k - 1);
      if 0 <= c < rect.width * BPP {
        RowAndColumn(res, rect, k, i);
        RowBufAny(r, res, base, rect.width * BPP, k, c);
      }
    }
  }

  lemma NotBefore(res: Resource, rect: Rect, k: nat, i: nat)
    requires res.stride > 0
    ensures InRows(res, rect, k, i) ==> RowOf(res, rect, i) >= 0 && ColumnOf(res, rect, i) >= 0
  {
  }

  /** Every byte of the rectangle is the byte of the joined pages `offset` further on. */
  predicate Exact(r: Ram, res: Resource, rect: Rect, offset: nat, data: seq<Byte>)
    requires res.stride > 0
  {
    forall i :: 0 <= i < |data| && InRows(res, rect, rect.height, i) ==>
      offset + i < |Backing(r, res.backing)| && data[i] == Backing(r, res.backing)[offset + i]
  }

  /** A transfer over pages in RAM is exact if and only if they reach to the end of the rectangle. */
  lemma ExactIffCovered(r: Ram, res: Resource, rect: Rect, offset: nat)
    requires Shaped(res) && Contains(res, rect) && PagesInRam(r, res.backing)
    ensures Exact(r, res, rect, offset, Painted(r, res, rect, offset + RowStart(res, rect, 0), rect.height))
       <==> Covers(r, res, rect, offset)
  {
    hide Backing, Painted, RowStart, InRows, PagesInRam;
    if Covers(r, res, rect, offset) {
      TransferIsPixelExact(r, res, rect, offset);
    } else {
      var row, c := rect.height - 1, rect.width * BPP - 1;
      RowFits(res, rect, row);
      PixelInRows(res, rect, row, c);
      var last := RowStart(res, rect, row) + c;
      assert InRows(res, rect, rect.height, last) && offset + last >= |Backing(r, res.backing)|;
    }
  }

  /**
    Coverage is needed: a row past the end of the pages repeats the row before it,
    because the row buffer is not cleared.
   */
  lemma UncoveredRowIsStale(r: Ram, res: Resource, page: MemEntry)
    requires Shaped(res) && res.width == 1 && res.height == 2 && res.backing == [page]
    requires page.length == 4 && PagesInRam(r, [page])
    ensures Painted(r, res, Rect(0, 0, 1, 2), 0, 2) == Read(r, page.addr, 4) + Read(r, page.addr, 4)
  {
    hide Read, FetchPages, Fetch;
    var rect, bytes := Rect(0, 0, 1, 2), Read(r, page.addr, 4);
    OnePage(r, page);
    assert RowBuf(r, res, 0, 4, 1) == bytes;
    assert RowBuf(r, res, 0, 4, 2) == bytes;
    RowFits(res, rect, 0);
    RowFits(res, rect, 1);
    assert Painted(r, res, rect, 0, 1) == bytes + res.data[4..];
  }

  lemma OnePage(r: Ram, page: MemEntry)
    requires page.length == 4 && PagesInRam(r, [page])
    ensures forall out: seq<Byte> :: |out| == 4 ==>
              FetchPages(r, [page], 0, out) == Read(r, page.addr, 4) && FetchPages(r, [page], 4, out) == out
  {
    hide Read;
    assert Backing(r, [page]) == Read(r, page.addr, 4);
    forall out: seq<Byte> | |out| == 4
      ensures FetchPages(r, [page], 0, out) == Read(r, page.addr, 4) && FetchPages(r, [page], 4, out) == out
    {
      FetchPagesSlices(r, [page], 0, out);
      FetchPagesSlices(r, [page], 4, out);
    }
  }
}
