/**
  GPU commands as a driver writes them, byte by byte, and what comes back: the path from a
  picture in guest pages to the display, and the responses the driver reads.
 */
module GpuCommands {
  import opened Arith
  import opened Bytes
  import opened GuestRam
  import opened Virtqueue
  import opened Chain
  import opened GpuTransfer
  import opened GpuDevice

  // ---- the driver's encoding ----

  /** Command code, then flags, fence and context, which the device does not look at. */
  function Header(code: U32, rest: seq<Byte>): (s: seq<Byte>)
    requires |rest| == 20
    ensures |s| == 24
  {
    ToLe(code, 4) + rest
  }

  function RectBytes(r: Rect): (s: seq<Byte>)
    ensures |s| == 16
  {
    ToLe(r.x, 4) + ToLe(r.y, 4) + ToLe(r.width, 4) + ToLe(r.height, 4)
  }

  /** A page: address, length, and four bytes of padding. */
  function PageBytes(e: MemEntry): (s: seq<Byte>)
    ensures |s| == 16
  {
    ToLe(e.addr, 8) + ToLe(e.length, 4) + Zeros(4)
  }

  function PagesBytes(pages: seq<MemEntry>): (s: seq<Byte>)
    ensures |s| == 16 * |pages|
  {
    if pages == [] then [] else PageBytes(pages[0]) + PagesBytes(pages[1..])
  }

  /** A picture in guest pages, and the scanout and place it is to be shown at. */
  datatype Picture = Picture(id: U32, format: U32, width: U32, height: U32, pages: seq<MemEntry>,
                             scanout: U32, at: Rect) {
    function Size(): nat { 4 * width * height }
    function Whole(): Rect { Rect(0, 0, width, height) }
  }

  function CreateBytes(p: Picture, rest: seq<Byte>): seq<Byte>
    requires |rest| == 20
  {
    Header(0x0101, rest) + ToLe(p.id, 4) + ToLe(p.format, 4) + ToLe(p.width, 4) + ToLe(p.height, 4)
  }

  function AttachBytes(p: Picture, rest: seq<Byte>): seq<Byte>
    requires |rest| == 20
  {
    Header(0x0106, rest) + ToLe(p.id, 4) + ToLe(|p.pages|, 4) + PagesBytes(p.pages)
  }

  function BindBytes(p: Picture, rest: seq<Byte>): seq<Byte>
    requires |rest| == 20
  {
    Header(0x0103, rest) + RectBytes(p.at) + ToLe(p.scanout, 4) + ToLe(p.id, 4)
  }

  function TransferBytes(p: Picture, rest: seq<Byte>): seq<Byte>
    requires |rest| == 20
  {
    Header(0x0105, rest) + RectBytes(p.Whole()) + ToLe(0, 8) + ToLe(p.id, 4) + Zeros(4)
  }

  function FlushBytes(p: Picture, rest: seq<Byte>): seq<Byte>
    requires |rest| == 20
  {
    Header(0x0104, rest) + RectBytes(p.Whole()) + ToLe(p.id, 4) + Zeros(4)
  }

  function Commands(p: Picture, rest: seq<Byte>): Script
    requires |rest| == 20
  {
    Script(CreateBytes(p, rest), AttachBytes(p, rest), BindBytes(p, rest), TransferBytes(p, rest), FlushBytes(p, rest))
  }

  // ---- the device's decoding undoes it ----

  lemma U32Reads(b: seq<Byte>, at: nat, v: U32)
    requires at + 4 <= |b| && b[at..at + 4] == ToLe(v, 4)
    ensures U32At(b, at) == v
  {
    hide ToLe, FromLe;
    WidthBounds();
    FromToLe(v, 4);
  }

  lemma U64Reads(b: seq<Byte>, at: nat, v: U64)
    requires at + 8 <= |b| && b[at..at + 8] == ToLe(v, 8)
    ensures U64At(b, at) == v
  {
    hide ToLe, FromLe;
    WidthBounds();
    FromToLe(v, 8);
  }

  lemma RectReads(b: seq<Byte>, at: nat, r: Rect)
    requires at + 16 <= |b| && b[at..at + 16] == RectBytes(r)
    ensures RectAt(b, at) == r
  {
    hide ToLe, U32At;
    FourWords(ToLe(r.x, 4), ToLe(r.y, 4), ToLe(r.width, 4), ToLe(r.height, 4));
    SliceSlice(b, at, at + 16, 0, 4);
    SliceSlice(b, at, at + 16, 4, 4);
    SliceSlice(b, at, at + 16, 8, 4);
    SliceSlice(b, at, at + 16, 12, 4);
    U32Reads(b, at, r.x);
    U32Reads(b, at + 4, r.y);
    U32Reads(b, at + 8, r.width);
    U32Reads(b, at + 12, r.height);
  }

  lemma CreateReads(p: Picture, rest: seq<Byte>)
    requires |rest| == 20
    ensures var b := CreateBytes(p, rest);
            && |b| == 40 && U32At(b, 0) == RESOURCE_CREATE_2D && U32At(b, 24) == p.id
            && U32At(b, 28) == p.format && U32At(b, 32) == p.width && U32At(b, 36) == p.height
  {
    hide ToLe, U32At;
    var b := CreateBytes(p, rest);
    assert b[0..4] == ToLe(0x0101, 4);
    assert b[24..28] == ToLe(p.id, 4) && b[28..32] == ToLe(p.format, 4);
    assert b[32..36] == ToLe(p.width, 4) && b[36..40] == ToLe(p.height, 4);
    U32Reads(b, 0, 0x0101);
    U32Reads(b, 24, p.id);
    U32Reads(b, 28, p.format);
    U32Reads(b, 32, p.width);
    U32Reads(b, 36, p.height);
  }

  lemma {:induction false} PageSlice(pages: seq<MemEntry>, i: nat)
    requires i < |pages|
    ensures PagesBytes(pages)[16 * i..16 * i + 16] == PageBytes(pages[i])
  {
    hide PageBytes;
    if i > 0 {
      PageSlice(pages[1..], i - 1);
      assert PagesBytes(pages)[16 * i..16 * i + 16] == PagesBytes(pages[1..])[16 * (i - 1)..16 * (i - 1) + 16];
    }
  }

  /** No more pages than a request may carry. */
  const MAX_PAGES := 16382

  lemma AttachHeaderReads(p: Picture, rest: seq<Byte>)
    requires |rest| == 20 && |p.pages| <= MAX_PAGES
    ensures var b := AttachBytes(p, rest);
            && |b| == 32 + 16 * |p.pages| && U32At(b, 0) == ATTACH_BACKING && U32At(b, 24) == p.id
            && U32At(b, 28) == |p.pages| && b[32..] == PagesBytes(p.pages)
  {
    hide ToLe, U32At, PagesBytes;
    var b := AttachBytes(p, rest);
    assert b[0..4] == ToLe(0x0106, 4) && b[24..28] == ToLe(p.id, 4) && b[28..32] == ToLe(|p.pages|, 4);
    U32Reads(b, 0, 0x0106);
    U32Reads(b, 24, p.id);
    U32Reads(b, 28, |p.pages|);
  }

  lemma PageReads(b: seq<Byte>, at: nat, e: MemEntry)
    requires at + 16 <= |b| && b[at..at + 16] == PageBytes(e)
    ensures U64At(b, at) == e.addr && U32At(b, at + 8) == e.length
  {
    hide ToLe, U32At, U64At;
    var s := PageBytes(e);
    assert s[0..8] == ToLe(e.addr, 8) && s[8..12] == ToLe(e.length, 4);
    SliceSlice(b, at, at + 16, 0, 8);
    SliceSlice(b, at, at + 16, 8, 4);
    U64Reads(b, at, e.addr);
    U32Reads(b, at + 8, e.length);
  }

  lemma AttachReads(p: Picture, rest: seq<Byte>)
    requires |rest| == 20 && |p.pages| <= MAX_PAGES
    ensures var b := AttachBytes(p, rest); |b| >= 32 && Entries(b) == p.pages
  {
    hide ToLe, U32At, U64At, PagesBytes, PageBytes, AttachBytes;
    var b := AttachBytes(p, rest);
    AttachHeaderReads(p, rest);
    assert EntryCount(b) == |p.pages|;
    forall i | 0 <= i < |p.pages| ensures Entries(b)[i] == p.pages[i] {
      PageSlice(p.pages, i);
      SliceSlice(b, 32, |b|, 16 * i, 16);
      PageReads(b, 32 + 16 * i, p.pages[i]);
    }
  }

  lemma BindReads(p: Picture, rest: seq<Byte>)
    requires |rest| == 20
    ensures var b := BindBytes(p, rest);
            && |b| == 48 && U32At(b, 0) == SET_SCANOUT && RectAt(b, 24) == p.at
            && U32At(b, 40) == p.scanout && U32At(b, 44) == p.id
  {
    hide ToLe, U32At, RectBytes, RectAt;
    var b := BindBytes(p, rest);
    assert b[0..4] == ToLe(0x0103, 4) && b[24..40] == RectBytes(p.at);
    assert b[40..44] == ToLe(p.scanout, 4) && b[44..48] == ToLe(p.id, 4);
    U32Reads(b, 0, 0x0103);
    RectReads(b, 24, p.at);
    U32Reads(b, 40, p.scanout);
    U32Reads(b, 44, p.id);
  }

  lemma TransferReads(p: Picture, rest: seq<Byte>)
    requires |rest| == 20
    ensures var b := TransferBytes(p, rest);
            && |b| == 56 && U32At(b, 0) == TRANSFER_TO_HOST_2D && RectAt(b, 24) == p.Whole()
            && U64At(b, 40) == 0 && U32At(b, 48) == p.id
  {
    hide ToLe, U32At, U64At, RectBytes, RectAt;
    var b := TransferBytes(p, rest);
    assert b[0..4] == ToLe(0x0105, 4) && b[24..40] == RectBytes(p.Whole());
    assert b[40..48] == ToLe(0, 8) && b[48..52] == ToLe(p.id, 4);
    U32Reads(b, 0, 0x0105);
    RectReads(b, 24, p.Whole());
    U64Reads(b, 40, 0);
    U32Reads(b, 48, p.id);
  }

  lemma FlushReads(p: Picture, rest: seq<Byte>)
    requires |rest| == 20
    ensures var b := FlushBytes(p, rest);
            |b| == 48 && U32At(b, 0) == RESOURCE_FLUSH && U32At(b, 40) == p.id
  {
    hide ToLe, U32At, RectBytes;
    var b := FlushBytes(p, rest);
    assert b[0..4] == ToLe(0x0104, 4) && b[40..44] == ToLe(p.id, 4);
    U32Reads(b, 0, 0x0104);
    U32Reads(b, 40, p.id);
  }

  /** The picture is one the device takes, and its pages are there and cover it. */
  predicate Displayable(g: Gpu, r: Ram, p: Picture) {
    && p.id != 0 && p.id !in g.resources && |g.resources| < 64 && p.scanout < 16
    && p.format in {1, 2, 3, 4} && 1 <= p.width <= 16384 && 1 <= p.height <= 16384 && p.Size() <= 256 * 1024 * 1024
    && |p.pages| <= MAX_PAGES && PagesInRam(r, p.pages) && |Backing(r, p.pages)| >= p.Size()
  }

  lemma CommandsAreScript(p: Picture, rest: seq<Byte>)
    requires |rest| == 20 && |p.pages| <= MAX_PAGES && p.scanout < 16
    ensures Scripted(Commands(p, rest), p.id)
  {
    hide U32At, CreateBytes, AttachBytes, BindBytes, TransferBytes, FlushBytes;
    CreateReads(p, rest);
    AttachHeaderReads(p, rest);
    BindReads(p, rest);
    TransferReads(p, rest);
    FlushReads(p, rest);
  }

  lemma CommandsShow(g: Gpu, r: Ram, p: Picture, rest: seq<Byte>)
    requires |rest| == 20 && Displayable(g, r, p)
    ensures Scripted(Commands(p, rest), p.id) && Showable(g, r, Commands(p, rest), p.id)
    ensures Shown(r, Commands(p, rest)) == Blit(Backing(r, p.pages)[..p.Size()], 4 * p.width, p.at)
  {
    hide U32At, U64At, RectAt, Entries, Backing, CreateBytes, AttachBytes, BindBytes, TransferBytes, FlushBytes;
    CommandsAreScript(p, rest);
    CreateReads(p, rest);
    AttachReads(p, rest);
    BindReads(p, rest);
    TransferReads(p, rest);
  }

  /**
    A picture in the guest's pages, described by five commands as bytes in five chains of the
    control queue: after five rounds it is on the display, its bytes those of the pages in
    order, four to a pixel.
   */
  lemma PictureReachesDisplay(h: Host, width: U32, height: U32, p: Picture, rest: seq<Byte>)
    requires Inv(h.gpu) && |rest| == 20
    requires Carries(h, width, height, 0, CreateBytes(p, rest)) && Carries(h, width, height, 1, AttachBytes(p, rest))
    requires Carries(h, width, height, 2, BindBytes(p, rest)) && Carries(h, width, height, 3, TransferBytes(p, rest))
    requires Carries(h, width, height, 4, FlushBytes(p, rest))
    requires Displayable(h.gpu, ControlRounds(3, h, width, height).ram, p)
    ensures var pages := Backing(ControlRounds(3, h, width, height).ram, p.pages);
            ControlRounds(5, h, width, height).gpu.blits
            == h.gpu.blits + [Blit(pages[..p.Size()], 4 * p.width, p.at)]
  {
    hide Carries, ControlRounds, Displayable, Scripted, Showable, Shown, Inv, Backing, CreateBytes, AttachBytes,
      BindBytes, TransferBytes, FlushBytes;
    CommandsShow(h.gpu, ControlRounds(3, h, width, height).ram, p, rest);
    QueueReachesDisplay(h, width, height, Commands(p, rest), p.id);
  }

  // ---- the responses the driver reads ----

  /** A response descriptor in RAM, writable, long enough, and clear of the used ring. */
  predicate Answerable(r: Ram, q: Queue, d: Desc, n: nat) {
    d.Writable() && n <= d.len && InRam(r, d.addr, n) && Apart(d.addr, n, q.usedAddr, 4 + 8 * q.size)
  }

  /** What the chain next on the control queue asks, and where its response goes. */
  ghost predicate Asks(h: Host, bytes: seq<Byte>, d: Desc) {
    && Pending(h.ram, h.q)
    && RequestOf(h.ram, Popped(h.q), NextHead(h.ram, h.q)) == Some(Request(bytes, d))
  }

  lemma ReplyIsRead(h: Host, width: U32, height: U32, bytes: seq<Byte>, d: Desc, reply: seq<Byte>)
    requires Inv(h.gpu) && Asks(h, bytes, d) && |bytes| >= 24 && Answerable(h.ram, h.q, d, |reply|)
    requires reply == ResponseBytes(U32At(bytes, 0), Execute(h.gpu, h.ram, bytes).1, width, height)
    ensures Read(ControlNext(h, width, height).ram, d.addr, |reply|) == reply
  {
    hide RequestOf, Execute, ResponseBytes, Pending, NextHead, PushedRam, Write, Read, Inv;
    PendingQueue(h.ram, h.q);
    InvFacts(h.gpu);
    ReadSame(h.ram, d.addr, reply);
    PushReads(Write(h.ram, d.addr, reply), Popped(h.q), NextHead(h.ram, h.q), |reply|, d.addr, |reply|);
  }

  /** After a command the driver reads its code in a header that is otherwise zero. */
  lemma CodeReachesGuest(h: Host, width: U32, height: U32, bytes: seq<Byte>, d: Desc)
    requires Inv(h.gpu) && Asks(h, bytes, d) && |bytes| >= 24 && U32At(bytes, 0) != 0x0100
    requires Answerable(h.ram, h.q, d, 24)
    ensures Read(ControlNext(h, width, height).ram, d.addr, 24)
         == ToLe(Execute(h.gpu, h.ram, bytes).1, 4) + Zeros(20)
  {
    hide Asks, Execute, ControlNext, Inv, Read, U32At;
    InvFacts(h.gpu);
    ReplyIsRead(h, width, height, bytes, d, ToLe(Execute(h.gpu, h.ram, bytes).1, 4) + Zeros(20));
  }

  /** On the cursor queue: moving and querying are accepted, everything else is refused. */
  lemma CursorCodeReachesGuest(r: Ram, q: Queue)
    requires Pending(r, q)
    requires var d := DescAt(r, q, NextHead(r, q));
             && d.HasNext() && !d.Writable() && d.next < q.size && 24 <= d.len <= MAX_REQUEST_BYTES
             && InRam(r, d.addr, d.len) && Answerable(r, q, DescAt(r, q, d.next), 24)
    ensures var d := DescAt(r, q, NextHead(r, q));
            var code := if Read32(r, d.addr) in {0x010B, 0x010C} then 0x1100 else 0x1201;
            Read(CursorNext(r, q).0, DescAt(r, q, d.next).addr, 24) == ToLe(code, 4) + Zeros(20)
  {
    hide DescAt, Pending, NextHead, PushedRam, Write, Read, ToLe, FromLe;
    PendingQueue(r, q);
    var head := NextHead(r, q);
    var d := DescAt(r, q, head);
    SameDesc(r, q, head);
    SameDesc(r, q, d.next);
    FirstField(r, d.addr, d.len);
    var code: U32 := if Read32(r, d.addr) in {0x010B, 0x010C} then 0x1100 else 0x1201;
    var reply, to := ToLe(code, 4) + Zeros(20), DescAt(r, q, d.next);
    ReadSame(r, to.addr, reply);
    PushReads(Write(r, to.addr, reply), Popped(q), head, 24, to.addr, 24);
  }

  lemma SameDesc(r: Ram, q: Queue, i: U16)
    ensures DescAt(r, Popped(q), i) == DescAt(r, q, i)
  {
    hide Read;
  }

  lemma FirstField(r: Ram, a: nat, n: nat)
    requires n >= 24 && InRam(r, a, n)
    ensures U32At(Read(r, a, n), 0) == Read32(r, a)
  {
    hide FromLe;
    SliceSlice(r.bytes, a - r.start, a - r.start + n, 0, 4);
  }

  /** One display of the window's size at the origin, enabled, and fifteen that are not there. */
  lemma DisplayReachesGuest(h: Host, width: U32, height: U32, bytes: seq<Byte>, d: Desc)
    requires Inv(h.gpu) && Asks(h, bytes, d) && |bytes| >= 24 && U32At(bytes, 0) == 0x0100
    requires Answerable(h.ram, h.q, d, 408)
    ensures var b := Read(ControlNext(h, width, height).ram, d.addr, 408);
            && U32At(b, 0) == 0x1101 && b[4..24] == Zeros(20)
            && RectAt(b, 24) == Rect(0, 0, width, height) && U32At(b, 40) == 1
            && b[44..] == Zeros(364)
  {
    hide Asks, Execute, ControlNext, Inv, Read, U32At, ToLe, RectAt;
    InvFacts(h.gpu);
    var reply := DisplayInfoBytes(width, height);
    ReplyIsRead(h, width, height, bytes, d, reply);
    assert reply[0..4] == ToLe(0x1101, 4) && reply[4..24] == Zeros(20) && reply[44..] == Zeros(364);
    ZeroRect(width, height);
    assert reply[24..40] == RectBytes(Rect(0, 0, width, height));
    assert reply[40..44] == ToLe(1, 4);
    U32Reads(reply, 0, 0x1101);
    RectReads(reply, 24, Rect(0, 0, width, height));
    U32Reads(reply, 40, 1);
  }

  lemma ZeroRect(width: U32, height: U32)
    ensures Zeros(8) + ToLe(width, 4) + ToLe(height, 4) == RectBytes(Rect(0, 0, width, height))
  {
    assert ToLe(0, 1) == [0];
    assert ToLe(0, 2) == [0] + ToLe(0, 1);
    assert ToLe(0, 3) == [0] + ToLe(0, 2);
    assert ToLe(0, 4) == [0] + ToLe(0, 3) == Zeros(4);
    assert Zeros(4) + Zeros(4) == Zeros(8);
  }
}
