/** The GPU command machine: resource table, scanout bindings, and the control queue that drives them. */
module GpuDevice {
  import opened Bytes
  import opened GuestRam
  import opened Virtqueue
  import opened Chain
  import opened GpuTransfer
  import opened Arith
  import R = Retire

  const MAX_SCANOUTS := 16
  const MAX_RESOURCES := 64

  const GET_DISPLAY_INFO: U32 := 0x0100
  const RESOURCE_CREATE_2D: U32 := 0x0101
  const RESOURCE_UNREF: U32 := 0x0102
  const SET_SCANOUT: U32 := 0x0103
  const RESOURCE_FLUSH: U32 := 0x0104
  const TRANSFER_TO_HOST_2D: U32 := 0x0105
  const ATTACH_BACKING: U32 := 0x0106
  const DETACH_BACKING: U32 := 0x0107
  const GET_EDID: U32 := 0x010A
  const UPDATE_CURSOR: U32 := 0x010B
  const CURSOR_GET: U32 := 0x010C

  const OK_NODATA: U32 := 0x1100
  const OK_DISPLAY_INFO: U32 := 0x1101
  const ERR_UNSUPPORTED: U32 := 0x1201
  const ERR_INVALID_ARGUMENT: U32 := 0x1202
  const ERR_INVALID_RESOURCE_ID: U32 := 0x1203

  const HDR := 24
  const ENTRY := 16

  datatype Scanout = Scanout(id: Option<U32>, rect: Rect)
  const NO_SCANOUT := Scanout(None, Rect(0, 0, 0, 0))

  /** One call of the display backend's `blit`. */
  datatype Blit = Blit(data: seq<Byte>, stride: nat, rect: Rect)

  datatype Gpu = Gpu(resources: map<U32, Resource>, scanouts: seq<Scanout>, blits: seq<Blit>)

  // ---- command fields, little endian at fixed offsets ----

  function RectAt(b: seq<Byte>, at: nat): Rect
    requires at + 16 <= |b|
  {
    Rect(U32At(b, at), U32At(b, at + 4), U32At(b, at + 8), U32At(b, at + 12))
  }

  /** The number of page entries an attach command really carries. */
  function EntryCount(b: seq<Byte>): nat
    requires |b| >= 32
  {
    Min(U32At(b, 28), (|b| - 32) / ENTRY)
  }

  function EntryAt(b: seq<Byte>, i: nat): MemEntry
    requires |b| >= 32 && i < EntryCount(b)
  {
    MemEntry(U64At(b, 32 + i * ENTRY), U32At(b, 40 + i * ENTRY))
  }

  function Entries(b: seq<Byte>): (s: seq<MemEntry>)
    requires |b| >= 32
    ensures |s| == EntryCount(b)
  {
    seq(EntryCount(b), i requires 0 <= i < EntryCount(b) => EntryAt(b, i))
  }

  // ---- what each command does ----

  function NewResource(format: U32, width: U32, height: U32): Option<Resource> {
    if format !in SUPPORTED_FORMATS then None
    else if width == 0 || height == 0 then None
    else if width > MAX_RESOURCE_DIMENSION || height > MAX_RESOURCE_DIMENSION then None
    else if width * BPP * height > MAX_RESOURCE_BYTES then None
    else Some(Resource(width, height, [], Zeros(width * BPP * height), width * BPP))
  }

  function Create(g: Gpu, b: seq<Byte>): (Gpu, U32) {
    if |b| < 40 then (g, ERR_INVALID_ARGUMENT)
    else
      var id := U32At(b, 24);
      if id in g.resources then (g, ERR_INVALID_RESOURCE_ID)
      else if |g.resources| >= MAX_RESOURCES then (g, ERR_INVALID_ARGUMENT)
      else
        match NewResource(U32At(b, 28), U32At(b, 32), U32At(b, 36))
        case None => (g, ERR_INVALID_ARGUMENT)
        case Some(res) => (g.(resources := g.resources[id := res]), OK_NODATA)
  }

  /** Every scanout showing `id` goes dark. */
  function Darkened(scanouts: seq<Scanout>, id: U32): (s: seq<Scanout>)
    ensures |s| == |scanouts|
    ensures forall i :: 0 <= i < |s| ==> s[i] == if scanouts[i].id == Some(id) then NO_SCANOUT else scanouts[i]
  {
    seq(|scanouts|, i requires 0 <= i < |scanouts| => if scanouts[i].id == Some(id) then NO_SCANOUT else scanouts[i])
  }

  function Unref(g: Gpu, b: seq<Byte>): (Gpu, U32) {
    if |b| < 28 then (g, ERR_INVALID_ARGUMENT)
    else
      var id := U32At(b, 24);
      (g.(resources := g.resources - {id}, scanouts := Darkened(g.scanouts, id)), OK_NODATA)
  }

  function Bind(g: Gpu, b: seq<Byte>): (Gpu, U32) {
    if |b| < 48 then (g, ERR_INVALID_ARGUMENT)
    else
      var n, id := U32At(b, 40), U32At(b, 44);
      if n >= MAX_SCANOUTS || n >= |g.scanouts| then (g, ERR_INVALID_ARGUMENT)
      else if id != 0 && id !in g.resources then (g, ERR_INVALID_RESOURCE_ID)
      else
        var bound := if id == 0 then NO_SCANOUT else Scanout(Some(id), RectAt(b, 24));
        (g.(scanouts := g.scanouts[n := bound]), OK_NODATA)
  }

  /** The blits that show `res` on every scanout bound to `id`, in scanout order. */
  function Blits(scanouts: seq<Scanout>, id: U32, res: Resource): seq<Blit> {
    if scanouts == [] then []
    else
      var n := |scanouts| - 1;
      Blits(scanouts[..n], id, res) +
      if scanouts[n].id == Some(id) then [Blit(res.data, res.stride, scanouts[n].rect)] else []
  }

  function Flush(g: Gpu, b: seq<Byte>): (Gpu, U32) {
    if |b| < 44 then (g, ERR_INVALID_ARGUMENT)
    else
      var id := U32At(b, 40);
      if id !in g.resources then (g, ERR_INVALID_RESOURCE_ID)
      else (g.(blits := g.blits + Blits(g.scanouts, id, g.resources[id])), OK_NODATA)
  }

  function Transfer(g: Gpu, r: Ram, b: seq<Byte>): (Gpu, U32)
    requires forall id :: id in g.resources ==> Shaped(g.resources[id])
  {
    if |b| < 52 then (g, ERR_INVALID_ARGUMENT)
    else
      var rect, offset, id := RectAt(b, 24), U64At(b, 40), U32At(b, 48);
      if id !in g.resources then (g, ERR_INVALID_RESOURCE_ID)
      else
        var res := g.resources[id];
        if !Contains(res, rect) then (g, ERR_INVALID_ARGUMENT)
        else
          var base := offset + RowStart(res, rect, 0);
          if base >= TOP || base > BackingLen(res.backing) then (g, ERR_INVALID_ARGUMENT)
          else
            var data := Painted(r, res, rect, base, rect.height);
            (g.(resources := g.resources[id := res.(data := data)]), OK_NODATA)
  }

  function Attach(g: Gpu, b: seq<Byte>): (Gpu, U32) {
    if |b| < 32 then (g, ERR_INVALID_ARGUMENT)
    else
      var id := U32At(b, 24);
      if id !in g.resources then (g, ERR_INVALID_RESOURCE_ID)
      else (g.(resources := g.resources[id := g.resources[id].(backing := Entries(b))]), OK_NODATA)
  }

  function Detach(g: Gpu, b: seq<Byte>): (Gpu, U32) {
    if |b| < 28 then (g, ERR_INVALID_ARGUMENT)
    else
      var id := U32At(b, 24);
      if id !in g.resources then (g, ERR_INVALID_RESOURCE_ID)
      else (g.(resources := g.resources[id := g.resources[id].(backing := [])]), OK_NODATA)
  }

  /** The whole command set: next state and response code. */
  function Execute(g: Gpu, r: Ram, b: seq<Byte>): (Gpu, U32)
    requires |b| >= HDR && forall id :: id in g.resources ==> Shaped(g.resources[id])
  {
    var typ := U32At(b, 0);
    if typ == GET_DISPLAY_INFO then (g, OK_DISPLAY_INFO)
    else if typ == RESOURCE_CREATE_2D then Create(g, b)
    else if typ == RESOURCE_UNREF then Unref(g, b)
    else if typ == SET_SCANOUT then Bind(g, b)
    else if typ == RESOURCE_FLUSH then Flush(g, b)
    else if typ == TRANSFER_TO_HOST_2D then Transfer(g, r, b)
    else if typ == ATTACH_BACKING then Attach(g, b)
    else if typ == DETACH_BACKING then Detach(g, b)
    else if typ == GET_EDID || typ == CURSOR_GET then (g, OK_NODATA)
    else (g, ERR_UNSUPPORTED)
  }

  // ---- the invariant ----

  predicate Inv(g: Gpu) {
    && |g.scanouts| == MAX_SCANOUTS
    && |g.resources| <= MAX_RESOURCES
    && (forall id :: id in g.resources ==> Shaped(g.resources[id]))
    && (forall i :: 0 <= i < |g.scanouts| && g.scanouts[i].id.Some? ==> g.scanouts[i].id.value in g.resources)
  }

  /** A device reset: no resources, every scanout dark. */
  function Cleared(g: Gpu): Gpu {
    Gpu(map[], seq(MAX_SCANOUTS, _ => NO_SCANOUT), g.blits)
  }

  lemma NewResourceShaped(format: U32, width: U32, height: U32)
    requires NewResource(format, width, height).Some?
    ensures Shaped(NewResource(format, width, height).value)
  {
  }

  lemma ReplaceSize(m: map<U32, Resource>, id: U32, res: Resource)
    ensures |m[id := res]| == if id in m then |m| else |m| + 1
    ensures |m - {id}| <= |m|
  {
    if id in m {
      assert m[id := res].Keys == m.Keys;
    } else {
      assert m[id := res].Keys == m.Keys + {id};
    }
    assert (m - {id}).Keys == m.Keys - {id};
    assert |m.Keys - {id}| <= |m.Keys|;
  }

  lemma CreateKeeps(g: Gpu, b: seq<Byte>)
    requires Inv(g)
    ensures Inv(Create(g, b).0)
  {
    hide U32At, NewResource, Shaped;
    if |b| >= 40 {
      var res := NewResource(U32At(b, 28), U32At(b, 32), U32At(b, 36));
      if res.Some? {
        NewResourceShaped(U32At(b, 28), U32At(b, 32), U32At(b, 36));
        ReplaceSize(g.resources, U32At(b, 24), res.value);
      }
    }
  }

  lemma UnrefKeeps(g: Gpu, b: seq<Byte>)
    requires Inv(g)
    ensures Inv(Unref(g, b).0)
  {
    hide U32At, Shaped;
    if |b| >= 28 && |g.resources| > 0 {
      var any :| any in g.resources;
      ReplaceSize(g.resources, U32At(b, 24), g.resources[any]);
    }
  }

  /** Swapping a resource's pages leaves it in shape. */
  lemma RebackedKeeps(g: Gpu, id: U32, pages: seq<MemEntry>)
    requires Inv(g) && id in g.resources && |pages| < 0x1_0000
    ensures Inv(g.(resources := g.resources[id := g.resources[id].(backing := pages)]))
  {
    ReplaceSize(g.resources, id, g.resources[id].(backing := pages));
  }

  lemma BackingCommandKeeps(g: Gpu, b: seq<Byte>)
    requires Inv(g) && |b| <= MAX_REQUEST_BYTES
    ensures Inv(Attach(g, b).0) && Inv(Detach(g, b).0)
  {
    hide U32At, Entries, Inv, EntryAt;
    if |b| >= 28 {
      var id := U32At(b, 24);
      if id in g.resources {
        RebackedKeeps(g, id, []);
        if |b| >= 32 {
          RebackedKeeps(g, id, Entries(b));
        }
      }
    }
  }

  lemma DisplayCommandKeeps(g: Gpu, b: seq<Byte>)
    requires Inv(g)
    ensures Inv(Bind(g, b).0) && Inv(Flush(g, b).0)
  {
    hide U32At, RectAt, Blits;
  }

  lemma TransferKeeps(g: Gpu, r: Ram, b: seq<Byte>)
    requires Inv(g)
    ensures Inv(Transfer(g, r, b).0)
  {
    hide U32At, U64At, RectAt, Painted, BackingLen, RowStart;
    if |b| >= 52 {
      var id := U32At(b, 48);
      if id in g.resources {
        var res := Transfer(g, r, b).0.resources[id];
        ReplaceSize(g.resources, id, res);
      }
    }
  }

  lemma ExecuteKeepsInv(g: Gpu, r: Ram, b: seq<Byte>)
    requires Inv(g) && HDR <= |b| <= MAX_REQUEST_BYTES
    ensures Inv(Execute(g, r, b).0)
  {
    hide Create, Unref, Attach, Detach, Bind, Flush, Transfer, U32At;
    CreateKeeps(g, b);
    UnrefKeeps(g, b);
    BackingCommandKeeps(g, b);
    DisplayCommandKeeps(g, b);
    TransferKeeps(g, r, b);
  }

  // ---- whole runs ----

  /** What can happen to the device: a command arrives over some memory, or the driver resets it. */
  datatype Event = Command(ram: Ram, bytes: seq<Byte>) | DeviceReset

  predicate Gatherable(e: Event) {
    e.Command? ==> HDR <= |e.bytes| <= MAX_REQUEST_BYTES
  }

  function Happens(g: Gpu, e: Event): Gpu
    requires Inv(g) && Gatherable(e)
  {
    match e
    case Command(r, b) => Execute(g, r, b).0
    case DeviceReset => Cleared(g)
  }

  lemma HappensKeepsInv(g: Gpu, e: Event)
    requires Inv(g) && Gatherable(e)
    ensures Inv(Happens(g, e))
  {
    hide Execute, Inv;
    match e
    case Command(r, b) => ExecuteKeepsInv(g, r, b);
    case DeviceReset => ClearedIsInv(g);
  }

  lemma ClearedIsInv(g: Gpu)
    ensures Inv(Cleared(g))
  {
  }

  predicate AllGatherable(events: seq<Event>) {
    forall i :: 0 <= i < |events| ==> Gatherable(events[i])
  }

  function RunOf(g: Gpu, events: seq<Event>): (g': Gpu)
    requires Inv(g) && AllGatherable(events)
    ensures Inv(g')
    decreases |events|
  {
    if events == [] then g
    else
      assert Gatherable(events[0]);
      HappensKeepsInv(g, events[0]);
      RunOf(Happens(g, events[0]), events[1..])
  }

  /**
    After any commands and resets, from a fresh device: every bound scanout names a live
    resource, there are at most 64 resources, and each has stride 4*width and
    stride*height bytes, no more than 256 MiB.
   */
  lemma RunsStayValid(start: Gpu, events: seq<Event>)
    requires start == Cleared(start) && AllGatherable(events)
    ensures Inv(start)
    ensures var g := RunOf(start, events);
            && |g.resources| <= 64 && |g.scanouts| == 16
            && (forall i :: 0 <= i < 16 && g.scanouts[i].id.Some? ==> g.scanouts[i].id.value in g.resources)
            && (forall id :: id in g.resources ==>
                  var res := g.resources[id];
                  && res.stride == 4 * res.width
                  && |res.data| == res.stride * res.height <= 256 * 1024 * 1024)
  {
    hide Happens, RunOf;
    ClearedIsInv(start);
    var g := RunOf(start, events);
  }

  /** An accepted transfer over covering pages is pixel exact and touches nothing but its resource's pixels. */
  lemma TransferCommandExact(g: Gpu, r: Ram, b: seq<Byte>)
    requires Inv(g) && |b| >= 52 && U32At(b, 48) in g.resources
    requires var res := g.resources[U32At(b, 48)];
             Contains(res, RectAt(b, 24)) && Covers(r, res, RectAt(b, 24), U64At(b, 40))
    ensures var id, rect, offset := U32At(b, 48), RectAt(b, 24), U64At(b, 40);
            var (g', code) := Transfer(g, r, b);
            var res, pages := g.resources[id], Backing(r, g.resources[id].backing);
            && code == OK_NODATA && g' == g.(resources := g.resources[id := res.(data := g'.resources[id].data)])
            && |g'.resources[id].data| == |res.data|
            && (forall i :: 0 <= i < |res.data| && InRows(res, rect, rect.height, i) ==>
                  offset + i < |pages| && g'.resources[id].data[i] == pages[offset + i])
            && (forall i :: 0 <= i < |res.data| && !InRows(res, rect, rect.height, i) ==>
                  g'.resources[id].data[i] == res.data[i])
  {
    hide Painted, U32At, U64At, RectAt, InRows, RowStart, Backing, BackingLen;
    var res, rect, offset := g.resources[U32At(b, 48)], RectAt(b, 24), U64At(b, 40);
    CoveredBase(r, res, rect, offset);
    TransferIsPixelExact(r, res, rect, offset);
  }

  // ---- what the commands mean, in their own fields ----

  /** The command asks for one of the four formats and for sides and a size within the limits. */
  predicate Creatable(b: seq<Byte>)
    requires |b| >= 40
  {
    var format, w, h := U32At(b, 28), U32At(b, 32), U32At(b, 36);
    format in {1, 2, 3, 4} && 1 <= w <= 16384 && 1 <= h <= 16384 && 4 * w * h <= 256 * 1024 * 1024
  }

  predicate CreateAccepted(g: Gpu, b: seq<Byte>) {
    |b| >= 40 && U32At(b, 24) !in g.resources && |g.resources| < 64 && Creatable(b)
  }

  /** What an accepted command makes: that width and height, no pages, black pixels. */
  function Blank(b: seq<Byte>): Resource
    requires |b| >= 40
  {
    var w, h := U32At(b, 32), U32At(b, 36);
    Resource(w, h, [], Zeros(4 * w * h), 4 * w)
  }

  /** A resource is created exactly if the command is accepted; otherwise nothing changes. */
  lemma CreateAnswers(g: Gpu, b: seq<Byte>)
    ensures var (g', code) := Create(g, b);
            && (code == 0x1100 <==> CreateAccepted(g, b))
            && (code == 0x1203 <==> |b| >= 40 && U32At(b, 24) in g.resources)
            && code in {0x1100, 0x1202, 0x1203}
            && g' == if CreateAccepted(g, b) then g.(resources := g.resources[U32At(b, 24) := Blank(b)]) else g
  {
    hide U32At;
    if |b| >= 40 {
      var w, h := U32At(b, 32), U32At(b, 36);
      assert w * BPP * h == 4 * w * h;
    }
  }

  /** A drop command removes its resource, darkens the scanouts that showed it, and changes nothing else. */
  lemma UnrefRemoves(g: Gpu, r: Ram, b: seq<Byte>)
    requires Inv(g) && |b| >= 28 && U32At(b, 0) == 0x0102
    ensures var id, (g', code) := U32At(b, 24), Execute(g, r, b);
            && code == 0x1100 && g'.blits == g.blits && id !in g'.resources
            && (forall k :: k != id ==> (k in g'.resources <==> k in g.resources))
            && (forall k :: k != id && k in g.resources ==> g'.resources[k] == g.resources[k])
            && |g'.scanouts| == |g.scanouts|
            && forall i :: 0 <= i < |g.scanouts| ==>
                 g'.scanouts[i] == if g.scanouts[i].id == Some(id) then Scanout(None, Rect(0, 0, 0, 0))
                                   else g.scanouts[i]
  {
    hide U32At, Transfer, Create, Bind, Flush, Attach, Detach;
  }

  /** A detach command takes a live resource's pages away and leaves its pixels. */
  lemma DetachEmpties(g: Gpu, r: Ram, b: seq<Byte>)
    requires Inv(g) && |b| >= 28 && U32At(b, 0) == 0x0107
    ensures var id := U32At(b, 24);
            Execute(g, r, b) == if id in g.resources
                                then (g.(resources := g.resources[id := g.resources[id].(backing := [])]), 0x1100)
                                else (g, 0x1203)
  {
    hide U32At, Transfer, Create, Bind, Flush, Attach, Unref;
  }

  /** Codes that are not commands of the control queue are refused and change nothing. */
  lemma UnknownRefused(g: Gpu, r: Ram, b: seq<Byte>)
    requires Inv(g) && |b| >= 24
    requires U32At(b, 0) !in {0x0100, 0x0101, 0x0102, 0x0103, 0x0104, 0x0105, 0x0106, 0x0107, 0x010A, 0x010C}
    ensures Execute(g, r, b) == (g, 0x1201)
  {
    hide U32At;
  }

  /** Binding sets one scanout: dark for id 0, otherwise showing a live resource at the command's rectangle. */
  lemma BindSets(g: Gpu, b: seq<Byte>)
    requires Inv(g) && |b| >= 48
    ensures var n, id := U32At(b, 40), U32At(b, 44);
            var (g', code) := Bind(g, b);
            if n >= 16 then code == 0x1202 && g' == g
            else if id == 0 then
              code == 0x1100 && g' == g.(scanouts := g.scanouts[n := Scanout(None, Rect(0, 0, 0, 0))])
            else if id in g.resources then
              && code == 0x1100
              && g' == g.(scanouts := g.scanouts[n := Scanout(Some(id),
                          Rect(U32At(b, 24), U32At(b, 28), U32At(b, 32), U32At(b, 36)))])
            else code == 0x1203 && g' == g
  {
    hide U32At;
  }

  /** Scanouts bound to `id`, by number. */
  predicate AreBound(scanouts: seq<Scanout>, id: U32, ks: seq<nat>) {
    && (forall j :: 0 <= j < |ks| ==> ks[j] < |scanouts| && scanouts[ks[j]].id == Some(id))
    && (forall i, j :: 0 <= i < j < |ks| ==> ks[i] < ks[j])
    && (forall i: nat :: i < |scanouts| && scanouts[i].id == Some(id) ==> i in ks)
  }

  /** A flush shows the resource once on every scanout bound to it, in their order. */
  lemma {:induction false} BlitsAre(scanouts: seq<Scanout>, id: U32, res: Resource) returns (ks: seq<nat>)
    ensures AreBound(scanouts, id, ks) && |Blits(scanouts, id, res)| == |ks|
    ensures forall j :: 0 <= j < |ks| ==>
              Blits(scanouts, id, res)[j] == Blit(res.data, res.stride, scanouts[ks[j]].rect)
  {
    if scanouts == [] {
      ks := [];
    } else {
      var n := |scanouts| - 1;
      ks := BlitsAre(scanouts[..n], id, res);
      if scanouts[n].id == Some(id) {
        ks := ks + [n];
      }
    }
  }

  lemma BlitsOne(scanouts: seq<Scanout>, n: nat, id: U32, res: Resource)
    requires n < |scanouts| && scanouts[n].id == Some(id)
    requires forall i :: 0 <= i < |scanouts| && i != n ==> scanouts[i].id != Some(id)
    ensures Blits(scanouts, id, res) == [Blit(res.data, res.stride, scanouts[n].rect)]
  {
    var k := |scanouts| - 1;
    if n < k {
      BlitsOne(scanouts[..k], n, id, res);
    } else {
      BlitsNone(scanouts[..k], id, res);
    }
  }

  lemma BlitsNone(scanouts: seq<Scanout>, id: U32, res: Resource)
    requires forall i :: 0 <= i < |scanouts| ==> scanouts[i].id != Some(id)
    ensures Blits(scanouts, id, res) == []
  {
    if scanouts != [] {
      BlitsNone(scanouts[..|scanouts| - 1], id, res);
    }
  }

  /** Transferring the whole of a resource from offset 0 makes its pixels the front of its pages. */
  lemma FullTransfer(r: Ram, res: Resource)
    requires Shaped(res) && PagesInRam(r, res.backing) && |Backing(r, res.backing)| >= |res.data|
    ensures var rect := Rect(0, 0, res.width, res.height);
            && Contains(res, rect) && RowStart(res, rect, 0) == 0
            && Painted(r, res, rect, 0, res.height) == Backing(r, res.backing)[..|res.data|]
  {
    hide Backing, Painted, InRows;
    var rect, pages := Rect(0, 0, res.width, res.height), Backing(r, res.backing);
    MulSucc(res.height - 1, res.stride);
    TransferIsPixelExact(r, res, rect, 0);
    var data := Painted(r, res, rect, 0, res.height);
    forall i | 0 <= i < |data| ensures data[i] == pages[i] {
      RowBelow(i, res.stride, res.height);
      InWhole(res, rect, i);
    }
  }

  lemma InWhole(res: Resource, rect: Rect, i: nat)
    requires rect == Rect(0, 0, res.width, res.height) && res.width > 0 && res.stride == BPP * res.width
    requires i / res.stride < res.height
    ensures InRows(res, rect, res.height, i)
  {
    var stride, line, at := res.stride, i / res.stride, i % res.stride;
    assert 0 <= at < stride == (rect.x + rect.width) * BPP;
    assert 0 <= line < rect.y + res.height;
  }

  lemma RowBelow(i: nat, stride: nat, height: nat)
    requires stride > 0 && i < stride * height
    ensures i / stride < height
  {
    var q := i / stride;
    assert i == q * stride + i % stride;
    if q > height {
      MulGap(q, height, stride);
    }
  }

  // ---- the display pipeline ----

  /** The five commands that bring a resource on the display. */
  datatype Script = Script(create: seq<Byte>, attach: seq<Byte>, bind: seq<Byte>, transfer: seq<Byte>, flush: seq<Byte>)

  /** The commands are long enough, name the same resource, and carry their codes. */
  predicate Scripted(s: Script, id: U32) {
    && 40 <= |s.create| && U32At(s.create, 0) == RESOURCE_CREATE_2D && U32At(s.create, 24) == id
    && 32 <= |s.attach| <= MAX_REQUEST_BYTES && U32At(s.attach, 0) == ATTACH_BACKING && U32At(s.attach, 24) == id
    && 48 <= |s.bind| && U32At(s.bind, 0) == SET_SCANOUT && U32At(s.bind, 44) == id && U32At(s.bind, 40) < MAX_SCANOUTS
    && 52 <= |s.transfer| && U32At(s.transfer, 0) == TRANSFER_TO_HOST_2D && U32At(s.transfer, 48) == id
    && 44 <= |s.flush| && U32At(s.flush, 0) == RESOURCE_FLUSH && U32At(s.flush, 40) == id
  }

  /** Bytes of the resource the script creates. */
  function Extent(s: Script): nat
    requires |s.create| >= 40
  {
    4 * U32At(s.create, 32) * U32At(s.create, 36)
  }

  /** The resource is acceptable and new, its pages cover it, and the transfer is of all of it. */
  predicate Showable(g: Gpu, r: Ram, s: Script, id: U32)
    requires Scripted(s, id)
  {
    && id != 0 && CreateAccepted(g, s.create)
    && U64At(s.transfer, 40) == 0
    && RectAt(s.transfer, 24) == Rect(0, 0, U32At(s.create, 32), U32At(s.create, 36))
    && PagesInRam(r, Entries(s.attach)) && |Backing(r, Entries(s.attach))| >= Extent(s)
  }

  function Shown(r: Ram, s: Script): Blit
    requires |s.create| >= 40 && |s.attach| >= 32 && |s.bind| >= 48
    requires |Backing(r, Entries(s.attach))| >= Extent(s)
  {
    Blit(Backing(r, Entries(s.attach))[..Extent(s)], 4 * U32At(s.create, 32), RectAt(s.bind, 24))
  }

  /**
    Create a resource, attach pages that cover it, bind it to a scanout, transfer it whole,
    flush: every command is accepted, exactly one blit comes out, and its pixels are the bytes
    of the guest's pages in order.
   */
  lemma PixelsReachDisplay(g: Gpu, r: Ram, s: Script, id: U32)
    requires Inv(g) && Scripted(s, id) && Showable(g, r, s, id)
    ensures var (g1, c1) := Create(g, s.create);
            var (g2, c2) := Attach(g1, s.attach);
            var (g3, c3) := Bind(g2, s.bind);
            && Inv(g3)
            && var (g4, c4) := Transfer(g3, r, s.transfer);
            var (g5, c5) := Flush(g4, s.flush);
            c1 == c2 == c3 == c4 == c5 == OK_NODATA && g5.blits == g.blits + [Shown(r, s)]
  {
    hide U32At, U64At, RectAt, Entries, Backing, Painted, Create, Inv, Shaped, Contains, RowStart, BackingLen,
      Blits, CreateAccepted;
    var res := Blank(s.create);
    CreateAnswers(g, s.create);
    AcceptedIsNew(g, s.create);
    CreateKeeps(g, s.create);
    var g1 := Create(g, s.create).0;
    BackingCommandKeeps(g1, s.attach);
    var g2 := Attach(g1, s.attach).0;
    DisplayCommandKeeps(g2, s.bind);
    InvFacts(g);
    InvFacts(g2);
    var g3 := Bind(g2, s.bind).0;
    InvFacts(g3);
    var backed := g3.resources[id];
    assert backed == res.(backing := Entries(s.attach));
    FullTransfer(r, backed);
    var g4 := Transfer(g3, r, s.transfer).0;
    BlitsOne(g4.scanouts, U32At(s.bind, 40), id, g4.resources[id]);
  }

  lemma AcceptedIsNew(g: Gpu, b: seq<Byte>)
    requires CreateAccepted(g, b)
    ensures |b| >= 40 && U32At(b, 24) !in g.resources
  {
  }

  lemma InvFacts(g: Gpu)
    requires Inv(g)
    ensures |g.scanouts| == MAX_SCANOUTS && (forall id :: id in g.resources ==> Shaped(g.resources[id]))
    ensures forall i :: 0 <= i < |g.scanouts| && g.scanouts[i].id.Some? ==> g.scanouts[i].id.value in g.resources
  {
  }

  lemma CoveredBase(r: Ram, res: Resource, rect: Rect, offset: U64)
    requires Shaped(res) && Contains(res, rect) && Covers(r, res, rect, offset)
    ensures offset + RowStart(res, rect, 0) <= BackingLen(res.backing)
    ensures offset + RowStart(res, rect, 0) < TOP
  {
    hide Backing, BackingLen, RowStart;
    BackingLenExact(r, res.backing);
    RowStarts(res, rect, 0, rect.height - 1);
  }

  // ---- responses ----

  function HeaderBytes(code: U32): seq<Byte> {
    ToLe(code, 4) + Zeros(20)
  }

  /** The one display, then fifteen disabled ones. */
  function DisplayInfoBytes(width: U32, height: U32): seq<Byte> {
    HeaderBytes(OK_DISPLAY_INFO)
    + Zeros(8) + ToLe(width, 4) + ToLe(height, 4) + ToLe(1, 4) + Zeros(4) + Zeros(15 * 24)
  }

  function ResponseBytes(typ: U32, code: U32, width: U32, height: U32): seq<Byte> {
    if typ == GET_DISPLAY_INFO then DisplayInfoBytes(width, height) else HeaderBytes(code)
  }

  /** The reply goes out whole, or not at all when the descriptor is read-only or too short. */
  function Replied(r: Ram, d: Desc, reply: seq<Byte>): (Ram, U32) {
    if d.Writable() && |reply| <= d.len then (Write(r, d.addr, reply), |reply|) else (r, 0)
  }

  // ---- one head of the control queue ----

  datatype Turn = Turn(ram: Ram, gpu: Gpu, len: U32)

  ghost function ServeControl(r: Ram, q: Queue, g: Gpu, width: U32, height: U32, head: U16): Turn
    requires Inv(g)
  {
    match RequestOf(r, q, head)
    case None => Turn(r, g, 0)
    case Some(req) =>
      if |req.bytes| < HDR then Turn(r, g, 0) else
      var (g', code) := Execute(g, r, req.bytes);
      var (r', n) := Replied(r, req.response, ResponseBytes(U32At(req.bytes, 0), code, width, height));
      Turn(r', g', n)
  }

  datatype Host = Host(ram: Ram, q: Queue, gpu: Gpu)

  ghost function ControlNext(h: Host, width: U32, height: U32): Host
    requires Inv(h.gpu) && Pending(h.ram, h.q)
  {
    var head := NextHead(h.ram, h.q);
    var q := Popped(h.q);
    var t := ServeControl(h.ram, q, h.gpu, width, height, head);
    Host(PushedRam(t.ram, q, head, t.len), Pushed(q), t.gpu)
  }

  lemma ServeControlKeepsInv(r: Ram, q: Queue, g: Gpu, width: U32, height: U32, head: U16)
    requires Inv(g)
    ensures Inv(ServeControl(r, q, g, width, height, head).gpu)
  {
    hide Execute, Inv, RequestOf, Replied, ResponseBytes;
    var req := RequestOf(r, q, head);
    if req.Some? && |req.value.bytes| >= HDR {
      RequestBounded(r, q, head);
      ExecuteKeepsInv(g, r, req.value.bytes);
    }
  }

  ghost function ControlRounds(n: nat, h: Host, width: U32, height: U32): Host
    requires Inv(h.gpu)
  {
    if n == 0 || !Pending(h.ram, h.q) then h
    else
      ServeControlKeepsInv(h.ram, Popped(h.q), h.gpu, width, height, NextHead(h.ram, h.q));
      ControlRounds(n - 1, ControlNext(h, width, height), width, height)
  }

  /** The control loop takes heads in order and returns each, whatever the chain. */
  lemma {:induction false} ControlRetires(n: nat, h: Host, width: U32, height: U32) returns (turns: seq<R.Turn>)
    requires Inv(h.gpu)
    ensures var e := ControlRounds(n, h, width, height);
            Inv(e.gpu) && R.Loop(R.Snap(h.ram, h.q), turns, R.Snap(e.ram, e.q), n)
    decreases n
  {
    hide ServeControl, PushedRam, NextHead, Pending, R.Loop, Inv;
    var s, e := R.Snap(h.ram, h.q), ControlRounds(n, h, width, height);
    if n == 0 || !Pending(h.ram, h.q) {
      turns := [];
      R.LoopNothing(s, n);
    } else {
      PendingQueue(h.ram, h.q);
      var head := NextHead(h.ram, h.q);
      ServeControlKeepsInv(h.ram, Popped(h.q), h.gpu, width, height, head);
      var served := ServeControl(h.ram, Popped(h.q), h.gpu, width, height, head);
      var t := R.Turn(head, served.ram, served.len);
      var rest := ControlRetires(n - 1, ControlNext(h, width, height), width, height);
      turns := [t] + rest;
      R.LoopCons(s, t, rest, R.Snap(e.ram, e.q), n);
    }
  }

  /** One round more is one head more, if one is pending. */
  lemma {:induction false} RoundsStep(k: nat, h: Host, width: U32, height: U32)
    requires Inv(h.gpu)
    ensures var e := ControlRounds(k, h, width, height);
            && Inv(e.gpu)
            && ControlRounds(k + 1, h, width, height)
            == (if Pending(e.ram, e.q) then ControlNext(e, width, height) else e)
    decreases k
  {
    hide ServeControl, PushedRam, NextHead, Pending, Inv;
    if Pending(h.ram, h.q) {
      PendingQueue(h.ram, h.q);
      ServeControlKeepsInv(h.ram, Popped(h.q), h.gpu, width, height, NextHead(h.ram, h.q));
      if k > 0 {
        RoundsStep(k - 1, ControlNext(h, width, height), width, height);
      }
    }
  }

  /** After `k` rounds the next chain of the control queue carries `command`. */
  ghost predicate Carries(h: Host, width: U32, height: U32, k: nat, command: seq<Byte>)
    requires Inv(h.gpu)
  {
    var e := ControlRounds(k, h, width, height);
    && Pending(e.ram, e.q)
    && var request := RequestOf(e.ram, Popped(e.q), NextHead(e.ram, e.q));
    request.Some? && request.value.bytes == command
  }

  /** Then the next round executes that command. */
  lemma RoundExecutes(h: Host, width: U32, height: U32, k: nat, command: seq<Byte>)
    requires Inv(h.gpu) && Carries(h, width, height, k, command) && |command| >= HDR
    ensures var e := ControlRounds(k, h, width, height);
            Inv(e.gpu) && ControlRounds(k + 1, h, width, height).gpu == Execute(e.gpu, e.ram, command).0
  {
    hide Execute, RequestOf, Replied, ResponseBytes, PushedRam, NextHead, Pending, ControlRounds;
    RoundsStep(k, h, width, height);
    var e := ControlRounds(k, h, width, height);
    InvFacts(e.gpu);
  }

  /**
    The same through the queue: five chains that carry the five commands when their turns
    come, the pages in memory when the transfer's turn comes, and after five rounds of
    gathering, executing and answering the display has the guest's pixels.
   */
  lemma QueueReachesDisplay(h: Host, width: U32, height: U32, s: Script, id: U32)
    requires Inv(h.gpu) && Scripted(s, id)
    requires Carries(h, width, height, 0, s.create) && Carries(h, width, height, 1, s.attach)
    requires Carries(h, width, height, 2, s.bind) && Carries(h, width, height, 3, s.transfer)
    requires Carries(h, width, height, 4, s.flush)
    requires Showable(h.gpu, ControlRounds(3, h, width, height).ram, s, id)
    ensures ControlRounds(5, h, width, height).gpu.blits
         == h.gpu.blits + [Shown(ControlRounds(3, h, width, height).ram, s)]
  {
    hide Create, Attach, Bind, Transfer, Flush, Carries, Inv, Showable, ControlRounds, Entries, Backing, NewResource,
      U64At;
    RoundExecutes(h, width, height, 0, s.create);
    RoundExecutes(h, width, height, 1, s.attach);
    RoundExecutes(h, width, height, 2, s.bind);
    RoundExecutes(h, width, height, 3, s.transfer);
    RoundExecutes(h, width, height, 4, s.flush);
    NoRounds(h, width, height);
    PixelsReachDisplay(h.gpu, ControlRounds(3, h, width, height).ram, s, id);
  }

  lemma NoRounds(h: Host, width: U32, height: U32)
    requires Inv(h.gpu)
    ensures ControlRounds(0, h, width, height) == h
  {
  }

  // ---- the cursor queue ----

  /** A cursor command needs a readable descriptor linked to the one for the response. */
  function ServeCursor(r: Ram, q: Queue, head: U16): (Ram, U32) {
    var d := DescAt(r, q, head);
    if !d.HasNext() || d.Writable() || d.next >= q.size then (r, 0)
    else
      var bytes := Read(r, d.addr, Min(d.len, MAX_REQUEST_BYTES));
      var typ := if |bytes| < HDR then 0 else U32At(bytes, 0);
      var code := if typ == UPDATE_CURSOR || typ == CURSOR_GET then OK_NODATA else ERR_UNSUPPORTED;
      Replied(r, DescAt(r, q, d.next), HeaderBytes(code))
  }

  function CursorNext(r: Ram, q: Queue): (Ram, Queue)
    requires Pending(r, q)
  {
    var head := NextHead(r, q);
    var (r', n) := ServeCursor(r, Popped(q), head);
    (PushedRam(r', Popped(q), head, n), Pushed(Popped(q)))
  }

  function CursorRounds(n: nat, r: Ram, q: Queue): (Ram, Queue) {
    if n == 0 || !Pending(r, q) then (r, q)
    else
      var (r', q') := CursorNext(r, q);
      CursorRounds(n - 1, r', q')
  }

  /** The cursor loop takes heads in order and returns each, malformed chains included. */
  lemma {:induction false} CursorRetires(n: nat, r: Ram, q: Queue) returns (turns: seq<R.Turn>)
    ensures var (r', q') := CursorRounds(n, r, q); R.Loop(R.Snap(r, q), turns, R.Snap(r', q'), n)
    decreases n
  {
    hide ServeCursor, PushedRam, NextHead, Pending, R.Loop;
    var s := R.Snap(r, q);
    var (r', q') := CursorRounds(n, r, q);
    if n == 0 || !Pending(r, q) {
      turns := [];
      R.LoopNothing(s, n);
    } else {
      PendingQueue(r, q);
      var (mid, len) := ServeCursor(r, Popped(q), NextHead(r, q));
      var t := R.Turn(NextHead(r, q), mid, len);
      var rest := CursorRetires(n - 1, R.Next(s, t).ram, R.Next(s, t).q);
      turns := [t] + rest;
      R.LoopCons(s, t, rest, R.Snap(r', q'), n);
    }
  }

  class VirtioGpu {
    var resources: map<U32, Resource>
    const scanouts: array<Scanout>
    var blits: seq<Blit>
    const width: U32
    const height: U32

    function View(): Gpu
      reads this, scanouts
    {
      Gpu(resources, scanouts[..], blits)
    }

    constructor (width: U32, height: U32)
      ensures fresh(scanouts) && View() == Cleared(View()) && blits == []
    {
      this.width, this.height := width, height;
      resources, blits := map[], [];
      scanouts := new Scanout[MAX_SCANOUTS](_ => NO_SCANOUT);
      new;
      assert scanouts[..] == seq(MAX_SCANOUTS, _ => NO_SCANOUT);
    }

    method Reset()
      requires Inv(View())
      modifies this, scanouts
      ensures View() == Cleared(old(View())) && Inv(View())
    {
      resources := map[];
      for i := 0 to scanouts.Length
        invariant forall k :: 0 <= k < i ==> scanouts[k] == NO_SCANOUT
        invariant blits == old(blits) && resources == map[]
      {
        scanouts[i] := NO_SCANOUT;
      }
      assert scanouts[..] == seq(MAX_SCANOUTS, _ => NO_SCANOUT);
    }

    method CreateCmd(b: seq<Byte>) returns (code: U32)
      modifies this
      ensures (View(), code) == Create(old(View()), b)
    {
      if |b| < 40 { return ERR_INVALID_ARGUMENT; }
      var id := U32At(b, 24);
      if id in resources { return ERR_INVALID_RESOURCE_ID; }
      if |resources| >= MAX_RESOURCES { return ERR_INVALID_ARGUMENT; }
      var res := NewResource(U32At(b, 28), U32At(b, 32), U32At(b, 36));
      if res.None? { return ERR_INVALID_ARGUMENT; }
      resources := resources[id := res.value];
      return OK_NODATA;
    }

    method UnrefCmd(b: seq<Byte>) returns (code: U32)
      modifies this, scanouts
      ensures (View(), code) == Unref(old(View()), b)
    {
      if |b| < 28 { return ERR_INVALID_ARGUMENT; }
      var id := U32At(b, 24);
      resources := resources - {id};
      ghost var was := scanouts[..];
      for i := 0 to scanouts.Length
        invariant forall k :: 0 <= k < i ==> scanouts[k] == if was[k].id == Some(id) then NO_SCANOUT else was[k]
        invariant forall k :: i <= k < scanouts.Length ==> scanouts[k] == was[k]
        invariant blits == old(blits) && resources == old(resources) - {id}
      {
        if scanouts[i].id == Some(id) {
          scanouts[i] := NO_SCANOUT;
        }
      }
      assert scanouts[..] == Darkened(was, id);
      return OK_NODATA;
    }

    method SetScanoutCmd(b: seq<Byte>) returns (code: U32)
      requires scanouts.Length == MAX_SCANOUTS
      modifies scanouts
      ensures (View(), code) == Bind(old(View()), b)
    {
      if |b| < 48 { return ERR_INVALID_ARGUMENT; }
      var n, id := U32At(b, 40), U32At(b, 44);
      if n >= MAX_SCANOUTS { return ERR_INVALID_ARGUMENT; }
      if id != 0 && id !in resources { return ERR_INVALID_RESOURCE_ID; }
      ghost var was := scanouts[..];
      scanouts[n] := if id == 0 then NO_SCANOUT else Scanout(Some(id), RectAt(b, 24));
      assert scanouts[..] == was[n := scanouts[n]];
      return OK_NODATA;
    }

    method FlushCmd(b: seq<Byte>) returns (code: U32)
      modifies this
      ensures (View(), code) == Flush(old(View()), b)
    {
      hide U32At;
      if |b| < 44 { return ERR_INVALID_ARGUMENT; }
      var id := U32At(b, 40);
      if id !in resources { return ERR_INVALID_RESOURCE_ID; }
      var res := resources[id];
      for i := 0 to scanouts.Length
        invariant resources == old(resources)
        invariant blits == old(blits) + Blits(scanouts[..i], id, res)
      {
        assert scanouts[..i + 1][..i] == scanouts[..i];
        if scanouts[i].id == Some(id) {
          blits := blits + [Blit(res.data, res.stride, scanouts[i].rect)];
        }
      }
      assert scanouts[..scanouts.Length] == scanouts[..];
      return OK_NODATA;
    }

    method TransferCmd(b: seq<Byte>, mem: GuestMemory) returns (code: U32)
      requires forall id :: id in resources ==> Shaped(resources[id])
      modifies this
      ensures (View(), code) == Transfer(old(View()), mem.View(), b)
    {
      hide U32At, U64At, RectAt, Painted, BackingLen;
      if |b| < 52 { return ERR_INVALID_ARGUMENT; }
      var rect, offset, id := RectAt(b, 24), U64At(b, 40), U32At(b, 48);
      if id !in resources { return ERR_INVALID_RESOURCE_ID; }
      var res := resources[id];
      if !Contains(res, rect) { return ERR_INVALID_ARGUMENT; }
      var base := offset + RowStart(res, rect, 0);
      if base >= TOP { return ERR_INVALID_ARGUMENT; }
      if base > BackingLen(res.backing) { return ERR_INVALID_ARGUMENT; }
      var data := TransferRows(mem, res, rect, base);
      resources := resources[id := res.(data := data)];
      return OK_NODATA;
    }

    method AttachCmd(b: seq<Byte>) returns (code: U32)
      modifies this
      ensures (View(), code) == Attach(old(View()), b)
    {
      hide U32At, U64At;
      if |b| < 32 { return ERR_INVALID_ARGUMENT; }
      var pages: seq<MemEntry> := [];
      for i := 0 to EntryCount(b)
        invariant pages == Entries(b)[..i]
      {
        pages := pages + [MemEntry(U64At(b, 32 + i * ENTRY), U32At(b, 40 + i * ENTRY))];
      }
      assert pages == Entries(b);
      var id := U32At(b, 24);
      if id !in resources { return ERR_INVALID_RESOURCE_ID; }
      resources := resources[id := resources[id].(backing := pages)];
      return OK_NODATA;
    }

    method DetachCmd(b: seq<Byte>) returns (code: U32)
      modifies this
      ensures (View(), code) == Detach(old(View()), b)
    {
      if |b| < 28 { return ERR_INVALID_ARGUMENT; }
      var id := U32At(b, 24);
      if id !in resources { return ERR_INVALID_RESOURCE_ID; }
      resources := resources[id := resources[id].(backing := [])];
      return OK_NODATA;
    }

    method Handle(b: seq<Byte>, mem: GuestMemory) returns (code: U32)
      requires HDR <= |b| <= MAX_REQUEST_BYTES && Inv(View())
      modifies this, scanouts
      ensures (View(), code) == Execute(old(View()), mem.View(), b)
      ensures Inv(View())
    {
      hide U32At, Create, Unref, Bind, Flush, Transfer, Attach, Detach;
      ExecuteKeepsInv(View(), mem.View(), b);
      var typ := U32At(b, 0);
      if typ == GET_DISPLAY_INFO {
        code := OK_DISPLAY_INFO;
      } else if typ == RESOURCE_CREATE_2D {
        code := CreateCmd(b);
      } else if typ == RESOURCE_UNREF {
        code := UnrefCmd(b);
      } else if typ == SET_SCANOUT {
        code := SetScanoutCmd(b);
      } else if typ == RESOURCE_FLUSH {
        code := FlushCmd(b);
      } else if typ == TRANSFER_TO_HOST_2D {
        code := TransferCmd(b, mem);
      } else if typ == ATTACH_BACKING {
        code := AttachCmd(b);
      } else if typ == DETACH_BACKING {
        code := DetachCmd(b);
      } else if typ == GET_EDID || typ == CURSOR_GET {
        code := OK_NODATA;
      } else {
        code := ERR_UNSUPPORTED;
      }
    }

    method Reply(mem: GuestMemory, d: Desc, reply: seq<Byte>) returns (n: U32)
      modifies mem.ram
      ensures (mem.View(), n) == Replied(old(mem.View()), d, reply)
    {
      if !d.Writable() || |reply| > d.len {
        return 0;
      }
      mem.WriteBytes(d.addr, reply);
      return |reply|;
    }

    /** Serves one control head and pushes it back, whichever path is taken. */
    method ControlHead(queue: VirtioQueue, mem: GuestMemory, head: U16)
      requires Inv(View()) && queue.size != 0
      modifies this, scanouts, queue, mem.ram
      ensures Inv(View())
      ensures var t := old(ServeControl(mem.View(), queue.View(), View(), width, height, head));
              mem.View() == PushedRam(t.ram, old(queue.View()), head, t.len) && View() == t.gpu
      ensures queue.View() == Pushed(old(queue.View()))
    {
      hide PushedRam, RequestOf, Execute, Inv, Write, Replied, ResponseBytes;
      var request := Gather(queue, mem, head);
      if request.None? {
        queue.PushUsed(mem, head, 0);
        return;
      }
      RequestBounded(mem.View(), queue.View(), head);
      var req := request.value;
      if |req.bytes| < HDR {
        queue.PushUsed(mem, head, 0);
        return;
      }
      var code := Handle(req.bytes, mem);
      var n := Reply(mem, req.response, ResponseBytes(U32At(req.bytes, 0), code, width, height));
      queue.PushUsed(mem, head, n);
    }

    /**
      The control queue loop, for any number of rounds: heads are taken in order and each is
      returned, and the resource machine stays valid.
     */
    method ControlTick(queue: VirtioQueue, mem: GuestMemory, rounds: nat)
      returns (didWork: bool, ghost turns: seq<R.Turn>)
      requires Inv(View())
      modifies this, scanouts, queue, mem.ram
      ensures Inv(View())
      ensures Host(mem.View(), queue.View(), View())
           == ControlRounds(rounds, old(Host(mem.View(), queue.View(), View())), width, height)
      ensures R.Loop(old(R.Snap(mem.View(), queue.View())), turns, R.Snap(mem.View(), queue.View()), rounds)
      ensures didWork == (turns != [])
    {
      hide Inv, Pending, NextHead, ServeControl, PushedRam, R.Loop;
      didWork := false;
      ghost var start := Host(mem.View(), queue.View(), View());
      for i := 0 to rounds
        invariant Inv(View())
        invariant ControlRounds(rounds, start, width, height)
               == ControlRounds(rounds - i, Host(mem.View(), queue.View(), View()), width, height)
        invariant didWork == (i > 0) && (didWork ==> Pending(start.ram, start.q))
        invariant !didWork ==> Host(mem.View(), queue.View(), View()) == start
      {
        ghost var h := Host(mem.View(), queue.View(), View());
        var next := queue.PopAvail(mem);
        if next.None? {
          break;
        }
        didWork := true;
        PendingQueue(h.ram, h.q);
        ControlHead(queue, mem, next.value);
        assert Host(mem.View(), queue.View(), View()) == ControlNext(h, width, height);
      }
      turns := ControlRetires(rounds, start, width, height);
      R.LoopWorks(R.Snap(start.ram, start.q), turns, R.Snap(mem.View(), queue.View()), rounds);
    }

    method CursorHead(queue: VirtioQueue, mem: GuestMemory, head: U16)
      modifies queue, mem.ram
      ensures var (r, n) := ServeCursor(old(mem.View()), old(queue.View()), head);
              mem.View() == PushedRam(r, old(queue.View()), head, n)
      ensures queue.View() == Pushed(old(queue.View()))
    {
      hide PushedRam, DescAt, Read, Replied, HeaderBytes, U32At;
      var request := queue.GetDescriptor(mem, head);
      if !request.HasNext() || request.Writable() || request.next >= queue.size {
        queue.PushUsed(mem, head, 0);
        return;
      }
      var response := queue.GetDescriptor(mem, request.next);
      var bytes := mem.ReadBytes(request.addr, Min(request.len, MAX_REQUEST_BYTES));
      var typ := if |bytes| < HDR then 0 else U32At(bytes, 0);
      var code := if typ == UPDATE_CURSOR || typ == CURSOR_GET then OK_NODATA else ERR_UNSUPPORTED;
      var n := Reply(mem, response, HeaderBytes(code));
      queue.PushUsed(mem, head, n);
    }

    /** The cursor queue answers known cursor commands and retires everything, for any number of rounds. */
    method CursorTick(queue: VirtioQueue, mem: GuestMemory, rounds: nat)
      returns (didWork: bool, ghost turns: seq<R.Turn>)
      modifies queue, mem.ram
      ensures (mem.View(), queue.View()) == CursorRounds(rounds, old(mem.View()), old(queue.View()))
      ensures R.Loop(old(R.Snap(mem.View(), queue.View())), turns, R.Snap(mem.View(), queue.View()), rounds)
      ensures didWork == (turns != [])
    {
      hide Pending, NextHead, PushedRam, ServeCursor, R.Loop;
      didWork := false;
      ghost var r0, q0 := mem.View(), queue.View();
      for i := 0 to rounds
        invariant CursorRounds(rounds, r0, q0) == CursorRounds(rounds - i, mem.View(), queue.View())
        invariant didWork == (i > 0) && (didWork ==> Pending(r0, q0))
        invariant !didWork ==> mem.View() == r0 && queue.View() == q0
      {
        ghost var r, q := mem.View(), queue.View();
        var next := queue.PopAvail(mem);
        if next.None? {
          break;
        }
        didWork := true;
        PendingQueue(r, q);
        CursorHead(queue, mem, next.value);
      }
      turns := CursorRetires(rounds, r0, q0);
      R.LoopWorks(R.Snap(r0, q0), turns, R.Snap(mem.View(), queue.View()), rounds);
    }
  }
}
