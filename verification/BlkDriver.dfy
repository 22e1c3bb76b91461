/**
  The firmware's polling block driver composed with the block device.

  `Direct` is the reference: it copies between guest memory and the disk with no
  queue at all.  The driver, the rings, the descriptor chain and the device
  together refine it, for every sequence of requests (`BlkDriver.RunAll`).
 */
module BlkDriver {
  import opened Bytes
  import opened GuestRam
  import opened Virtqueue
  import opened BlkDevice
  import P = RingProtocol

  const QUEUE_SIZE: U16 := 16
  const UNSET: Byte := 0xFF

  /** Where the driver's own structures live. */
  datatype Layout = Layout(desc: U64, avail: U64, used: U64, readReq: U64, writeReq: U64)

  /** One call of the driver; `status` is the stack byte the device reports into. */
  datatype Req = Req(isWrite: bool, sector: U64, len: U32, buf: U64, status: U64)

  predicate Within(base: nat, n: nat, a: nat) {
    base <= a < base + n
  }

  predicate Owns(l: Layout, a: nat) {
    || Within(l.desc, 256, a) || Within(l.avail, 36, a) || Within(l.used, 132, a)
    || Within(l.readReq, 16, a) || Within(l.writeReq, 16, a)
  }

  /** [a, a+n) is clear of everything the driver owns. */
  predicate Clear(l: Layout, a: nat, n: nat) {
    && Apart(a, n, l.desc, 256) && Apart(a, n, l.avail, 36) && Apart(a, n, l.used, 132)
    && Apart(a, n, l.readReq, 16) && Apart(a, n, l.writeReq, 16)
  }

  predicate Placed(l: Layout, r: Ram) {
    && InRam(r, l.desc, 256) && InRam(r, l.avail, 36) && InRam(r, l.used, 132)
    && InRam(r, l.readReq, 16) && InRam(r, l.writeReq, 16)
    && Apart(l.desc, 256, l.avail, 36) && Apart(l.desc, 256, l.used, 132) && Apart(l.avail, 36, l.used, 132)
    && Apart(l.readReq, 16, l.desc, 256) && Apart(l.readReq, 16, l.avail, 36) && Apart(l.readReq, 16, l.used, 132)
    && Apart(l.writeReq, 16, l.desc, 256) && Apart(l.writeReq, 16, l.avail, 36) && Apart(l.writeReq, 16, l.used, 132)
    && Apart(l.readReq, 16, l.writeReq, 16)
  }

  /** The caller's buffer and the status byte are in RAM, apart, and not the driver's own memory. */
  predicate Good(l: Layout, r: Ram, req: Req) {
    && InRam(r, req.buf, req.len) && InRam(r, req.status, 1)
    && Clear(l, req.buf, req.len) && Clear(l, req.status, 1)
    && Apart(req.buf, req.len, req.status, 1)
  }

  // ---- the reference ----

  datatype Outcome = Outcome(ram: Ram, disk: Disk, status: Byte)

  function Direct(r: Ram, disk: Disk, req: Req): Outcome {
    var off := ByteOffset(req.sector);
    if !SeekOk(off) then Outcome(Write8(r, req.status, UNSET), disk, UNSET)
    else if req.isWrite then
      var (disk', all) := WriteAt(disk, off, Read(r, req.buf, req.len));
      var st := if all then OK else IO_ERROR;
      Outcome(Write8(r, req.status, st), disk', st)
    else
      match ReadAt(disk, off, req.len)
      case Some(bytes) => Outcome(Write8(Write(r, req.buf, bytes), req.status, OK), disk, OK)
      case None => Outcome(Write8(r, req.status, IO_ERROR), disk, IO_ERROR)
  }

  datatype Outcomes = Outcomes(ram: Ram, disk: Disk, statuses: seq<Byte>)

  function DirectAll(r: Ram, disk: Disk, reqs: seq<Req>): (o: Outcomes)
    ensures |o.statuses| == |reqs|
    decreases |reqs|
  {
    if reqs == [] then Outcomes(r, disk, []) else
      var n := |reqs| - 1;
      var before := DirectAll(r, disk, reqs[..n]);
      var last := Direct(before.ram, before.disk, reqs[n]);
      Outcomes(last.ram, last.disk, before.statuses + [last.status])
  }

  // ---- memories that agree outside the driver's structures ----

  predicate SameShape(r: Ram, r': Ram) {
    r.start == r'.start && |r.bytes| == |r'.bytes|
  }

  predicate Agree(l: Layout, r: Ram, r': Ram) {
    && SameShape(r, r')
    && forall i :: 0 <= i < |r.bytes| && !Owns(l, r.start + i) ==> r.bytes[i] == r'.bytes[i]
  }

  lemma AgreeSelf(l: Layout, r: Ram)
    ensures Agree(l, r, r)
  {
  }

  lemma AgreeTrans(l: Layout, r: Ram, r': Ram, r'': Ram)
    requires Agree(l, r, r') && Agree(l, r', r'')
    ensures Agree(l, r, r'')
  {
    hide Owns;
  }

  lemma AgreeOwnedWrite(l: Layout, r: Ram, r': Ram, a: nat, data: seq<Byte>)
    requires Agree(l, r, r')
    requires forall x :: Within(a, |data|, x) ==> Owns(l, x)
    ensures Agree(l, r, Write(r', a, data))
  {
    hide Owns;
    var w := Write(r', a, data);
    forall i | 0 <= i < |r.bytes| && !Owns(l, r.start + i)
      ensures r.bytes[i] == w.bytes[i]
    {
      assert !Within(a, |data|, r.start + i);
    }
  }

  lemma AgreeBothWrite(l: Layout, r: Ram, r': Ram, a: nat, data: seq<Byte>)
    requires Agree(l, r, r')
    ensures Agree(l, Write(r, a, data), Write(r', a, data))
  {
    hide Owns;
  }

  lemma AgreeRead(l: Layout, r: Ram, r': Ram, a: nat, n: nat)
    requires Agree(l, r, r') && Clear(l, a, n)
    ensures Read(r, a, n) == Read(r', a, n)
  {
    if InRam(r, a, n) {
      forall i | 0 <= i < n
        ensures Read(r, a, n)[i] == Read(r', a, n)[i]
      {
        assert !Owns(l, r.start + (a - r.start + i));
      }
    }
  }

  /** `Direct` cannot tell agreeing memories apart. */
  lemma DirectAgrees(l: Layout, r: Ram, r': Ram, disk: Disk, req: Req)
    requires Agree(l, r, r') && Good(l, r, req)
    ensures var o, o' := Direct(r, disk, req), Direct(r', disk, req);
            Agree(l, o.ram, o'.ram) && o.disk == o'.disk && o.status == o'.status
  {
    hide Agree, Read, Write, Owns;
    AgreeRead(l, r, r', req.buf, req.len);
    forall v: Byte ensures Agree(l, Write8(r, req.status, v), Write8(r', req.status, v)) {
      AgreeBothWrite(l, r, r', req.status, [v]);
    }
    var bytes := ReadAt(disk, ByteOffset(req.sector), req.len);
    if bytes.Some? {
      AgreeBothWrite(l, r, r', req.buf, bytes.value);
      AgreeBothWrite(l, Write(r, req.buf, bytes.value), Write(r', req.buf, bytes.value), req.status, [OK]);
    }
  }

  // ---- descriptors in memory ----

  function DescBytes(d: Desc): (s: seq<Byte>)
    ensures |s| == 16
  {
    ToLe(d.addr, 8) + ToLe(d.len, 4) + ToLe(d.flags, 2) + ToLe(d.next, 2)
  }

  lemma DescReadBack(r: Ram, q: Queue, i: U16, d: Desc)
    requires InRam(r, q.descAddr + i * 16, 16)
    ensures DescAt(Write(r, q.descAddr + i * 16, DescBytes(d)), q, i) == d
  {
    hide Read, Write, ToLe, FromLe, Pow256;
    var base := q.descAddr + i * 16;
    var w := Write(r, base, DescBytes(d));
    ReadSame(r, base, DescBytes(d));
    ReadPart(w, base, 16, 0, 8);
    ReadPart(w, base, 16, 8, 4);
    ReadPart(w, base, 16, 12, 2);
    ReadPart(w, base, 16, 14, 2);
    var s := DescBytes(d);
    assert s[0..8] == ToLe(d.addr, 8) && s[8..12] == ToLe(d.len, 4);
    assert s[12..14] == ToLe(d.flags, 2) && s[14..16] == ToLe(d.next, 2);
    WidthBounds();
    FromToLe(d.addr, 8);
    FromToLe(d.len, 4);
    FromToLe(d.flags, 2);
    FromToLe(d.next, 2);
  }

  // ---- the chain of one request ----

  function ReqAddr(l: Layout, req: Req): U64 {
    if req.isWrite then l.writeReq else l.readReq
  }

  function Kind(req: Req): U32 {
    if req.isWrite then 1 else 0
  }

  /** The k-th descriptor of the chain that starts at cursor `n`. */
  function Link(n: U16, k: nat): (i: U16)
    ensures i < QUEUE_SIZE
  {
    (n + k) % QUEUE_SIZE
  }

  lemma LinksDistinct(n: U16)
    ensures Link(n, 0) != Link(n, 1) && Link(n, 1) != Link(n, 2) && Link(n, 0) != Link(n, 2)
  {
  }

  function HeadDesc(l: Layout, n: U16, req: Req): Desc {
    Desc(ReqAddr(l, req), 16, NEXT, Link(n, 1))
  }

  function DataDesc(n: U16, req: Req): Desc {
    Desc(req.buf, req.len, if req.isWrite then NEXT else WRITE + NEXT, Link(n, 2))
  }

  function StatusDesc(req: Req): Desc {
    Desc(req.status, 1, WRITE, 0)
  }

  function PutDesc(r: Ram, l: Layout, i: U16, d: Desc): Ram {
    Write(r, l.desc + i * 16, DescBytes(d))
  }

  /** Guest memory once the request and its three descriptors are written. */
  function Prepared(r: Ram, l: Layout, n: U16, req: Req): Ram {
    var r4 := HalfPrepared(r, l, n, req);
    var r5 := Write8(r4, req.status, UNSET);
    PutDesc(r5, l, Link(n, 2), StatusDesc(req))
  }

  predicate ChainReady(r: Ram, q: Queue, l: Layout, n: U16, req: Req) {
    && DescAt(r, q, Link(n, 0)) == HeadDesc(l, n, req)
    && DescAt(r, q, Link(n, 1)) == DataDesc(n, req)
    && DescAt(r, q, Link(n, 2)) == StatusDesc(req)
    && Read32(r, ReqAddr(l, req)) == Kind(req)
    && Read64(r, ReqAddr(l, req) + 8) == req.sector
  }

  lemma ChainUntouched(r: Ram, q: Queue, l: Layout, n: U16, req: Req, a: nat, data: seq<Byte>)
    requires ChainReady(r, q, l, n, req) && q.descAddr == l.desc
    requires Apart(a, |data|, l.desc, 256) && Apart(a, |data|, ReqAddr(l, req), 16)
    ensures ChainReady(Write(r, a, data), q, l, n, req)
  {
    hide Read, Write, DescAt;
    DescUntouched(r, q, Link(n, 0), a, data);
    DescUntouched(r, q, Link(n, 1), a, data);
    DescUntouched(r, q, Link(n, 2), a, data);
    ReadOther(r, a, data, ReqAddr(l, req), 4);
    ReadOther(r, a, data, ReqAddr(l, req) + 8, 8);
  }

  lemma RequestReadBack(r: Ram, a: nat, kind: U32, sector: U64)
    requires InRam(r, a, 16)
    ensures var r2 := Write64(Write32(r, a, kind), a + 8, sector);
            Read32(r2, a) == kind && Read64(r2, a + 8) == sector
  {
    hide Read, Write, ToLe, FromLe, Pow256;
    var r1 := Write32(r, a, kind);
    Read32Same(r, a, kind);
    ReadOther(r1, a + 8, ToLe(sector, 8), a, 4);
    ReadSame(r1, a + 8, ToLe(sector, 8));
    WidthBounds();
    FromToLe(sector, 8);
  }

  /** The request, the header descriptor and the data descriptor. */
  function HalfPrepared(r: Ram, l: Layout, n: U16, req: Req): (r4: Ram)
    ensures r4.start == r.start && |r4.bytes| == |r.bytes|
  {
    var r1 := Write32(r, ReqAddr(l, req), Kind(req));
    var r2 := Write64(r1, ReqAddr(l, req) + 8, req.sector);
    var r3 := PutDesc(r2, l, Link(n, 0), HeadDesc(l, n, req));
    PutDesc(r3, l, Link(n, 1), DataDesc(n, req))
  }

  lemma HalfPreparedChain(r: Ram, q: Queue, l: Layout, n: U16, req: Req)
    requires Placed(l, r) && Good(l, r, req) && q.descAddr == l.desc
    ensures var r4 := HalfPrepared(r, l, n, req);
            && DescAt(r4, q, Link(n, 0)) == HeadDesc(l, n, req)
            && DescAt(r4, q, Link(n, 1)) == DataDesc(n, req)
            && Read32(r4, ReqAddr(l, req)) == Kind(req)
            && Read64(r4, ReqAddr(l, req) + 8) == req.sector
  {
    hide Read, Write, DescAt, ToLe, Link, HeadDesc, DataDesc, DescBytes;
    LinksDistinct(n);
    var a: nat := ReqAddr(l, req);
    var r2 := Write64(Write32(r, a, Kind(req)), a + 8, req.sector);
    var r3 := PutDesc(r2, l, Link(n, 0), HeadDesc(l, n, req));
    RequestReadBack(r, a, Kind(req), req.sector);
    DescReadBack(r2, q, Link(n, 0), HeadDesc(l, n, req));
    DescReadBack(r3, q, Link(n, 1), DataDesc(n, req));
    Survives(r2, l, q, req, Link(n, 0), l.desc + Link(n, 0) * 16, DescBytes(HeadDesc(l, n, req)));
    Survives(r3, l, q, req, Link(n, 1), l.desc + Link(n, 1) * 16, DescBytes(DataDesc(n, req)));
  }

  lemma PreparedChain(r: Ram, q: Queue, l: Layout, n: U16, req: Req)
    requires Placed(l, r) && Good(l, r, req) && q.descAddr == l.desc
    ensures ChainReady(Prepared(r, l, n, req), q, l, n, req)
  {
    hide Read, Write, DescAt, ToLe, Link, HeadDesc, DataDesc, StatusDesc, DescBytes, HalfPrepared;
    LinksDistinct(n);
    var r4 := HalfPrepared(r, l, n, req);
    var r5 := Write8(r4, req.status, UNSET);
    HalfPreparedChain(r, q, l, n, req);
    DescReadBack(r5, q, Link(n, 2), StatusDesc(req));
    Survives(r4, l, q, req, Link(n, 2), req.status, [UNSET]);
    Survives(r5, l, q, req, Link(n, 2), l.desc + Link(n, 2) * 16, DescBytes(StatusDesc(req)));
  }

  /** A write confined to descriptor `i`, or to the status byte, leaves the rest of the chain readable. */
  lemma Survives(r: Ram, l: Layout, q: Queue, req: Req, i: U16, a: nat, data: seq<Byte>)
    requires Placed(l, r) && Good(l, r, req) && q.descAddr == l.desc && i < QUEUE_SIZE
    requires (a == l.desc + i * 16 && |data| == 16) || (a == req.status && |data| == 1)
    ensures forall j: U16 :: j < QUEUE_SIZE && j != i ==> DescAt(Write(r, a, data), q, j) == DescAt(r, q, j)
    ensures Read32(Write(r, a, data), ReqAddr(l, req)) == Read32(r, ReqAddr(l, req))
    ensures Read64(Write(r, a, data), ReqAddr(l, req) + 8) == Read64(r, ReqAddr(l, req) + 8)
  {
    hide Read, Write, DescAt, ToLe;
    forall j: U16 | j < QUEUE_SIZE && j != i
      ensures DescAt(Write(r, a, data), q, j) == DescAt(r, q, j)
    {
      DescUntouched(r, q, j, a, data);
    }
    ReadOther(r, a, data, ReqAddr(l, req), 4);
    ReadOther(r, a, data, ReqAddr(l, req) + 8, 8);
  }

  lemma PreparedAgrees(r: Ram, l: Layout, n: U16, req: Req)
    ensures Agree(l, Write8(r, req.status, UNSET), Prepared(r, l, n, req))
  {
    hide Agree, Write, ToLe, DescBytes;
    var a: nat := ReqAddr(l, req);
    var r1 := Write32(r, a, Kind(req));
    var r2 := Write64(r1, a + 8, req.sector);
    var r3 := PutDesc(r2, l, Link(n, 0), HeadDesc(l, n, req));
    var r4 := PutDesc(r3, l, Link(n, 1), DataDesc(n, req));
    AgreeSelf(l, r);
    AgreeOwnedWrite(l, r, r, a, ToLe(Kind(req), 4));
    AgreeOwnedWrite(l, r, r1, a + 8, ToLe(req.sector, 8));
    AgreeOwnedWrite(l, r, r2, l.desc + Link(n, 0) * 16, DescBytes(HeadDesc(l, n, req)));
    AgreeOwnedWrite(l, r, r3, l.desc + Link(n, 1) * 16, DescBytes(DataDesc(n, req)));
    AgreeBothWrite(l, r, r4, req.status, [UNSET]);
    AgreeOwnedWrite(l, Write8(r, req.status, UNSET), Write8(r4, req.status, UNSET),
                    l.desc + Link(n, 2) * 16, DescBytes(StatusDesc(req)));
  }

  // ---- the exchange, as a run of the ring protocol ----

  /** The rings are quiet: everything published has been answered and reaped. */
  predicate Idle(s: P.State, l: Layout) {
    && P.Inv(s)
    && s.publisher.Quiet? && !s.reaping && s.device.Resting?
    && |s.published| == |s.reaped|
    && s.q.size == QUEUE_SIZE && s.q.descAddr == l.desc && s.q.availAddr == l.avail && s.q.usedAddr == l.used
    && Placed(l, s.ram)
  }

  lemma PreparedInv(s: P.State, l: Layout, n: U16, req: Req)
    requires Idle(s, l) && Good(l, s.ram, req)
    ensures Idle(s.(ram := Prepared(s.ram, l, n, req)), l)
  {
    hide P.Inv, Read, Write, ToLe, DescBytes;
    var a: nat := ReqAddr(l, req);
    var r1 := Write32(s.ram, a, Kind(req));
    var r2 := Write64(r1, a + 8, req.sector);
    var r3 := PutDesc(r2, l, Link(n, 0), HeadDesc(l, n, req));
    var r4 := PutDesc(r3, l, Link(n, 1), DataDesc(n, req));
    var r5 := Write8(r4, req.status, UNSET);
    P.DataKeeps(s, a, ToLe(Kind(req), 4));
    P.DataKeeps(s.(ram := r1), a + 8, ToLe(req.sector, 8));
    P.DataKeeps(s.(ram := r2), l.desc + Link(n, 0) * 16, DescBytes(HeadDesc(l, n, req)));
    P.DataKeeps(s.(ram := r3), l.desc + Link(n, 1) * 16, DescBytes(DataDesc(n, req)));
    P.DataKeeps(s.(ram := r4), req.status, [UNSET]);
    P.DataKeeps(s.(ram := r5), l.desc + Link(n, 2) * 16, DescBytes(StatusDesc(req)));
  }

  function PostedRam(s: P.State, l: Layout, n: U16, req: Req): Ram
    requires s.q.size > 0
  {
    var r := Prepared(s.ram, l, n, req);
    var r' := Write16(r, AvailSlotAddr(s.q, s.guestAvail), Link(n, 0));
    Write16(r', AvailIdxAddr(s.q), Succ16(s.guestAvail))
  }

  /** The state once the driver has published its chain and nobody has looked yet. */
  predicate Posted(t: P.State, s: P.State, l: Layout, n: U16, req: Req) {
    && P.Inv(t)
    && t.q == s.q && t.guestUsed == s.guestUsed && t.guestAvail == Succ16(s.guestAvail)
    && t.publisher.Quiet? && !t.reaping && t.device.Resting?
    && t.published == s.published + [Link(n, 0)] && t.popped == s.popped && t.used == s.used && t.reaped == s.reaped
    && |t.popped| + 1 == |t.published|
    && ChainReady(t.ram, t.q, l, n, req)
    && Agree(l, Write8(s.ram, req.status, UNSET), t.ram)
  }

  lemma Post(s: P.State, l: Layout, n: U16, req: Req) returns (t: P.State)
    requires Idle(s, l) && Good(l, s.ram, req)
    ensures Posted(t, s, l, n, req) && t.ram == PostedRam(s, l, n, req)
  {
    hide P.Inv, Read, Write, ToLe, DescBytes, Agree, ChainReady, Prepared;
    var r := Prepared(s.ram, l, n, req);
    PreparedInv(s, l, n, req);
    PreparedChain(s.ram, s.q, l, n, req);
    PreparedAgrees(s.ram, l, n, req);
    var p := s.(ram := r);
    IdleCounts(s, l);
    P.GuestSlotKeeps(p, Link(n, 0));
    var p' := P.Apply(p, P.GuestSlot(Link(n, 0)));
    P.GuestIdxKeeps(p');
    t := P.Apply(p', P.GuestIdx);
    var slot := AvailSlotAddr(s.q, s.guestAvail);
    ChainUntouched(r, s.q, l, n, req, slot, ToLe(Link(n, 0), 2));
    ChainUntouched(p'.ram, s.q, l, n, req, AvailIdxAddr(s.q), ToLe(Succ16(s.guestAvail), 2));
    AgreeOwnedWrite(l, Write8(s.ram, req.status, UNSET), r, slot, ToLe(Link(n, 0), 2));
    AgreeOwnedWrite(l, Write8(s.ram, req.status, UNSET), p'.ram, AvailIdxAddr(s.q), ToLe(Succ16(s.guestAvail), 2));
  }

  lemma IdleCounts(s: P.State, l: Layout)
    requires Idle(s, l)
    ensures |s.popped| == |s.published| == |s.used| && s.guestAvail == s.guestUsed
  {
  }

  // ---- the device's turn ----

  lemma ServeChain(r: Ram, q: Queue, l: Layout, n: U16, req: Req, disk: Disk)
    requires ChainReady(r, q, l, n, req)
    ensures Serve(r, Popped(q), disk, Link(n, 0))
         == Perform(r, disk, req.isWrite, ByteOffset(req.sector), DataDesc(n, req), StatusDesc(req))
  {
    hide Read, Write, Perform, ByteOffset, Link;
    assert DescAt(r, Popped(q), Link(n, 0)) == DescAt(r, q, Link(n, 0));
    assert DescAt(r, Popped(q), Link(n, 1)) == DescAt(r, q, Link(n, 1));
    assert DescAt(r, Popped(q), Link(n, 2)) == DescAt(r, q, Link(n, 2));
  }

  lemma Overwrite(r: Ram, b: nat, data: seq<Byte>, a: nat, u: Byte, v: Byte)
    requires Apart(b, |data|, a, 1)
    ensures Write8(Write(Write8(r, a, u), b, data), a, v) == Write8(Write(r, b, data), a, v)
  {
    var x := Write8(Write(Write8(r, a, u), b, data), a, v);
    var y := Write8(Write(r, b, data), a, v);
    hide Write;
    forall i | 0 <= i < |x.bytes|
      ensures x.bytes[i] == y.bytes[i]
    {
      WriteIndex(Write(Write8(r, a, u), b, data), a, [v], i);
      WriteIndex(Write8(r, a, u), b, data, i);
      WriteIndex(r, a, [u], i);
      WriteIndex(Write(r, b, data), a, [v], i);
      WriteIndex(r, b, data, i);
    }
  }

  /** What the device does to memory and disk is what `Direct` does. */
  lemma PerformIsDirect(r0: Ram, r: Ram, l: Layout, n: U16, req: Req, disk: Disk)
    requires Agree(l, Write8(r0, req.status, UNSET), r) && Good(l, r0, req)
    ensures var s := Perform(r, disk, req.isWrite, ByteOffset(req.sector), DataDesc(n, req), StatusDesc(req));
            var o := Direct(r0, disk, req);
            Agree(l, o.ram, s.ram) && s.disk == o.disk && Read8(s.ram, req.status) == o.status
            && SameShape(r0, s.ram)
  {
    hide Agree, Read, Write, Owns, ByteOffset, WriteAt;
    var u := Write8(r0, req.status, UNSET);
    AgreeShape(l, u, r);
    AgreeRead(l, u, r, req.buf, req.len);
    ReadOther(r0, req.status, [UNSET], req.buf, req.len);
    AgreeRead(l, u, r, req.status, 1);
    ReadSame(r0, req.status, [UNSET]);
    forall v: Byte
      ensures Agree(l, Write8(r0, req.status, v), Write8(r, req.status, v))
      ensures Read8(Write8(r, req.status, v), req.status) == v
    {
      AgreeBothWrite(l, u, r, req.status, [v]);
      WriteTwice(r0, req.status, UNSET, v);
      ReadSame(r, req.status, [v]);
    }
    var got := ReadAt(disk, ByteOffset(req.sector), req.len);
    if got.Some? {
      AgreeBothWrite(l, u, r, req.buf, got.value);
      AgreeBothWrite(l, Write(u, req.buf, got.value), Write(r, req.buf, got.value), req.status, [OK]);
      Overwrite(r0, req.buf, got.value, req.status, UNSET, OK);
      ReadSame(Write(r, req.buf, got.value), req.status, [OK]);
    }
  }

  lemma WriteTwice(r: Ram, a: nat, u: Byte, v: Byte)
    ensures Write8(Write8(r, a, u), a, v) == Write8(r, a, v)
  {
    var x, y := Write8(Write8(r, a, u), a, v), Write8(r, a, v);
    assert forall i :: 0 <= i < |x.bytes| ==> x.bytes[i] == y.bytes[i];
  }

  lemma AgreeShape(l: Layout, r: Ram, r': Ram)
    requires Agree(l, r, r')
    ensures SameShape(r, r')
  {
  }

  lemma PerformKeepsRings(t: P.State, l: Layout, n: U16, req: Req, disk: Disk)
    requires P.Inv(t) && Good(l, t.ram, req)
    requires t.q.size == QUEUE_SIZE && t.q.availAddr == l.avail && t.q.usedAddr == l.used
    ensures var s := Perform(t.ram, disk, req.isWrite, ByteOffset(req.sector), DataDesc(n, req), StatusDesc(req));
            P.Inv(t.(ram := s.ram))
  {
    hide P.Inv, Read, Write, ByteOffset, WriteAt;
    forall v: Byte ensures P.Inv(t.(ram := Write8(t.ram, req.status, v))) {
      P.DataKeeps(t, req.status, [v]);
    }
    var got := ReadAt(disk, ByteOffset(req.sector), req.len);
    if got.Some? {
      P.DataKeeps(t, req.buf, got.value);
      P.DataKeeps(t.(ram := Write(t.ram, req.buf, got.value)), req.status, [OK]);
    }
  }

  /** The device pops the chain, performs it and pushes it: one run of the ring protocol. */
  lemma DeviceTurn(t: P.State, l: Layout, n: U16, req: Req, disk: Disk) returns (w: P.State, s: Served)
    requires P.Inv(t) && t.device.Resting? && !t.reaping && |t.popped| + 1 == |t.published|
    requires t.published[|t.popped|] == Link(n, 0)
    requires t.q.size == QUEUE_SIZE && t.q.availAddr == l.avail && t.q.usedAddr == l.used
    requires ChainReady(t.ram, t.q, l, n, req) && Good(l, t.ram, req)
    ensures s == Perform(t.ram, disk, req.isWrite, ByteOffset(req.sector), DataDesc(n, req), StatusDesc(req))
    ensures Pending(t.ram, t.q)
    ensures ServeNext(Host(t.ram, t.q, disk, false)) == Host(w.ram, w.q, s.disk, s.work)
    ensures w.ram == PushedRam(s.ram, Popped(t.q), Link(n, 0), s.len)
    ensures P.Inv(w) && w == t.(ram := w.ram, q := Pushed(Popped(t.q)), popped := t.published,
                                used := t.used + [P.Elem(Link(n, 0), s.len)])
  {
    hide P.Inv, Read, Write, ByteOffset, WriteAt, ChainReady, Perform, Serve, PushedRam, Pending, NextHead, Link;
    P.EmptinessTests(t);
    TakeHead(t);
    var t2 := t.(device := P.Holding(Link(n, 0)), popped := t.published, q := Popped(t.q));
    ServeChain(t.ram, t.q, l, n, req, disk);
    PerformKeepsRings(t2, l, n, req, disk);
    s := Serve(t.ram, Popped(t.q), disk, Link(n, 0));
    var t3 := t2.(ram := s.ram);
    P.PushIsThreeWrites(t3, s.len);
    P.RunKeepsInv(t3, [P.HostId, P.HostLen(s.len), P.HostIdx]);
    w := P.Run(t3, [P.HostId, P.HostLen(s.len), P.HostIdx]);
  }

  lemma TakeHead(t: P.State)
    requires P.Inv(t) && t.device.Resting? && |t.popped| + 1 == |t.published|
    ensures P.Inv(t.(device := P.Holding(t.published[|t.popped|]), popped := t.published, q := Popped(t.q)))
  {
    hide Read, Write, NextHead, Pending;
    P.EmptinessTests(t);
    P.HostLookKeeps(t);
    var t1 := P.Apply(t, P.HostLook);
    assert t1 == t.(device := P.Looked);
    P.HostTakeKeeps(t1);
    assert t.published == t.popped + [t.published[|t.popped|]];
  }

  /** A tick serves the one pending chain and stops; a tick of an empty queue does nothing. */
  lemma TickServesOne(h: Host)
    requires Pending(h.ram, h.q) && !Pending(ServeNext(h).ram, ServeNext(h).q)
    ensures Batch(MAX_BATCH, h) == ServeNext(h)
  {
    assert Batch(MAX_BATCH, h) == Batch(MAX_BATCH - 1, ServeNext(h));
  }

  /** Everything the host does between publication and completion, seen from the memory before the call. */
  lemma HostTurn(t: P.State, s: P.State, l: Layout, n: U16, req: Req, disk: Disk) returns (w: P.State, work: bool)
    requires Idle(s, l) && Good(l, s.ram, req) && Posted(t, s, l, n, req)
    ensures var o := Direct(s.ram, disk, req);
            && Batch(MAX_BATCH, Host(t.ram, t.q, disk, false)) == Host(w.ram, w.q, o.disk, work)
            && Agree(l, o.ram, w.ram) && Read8(w.ram, req.status) == o.status
    ensures P.Inv(w) && !w.reaping && w.device.Resting? && w.publisher.Quiet?
    ensures w.guestAvail == t.guestAvail && w.guestUsed == t.guestUsed
    ensures w.q == Pushed(Popped(t.q)) && w.reaped == t.reaped && |w.used| == |w.published| == |w.reaped| + 1
    ensures SameShape(s.ram, w.ram)
    ensures work == (ByteOffset(req.sector) < 0x8000_0000_0000_0000)
    ensures w.used[|w.used| - 1] == P.Elem(Link(n, 0), if work then req.len else 0)
  {
    hide P.Inv, Read, Write, ByteOffset, WriteAt, ChainReady, Perform, Serve, PushedRam, Pending, Agree, Batch, Direct;
    var u := Write8(s.ram, req.status, UNSET);
    AgreeShape(l, u, t.ram);
    IdleCounts(s, l);
    var served;
    w, served := DeviceTurn(t, l, n, req, disk);
    work := served.work;
    PerformReports(t.ram, disk, req.isWrite, ByteOffset(req.sector), DataDesc(n, req), StatusDesc(req));
    P.EmptinessTests(w);
    TickServesOne(Host(t.ram, t.q, disk, false));
    PerformIsDirect(s.ram, t.ram, l, n, req, disk);
    PushAgrees(l, Direct(s.ram, disk, req).ram, served.ram, Popped(t.q), Link(n, 0), served.len);
    PushReads(served.ram, Popped(t.q), Link(n, 0), served.len, req.status, 1);
  }

  lemma PushAgrees(l: Layout, r: Ram, r': Ram, q: Queue, head: U16, len: U32)
    requires Agree(l, r, r') && q.usedAddr == l.used && q.size == QUEUE_SIZE
    ensures Agree(l, r, PushedRam(r', q, head, len)) && SameShape(r', PushedRam(r', q, head, len))
  {
    hide Agree, Write, ToLe;
    var slot := UsedSlotAddr(q, q.lastUsed);
    var r1 := Write32(r', slot, head);
    var r2 := Write32(r1, slot + 4, len);
    AgreeOwnedWrite(l, r, r', slot, ToLe(head, 4));
    AgreeOwnedWrite(l, r, r1, slot + 4, ToLe(len, 4));
    AgreeOwnedWrite(l, r, r2, UsedIdxAddr(q), ToLe(Succ16(q.lastUsed), 2));
  }

  /** The driver sees the answer, reaps it, and the rings are quiet again. */
  lemma ReapTurn(w: P.State, l: Layout) returns (z: P.State)
    requires P.Inv(w) && !w.reaping && w.device.Resting? && w.publisher.Quiet?
    requires |w.used| == |w.published| == |w.reaped| + 1
    requires w.q.size == QUEUE_SIZE && w.q.descAddr == l.desc && w.q.availAddr == l.avail && w.q.usedAddr == l.used
    requires Placed(l, w.ram)
    ensures Idle(z, l) && z.ram == w.ram && z.q == w.q
    ensures z.guestAvail == w.guestAvail && z.guestUsed == Succ16(w.guestUsed)
    ensures Read16(w.ram, UsedIdxAddr(w.q)) != w.guestUsed
  {
    hide Read, Write, Slot, P.UsedEntry, P.AvailEntry, P.Indices, P.AvailMemory, P.UsedMemory;
    P.EmptinessTests(w);
    P.GuestPollKeeps(w);
    var p := P.Apply(w, P.GuestPoll);
    P.GuestReapKeeps(p);
    z := P.Apply(p, P.GuestReap);
  }

  /**
    When the device's background ticks fall: how many before each store of the driver (0 to
    16 in order), before and after the notification (17, 18), with each poll (19), and before
    the answer is reaped (20); and whether the notification itself ticks the device.
   */
  datatype Timing = Timing(ticks: seq<nat>, notified: bool) {
    function Before(i: nat): nat { if i < |ticks| then ticks[i] else 0 }
  }

  class Driver {
    const mem: GuestMemory
    const queue: VirtioQueue
    const device: BlkVirtio
    const l: Layout
    var nextDesc: U16
    var availIdx: U16
    var lastUsed: U16
    /** The rings' history; it ties this object to the ring protocol. */
    ghost var ring: P.State

    ghost predicate Valid()
      reads this, mem.ram, queue
    {
      && Idle(ring, l) && ring.ram == mem.View() && ring.q == queue.View()
      && ring.guestAvail == availIdx && ring.guestUsed == lastUsed
      && nextDesc < QUEUE_SIZE
    }

    /** The queue has just been made ready over zeroed rings. */
    constructor (mem: GuestMemory, queue: VirtioQueue, device: BlkVirtio, l: Layout)
      requires Placed(l, mem.View())
      requires queue.View() == Queue(QUEUE_SIZE, true, l.desc, l.avail, l.used, 0, 0)
      requires Read16(mem.View(), l.avail + 2) == 0 && Read16(mem.View(), l.used + 2) == 0
      ensures Valid() && this.mem == mem && this.queue == queue && this.device == device && this.l == l
    {
      this.mem, this.queue, this.device, this.l := mem, queue, device, l;
      nextDesc, availIdx, lastUsed := 0, 0, 0;
      ring := P.State(mem.View(), queue.View(), 0, 0, P.Quiet, false, P.Resting, [], [], [], []);
    }

    /** Ticks of the background thread while nothing is pending: they come and go unnoticed. */
    method IdleTicks(n: nat)
      requires !Pending(mem.View(), queue.View())
      modifies mem.ram, queue, device
      ensures mem.View() == old(mem.View()) && queue.View() == old(queue.View()) && device.disk == old(device.disk)
    {
      hide Pending, ServeNext;
      for i := 0 to n
        invariant mem.View() == old(mem.View()) && queue.View() == old(queue.View()) && device.disk == old(device.disk)
      {
        var _, _ := device.Tick(queue, mem);
      }
    }

    /** One store of the driver, after any number of ticks. */
    method Store(addr: nat, data: seq<Byte>, ticks: nat)
      requires !Pending(mem.View(), queue.View()) && Apart(addr, |data|, queue.availAddr + 2, 2)
      modifies mem.ram, queue, device
      ensures mem.View() == Write(old(mem.View()), addr, data) && !Pending(mem.View(), queue.View())
      ensures queue.View() == old(queue.View()) && device.disk == old(device.disk)
    {
      hide Write, Read;
      IdleTicks(ticks);
      ReadOther(mem.View(), addr, data, queue.availAddr + 2, 2);
      mem.WriteBytes(addr, data);
    }

    /** Nothing is pending and the available index is out of the way of what is to be written. */
    predicate Calm()
      reads this, mem.ram, queue
    {
      !Pending(mem.View(), queue.View()) && queue.availAddr == l.avail && Placed(l, mem.View())
    }

    method PutDescriptor(i: U16, d: Desc, timing: Timing, at: nat)
      requires i < QUEUE_SIZE && Calm()
      modifies mem.ram, queue, device
      ensures mem.View() == PutDesc(old(mem.View()), l, i, d) && Calm()
      ensures queue.View() == old(queue.View()) && device.disk == old(device.disk)
    {
      hide Write, ToLe, Pending;
      var base := l.desc + i * 16;
      ghost var r := mem.View();
      Store(base, ToLe(d.addr, 8), timing.Before(at));
      Store(base + 8, ToLe(d.len, 4), timing.Before(at + 1));
      Store(base + 12, ToLe(d.flags, 2), timing.Before(at + 2));
      Store(base + 14, ToLe(d.next, 2), timing.Before(at + 3));
      WriteJoin(r, base, ToLe(d.addr, 8), ToLe(d.len, 4));
      WriteJoin(r, base, ToLe(d.addr, 8) + ToLe(d.len, 4), ToLe(d.flags, 2));
      WriteJoin(r, base, ToLe(d.addr, 8) + ToLe(d.len, 4) + ToLe(d.flags, 2), ToLe(d.next, 2));
    }

    /** Writes the request and the descriptors for it and for the data. */
    method PrepareFront(req: Req, timing: Timing)
      requires Calm() && Good(l, mem.View(), req)
      modifies mem.ram, queue, device
      ensures Calm() && mem.View() == HalfPrepared(old(mem.View()), l, nextDesc, req)
      ensures queue.View() == old(queue.View()) && device.disk == old(device.disk)
    {
      hide Write, ToLe, DescBytes, Pending, PutDesc;
      var n := nextDesc;
      Store(ReqAddr(l, req), ToLe(Kind(req), 4), timing.Before(0));
      Store(ReqAddr(l, req) + 8, ToLe(req.sector, 8), timing.Before(1));
      var d, d2, d3 := n % QUEUE_SIZE, (n + 1) % QUEUE_SIZE, (n + 2) % QUEUE_SIZE;
      PutDescriptor(d, Desc(ReqAddr(l, req), 16, NEXT, d2), timing, 2);
      PutDescriptor(d2, Desc(req.buf, req.len, if req.isWrite then NEXT else WRITE + NEXT, d3), timing, 6);
    }

    /** Writes the request and its descriptor chain, advancing the descriptor cursor by three. */
    method Prepare(req: Req, timing: Timing) returns (d: U16)
      requires Calm() && Good(l, mem.View(), req)
      modifies mem.ram, queue, device, this`nextDesc
      ensures d == Link(old(nextDesc), 0) && nextDesc == Link(old(nextDesc), 3) && Calm()
      ensures mem.View() == Prepared(old(mem.View()), l, old(nextDesc), req)
      ensures queue.View() == old(queue.View()) && device.disk == old(device.disk)
    {
      hide Write, ToLe, DescBytes, Pending, PutDesc, HalfPrepared;
      PrepareFront(req, timing);
      d := nextDesc % QUEUE_SIZE;
      var d3 := (nextDesc + 2) % QUEUE_SIZE;
      nextDesc := (nextDesc + 3) % QUEUE_SIZE;
      Store(req.status, [UNSET], timing.Before(10));
      PutDescriptor(d3, Desc(req.status, 1, WRITE, 0), timing, 11);
    }

    /** Prepares a chain and publishes it. */
    method Publish(req: Req, timing: Timing)
      requires Valid() && Good(l, mem.View(), req)
      modifies this`nextDesc, this`availIdx, mem.ram, queue, device
      ensures mem.View() == PostedRam(ring, l, old(nextDesc), req)
      ensures queue.View() == old(queue.View()) && device.disk == old(device.disk)
      ensures nextDesc < QUEUE_SIZE && availIdx == Succ16(old(availIdx))
    {
      hide P.Inv, Write, ToLe, Prepared, Pending, Good;
      IdleIsCalm(ring, l);
      ghost var r0 := mem.View();
      var d := Prepare(req, timing);
      Store(l.avail + 4 + 2 * Slot(availIdx, QUEUE_SIZE), ToLe(d, 2), timing.Before(15));
      availIdx := (availIdx + 1) % 0x1_0000;
      IdleTicks(timing.Before(16));
      mem.WriteBytes(l.avail + 2, ToLe(availIdx, 2));
    }

    /**
      Notifies and polls until the device has answered.  The first tick after publication
      serves the chain, whenever it comes; all others find nothing to do.
     */
    method Await(timing: Timing, ghost t: P.State, ghost w: P.State, ghost disk: Disk, ghost work: bool)
      requires mem.View() == t.ram && queue.View() == t.q && w.q.usedAddr == t.q.usedAddr == l.used
      requires Batch(MAX_BATCH, Host(t.ram, t.q, device.disk, false)) == Host(w.ram, w.q, disk, work)
      requires !Pending(w.ram, w.q)
      requires Read16(t.ram, UsedIdxAddr(t.q)) == lastUsed && Read16(w.ram, UsedIdxAddr(t.q)) != lastUsed
      modifies mem.ram, queue, device
      ensures mem.View() == w.ram && queue.View() == w.q && device.disk == disk
    {
      hide Pending, Batch, Read;
      WidthBounds();
      var answered := ServeTicks(timing.Before(17), false, t, w, disk, work);
      if timing.notified {
        answered := ServeTicks(1, answered, t, w, disk, work);
      }
      answered := ServeTicks(timing.Before(18), answered, t, w, disk, work);
      var idx := mem.ReadBytes(l.used + 2, 2);
      while FromLe(idx) == lastUsed
        invariant idx == Read(mem.View(), l.used + 2, 2)
        invariant !answered ==> mem.View() == t.ram && queue.View() == t.q && device.disk == old(device.disk)
        invariant answered ==> mem.View() == w.ram && queue.View() == w.q && device.disk == disk
        decreases !answered
      {
        answered := ServeTicks(1 + timing.Before(19), answered, t, w, disk, work);
        idx := mem.ReadBytes(l.used + 2, 2);
      }
      assert answered;
      var _ := ServeTicks(timing.Before(20), answered, t, w, disk, work);
    }

    /** Any number of ticks after publication, before or after the one that serves the chain. */
    method ServeTicks(n: nat, before: bool, ghost t: P.State, ghost w: P.State, ghost disk: Disk, ghost work: bool)
      returns (answered: bool)
      requires before ==> mem.View() == w.ram && queue.View() == w.q && device.disk == disk
      requires !before ==> mem.View() == t.ram && queue.View() == t.q
      requires !before ==> Batch(MAX_BATCH, Host(t.ram, t.q, device.disk, false)) == Host(w.ram, w.q, disk, work)
      requires !Pending(w.ram, w.q)
      modifies mem.ram, queue, device
      ensures answered == (before || n > 0)
      ensures answered ==> mem.View() == w.ram && queue.View() == w.q && device.disk == disk
      ensures !answered ==> mem.View() == t.ram && queue.View() == t.q && device.disk == old(device.disk)
    {
      hide Pending, Batch;
      answered := before;
      if n == 0 {
        return;
      }
      if !before {
        var _, _ := device.Tick(queue, mem);
        answered := true;
        IdleTicks(n - 1);
      } else {
        IdleTicks(n);
      }
    }

    /** One read or write, with the device's ticks falling anywhere in between. */
    method Transfer(req: Req, timing: Timing) returns (status: Byte)
      requires Valid() && Good(l, mem.View(), req)
      modifies this`nextDesc, this`availIdx, this`lastUsed, this`ring, mem.ram, queue, device
      ensures Valid()
      ensures var o := old(Direct(mem.View(), device.disk, req));
              Agree(l, o.ram, mem.View()) && device.disk == o.disk && status == o.status
      ensures SameShape(old(mem.View()), mem.View())
    {
      hide P.Inv, Read, Write, ToLe, Direct, Batch, Prepared, Agree, Pending, ChainReady;
      ghost var s, n, disk0 := ring, nextDesc, device.disk;
      ghost var t := Post(s, l, n, req);
      ghost var w, work := HostTurn(t, s, l, n, req, disk0);
      ghost var z := ReapTurn(w, l);
      IdleCounts(s, l);
      StillWaiting(t);
      AnsweredIsCalm(w);
      Publish(req, timing);
      Await(timing, t, w, Direct(s.ram, disk0, req).disk, work);
      lastUsed := (lastUsed + 1) % 0x1_0000;
      ring := z;
      var st := mem.ReadBytes(req.status, 1);
      status := st[0];
    }

    /**
      Any sequence of requests, with any number of device ticks before every store of the
      driver, around the notification and while it polls: statuses, disk and all memory that
      is not the driver's own are those of copying directly.
     */
    method RunAll(reqs: seq<Req>, timings: seq<Timing>) returns (statuses: seq<Byte>)
      requires Valid() && |timings| == |reqs|
      requires forall i :: 0 <= i < |reqs| ==> Good(l, mem.View(), reqs[i])
      modifies this`nextDesc, this`availIdx, this`lastUsed, this`ring, mem.ram, queue, device
      ensures Valid()
      ensures var o := old(DirectAll(mem.View(), device.disk, reqs));
              Agree(l, o.ram, mem.View()) && device.disk == o.disk && statuses == o.statuses
    {
      hide Idle, Direct, Agree, Good;
      statuses := [];
      ghost var r0, disk0 := mem.View(), device.disk;
      AgreeSelf(l, r0);
      assert reqs[..0] == [];
      for i := 0 to |reqs|
        invariant Valid()
        invariant SameShape(r0, mem.View())
        invariant var o := DirectAll(r0, disk0, reqs[..i]);
                  Agree(l, o.ram, mem.View()) && device.disk == o.disk && statuses == o.statuses
      {
        ghost var o, r := DirectAll(r0, disk0, reqs[..i]), mem.View();
        GoodShape(l, r0, r, reqs[i]);
        var status := Transfer(reqs[i], timings[i]);
        AgreeShape(l, o.ram, r);
        GoodShape(l, r, o.ram, reqs[i]);
        DirectAgrees(l, o.ram, r, o.disk, reqs[i]);
        AgreeTrans(l, Direct(o.ram, o.disk, reqs[i]).ram, Direct(r, o.disk, reqs[i]).ram, mem.View());
        assert reqs[..i + 1][..i] == reqs[..i];
        statuses := statuses + [status];
      }
      assert reqs[..|reqs|] == reqs;
    }
  }

  /** Between requests nothing is pending. */
  lemma IdleIsCalm(s: P.State, l: Layout)
    requires Idle(s, l)
    ensures !Pending(s.ram, s.q)
  {
    hide P.Inv, Pending;
    IdleCounts(s, l);
    P.EmptinessTests(s);
  }

  /** Once the device has answered, nothing is pending. */
  lemma AnsweredIsCalm(w: P.State)
    requires P.Inv(w) && w.device.Resting? && |w.used| == |w.published|
    ensures !Pending(w.ram, w.q)
  {
    hide Pending, P.AvailMemory, P.UsedMemory;
    P.EmptinessTests(w);
  }

  /** Until the device has pushed, the used index the driver polls has not moved. */
  lemma StillWaiting(t: P.State)
    requires P.Inv(t) && |t.used| == |t.reaped|
    ensures Read16(t.ram, UsedIdxAddr(t.q)) == t.guestUsed
  {
  }

  lemma GoodShape(l: Layout, r: Ram, r': Ram, req: Req)
    requires Good(l, r, req) && SameShape(r, r')
    ensures Good(l, r', req)
  {
  }

  // ---- what the reference promises, hence what the driver delivers ----

  /**
    A read reports 0 exactly when the range is on the disk, and then the buffer holds that range;
    1 past the end, and nothing at all, so that the driver's own 0xFF stands, past 2^63.
   */
  lemma ReadReturnsDisk(l: Layout, r: Ram, disk: Disk, req: Req)
    requires Good(l, r, req) && !req.isWrite && req.sector < 0x80_0000_0000_0000
    ensures var o, at := Direct(r, disk, req), req.sector * 512;
            && o.disk == disk
            && o.status == (if at >= 0x8000_0000_0000_0000 then 0xFF
                            else if req.len == 0 || at + req.len <= |disk.data| then 0 else 1)
            && (o.status == OK && req.len > 0 ==> Read(o.ram, req.buf, req.len) == disk.data[at..at + req.len])
            && (o.status != OK ==> Read(o.ram, req.buf, req.len) == Read(r, req.buf, req.len))
  {
    hide Write, Read;
    var got := ReadAt(disk, ByteOffset(req.sector), req.len);
    forall v: Byte ensures Read(Write8(r, req.status, v), req.buf, req.len) == Read(r, req.buf, req.len) {
      ReadOther(r, req.status, [v], req.buf, req.len);
    }
    if got.Some? {
      ReadOther(Write(r, req.buf, got.value), req.status, [OK], req.buf, req.len);
      ReadSame(r, req.buf, got.value);
    }
  }

  /** A write reports 0 exactly when its range fits the file, and one wholly past the limit changes nothing. */
  lemma WriteReports(l: Layout, r: Ram, disk: Disk, req: Req)
    requires Good(l, r, req) && req.isWrite && req.sector < 0x80_0000_0000_0000
    ensures var o, at := Direct(r, disk, req), req.sector * 512;
            && o.status == (if at >= 0x8000_0000_0000_0000 then 0xFF
                            else if req.len == 0 || at + req.len <= disk.limit then 0 else 1)
            && (at >= 0x8000_0000_0000_0000 || (at >= disk.limit && req.len > 0) ==> o.disk == disk)
  {
    hide Write;
    OffsetExact(req.sector);
  }

  /** A write that reports success changes exactly its own range of the disk. */
  lemma WriteChangesRange(l: Layout, r: Ram, disk: Disk, req: Req)
    requires Good(l, r, req) && req.isWrite && req.sector < 0x80_0000_0000_0000
    requires Direct(r, disk, req).status == OK
    ensures var d, d', at := disk.data, Direct(r, disk, req).disk.data, req.sector * SECTOR;
            && |d'| == (if req.len > 0 && at + req.len > |d| then at + req.len else |d|)
            && (req.len > 0 ==> d'[at..at + req.len] == Read(r, req.buf, req.len))
            && (forall i :: 0 <= i < |d'| && !(at <= i < at + req.len) ==> d'[i] == if i < |d| then d[i] else 0)
  {
    hide Write, Read, Patch;
    OffsetExact(req.sector);
    PatchFacts(disk.data, req.sector * SECTOR, Read(r, req.buf, req.len));
  }

  lemma PatchFacts(data: seq<Byte>, at: nat, bytes: seq<Byte>)
    ensures var d := Patch(data, at, bytes);
            && |d| == (if bytes != [] && at + |bytes| > |data| then at + |bytes| else |data|)
            && (bytes != [] ==> d[at..at + |bytes|] == bytes)
            && (forall i :: 0 <= i < |d| && !(at <= i < at + |bytes|) ==> d[i] == if i < |data| then data[i] else 0)
  {
  }

  /** Reading back a range just written returns the written bytes, whatever buffer they are read into. */
  lemma WriteThenRead(l: Layout, r: Ram, disk: Disk, w: Req, rd: Req)
    requires Good(l, r, w) && Good(l, r, rd) && w.isWrite && !rd.isWrite
    requires rd.sector == w.sector < 0x80_0000_0000_0000 && rd.len == w.len
    requires Direct(r, disk, w).status == OK
    ensures var o := Direct(r, disk, w);
            var o' := Direct(o.ram, o.disk, rd);
            o'.status == OK && Read(o'.ram, rd.buf, rd.len) == Read(r, w.buf, w.len)
  {
    hide Write, Read, Direct, Patch, WriteAt;
    var o := Direct(r, disk, w);
    DirectShape(r, disk, w);
    GoodShape(l, r, o.ram, rd);
    WriteChangesRange(l, r, disk, w);
    ReadReturnsDisk(l, o.ram, o.disk, rd);
    SuccessSought(r, disk, w);
    if w.len == 0 {
      assert Read(Direct(o.ram, o.disk, rd).ram, rd.buf, 0) == [] == Read(r, w.buf, 0);
    }
  }

  /** The request writes nothing into [at, at+len) of the disk, whether it succeeds or not. */
  predicate Misses(req: Req, at: nat, len: nat) {
    req.isWrite ==> Apart(ByteOffset(req.sector), req.len, at, len)
  }

  lemma MissedRangeKept(r: Ram, disk: Disk, req: Req, at: nat, len: nat)
    requires at + len <= |disk.data| && Misses(req, at, len)
    ensures var d := Direct(r, disk, req).disk.data;
            at + len <= |d| && d[at..at + len] == disk.data[at..at + len]
  {
    hide Read, Write, Patch;
    if req.isWrite && SeekOk(ByteOffset(req.sector)) {
      var off, bytes := ByteOffset(req.sector), Read(r, req.buf, req.len);
      var fits := if off < disk.limit then disk.limit - off else 0;
      PatchFacts(disk.data, off, bytes);
      if fits <= |bytes| {
        PatchFacts(disk.data, off, bytes[..fits]);
      }
    }
  }

  lemma {:induction false} RunKeepsRange(r: Ram, disk: Disk, reqs: seq<Req>, k: nat, j: nat, at: nat, len: nat)
    requires k <= j <= |reqs| && at + len <= |DirectAll(r, disk, reqs[..k]).disk.data|
    requires forall i :: k <= i < j ==> Misses(reqs[i], at, len)
    ensures var d, d' := DirectAll(r, disk, reqs[..k]).disk.data, DirectAll(r, disk, reqs[..j]).disk.data;
            at + len <= |d'| && d'[at..at + len] == d[at..at + len]
    decreases j
  {
    hide Direct, Misses;
    if k < j {
      RunKeepsRange(r, disk, reqs, k, j - 1, at, len);
      assert reqs[..j][..j - 1] == reqs[..j - 1];
      var before := DirectAll(r, disk, reqs[..j - 1]);
      MissedRangeKept(before.ram, before.disk, reqs[j - 1], at, len);
    }
  }

  lemma {:induction false} RunShape(r: Ram, disk: Disk, reqs: seq<Req>)
    ensures SameShape(r, DirectAll(r, disk, reqs).ram)
    decreases |reqs|
  {
    hide Direct;
    if reqs != [] {
      var n := |reqs| - 1;
      RunShape(r, disk, reqs[..n]);
      var before := DirectAll(r, disk, reqs[..n]);
      DirectShape(before.ram, before.disk, reqs[n]);
    }
  }

  /**
    In any sequence of requests: a read inside a range that an earlier write filled, with no
    write touching what is read in between, succeeds and returns those bytes of the earlier
    write's buffer as it was when it was written.
   */
  lemma LastWriteWins(l: Layout, r: Ram, disk: Disk, reqs: seq<Req>, w: nat, j: nat)
    requires w < j < |reqs| && reqs[w].isWrite && !reqs[j].isWrite && Good(l, r, reqs[w]) && Good(l, r, reqs[j])
    requires reqs[w].sector <= reqs[j].sector < 0x80_0000_0000_0000
    requires SeekOk(reqs[j].sector * SECTOR) && reqs[j].len > 0
    requires reqs[j].sector * SECTOR + reqs[j].len <= reqs[w].sector * SECTOR + reqs[w].len
    requires DirectAll(r, disk, reqs[..w + 1]).statuses[w] == OK
    requires forall i :: w < i < j ==> Misses(reqs[i], reqs[j].sector * SECTOR, reqs[j].len)
    ensures var was, now := DirectAll(r, disk, reqs[..w]).ram, DirectAll(r, disk, reqs[..j + 1]);
            var off := (reqs[j].sector - reqs[w].sector) * SECTOR;
            && now.statuses[j] == OK
            && Read(now.ram, reqs[j].buf, reqs[j].len)
            == Read(was, reqs[w].buf, reqs[w].len)[off..off + reqs[j].len]
  {
    hide Direct, Misses, Read, Good, SameShape;
    var wr, rd := reqs[w], reqs[j];
    var at, n := rd.sector * SECTOR, rd.len;
    var first, last := DirectAll(r, disk, reqs[..w]), DirectAll(r, disk, reqs[..j]);
    var d := DirectAll(r, disk, reqs[..w + 1]).disk.data;
    assert reqs[..w + 1][..w] == reqs[..w] && reqs[..j + 1][..j] == reqs[..j];
    RunShape(r, disk, reqs[..w]);
    RunShape(r, disk, reqs[..j]);
    GoodShape(l, r, first.ram, wr);
    GoodShape(l, r, last.ram, rd);
    SuccessSought(first.ram, first.disk, wr);
    WriteChangesRange(l, first.ram, first.disk, wr);
    RunKeepsRange(r, disk, reqs, w + 1, j, at, n);
    ReadReturnsDisk(l, last.ram, last.disk, rd);
    InsideRange(d, wr.sector * SECTOR, wr.len, at, n);
    OffsetExact(wr.sector);
    OffsetExact(rd.sector);
  }

  lemma InsideRange(d: seq<Byte>, a: nat, len: nat, at: nat, n: nat)
    requires a <= at && at + n <= a + len <= |d|
    ensures d[at..at + n] == d[a..a + len][at - a..at - a + n]
  {
    SliceSlice(d, a, a + len, at - a, n);
  }

  lemma DirectShape(r: Ram, disk: Disk, req: Req)
    ensures SameShape(r, Direct(r, disk, req).ram)
  {
  }

  lemma SuccessSought(r: Ram, disk: Disk, req: Req)
    requires Direct(r, disk, req).status == OK
    ensures SeekOk(ByteOffset(req.sector))
  {
  }

  /** Scaling the sector number in 64 bits is exact precisely below sector 2^55. */
  lemma OffsetExact(sector: U64)
    ensures ByteOffset(sector) == sector * SECTOR <==> sector < 0x80_0000_0000_0000
  {
  }

  /** Above that, a read can succeed and return a different part of the disk. */
  lemma OffsetWraps(l: Layout, r: Ram, disk: Disk, req: Req)
    requires Good(l, r, req) && !req.isWrite && req.sector == 0x80_0000_0000_0000 && 0 < req.len <= |disk.data|
    ensures var o := Direct(r, disk, req);
            o.status == OK && Read(o.ram, req.buf, req.len) == disk.data[..req.len]
  {
    hide Write, Read;
    assert ByteOffset(req.sector) == 0;
    var bytes := disk.data[0..0 + req.len];
    ReadOther(Write(r, req.buf, bytes), req.status, [OK], req.buf, req.len);
    ReadSame(r, req.buf, bytes);
  }
}
