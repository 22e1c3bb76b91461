/** The shared-folder device: request chains gathered, dispatched and answered in place. */
module FsDevice {
  import opened Bytes
  import opened GuestRam
  import opened Virtqueue
  import opened Chain
  import opened Arith
  import P = RingProtocol
  import R = Retire

  // ---- the reply envelope ----

  /** What the file system answers: a payload, or a positive error number. */
  datatype Outcome = Payload(bytes: seq<Byte>) | Errno(code: U32)

  /**
    The file system behind the device.  Its answer may depend on everything that went
    before, so it is given the number of the request as well as the request itself.
   */
  type Dispatch = (nat, seq<Byte>) -> Outcome

  /** The tag of a request; a header cut short before or inside it reads as 0. */
  function Unique(request: seq<Byte>): U64 {
    if |request| >= 16 then U64At(request, 8) else 0
  }

  /** Total length, negated error number and the request's own tag, then the payload. */
  function Envelope(unique: U64, o: Outcome): seq<Byte> {
    match o
    case Payload(p) => ToLe((16 + |p|) % 0x1_0000_0000, 4) + ToLe(0, 4) + ToLe(unique, 8) + p
    case Errno(e) => ToLe(16, 4) + ToLe((0x1_0000_0000 - e) % 0x1_0000_0000, 4) + ToLe(unique, 8)
  }

  /** The client recovers the length, the error and the tag of its request from the reply. */
  lemma EnvelopeReadsBack(unique: U64, o: Outcome)
    requires o.Payload? ==> |o.bytes| < 0xFFFF_FFF0
    ensures var b := Envelope(unique, o);
            && |b| >= 16 && FromLe(b[0..4]) == |b| && FromLe(b[8..16]) == unique
            && (o.Payload? ==> FromLe(b[4..8]) == 0 && b[16..] == o.bytes)
            && (o.Errno? ==> (FromLe(b[4..8]) + o.code) % 0x1_0000_0000 == 0 && b[16..] == [])
  {
    hide ToLe, FromLe;
    WidthBounds();
    var b := Envelope(unique, o);
    var len := if o.Payload? then 16 + |o.bytes| else 16;
    var error := if o.Payload? then 0 else (0x1_0000_0000 - o.code) % 0x1_0000_0000;
    assert b[0..4] == ToLe(len, 4) && b[4..8] == ToLe(error, 4) && b[8..16] == ToLe(unique, 8);
    FromToLe(len, 4);
    FromToLe(error, 4);
    FromToLe(unique, 8);
  }

  /** A request as the guest builds it: length, operation, tag, and the rest of header and arguments. */
  function RequestBytes(len: U32, opcode: U32, unique: U64, rest: seq<Byte>): seq<Byte> {
    ToLe(len, 4) + ToLe(opcode, 4) + ToLe(unique, 8) + rest
  }

  /** The reply to a request carries that request's tag, whatever the answer. */
  lemma ReplyCarriesTag(len: U32, opcode: U32, unique: U64, rest: seq<Byte>, dispatch: Dispatch, i: nat)
    ensures var b := ReplyTo(RequestBytes(len, opcode, unique, rest), dispatch, i);
            |b| >= 16 && FromLe(b[8..16]) == unique
  {
    hide ToLe, FromLe;
    var request := RequestBytes(len, opcode, unique, rest);
    assert request[8..16] == ToLe(unique, 8);
    WidthBounds();
    FromToLe(unique, 8);
    var b := ReplyTo(request, dispatch, i);
    assert b[8..16] == ToLe(unique, 8);
  }

  /** A request cut short before the end of its tag is answered all the same, under tag 0. */
  lemma ShortRequestTag(request: seq<Byte>, dispatch: Dispatch, i: nat)
    requires |request| < 16
    ensures var b := ReplyTo(request, dispatch, i); |b| >= 16 && FromLe(b[8..16]) == 0
  {
    hide ToLe, FromLe;
    WidthBounds();
    FromToLe(0, 8);
    assert ReplyTo(request, dispatch, i)[8..16] == ToLe(0, 8);
  }

  // ---- the two queues ----

  const REQUESTS := 1

  /** The reply to the i-th request. */
  function ReplyTo(request: seq<Byte>, dispatch: Dispatch, i: nat): seq<Byte> {
    Envelope(Unique(request), dispatch(i, request))
  }

  datatype Fs = Fs(ram: Ram, q: Queue)

  /**
    The device comes back from a head: collecting it ends and, on the request queue, so does
    laying the reply.
   */
  ghost predicate Returns(r: Ram, q: Queue, head: U16, sel: nat, dispatch: Dispatch, i: nat) {
    && Collected(r, q, head).Some?
    && (sel == REQUESTS ==> LaidAtAll(r, q, head, ReplyTo(Collected(r, q, head).value, dispatch, i)))
  }

  /** Memory once a head has been dealt with and before it is pushed back. */
  ghost function Dealt(r: Ram, q: Queue, head: U16, sel: nat, dispatch: Dispatch, i: nat): Ram
    requires Returns(r, q, head, sel, dispatch, i)
  {
    if sel != REQUESTS then r
    else
      var reply := ReplyTo(Collected(r, q, head).value, dispatch, i);
      Laid(r, q, head, reply, Fuel(r, q, head, reply)).value.0
  }

  ghost predicate NextReturns(s: Fs, sel: nat, dispatch: Dispatch, i: nat) {
    Pending(s.ram, s.q) && Returns(s.ram, Popped(s.q), NextHead(s.ram, s.q), sel, dispatch, i)
  }

  /** One head: answered if it came on the request queue, and pushed back on either. */
  ghost function FsStep(s: Fs, sel: nat, dispatch: Dispatch, i: nat): Fs
    requires NextReturns(s, sel, dispatch, i)
  {
    var head, q := NextHead(s.ram, s.q), Popped(s.q);
    Fs(PushedRam(Dealt(s.ram, q, head, sel, dispatch, i), q, head, 0), Pushed(q))
  }

  /** The device comes back from every head it takes in that many rounds. */
  ghost predicate AllReturn(s: Fs, sel: nat, dispatch: Dispatch, i: nat, rounds: nat)
    decreases rounds
  {
    rounds > 0 && Pending(s.ram, s.q) ==>
      NextReturns(s, sel, dispatch, i) && AllReturn(FsStep(s, sel, dispatch, i), sel, dispatch, i + 1, rounds - 1)
  }

  ghost function FsRounds(s: Fs, sel: nat, dispatch: Dispatch, i: nat, rounds: nat): Fs
    requires AllReturn(s, sel, dispatch, i, rounds)
    decreases rounds
  {
    if rounds == 0 || !Pending(s.ram, s.q) then s
    else FsRounds(FsStep(s, sel, dispatch, i), sel, dispatch, i + 1, rounds - 1)
  }

  /** Both loops take heads in order and return each, short headers and malformed chains included. */
  lemma {:induction false} FsRetires(s: Fs, sel: nat, dispatch: Dispatch, i: nat, rounds: nat)
    returns (turns: seq<R.Turn>)
    requires AllReturn(s, sel, dispatch, i, rounds)
    ensures var e := FsRounds(s, sel, dispatch, i, rounds);
            R.Loop(R.Snap(s.ram, s.q), turns, R.Snap(e.ram, e.q), rounds)
    decreases rounds
  {
    hide Pending, PushedRam, NextHead, Dealt, Returns, R.Loop;
    var a, e := R.Snap(s.ram, s.q), FsRounds(s, sel, dispatch, i, rounds);
    if rounds == 0 || !Pending(s.ram, s.q) {
      turns := [];
      R.LoopNothing(a, rounds);
    } else {
      PendingQueue(s.ram, s.q);
      var head, q := NextHead(s.ram, s.q), Popped(s.q);
      var t := R.Turn(head, Dealt(s.ram, q, head, sel, dispatch, i), 0);
      var rest := FsRetires(FsStep(s, sel, dispatch, i), sel, dispatch, i + 1, rounds - 1);
      turns := [t] + rest;
      R.LoopCons(a, t, rest, R.Snap(e.ram, e.q), rounds);
    }
  }

  /** One head taken off a queue. */
  method Serve(sel: nat, queue: VirtioQueue, mem: GuestMemory, head: U16, dispatch: Dispatch, i: nat)
    requires sel <= 1 && Returns(mem.View(), queue.View(), head, sel, dispatch, i)
    modifies queue, mem.ram
    ensures var r, q := old(mem.View()), old(queue.View());
            mem.View() == PushedRam(Dealt(r, q, head, sel, dispatch, i), q, head, 0) && queue.View() == Pushed(q)
  {
    hide PushedRam, Collected, Laid, Envelope, Unique;
    ghost var r, q := mem.View(), queue.View();
    var request := CollectReadable(queue, mem, head);
    if sel == REQUESTS {
      var reply := ReplyTo(request, dispatch, i);
      var _ := WriteOutReply(queue, mem, head, reply, Fuel(r, q, head, reply));
    }
    queue.PushUsed(mem, head, 0);
  }

  /**
    A tick of either queue, for any number of rounds: heads are taken in order and each is
    returned, and on the request queue every chain carries its reply.
   */
  method Tick(sel: nat, queue: VirtioQueue, mem: GuestMemory, dispatch: Dispatch, rounds: nat)
    returns (didWork: bool, ghost turns: seq<R.Turn>)
    requires sel <= 1 ==> AllReturn(Fs(mem.View(), queue.View()), sel, dispatch, 0, rounds)
    modifies queue, mem.ram
    ensures sel > 1 ==> mem.View() == old(mem.View()) && queue.View() == old(queue.View()) && turns == []
    ensures sel <= 1 ==>
              && Fs(mem.View(), queue.View()) == FsRounds(old(Fs(mem.View(), queue.View())), sel, dispatch, 0, rounds)
              && R.Loop(old(R.Snap(mem.View(), queue.View())), turns, R.Snap(mem.View(), queue.View()), rounds)
    ensures didWork == (turns != [])
  {
    hide Pending, NextHead, NextReturns, PushedRam, Dealt, Returns, R.Loop;
    didWork, turns := false, [];
    if sel > REQUESTS {
      return;
    }
    ghost var start := Fs(mem.View(), queue.View());
    for i := 0 to rounds
      invariant AllReturn(Fs(mem.View(), queue.View()), sel, dispatch, i, rounds - i)
      invariant FsRounds(start, sel, dispatch, 0, rounds)
             == FsRounds(Fs(mem.View(), queue.View()), sel, dispatch, i, rounds - i)
      invariant didWork == (i > 0) && (didWork ==> Pending(start.ram, start.q))
      invariant !didWork ==> Fs(mem.View(), queue.View()) == start
    {
      ghost var s := Fs(mem.View(), queue.View());
      var next := queue.PopAvail(mem);
      if next.None? {
        break;
      }
      didWork := true;
      NextIs(s, sel, dispatch, i);
      Serve(sel, queue, mem, next.value, dispatch, i);
    }
    turns := FsRetires(start, sel, dispatch, 0, rounds);
    R.LoopWorks(R.Snap(start.ram, start.q), turns, R.Snap(mem.View(), queue.View()), rounds);
  }

  lemma NextIs(s: Fs, sel: nat, dispatch: Dispatch, i: nat)
    requires NextReturns(s, sel, dispatch, i)
    ensures s.q.size != 0 && Returns(s.ram, Popped(s.q), NextHead(s.ram, s.q), sel, dispatch, i)
    ensures var head, q := NextHead(s.ram, s.q), Popped(s.q);
            FsStep(s, sel, dispatch, i) == Fs(PushedRam(Dealt(s.ram, q, head, sel, dispatch, i), q, head, 0), Pushed(q))
  {
    hide PushedRam, Dealt, Returns, NextHead;
  }

  // ---- when the device comes back ----

  /** On the high-priority queue: exactly when some descriptor is writable or links no further. */
  lemma HiprioReturnsIff(r: Ram, q: Queue, head: U16, dispatch: Dispatch, i: nat)
    ensures Returns(r, q, head, 0, dispatch, i) <==> exists n :: StopsAt(r, q, head, n)
  {
    hide Collected, StopsAt;
    CollectedIff(r, q, head);
  }

  /**
    On the request queue, on every chain: exactly when in addition laying the reply ends within
    one pass over the table for every byte of the reply and one more.
   */
  lemma RequestReturnsIff(r: Ram, q: Queue, head: U16, dispatch: Dispatch, i: nat)
    ensures Returns(r, q, head, 1, dispatch, i)
       <==> Collected(r, q, head).Some?
            && var reply := ReplyTo(Collected(r, q, head).value, dispatch, i);
            Laid(r, q, head, reply, ReplyBound(reply)).Some?
  {
    hide Collected, LaidAtAll, Laid, ReplyTo, ReplyBound;
    if Collected(r, q, head).Some? {
      LaidInTime(r, q, head, ReplyTo(Collected(r, q, head).value, dispatch, i));
    }
  }

  /** Where the buffers spare the descriptors: when the chain ends or has room for the reply. */
  lemma RequestReturnsIfRoom(r: Ram, q: Queue, head: U16, dispatch: Dispatch, i: nat)
    requires Spares(r, q, head)
    ensures Returns(r, q, head, 1, dispatch, i)
       <==> Collected(r, q, head).Some?
            && HasRoom(r, q, head, |ReplyTo(Collected(r, q, head).value, dispatch, i)|)
  {
    hide Collected, LaidAtAll, HasRoom, Spares, ReplyTo;
    if Collected(r, q, head).Some? {
      SomeReply(Collected(r, q, head).value, dispatch, i);
      LaidIff(r, q, head, ReplyTo(Collected(r, q, head).value, dispatch, i));
    }
  }

  lemma SomeReply(request: seq<Byte>, dispatch: Dispatch, i: nat)
    ensures |ReplyTo(request, dispatch, i)| >= 16
  {
    hide ToLe, Unique;
  }

  /** A readable descriptor linked to itself: the head is taken and the device never comes back. */
  lemma SelfLinkNeverReturns(r: Ram, q: Queue, head: U16, sel: nat, dispatch: Dispatch, i: nat)
    requires var d := DescAt(r, q, head); !d.Writable() && d.HasNext() && d.next == head
    ensures !Returns(r, q, head, sel, dispatch, i)
  {
    hide DescAt, ReadableFrom;
    SelfLinkHangs(r, q, head, 0x1_0000);
  }

  /**
    A chain with separate buffers clear of its descriptors and of the used ring: after the
    step the writable buffers hold as much of the reply as there was room for, then what
    they held before.
   */
  lemma AnswerReachesGuest(s: Fs, dispatch: Dispatch, i: nat, n: nat)
    requires Pending(s.ram, s.q)
    requires var head, q := NextHead(s.ram, s.q), Popped(s.q);
             && Collected(s.ram, q, head).Some? && TableSafe(s.ram, q, head, n)
             && RoomBy(s.ram, q, head, n, |ReplyTo(Collected(s.ram, q, head).value, dispatch, i)|)
             && SeparateBuffers(s.ram, Hops(s.ram, q, head, n))
             && ApartFromBuffers(Hops(s.ram, q, head, n), q.usedAddr, 4 + 8 * q.size)
    ensures NextReturns(s, 1, dispatch, i)
    ensures var head, q := NextHead(s.ram, s.q), Popped(s.q);
            var descs, reply := Hops(s.ram, q, head, n), ReplyTo(Collected(s.ram, q, head).value, dispatch, i);
            var room := Writables(s.ram, descs);
            var k := Min(|reply|, |room|);
            Writables(FsStep(s, 1, dispatch, i).ram, descs) == reply[..k] + room[k..]
  {
    hide PushedRam, Collected, Laid, RoomBy, EndsBy, TableSafe, ReplyTo, SeparateBuffers, ApartFromBuffers,
      Scattered, Writables, Pending, NextHead, Hops;
    PendingQueue(s.ram, s.q);
    var head, q := NextHead(s.ram, s.q), Popped(s.q);
    var descs, reply := Hops(s.ram, q, head, n), ReplyTo(Collected(s.ram, q, head).value, dispatch, i);
    SomeReply(Collected(s.ram, q, head).value, dispatch, i);
    RoomIsEnough(s.ram, q, head, n, |reply|);
    LaidIsScattered(s.ram, q, head, n, reply);
    LaidSame(s.ram, q, head, reply, n + 1, Fuel(s.ram, q, head, reply));
    ReplyReachesGuest(s.ram, q, head, descs, reply);
  }

  /** What the guest then reads, in chain order: as much of the reply as there was room for. */
  lemma ReplyReachesGuest(r: Ram, q: Queue, head: U16, descs: seq<Desc>, reply: seq<Byte>)
    requires SeparateBuffers(r, descs) && q.size != 0
    requires ApartFromBuffers(descs, q.usedAddr, 4 + 8 * q.size)
    ensures var (r', k) := Scattered(r, descs, reply);
            && k == Min(|reply|, |Writables(r, descs)|)
            && Writables(PushedRam(r', q, head, 0), descs) == reply[..k] + Writables(r, descs)[k..]
  {
    hide Scattered, Writables, ApartFromBuffers, PushedRam;
    ScatterFills(r, descs, reply);
    WritablesPushed(Scattered(r, descs, reply).0, q, head, descs);
  }

  /** A chain that ends or has room, with writable buffers clear of its descriptors and of both rings. */
  predicate RequestClear(r: Ram, q: Queue, head: U16, n: nat, len: nat) {
    && TableSafe(r, q, head, n) && RoomBy(r, q, head, n, len)
    && ApartFromBuffers(Hops(r, q, head, n), q.availAddr, 4 + 2 * q.size)
    && ApartFromBuffers(Hops(r, q, head, n), q.usedAddr, 4 + 8 * q.size)
  }

  lemma ApartPart(descs: seq<Desc>, a: nat, n: nat, off: nat, m: nat)
    requires ApartFromBuffers(descs, a, n) && off + m <= n
    ensures ApartFromBuffers(descs, a + off, m)
  {
  }

  lemma ScatterKeepsRings(r: Ram, q: Queue, descs: seq<Desc>, reply: seq<Byte>)
    requires ApartFromBuffers(descs, q.availAddr, 4 + 2 * q.size) && ApartFromBuffers(descs, q.usedAddr, 4 + 8 * q.size)
    ensures R.KeepsRings(r, Scattered(r, descs, reply).0, q)
  {
    hide Read, Scattered, ApartFromBuffers;
    var r' := Scattered(r, descs, reply).0;
    ApartPart(descs, q.availAddr, 4 + 2 * q.size, 2, 2);
    ApartPart(descs, q.usedAddr, 4 + 8 * q.size, 2, 2);
    ScatterFrame(r, descs, reply, q.availAddr + 2, 2);
    ScatterFrame(r, descs, reply, q.usedAddr + 2, 2);
    forall i | 0 <= i < q.size ensures P.AvailEntry(r', q.availAddr, i) == P.AvailEntry(r, q.availAddr, i) {
      ApartPart(descs, q.availAddr, 4 + 2 * q.size, 4 + 2 * i, 2);
      ScatterFrame(r, descs, reply, q.availAddr + 4 + 2 * i, 2);
    }
    forall i | 0 <= i < q.size ensures P.UsedEntry(r', q.usedAddr, i) == P.UsedEntry(r, q.usedAddr, i) {
      ApartPart(descs, q.usedAddr, 4 + 8 * q.size, 4 + 8 * i, 4);
      ApartPart(descs, q.usedAddr, 4 + 8 * q.size, 8 + 8 * i, 4);
      ScatterFrame(r, descs, reply, q.usedAddr + 4 + 8 * i, 4);
      ScatterFrame(r, descs, reply, q.usedAddr + 4 + 8 * i + 4, 4);
    }
  }

  /** Answering such a request leaves the rings alone. */
  lemma DealtKeepsRings(r: Ram, q: Queue, head: U16, sel: nat, dispatch: Dispatch, i: nat, n: nat)
    requires Returns(r, q, head, sel, dispatch, i)
    requires sel == REQUESTS ==>
               RequestClear(r, q, head, n, |ReplyTo(Collected(r, q, head).value, dispatch, i)|)
    ensures R.KeepsRings(r, Dealt(r, q, head, sel, dispatch, i), q)
  {
    hide Collected, Laid, RoomBy, EndsBy, TableSafe, ReplyTo, ApartFromBuffers, Scattered, Hops, R.KeepsRings,
      LaidAtAll;
    if sel != REQUESTS {
      R.KeepsRingsSelf(r, q);
    } else {
      var reply := ReplyTo(Collected(r, q, head).value, dispatch, i);
      SomeReply(Collected(r, q, head).value, dispatch, i);
      RoomIsEnough(r, q, head, n, |reply|);
      LaidIsScattered(r, q, head, n, reply);
      LaidSame(r, q, head, reply, n + 1, Fuel(r, q, head, reply));
      ScatterKeepsRings(r, q, Hops(r, q, head, n), reply);
    }
  }

  /** Every chain the loop meets is clear of the rings when its turn comes. */
  ghost predicate AllClear(s: Fs, sel: nat, dispatch: Dispatch, i: nat, rounds: nat)
    requires AllReturn(s, sel, dispatch, i, rounds)
    decreases rounds
  {
    rounds > 0 && Pending(s.ram, s.q) ==>
      && NextClear(s, sel, dispatch, i)
      && AllClear(FsStep(s, sel, dispatch, i), sel, dispatch, i + 1, rounds - 1)
  }

  ghost predicate NextClear(s: Fs, sel: nat, dispatch: Dispatch, i: nat)
    requires NextReturns(s, sel, dispatch, i)
  {
    sel == REQUESTS ==>
      var head, q := NextHead(s.ram, s.q), Popped(s.q);
      exists n :: RequestClear(s.ram, q, head, n, |ReplyTo(Collected(s.ram, q, head).value, dispatch, i)|)
  }

  lemma NextKeepsRings(s: Fs, sel: nat, dispatch: Dispatch, i: nat)
    requires NextReturns(s, sel, dispatch, i) && NextClear(s, sel, dispatch, i)
    ensures R.KeepsRings(s.ram, Dealt(s.ram, Popped(s.q), NextHead(s.ram, s.q), sel, dispatch, i), s.q)
  {
    hide Dealt, RequestClear, NextHead, R.KeepsRings, Pending, ReplyTo, Collected, LaidAtAll;
    PendingQueue(s.ram, s.q);
    var head, q := NextHead(s.ram, s.q), Popped(s.q);
    var n: nat := 0;
    if sel == REQUESTS {
      var m: nat :| RequestClear(s.ram, q, head, m, |ReplyTo(Collected(s.ram, q, head).value, dispatch, i)|);
      n := m;
    }
    DealtKeepsRings(s.ram, q, head, sel, dispatch, i, n);
    R.PoppedRings(s.ram, Dealt(s.ram, q, head, sel, dispatch, i), s.q);
  }

  lemma {:induction false} FsKeepsRings(s: Fs, sel: nat, dispatch: Dispatch, i: nat, rounds: nat)
    returns (turns: seq<R.Turn>)
    requires AllReturn(s, sel, dispatch, i, rounds) && AllClear(s, sel, dispatch, i, rounds)
    ensures var e := FsRounds(s, sel, dispatch, i, rounds);
            R.Loop(R.Snap(s.ram, s.q), turns, R.Snap(e.ram, e.q), rounds) && R.RingsKept(R.Snap(s.ram, s.q), turns)
    decreases rounds
  {
    hide Pending, PushedRam, NextHead, Dealt, Returns, R.Loop, NextClear, R.RingsKept, R.KeepsRings;
    var a, e := R.Snap(s.ram, s.q), FsRounds(s, sel, dispatch, i, rounds);
    if rounds == 0 || !Pending(s.ram, s.q) {
      turns := [];
      R.LoopNothing(a, rounds);
      R.NothingKept(a);
    } else {
      PendingQueue(s.ram, s.q);
      NextKeepsRings(s, sel, dispatch, i);
      var head, q := NextHead(s.ram, s.q), Popped(s.q);
      var t := R.Turn(head, Dealt(s.ram, q, head, sel, dispatch, i), 0);
      var rest := FsKeepsRings(FsStep(s, sel, dispatch, i), sel, dispatch, i + 1, rounds - 1);
      turns := [t] + rest;
      R.LoopCons(a, t, rest, R.Snap(e.ram, e.q), rounds);
      R.LoopServed(R.Next(a, t), rest, R.Snap(e.ram, e.q), rounds - 1);
      R.KeptCons(a, t, rest);
    }
  }

  /** With chains clear of the rings and rounds enough, a tick settles everything that was due. */
  lemma FsSettles(s: Fs, sel: nat, dispatch: Dispatch, i: nat, rounds: nat) returns (turns: seq<R.Turn>)
    requires AllReturn(s, sel, dispatch, i, rounds) && AllClear(s, sel, dispatch, i, rounds)
    requires P.Layout(s.ram, s.q) && Due(s.ram, s.q) <= Min(rounds, s.q.size)
    ensures var e := FsRounds(s, sel, dispatch, i, rounds);
            && R.Loop(R.Snap(s.ram, s.q), turns, R.Snap(e.ram, e.q), rounds)
            && |turns| == Due(s.ram, s.q) && !Pending(e.ram, e.q) && R.Returned(R.Snap(s.ram, s.q), turns)
  {
    hide FsRounds, R.Loop, R.RingsKept, R.Returned, Due, Pending, AllClear, AllReturn;
    turns := FsKeepsRings(s, sel, dispatch, i, rounds);
    var e := FsRounds(s, sel, dispatch, i, rounds);
    R.TickSettles(R.Snap(s.ram, s.q), turns, R.Snap(e.ram, e.q), rounds);
  }

  lemma WritablesPushed(r: Ram, q: Queue, head: U16, descs: seq<Desc>)
    requires q.size != 0 && ApartFromBuffers(descs, q.usedAddr, 4 + 8 * q.size)
    ensures Writables(PushedRam(r, q, head, 0), descs) == Writables(r, descs)
  {
    hide Write, Writables, ToLe, Slot;
    var slot := UsedSlotAddr(q, q.lastUsed);
    var r1 := Write32(r, slot, head);
    var r2 := Write32(r1, slot + 4, 0);
    WritablesFrame(r, descs, slot, ToLe(head, 4));
    WritablesFrame(r1, descs, slot + 4, ToLe(0, 4));
    WritablesFrame(r2, descs, UsedIdxAddr(q), ToLe(Succ16(q.lastUsed), 2));
  }
}
