/** The network device: frames queued from the tap are written into guest buffers, and guest frames are sent out. */
module NetDevice {
  import opened Bytes
  import opened GuestRam
  import opened Virtqueue
  import opened Arith
  import P = RingProtocol
  import R = Retire

  type Frame = seq<Byte>

  /** The header in front of every frame; the device always sends twelve zeros. */
  const HDR := 12

  // ---- receiving ----

  /** A frame taken off the tap queue, and the buffer it met. */
  datatype Processed = Processed(frame: Frame, head: U16, desc: Desc) {
    predicate Fits() { |frame| + HDR <= desc.len }
  }

  datatype Rx = Rx(ram: Ram, q: Queue, frames: seq<Frame>, done: seq<Processed>)

  function Filled(r: Ram, p: Processed): Ram {
    Write(Write(r, p.desc.addr, Zeros(HDR)), p.desc.addr + HDR, p.frame)
  }

  function RxStep(s: Rx): Rx
    requires s.frames != [] && Pending(s.ram, s.q)
  {
    var head := NextHead(s.ram, s.q);
    var q := Popped(s.q);
    var p := Processed(s.frames[0], head, DescAt(s.ram, q, head));
    var r := if p.Fits() then PushedRam(Filled(s.ram, p), q, head, HDR + |p.frame|) else PushedRam(s.ram, q, head, 0);
    Rx(r, Pushed(q), s.frames[1..], s.done + [p])
  }

  /** One tick: frame after frame, until the tap queue or the guest's buffers run out. */
  function RxTick(s: Rx): Rx
    decreases |s.frames|
  {
    if s.frames == [] || !Pending(s.ram, s.q) then s else RxTick(RxStep(s))
  }

  /**
    A tick takes heads in order and returns each, one for every frame it processes, and
    stops only when the tap queue or the guest's buffers have run out.
   */
  lemma {:induction false} RxRetires(s: Rx) returns (turns: seq<R.Turn>)
    ensures var e := RxTick(s);
            && R.Loop(R.Snap(s.ram, s.q), turns, R.Snap(e.ram, e.q), |s.frames|)
            && s.done <= e.done && |e.done| == |s.done| + |turns|
            && forall i :: 0 <= i < |turns| ==>
                 var p := e.done[|s.done| + i];
                 turns[i].head == p.head && turns[i].len == if |p.frame| + 12 <= p.desc.len then 12 + |p.frame| else 0
    decreases |s.frames|
  {
    hide Pending, PushedRam, NextHead, DescAt, Filled, R.Loop;
    var a, e := R.Snap(s.ram, s.q), RxTick(s);
    if s.frames == [] || !Pending(s.ram, s.q) {
      turns := [];
      R.LoopNothing(a, |s.frames|);
    } else {
      PendingQueue(s.ram, s.q);
      var p := RxStep(s).done[|s.done|];
      var t := if p.Fits() then R.Turn(p.head, Filled(s.ram, p), HDR + |p.frame|) else R.Turn(p.head, s.ram, 0);
      var rest := RxRetires(RxStep(s));
      turns := [t] + rest;
      R.LoopCons(a, t, rest, R.Snap(e.ram, e.q), |s.frames|);
    }
  }

  lemma RxTurns(s: Rx) returns (turns: seq<R.Turn>)
    requires s.done == []
    ensures var e := RxTick(s);
            && R.Loop(R.Snap(s.ram, s.q), turns, R.Snap(e.ram, e.q), |s.frames|)
            && |turns| == |e.done| && forall i :: 0 <= i < |e.done| ==> turns[i].head == e.done[i].head
  {
    hide R.Loop, RxTick;
    turns := RxRetires(s);
    assert forall i :: 0 <= i < |turns| ==> RxTick(s).done[i] == RxTick(s).done[|s.done| + i];
  }

  function Frames(done: seq<Processed>): (fs: seq<Frame>)
    ensures |fs| == |done| && forall i :: 0 <= i < |fs| ==> fs[i] == done[i].frame
  {
    seq(|done|, i requires 0 <= i < |done| => done[i].frame)
  }

  /** Some frame reached the guest: with its header of twelve bytes it fitted the buffer it met. */
  predicate AnyDelivered(done: seq<Processed>) {
    exists i :: 0 <= i < |done| && |done[i].frame| + 12 <= done[i].desc.len
  }

  lemma MoreDelivered(done: seq<Processed>, p: Processed)
    ensures AnyDelivered(done + [p]) <==> AnyDelivered(done) || p.Fits()
  {
    if AnyDelivered(done) {
      var i :| 0 <= i < |done| && |done[i].frame| + 12 <= done[i].desc.len;
      assert (done + [p])[i] == done[i];
    }
    assert (done + [p])[|done|] == p;
  }

  // ---- sending ----

  datatype Tx = Tx(ram: Ram, q: Queue, sent: seq<Frame>)

  function TxStep(s: Tx): Tx
    requires Pending(s.ram, s.q)
  {
    var head := NextHead(s.ram, s.q);
    var q := Popped(s.q);
    var d := DescAt(s.ram, q, head);
    if d.len < HDR then Tx(PushedRam(s.ram, q, head, 0), Pushed(q), s.sent)
    else Tx(PushedRam(s.ram, q, head, d.len), Pushed(q), s.sent + [Read(s.ram, d.addr + HDR, d.len - HDR)])
  }

  function TxRounds(n: nat, s: Tx): Tx {
    if n == 0 || !Pending(s.ram, s.q) then s else TxRounds(n - 1, TxStep(s))
  }

  /** The length each turn reports: the whole buffer, or nothing for one too short. */
  predicate ReportsTx(s: Tx, turns: seq<R.Turn>)
    decreases |turns|
  {
    turns == [] || (
      && Pending(s.ram, s.q)
      && var d := DescAt(s.ram, s.q, NextHead(s.ram, s.q));
      && turns[0].len == (if d.len < 12 then 0 else d.len) && ReportsTx(TxStep(s), turns[1..]))
  }

  /** The transmit loop takes heads in order and returns each, short buffers included. */
  lemma {:induction false} TxRetires(n: nat, s: Tx) returns (turns: seq<R.Turn>)
    ensures R.Loop(R.Snap(s.ram, s.q), turns, R.Snap(TxRounds(n, s).ram, TxRounds(n, s).q), n)
    ensures R.RingsKept(R.Snap(s.ram, s.q), turns) && ReportsTx(s, turns)
    decreases n
  {
    hide Pending, PushedRam, NextHead, DescAt, Read, R.Loop;
    var a, e := R.Snap(s.ram, s.q), TxRounds(n, s);
    if n == 0 || !Pending(s.ram, s.q) {
      turns := [];
      R.LoopNothing(a, n);
    } else {
      PendingQueue(s.ram, s.q);
      var head := NextHead(s.ram, s.q);
      var d := DescAt(s.ram, Popped(s.q), head);
      SameDescriptor(s.ram, s.q, head);
      var t := R.Turn(head, s.ram, if d.len < HDR then 0 else d.len);
      var rest := TxRetires(n - 1, TxStep(s));
      turns := [t] + rest;
      R.LoopServed(R.Next(a, t), rest, R.Snap(e.ram, e.q), n - 1);
      R.KeptCons(a, t, rest);
      R.LoopCons(a, t, rest, R.Snap(e.ram, e.q), n);
    }
  }

  /**
    Sending writes nothing but the used ring, so a transmit tick always settles what was due;
    each head comes back with its buffer's length, or 0 where there is no room for a header.
   */
  lemma TxSettles(n: nat, s: Tx) returns (turns: seq<R.Turn>)
    requires P.Layout(s.ram, s.q) && Due(s.ram, s.q) <= Min(n, s.q.size)
    ensures var e := TxRounds(n, s);
            && R.Loop(R.Snap(s.ram, s.q), turns, R.Snap(e.ram, e.q), n)
            && |turns| == Due(s.ram, s.q) && !Pending(e.ram, e.q) && R.Returned(R.Snap(s.ram, s.q), turns)
    ensures AllOffered(s.ram, s.q, |turns|) ==> forall j :: 0 <= j < |turns| ==>
              turns[j].len == var d := Buffer(s.ram, s.q, j); if d.len < 12 then 0 else d.len
  {
    hide Pending, Due, R.Loop, R.RingsKept, R.Returned, TxRounds, AllOffered, ReportsTx, Buffer;
    turns := TxRetires(n, s);
    var e := TxRounds(n, s);
    R.TickSettles(R.Snap(s.ram, s.q), turns, R.Snap(e.ram, e.q), n);
    if AllOffered(s.ram, s.q, |turns|) {
      forall j: nat | j < |turns|
        ensures turns[j].len == var d := Buffer(s.ram, s.q, j); if d.len < 12 then 0 else d.len
      {
        TxReports(s, turns, j);
      }
    }
  }

  class Tap {
    var frames: seq<Frame>

    constructor ()
      ensures frames == []
    {
      frames := [];
    }

    method GetNextPacket() returns (f: Option<Frame>)
      modifies this
      ensures old(frames) == [] ==> f == None && frames == []
      ensures old(frames) != [] ==> f == Some(old(frames)[0]) && frames == old(frames)[1..]
    {
      if frames == [] {
        return None;
      }
      f := Some(frames[0]);
      frames := frames[1..];
    }

    method AddPacketFront(f: Frame)
      modifies this
      ensures frames == [f] + old(frames)
    {
      frames := [f] + frames;
    }
  }

  class NetVirtio {
    const tap: Tap
    var sent: seq<Frame>

    constructor (tap: Tap)
      ensures this.tap == tap && sent == []
    {
      this.tap, sent := tap, [];
    }

    /** The receive queue; a frame that finds no buffer goes back to the front of the tap queue. */
    method TickRx(queue: VirtioQueue, mem: GuestMemory)
      returns (didWork: bool, ghost done: seq<Processed>, ghost turns: seq<R.Turn>)
      modifies tap, queue, mem.ram
      ensures Rx(mem.View(), queue.View(), tap.frames, done)
           == RxTick(old(Rx(mem.View(), queue.View(), tap.frames, [])))
      ensures R.Loop(old(R.Snap(mem.View(), queue.View())), turns, R.Snap(mem.View(), queue.View()), |old(tap.frames)|)
      ensures |turns| == |done| && forall i :: 0 <= i < |done| ==> turns[i].head == done[i].head
      ensures didWork == AnyDelivered(done)
    {
      hide PushedRam, Pending, NextHead, DescAt, Filled, R.Loop;
      didWork, done := false, [];
      ghost var start := Rx(mem.View(), queue.View(), tap.frames, []);
      while true
        invariant RxTick(start) == RxTick(Rx(mem.View(), queue.View(), tap.frames, done))
        invariant didWork == AnyDelivered(done)
        decreases |tap.frames|
      {
        ghost var s := Rx(mem.View(), queue.View(), tap.frames, done);
        var next := tap.GetNextPacket();
        if next.None? {
          break;
        }
        var frame := next.value;
        var avail := queue.PopAvail(mem);
        if avail.None? {
          tap.AddPacketFront(frame);
          assert tap.frames == s.frames;
          break;
        }
        PendingQueue(s.ram, s.q);
        var delivered, p := Receive(queue, mem, frame, avail.value);
        MoreDelivered(done, p);
        didWork := didWork || delivered;
        done := done + [p];
        assert Rx(mem.View(), queue.View(), tap.frames, done) == RxStep(s);
      }
      turns := RxTurns(start);
    }

    /** One frame into the buffer of one head, which is pushed back whether or not the frame fitted. */
    method Receive(queue: VirtioQueue, mem: GuestMemory, frame: Frame, head: U16)
      returns (delivered: bool, ghost p: Processed)
      requires queue.size != 0
      modifies queue, mem.ram
      ensures p == Processed(frame, head, DescAt(old(mem.View()), old(queue.View()), head)) && delivered == p.Fits()
      ensures var r, q := old(mem.View()), old(queue.View());
              && queue.View() == Pushed(q)
              && mem.View() == if p.Fits() then PushedRam(Filled(r, p), q, head, HDR + |frame|)
                               else PushedRam(r, q, head, 0)
    {
      hide PushedRam, DescAt, Filled;
      var desc := queue.GetDescriptor(mem, head);
      p := Processed(frame, head, desc);
      delivered := |frame| + HDR <= desc.len;
      if delivered {
        FillBuffer(mem, frame, desc, head);
        queue.PushUsed(mem, head, HDR + |frame|);
      } else {
        queue.PushUsed(mem, head, 0);
      }
    }

    method FillBuffer(mem: GuestMemory, frame: Frame, desc: Desc, ghost head: U16)
      modifies mem.ram
      ensures mem.View() == Filled(old(mem.View()), Processed(frame, head, desc))
    {
      hide Write;
      mem.WriteBytes(desc.addr, Zeros(HDR));
      mem.WriteBytes(desc.addr + HDR, frame);
    }

    /**
      The transmit queue, for any number of rounds: heads are taken in order and each is
      returned, and what is handed to the tap is each buffer without its header, buffers too
      short for one left out.
     */
    method TickTx(queue: VirtioQueue, mem: GuestMemory, rounds: nat)
      returns (didWork: bool, ghost turns: seq<R.Turn>)
      modifies this, queue, mem.ram
      ensures Tx(mem.View(), queue.View(), sent) == TxRounds(rounds, old(Tx(mem.View(), queue.View(), sent)))
      ensures R.Loop(old(R.Snap(mem.View(), queue.View())), turns, R.Snap(mem.View(), queue.View()), rounds)
      ensures old(sent) <= sent && didWork == (old(sent) < sent)
    {
      hide PushedRam, Pending, NextHead, DescAt, Read, R.Loop;
      didWork := false;
      ghost var start := Tx(mem.View(), queue.View(), sent);
      for i := 0 to rounds
        invariant TxRounds(rounds, start) == TxRounds(rounds - i, Tx(mem.View(), queue.View(), sent))
        invariant old(sent) <= sent && didWork == (old(sent) < sent)
      {
        ghost var s := Tx(mem.View(), queue.View(), sent);
        var next := queue.PopAvail(mem);
        if next.None? {
          break;
        }
        var head := next.value;
        PendingQueue(s.ram, s.q);
        var desc := queue.GetDescriptor(mem, head);
        if desc.len < HDR {
          queue.PushUsed(mem, head, 0);
          continue;
        }
        var frame := mem.ReadBytes(desc.addr + HDR, desc.len - HDR);
        sent := sent + [frame];
        queue.PushUsed(mem, head, desc.len);
        didWork := true;
      }
      turns := TxRetires(rounds, start);
    }
  }

  // ---- whole runs ----

  /**
    Frames arrive, the device ticks, the transport is reset, and in between the guest does
    what it likes to its memory.  A reset drops what is queued; counting starts anew.
   */
  datatype Event = Arrive(frame: Frame) | Tick | Guest(ram: Ram) | Reset

  function Happens(s: Rx, e: Event): Rx {
    match e
    case Arrive(f) => s.(frames := s.frames + [f])
    case Tick => RxTick(s)
    case Guest(r) => s.(ram := r)
    case Reset => Rx(s.ram, NEW_QUEUE, [], [])
  }

  function After(s: Rx, events: seq<Event>): Rx
    decreases |events|
  {
    if events == [] then s else Happens(After(s, events[..|events| - 1]), events[|events| - 1])
  }

  /** The frames that arrived since the last reset. */
  function Arrivals(events: seq<Event>): seq<Frame>
    decreases |events|
  {
    if events == [] then []
    else
      var n := |events| - 1;
      match events[n]
      case Arrive(f) => Arrivals(events[..n]) + [f]
      case Reset => []
      case _ => Arrivals(events[..n])
  }

  lemma {:induction false} TickConserves(s: Rx)
    ensures Frames(RxTick(s).done) + RxTick(s).frames == Frames(s.done) + s.frames
    decreases |s.frames|
  {
    hide PushedRam, Pending, NextHead, DescAt, Filled;
    if s.frames != [] && Pending(s.ram, s.q) {
      var t := RxStep(s);
      TickConserves(t);
      assert Frames(t.done) == Frames(s.done) + [s.frames[0]];
      assert s.frames == [s.frames[0]] + s.frames[1..];
    }
  }

  /** Nothing is lost or reordered for lack of buffers: what arrived since the reset was processed or still waits. */
  lemma {:induction false} RunsConserveFrames(s: Rx, events: seq<Event>)
    requires s.frames == [] && s.done == []
    ensures Frames(After(s, events).done) + After(s, events).frames == Arrivals(events)
    decreases |events|
  {
    hide RxTick;
    if events != [] {
      var n := |events| - 1;
      var t := After(s, events[..n]);
      RunsConserveFrames(s, events[..n]);
      if events[n].Tick? {
        TickConserves(t);
      } else if events[n].Arrive? {
        assert Frames(t.done) + (t.frames + [events[n].frame]) == Frames(t.done) + t.frames + [events[n].frame];
      }
    }
  }

  /** The guest finds twelve zero bytes and then the frame in the buffer it posted. */
  lemma DeliveryReachesGuest(s: Rx)
    requires s.frames != [] && Pending(s.ram, s.q)
    requires var p := RxStep(s).done[|s.done|];
             && p.Fits() && InRam(s.ram, p.desc.addr, p.desc.len)
             && Apart(p.desc.addr, p.desc.len, s.q.usedAddr, 4 + 8 * s.q.size)
    ensures var p := RxStep(s).done[|s.done|];
            Read(RxStep(s).ram, p.desc.addr, HDR + |p.frame|) == Zeros(HDR) + s.frames[0]
  {
    hide Write, Read, ToLe, DescAt, NextHead, Pending, Slot;
    var p := RxStep(s).done[|s.done|];
    var a, n, q := p.desc.addr, HDR + |p.frame|, Popped(s.q);
    WriteJoin(s.ram, a, Zeros(HDR), p.frame);
    ReadSame(s.ram, a, Zeros(HDR) + p.frame);
    PendingQueue(s.ram, s.q);
    PushReads(Filled(s.ram, p), q, p.head, n, a, n);
  }

  // ---- a whole tick in guest memory ----

  /** The j-th head waiting in the available ring, and its descriptor. */
  function Waiting(r: Ram, q: Queue, j: nat): U16
    requires q.size > 0
  {
    P.AvailEntry(r, q.availAddr, Slot(q.lastAvail + j, q.size))
  }

  function Buffer(r: Ram, q: Queue, j: nat): Desc
    requires q.size > 0
  {
    DescAt(r, q, Waiting(r, q, j))
  }

  /** Everything a tick may read about the j-th waiting buffer is out of reach of a write to [a, a+n). */
  predicate SparesEntry(r: Ram, q: Queue, j: nat, a: nat, n: nat)
    requires q.size > 0
  {
    && Apart(a, n, q.availAddr, 4 + 2 * q.size)
    && Apart(a, n, q.descAddr + Waiting(r, q, j) * 16, 16)
  }

  predicate PlacedWell(r: Ram, q: Queue, j: nat)
    requires q.size > 0
  {
    && InRam(r, Buffer(r, q, j).addr, Buffer(r, q, j).len)
    && Apart(Buffer(r, q, j).addr, Buffer(r, q, j).len, q.usedAddr, 4 + 8 * q.size)
    && SparesEntry(r, q, j, q.usedAddr, 4 + 8 * q.size)
  }

  predicate SpacedWell(r: Ram, q: Queue, i: nat, j: nat)
    requires q.size > 0
  {
    && SparesEntry(r, q, j, Buffer(r, q, i).addr, Buffer(r, q, i).len)
    && (i != j ==> Apart(Buffer(r, q, i).addr, Buffer(r, q, i).len, Buffer(r, q, j).addr, Buffer(r, q, j).len))
  }

  /**
    The first `m` waiting buffers are in RAM, apart from one another, from both rings and
    from the descriptors; the used ring spares the descriptors too.
   */
  predicate PostedWell(r: Ram, q: Queue, m: nat) {
    && P.Layout(r, q)
    && (forall j :: 0 <= j < m ==> PlacedWell(r, q, j))
    && (forall i, j :: 0 <= i < m && 0 <= j < m ==> SpacedWell(r, q, i, j))
  }

  /** One step writes only the first waiting buffer and the used ring. */
  lemma StepReads(s: Rx, a: nat, n: nat)
    requires s.frames != [] && Pending(s.ram, s.q)
    requires s.q.size > 0 && Apart(a, n, s.q.usedAddr, 4 + 8 * s.q.size)
    requires var d := DescAt(s.ram, s.q, NextHead(s.ram, s.q)); Apart(d.addr, d.len, a, n)
    ensures Read(RxStep(s).ram, a, n) == Read(s.ram, a, n)
    ensures RxStep(s).ram.start == s.ram.start && |RxStep(s).ram.bytes| == |s.ram.bytes|
  {
    hide Write, Read, ToLe, Pending, NextHead, PushedRam;
    var p, q := RxStep(s).done[|s.done|], Popped(s.q);
    if p.Fits() {
      var r1 := Write(s.ram, p.desc.addr, Zeros(HDR));
      ReadOther(s.ram, p.desc.addr, Zeros(HDR), a, n);
      ReadOther(r1, p.desc.addr + HDR, p.frame, a, n);
      PushReads(Filled(s.ram, p), q, p.head, HDR + |p.frame|, a, n);
      PushShape(Filled(s.ram, p), q, p.head, HDR + |p.frame|);
    } else {
      PushReads(s.ram, q, p.head, 0, a, n);
      PushShape(s.ram, q, p.head, 0);
    }
  }

  lemma PushShape(r: Ram, q: Queue, head: U16, len: U32)
    ensures PushedRam(r, q, head, len).start == r.start && |PushedRam(r, q, head, len).bytes| == |r.bytes|
  {
    hide Write, ToLe;
  }

  /** The wrapped index and the unbounded count name the same slot, however far ahead. */
  lemma SlotAhead(a: U16, j: nat, size: U16)
    requires size > 0 && 0x1_0000 % size == 0
    ensures Slot(Succ16(a) + j, size) == Slot(a + (j + 1), size)
  {
    hide Slot;
    P.WrappedSlot(Succ16(a) + j, size);
    P.WrappedSlot(a + (j + 1), size);
    assert (Succ16(a) + j) % 0x1_0000 == (a + (j + 1)) % 0x1_0000;
  }

  lemma FirstWaiting(r: Ram, q: Queue)
    requires P.Layout(r, q)
    ensures NextHead(r, q) == Waiting(r, q, 0)
  {
    hide Read16, Slot;
  }

  /** What the placement of buffers says about the first and a later one. */
  lemma Spared(r: Ram, q: Queue, m: nat, j: nat)
    requires PostedWell(r, q, m) && 0 < j < m
    ensures var d, base := Buffer(r, q, 0), q.descAddr + Waiting(r, q, j) * 16;
            && Apart(d.addr, d.len, q.availAddr, 4 + 2 * q.size) && Apart(d.addr, d.len, base, 16)
            && Apart(q.usedAddr, 4 + 8 * q.size, q.availAddr, 4 + 2 * q.size)
            && Apart(q.usedAddr, 4 + 8 * q.size, base, 16)
            && Apart(d.addr, d.len, Buffer(r, q, j).addr, Buffer(r, q, j).len)
  {
    hide Waiting, Buffer;
    assert PlacedWell(r, q, j) && SpacedWell(r, q, 0, j);
  }

  lemma StepWaiting(s: Rx, m: nat, j: nat)
    requires s.frames != [] && Pending(s.ram, s.q) && PostedWell(s.ram, s.q, m) && j + 1 < m
    ensures var t := RxStep(s); t.q.size > 0 && Waiting(t.ram, t.q, j) == Waiting(s.ram, s.q, j + 1)
  {
    hide Read, DescAt, Slot, Pending, PushedRam, Filled, Succ16, PostedWell, NextHead;
    LayoutOf(s.ram, s.q, m);
    FirstWaiting(s.ram, s.q);
    SlotAhead(s.q.lastAvail, j, s.q.size);
    Spared(s.ram, s.q, m, j + 1);
    StepReads(s, s.q.availAddr + 4 + 2 * Slot(s.q.lastAvail + (j + 1), s.q.size), 2);
  }

  lemma LayoutOf(r: Ram, q: Queue, m: nat)
    requires PostedWell(r, q, m)
    ensures P.Layout(r, q)
  {
  }

  /** A step leaves the buffers behind the first as they were, each one place nearer. */
  lemma StepShifts(s: Rx, m: nat, j: nat)
    requires s.frames != [] && Pending(s.ram, s.q) && PostedWell(s.ram, s.q, m) && j + 1 < m
    ensures var t := RxStep(s);
            t.q.size > 0 && Waiting(t.ram, t.q, j) == Waiting(s.ram, s.q, j + 1)
            && Buffer(t.ram, t.q, j) == Buffer(s.ram, s.q, j + 1)
  {
    hide Read, DescAt, Slot, Pending, PushedRam, Filled, Succ16, PostedWell, NextHead, Waiting;
    LayoutOf(s.ram, s.q, m);
    FirstWaiting(s.ram, s.q);
    Spared(s.ram, s.q, m, j + 1);
    StepWaiting(s, m, j);
    var t := RxStep(s);
    var h: nat := Waiting(s.ram, s.q, j + 1);
    var base: nat := s.q.descAddr + h * 16;
    StepReads(s, base, 8);
    StepReads(s, base + 8, 4);
    StepReads(s, base + 12, 2);
    StepReads(s, base + 14, 2);
    SameDesc(s.ram, t.ram, s.q, t.q, h);
  }

  lemma SameDesc(r: Ram, r': Ram, q: Queue, q': Queue, i: U16)
    requires q'.descAddr == q.descAddr
    requires var base := q.descAddr + i * 16;
             && Read(r', base, 8) == Read(r, base, 8) && Read(r', base + 8, 4) == Read(r, base + 8, 4)
             && Read(r', base + 12, 2) == Read(r, base + 12, 2) && Read(r', base + 14, 2) == Read(r, base + 14, 2)
    ensures DescAt(r', q', i) == DescAt(r, q, i)
  {
    hide Read;
  }

  lemma StepPosted(s: Rx, m: nat)
    requires s.frames != [] && Pending(s.ram, s.q) && m > 0 && PostedWell(s.ram, s.q, m)
    ensures PostedWell(RxStep(s).ram, RxStep(s).q, m - 1)
  {
    hide Read, Pending, RxStep, PlacedWell, SpacedWell;
    var t := RxStep(s);
    StepLayout(s, m);
    forall j: nat | j + 1 < m ensures PlacedWell(t.ram, t.q, j) {
      StepPlaced(s, m, j);
    }
    forall i: nat, j: nat | i + 1 < m && j + 1 < m ensures SpacedWell(t.ram, t.q, i, j) {
      StepSpaced(s, m, i, j);
    }
  }

  lemma StepPlaced(s: Rx, m: nat, j: nat)
    requires s.frames != [] && Pending(s.ram, s.q) && PostedWell(s.ram, s.q, m) && j + 1 < m
    ensures RxStep(s).q.size > 0 && PlacedWell(RxStep(s).ram, RxStep(s).q, j)
  {
    hide Read, Pending, RxStep, Buffer, Waiting;
    StepLayout(s, m);
    StepShifts(s, m, j);
    assert PlacedWell(s.ram, s.q, j + 1);
  }

  lemma StepSpaced(s: Rx, m: nat, i: nat, j: nat)
    requires s.frames != [] && Pending(s.ram, s.q) && PostedWell(s.ram, s.q, m) && i + 1 < m && j + 1 < m
    ensures RxStep(s).q.size > 0 && SpacedWell(RxStep(s).ram, RxStep(s).q, i, j)
  {
    hide Read, Pending, RxStep, Buffer, Waiting;
    StepLayout(s, m);
    StepShifts(s, m, i);
    StepShifts(s, m, j);
    assert SpacedWell(s.ram, s.q, i + 1, j + 1);
  }

  lemma StepLayout(s: Rx, m: nat)
    requires s.frames != [] && Pending(s.ram, s.q) && m > 0 && PostedWell(s.ram, s.q, m)
    ensures var t := RxStep(s);
            && P.Layout(t.ram, t.q) && t.ram.start == s.ram.start && |t.ram.bytes| == |s.ram.bytes|
            && t.q == s.q.(lastAvail := Succ16(s.q.lastAvail), lastUsed := Succ16(s.q.lastUsed))
            && Read16(t.ram, AvailIdxAddr(s.q)) == Read16(s.ram, AvailIdxAddr(s.q))
  {
    hide Read, DescAt, Slot, Pending, PushedRam, Filled, NextHead, Waiting, Succ16;
    FirstWaiting(s.ram, s.q);
    assert SpacedWell(s.ram, s.q, 0, 0);
    StepReads(s, AvailIdxAddr(s.q), 2);
  }

  /** How many frames a tick gets to: as many as wait, on either side. */
  function Handled(s: Rx): nat {
    Min(|s.frames|, Due(s.ram, s.q))
  }

  lemma HandledFalls(s: Rx)
    requires s.frames != [] && Pending(s.ram, s.q) && PostedWell(s.ram, s.q, Handled(s))
    ensures Handled(s) > 0 && Handled(RxStep(s)) == Handled(s) - 1
  {
    hide Pending, PostedWell, Read16, Due, PushedRam, NextHead, DescAt, Filled;
    R.DueMeansPending(s.ram, s.q);
    StepLayout(s, Handled(s));
    FewerFrames(s);
    var t := RxStep(s);
    R.DueAfter(R.Snap(s.ram, s.q), R.Snap(t.ram, t.q), 1);
  }

  /** Memory apart from the waiting buffers and the used ring comes through a tick unchanged. */
  lemma {:induction false} TickReads(s: Rx, a: nat, n: nat)
    requires PostedWell(s.ram, s.q, Handled(s)) && Apart(a, n, s.q.usedAddr, 4 + 8 * s.q.size)
    requires forall j :: 0 <= j < Handled(s) ==> Apart(Buffer(s.ram, s.q, j).addr, Buffer(s.ram, s.q, j).len, a, n)
    ensures Read(RxTick(s).ram, a, n) == Read(s.ram, a, n)
    decreases |s.frames|
  {
    hide Read, Pending, PostedWell, Handled, Buffer, NextHead, RxStep;
    if s.frames != [] && Pending(s.ram, s.q) {
      var m, t := Handled(s), RxStep(s);
      HandledFalls(s);
      StepLayout(s, m);
      StepPosted(s, m);
      LayoutOf(s.ram, s.q, m);
      FirstBuffer(s.ram, s.q);
      StepReads(s, a, n);
      FewerFrames(s);
      forall j: nat | j < Handled(t) ensures Apart(Buffer(t.ram, t.q, j).addr, Buffer(t.ram, t.q, j).len, a, n) {
        StepShifts(s, m, j);
      }
      TickReads(t, a, n);
    }
  }

  lemma FirstBuffer(r: Ram, q: Queue)
    requires P.Layout(r, q)
    ensures DescAt(r, q, NextHead(r, q)) == Buffer(r, q, 0)
  {
    hide DescAt, Waiting, NextHead;
    FirstWaiting(r, q);
  }

  lemma FewerFrames(s: Rx)
    requires s.frames != [] && Pending(s.ram, s.q)
    ensures RxStep(s).frames == s.frames[1..]
  {
    hide Pending;
  }

  /** The i-th frame of a tick met the i-th waiting buffer, and if it fits, it is there afterwards. */
  predicate InPlace(s: Rx, e: Rx, i: nat)
    requires s.q.size > 0 && i < |s.frames| && |s.done| + i < |e.done|
  {
    var p := e.done[|s.done| + i];
    && p == Processed(s.frames[i], Waiting(s.ram, s.q, i), Buffer(s.ram, s.q, i))
    && (|p.frame| + 12 <= p.desc.len ==> Read(e.ram, p.desc.addr, 12 + |p.frame|) == Zeros(12) + p.frame)
  }

  lemma FirstInPlace(s: Rx)
    requires s.frames != [] && Pending(s.ram, s.q) && PostedWell(s.ram, s.q, Handled(s))
    requires RxStep(s).done <= RxTick(s).done
    ensures InPlace(s, RxTick(s), 0)
  {
    hide Read, Pending, PostedWell, Handled, Buffer, NextHead, DescAt, RxTick, Waiting, Filled, PushedRam;
    var m, t, e := Handled(s), RxStep(s), RxTick(s);
    HandledFalls(s);
    StepLayout(s, m);
    StepPosted(s, m);
    LayoutOf(s.ram, s.q, m);
    FirstBuffer(s.ram, s.q);
    FirstWaiting(s.ram, s.q);
    var p := t.done[|s.done|];
    assert e.done[|s.done|] == p;
    FirstPlaced(s.ram, s.q, m);
    SameDescriptor(s.ram, s.q, NextHead(s.ram, s.q));
    if p.Fits() {
      DeliveryReachesGuest(s);
      forall j: nat | j < Handled(t)
        ensures Apart(Buffer(t.ram, t.q, j).addr, Buffer(t.ram, t.q, j).len, p.desc.addr, HDR + |p.frame|)
      {
        StepShifts(s, m, j);
        Spared(s.ram, s.q, m, j + 1);
      }
      TickReads(t, p.desc.addr, HDR + |p.frame|);
      TickUnfolds(s);
    }
  }

  lemma TickUnfolds(s: Rx)
    requires s.frames != [] && Pending(s.ram, s.q)
    ensures RxTick(s) == RxTick(RxStep(s))
  {
    hide RxStep, Pending;
  }

  lemma FirstPlaced(r: Ram, q: Queue, m: nat)
    requires PostedWell(r, q, m) && m > 0
    ensures PlacedWell(r, q, 0)
  {
  }

  lemma SameDescriptor(r: Ram, q: Queue, i: U16)
    ensures DescAt(r, Popped(q), i) == DescAt(r, q, i)
  {
  }

  /**
    A whole tick, with the waiting buffers posted well: as many frames are processed as wait
    on both sides, the i-th one met the i-th waiting buffer, and at the end of the tick every
    buffer whose frame fitted holds twelve zeros and that frame.
   */
  lemma {:induction false} TickDelivers(s: Rx)
    requires PostedWell(s.ram, s.q, Handled(s))
    ensures var e := RxTick(s);
            && s.done <= e.done && |e.done| == |s.done| + Handled(s)
            && forall i :: 0 <= i < Handled(s) ==> InPlace(s, e, i)
    decreases |s.frames|
  {
    hide Read, Pending, PostedWell, Due, InPlace, RxStep;
    R.DueMeansPending(s.ram, s.q);
    if s.frames != [] && Pending(s.ram, s.q) {
      var m, t, e := Handled(s), RxStep(s), RxTick(s);
      HandledFalls(s);
      StepPosted(s, m);
      FewerFrames(s);
      StepLayout(s, m);
      StepDone(s);
      TickDelivers(t);
      FirstInPlace(s);
      forall i: nat | 0 < i < m ensures InPlace(s, e, i) {
        assert InPlace(t, e, i - 1);
        NearerInPlace(s, e, i, m);
      }
    }
  }

  lemma StepDone(s: Rx)
    requires s.frames != [] && Pending(s.ram, s.q)
    ensures |RxStep(s).done| == |s.done| + 1 && s.done <= RxStep(s).done
  {
    hide Pending;
  }

  lemma NearerInPlace(s: Rx, e: Rx, i: nat, m: nat)
    requires s.frames != [] && Pending(s.ram, s.q) && PostedWell(s.ram, s.q, m) && 0 < i < m <= |s.frames|
    requires RxStep(s).q.size > 0 && |s.done| + i < |e.done| && |RxStep(s).done| == |s.done| + 1
    requires RxStep(s).frames == s.frames[1..] && InPlace(RxStep(s), e, i - 1)
    ensures s.q.size > 0 && InPlace(s, e, i)
  {
    hide Read, Pending, RxStep, Buffer, Waiting;
    StepShifts(s, m, i - 1);
  }

  /** Filling the first waiting buffer leaves both rings alone. */
  lemma FillKeepsRings(s: Rx, m: nat)
    requires s.frames != [] && Pending(s.ram, s.q) && m > 0 && PostedWell(s.ram, s.q, m)
    ensures var p := RxStep(s).done[|s.done|];
            p.Fits() ==> R.KeepsRings(s.ram, Filled(s.ram, p), s.q)
  {
    hide Read, Write, Pending, PushedRam, NextHead, DescAt, Waiting, R.KeepsRings;
    LayoutOf(s.ram, s.q, m);
    FirstBuffer(s.ram, s.q);
    SameDescriptor(s.ram, s.q, NextHead(s.ram, s.q));
    var p := RxStep(s).done[|s.done|];
    assert PlacedWell(s.ram, s.q, 0) && SpacedWell(s.ram, s.q, 0, 0);
    if p.Fits() {
      var r1 := Write(s.ram, p.desc.addr, Zeros(HDR));
      R.WriteKeepsRings(s.ram, s.q, p.desc.addr, Zeros(HDR));
      R.WriteKeepsRings(r1, s.q, p.desc.addr + HDR, p.frame);
      R.KeepsRingsTrans(s.ram, r1, Filled(s.ram, p), s.q);
    }
  }

  lemma {:induction false} RxKeepsRings(s: Rx) returns (turns: seq<R.Turn>)
    requires PostedWell(s.ram, s.q, Handled(s))
    ensures var e := RxTick(s);
            R.Loop(R.Snap(s.ram, s.q), turns, R.Snap(e.ram, e.q), |s.frames|) && R.RingsKept(R.Snap(s.ram, s.q), turns)
    decreases |s.frames|
  {
    hide Pending, PushedRam, NextHead, DescAt, Filled, R.Loop, R.RingsKept, R.KeepsRings, PostedWell, Handled;
    var a, e := R.Snap(s.ram, s.q), RxTick(s);
    if s.frames == [] || !Pending(s.ram, s.q) {
      turns := [];
      R.LoopNothing(a, |s.frames|);
      R.NothingKept(a);
    } else {
      PendingQueue(s.ram, s.q);
      HandledFalls(s);
      StepPosted(s, Handled(s));
      FillKeepsRings(s, Handled(s));
      R.KeepsRingsSelf(s.ram, s.q);
      var p := RxStep(s).done[|s.done|];
      var t := if p.Fits() then R.Turn(p.head, Filled(s.ram, p), HDR + |p.frame|) else R.Turn(p.head, s.ram, 0);
      var rest := RxKeepsRings(RxStep(s));
      turns := [t] + rest;
      R.LoopCons(a, t, rest, R.Snap(e.ram, e.q), |s.frames|);
      R.LoopServed(R.Next(a, t), rest, R.Snap(e.ram, e.q), |s.frames| - 1);
      R.KeptCons(a, t, rest);
    }
  }

  /** With the waiting buffers posted well and a frame for each, a receive tick settles all of them. */
  lemma RxSettles(s: Rx) returns (turns: seq<R.Turn>)
    requires PostedWell(s.ram, s.q, Handled(s)) && Due(s.ram, s.q) <= Min(|s.frames|, s.q.size)
    ensures var e := RxTick(s);
            && R.Loop(R.Snap(s.ram, s.q), turns, R.Snap(e.ram, e.q), |s.frames|)
            && |turns| == Due(s.ram, s.q) && !Pending(e.ram, e.q) && R.Returned(R.Snap(s.ram, s.q), turns)
  {
    hide RxTick, R.Loop, R.RingsKept, R.Returned, Due, Pending, PostedWell;
    LayoutOf(s.ram, s.q, Handled(s));
    turns := RxKeepsRings(s);
    var e := RxTick(s);
    R.TickSettles(R.Snap(s.ram, s.q), turns, R.Snap(e.ram, e.q), |s.frames|);
  }

  // ---- a whole transmit tick ----

  /** Used elements are written clear of the j-th waiting buffer and its descriptor. */
  predicate OfferedWell(r: Ram, q: Queue, j: nat)
    requires q.size > 0
  {
    && Apart(q.usedAddr, 4 + 8 * q.size, q.descAddr + Waiting(r, q, j) * 16, 16)
    && Apart(q.usedAddr, 4 + 8 * q.size, Buffer(r, q, j).addr, Buffer(r, q, j).len)
  }

  predicate AllOffered(r: Ram, q: Queue, m: nat) {
    P.Layout(r, q) && forall j :: 0 <= j < m ==> OfferedWell(r, q, j)
  }

  /** The frame in a buffer: what lies behind the twelve bytes of the header, if there are as many. */
  function FrameIn(r: Ram, d: Desc): seq<Frame> {
    if d.len < 12 then [] else [Read(r, d.addr + 12, d.len - 12)]
  }

  /** The frames in the first `m` waiting buffers, in ring order. */
  function Outgoing(r: Ram, q: Queue, m: nat): seq<Frame>
    requires q.size > 0
  {
    if m == 0 then [] else Outgoing(r, q, m - 1) + FrameIn(r, Buffer(r, q, m - 1))
  }

  lemma TxStepReads(s: Tx, a: nat, n: nat)
    requires Pending(s.ram, s.q) && Apart(a, n, s.q.usedAddr, 4 + 8 * s.q.size)
    ensures Read(TxStep(s).ram, a, n) == Read(s.ram, a, n)
  {
    hide Read, DescAt, NextHead, PushedRam;
    var head, q := NextHead(s.ram, s.q), Popped(s.q);
    var d := DescAt(s.ram, q, head);
    PushReads(s.ram, q, head, 0, a, n);
    PushReads(s.ram, q, head, d.len, a, n);
  }

  lemma TxStepLayout(s: Tx)
    requires Pending(s.ram, s.q) && P.Layout(s.ram, s.q)
    ensures var t := TxStep(s);
            && P.Layout(t.ram, t.q)
            && t.q == s.q.(lastAvail := Succ16(s.q.lastAvail), lastUsed := Succ16(s.q.lastUsed))
            && Read16(t.ram, AvailIdxAddr(s.q)) == Read16(s.ram, AvailIdxAddr(s.q))
  {
    hide Read, DescAt, NextHead, PushedRam, Succ16, Pending;
    TxStepReads(s, AvailIdxAddr(s.q), 2);
    var head, q := NextHead(s.ram, s.q), Popped(s.q);
    PushShape(s.ram, q, head, 0);
    PushShape(s.ram, q, head, DescAt(s.ram, q, head).len);
  }

  lemma TxStepWaiting(s: Tx, j: nat)
    requires Pending(s.ram, s.q) && P.Layout(s.ram, s.q)
    ensures var t := TxStep(s); t.q.size > 0 && Waiting(t.ram, t.q, j) == Waiting(s.ram, s.q, j + 1)
  {
    hide Read, Slot, Pending, Succ16, TxStep;
    TxStepLayout(s);
    SlotAhead(s.q.lastAvail, j, s.q.size);
    TxStepReads(s, s.q.availAddr + 4 + 2 * Slot(s.q.lastAvail + (j + 1), s.q.size), 2);
  }

  /** A step leaves the buffers behind the first as they were, each one place nearer. */
  lemma TxStepShifts(s: Tx, j: nat)
    requires Pending(s.ram, s.q) && P.Layout(s.ram, s.q) && OfferedWell(s.ram, s.q, j + 1)
    ensures var t := TxStep(s);
            && t.q.size > 0 && Waiting(t.ram, t.q, j) == Waiting(s.ram, s.q, j + 1)
            && Buffer(t.ram, t.q, j) == Buffer(s.ram, s.q, j + 1)
            && FrameIn(t.ram, Buffer(t.ram, t.q, j)) == FrameIn(s.ram, Buffer(s.ram, s.q, j + 1))
  {
    hide Read, DescAt, Pending, Succ16, TxStep, Waiting, P.Layout;
    TxStepLayout(s);
    TxStepWaiting(s, j);
    var t := TxStep(s);
    var h: nat := Waiting(s.ram, s.q, j + 1);
    var base: nat := s.q.descAddr + h * 16;
    TxStepReads(s, base, 8);
    TxStepReads(s, base + 8, 4);
    TxStepReads(s, base + 12, 2);
    TxStepReads(s, base + 14, 2);
    SameDesc(s.ram, t.ram, s.q, t.q, h);
    var d := Buffer(s.ram, s.q, j + 1);
    if d.len >= 12 {
      TxStepReads(s, d.addr + 12, d.len - 12);
    }
  }

  lemma TxStepOffered(s: Tx, m: nat)
    requires Pending(s.ram, s.q) && m > 0 && AllOffered(s.ram, s.q, m)
    ensures AllOffered(TxStep(s).ram, TxStep(s).q, m - 1)
  {
    hide TxStep, Pending, Waiting, Buffer, FrameIn;
    var t := TxStep(s);
    TxStepLayout(s);
    forall j: nat | j < m - 1 ensures OfferedWell(t.ram, t.q, j) {
      assert OfferedWell(s.ram, s.q, j + 1);
      TxStepShifts(s, j);
    }
  }

  lemma {:induction false} OutgoingShifts(s: Tx, m: nat)
    requires Pending(s.ram, s.q) && m > 0 && AllOffered(s.ram, s.q, m)
    ensures var t := TxStep(s);
            && t.q.size > 0
            && Outgoing(s.ram, s.q, m) == FrameIn(s.ram, Buffer(s.ram, s.q, 0)) + Outgoing(t.ram, t.q, m - 1)
    decreases m
  {
    hide TxStep, Pending, Buffer, FrameIn, P.Layout, OfferedWell, Outgoing;
    var t := TxStep(s);
    TxStepOffered(s, m);
    SizeOf(s.ram, s.q, m);
    SizeOf(t.ram, t.q, m - 1);
    OutgoingStep(s.ram, s.q, m - 1);
    if m == 1 {
      OutgoingStep(t.ram, t.q, 0);
    } else {
      OutgoingShifts(s, m - 1);
      OutgoingStep(t.ram, t.q, m - 2);
      assert OfferedWell(s.ram, s.q, m - 1);
      TxStepShifts(s, m - 2);
    }
  }

  lemma OutgoingStep(r: Ram, q: Queue, m: nat)
    requires q.size > 0
    ensures Outgoing(r, q, 0) == [] && Outgoing(r, q, m + 1) == Outgoing(r, q, m) + FrameIn(r, Buffer(r, q, m))
  {
    hide Buffer, FrameIn;
  }

  lemma SizeOf(r: Ram, q: Queue, m: nat)
    requires AllOffered(r, q, m)
    ensures P.Layout(r, q) && q.size > 0
  {
  }

  lemma TxStepSends(s: Tx)
    requires Pending(s.ram, s.q) && P.Layout(s.ram, s.q)
    ensures TxStep(s).sent == s.sent + FrameIn(s.ram, Buffer(s.ram, s.q, 0))
  {
    hide Read, DescAt, Pending, PushedRam, NextHead, Waiting;
    FirstBuffer(s.ram, s.q);
    SameDescriptor(s.ram, s.q, NextHead(s.ram, s.q));
  }

  lemma {:induction false} TxReports(s: Tx, turns: seq<R.Turn>, j: nat)
    requires ReportsTx(s, turns) && AllOffered(s.ram, s.q, |turns|) && j < |turns|
    ensures s.q.size > 0
    ensures turns[j].len == var d := Buffer(s.ram, s.q, j); if d.len < 12 then 0 else d.len
    decreases |turns|
  {
    hide TxStep, Pending, Buffer, FrameIn, P.Layout, OfferedWell, DescAt, NextHead;
    SizeOf(s.ram, s.q, |turns|);
    if j == 0 {
      FirstBuffer(s.ram, s.q);
    } else {
      TxStepOffered(s, |turns|);
      TxReports(TxStep(s), turns[1..], j - 1);
      assert OfferedWell(s.ram, s.q, j);
      TxStepShifts(s, j - 1);
    }
  }

  /**
    What a transmit tick hands over, with the used ring clear of the waiting buffers and their
    descriptors: from each in turn, up to the rounds there are, the frame that lay behind its
    header when the tick began; buffers too short for a header send nothing.
   */
  lemma {:induction false} TxSends(n: nat, s: Tx)
    requires AllOffered(s.ram, s.q, Min(n, Due(s.ram, s.q)))
    ensures s.q.size > 0 && TxRounds(n, s).sent == s.sent + Outgoing(s.ram, s.q, Min(n, Due(s.ram, s.q)))
    decreases n
  {
    hide Pending, Due, TxStep, FrameIn, Buffer, AllOffered, P.Layout;
    var m := Min(n, Due(s.ram, s.q));
    SizeOf(s.ram, s.q, m);
    R.DueMeansPending(s.ram, s.q);
    if m == 0 {
      assert s.sent + [] == s.sent;
    } else {
      var t := TxStep(s);
      TxStepLayout(s);
      R.DueAfter(R.Snap(s.ram, s.q), R.Snap(t.ram, t.q), 1);
      TxStepOffered(s, m);
      TxStepSends(s);
      OutgoingShifts(s, m);
      TxSends(n - 1, t);
    }
  }

  /** A buffer in RAM that holds twelve zeros and a frame sends that frame. */
  lemma HeaderIsDropped(r: Ram, d: Desc, f: Frame)
    requires InRam(r, d.addr, d.len) && Read(r, d.addr, d.len) == Zeros(12) + f
    ensures FrameIn(r, d) == [f]
  {
    var at := d.addr - r.start;
    assert d.len == 12 + |f|;
    assert Read(r, d.addr, d.len)[12..] == f;
    SliceSlice(r.bytes, at, at + d.len, 12, d.len - 12);
  }
}
