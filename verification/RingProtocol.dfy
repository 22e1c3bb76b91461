/**
  Driver and device sharing a split virtqueue, interleaved one memory access at
  a time.  Every read and write of a ring field is its own step, so the
  available slot and its index, and the used element and its index, become
  visible separately.  The state carries the history of the run: heads
  published, heads popped, elements pushed, elements reaped.

  The main result is `RunsAreFifo`: whatever the interleaving, and however often
  the 16-bit indices wrap, the queue behaves as an unbounded first-in first-out
  channel in both directions.
 */
module RingProtocol {
  import opened Bytes
  import opened GuestRam
  import opened Virtqueue
  import opened Arith

  datatype Elem = Elem(id: U32, len: U32)

  /** Where the driver is in publishing a head. */
  datatype Publisher = Quiet | Slotted(head: U16)

  /** Where the device is between one pop and the matching push. */
  datatype Device = Resting | Looked | Holding(head: U16) | IdDone(head: U16) | ElemDone(head: U16, len: U32)

  datatype State = State(
    ram: Ram, q: Queue,
    guestAvail: U16, guestUsed: U16,
    publisher: Publisher, reaping: bool, device: Device,
    published: seq<U16>, popped: seq<U16>, used: seq<Elem>, reaped: seq<Elem>)

  datatype Step =
    | GuestSlot(head: U16)
    | GuestIdx
    | GuestPoll
    | GuestReap
    | HostLook
    | HostTake
    | HostId
    | HostLen(len: U32)
    | HostIdx
    | Data(addr: nat, data: seq<Byte>)

  // ---- ring geometry ----

  predicate Layout(r: Ram, q: Queue) {
    && q.size > 0 && 0x1_0000 % q.size == 0
    && InRam(r, q.availAddr, 4 + 2 * q.size)
    && InRam(r, q.usedAddr, 4 + 8 * q.size)
    && Apart(q.availAddr, 4 + 2 * q.size, q.usedAddr, 4 + 8 * q.size)
  }

  predicate OutsideRings(q: Queue, addr: nat, n: nat) {
    && Apart(addr, n, q.availAddr, 4 + 2 * q.size)
    && Apart(addr, n, q.usedAddr, 4 + 8 * q.size)
  }

  function AvailEntry(r: Ram, ring: nat, i: nat): U16 {
    Read16(r, ring + 4 + 2 * i)
  }

  function UsedEntry(r: Ram, ring: nat, i: nat): Elem {
    Elem(Read32(r, ring + 4 + 8 * i), Read32(r, ring + 4 + 8 * i + 4))
  }

  // ---- the steps ----

  predicate Enabled(s: State, step: Step) {
    s.q.size > 0 &&
    match step
    // the driver keeps at most `size` chains outstanding, judged by its own wrapped counters
    case GuestSlot(_) => s.publisher.Quiet? && (s.guestAvail - s.guestUsed) % 0x1_0000 < s.q.size
    case GuestIdx => s.publisher.Slotted?
    case GuestPoll => !s.reaping
    case GuestReap => s.reaping
    case HostLook => s.device.Resting?
    case HostTake => s.device.Looked?
    case HostId => s.device.Holding?
    case HostLen(_) => s.device.IdDone?
    case HostIdx => s.device.ElemDone?
    case Data(addr, data) => OutsideRings(s.q, addr, |data|)
  }

  function Apply(s: State, step: Step): State
    requires Enabled(s, step)
  {
    match step
    case GuestSlot(head) =>
      s.(ram := Write16(s.ram, s.q.availAddr + 4 + 2 * (Slot(s.guestAvail, s.q.size)), head),
         publisher := Slotted(head))
    case GuestIdx =>
      s.(ram := Write16(s.ram, AvailIdxAddr(s.q), Succ16(s.guestAvail)),
         guestAvail := Succ16(s.guestAvail),
         publisher := Quiet,
         published := s.published + [s.publisher.head])
    case GuestPoll =>
      s.(reaping := Read16(s.ram, UsedIdxAddr(s.q)) != s.guestUsed)
    case GuestReap =>
      s.(reaped := s.reaped + [UsedEntry(s.ram, s.q.usedAddr, Slot(s.guestUsed, s.q.size))],
         guestUsed := Succ16(s.guestUsed),
         reaping := false)
    case HostLook =>
      s.(device := if Pending(s.ram, s.q) then Looked else Resting)
    case HostTake =>
      s.(device := Holding(NextHead(s.ram, s.q)),
         popped := s.popped + [NextHead(s.ram, s.q)],
         q := Popped(s.q))
    case HostId =>
      s.(ram := Write32(s.ram, UsedSlotAddr(s.q, s.q.lastUsed), s.device.head),
         device := IdDone(s.device.head))
    case HostLen(len) =>
      s.(ram := Write32(s.ram, UsedSlotAddr(s.q, s.q.lastUsed) + 4, len),
         device := ElemDone(s.device.head, len))
    case HostIdx =>
      s.(ram := Write16(s.ram, UsedIdxAddr(s.q), Succ16(s.q.lastUsed)),
         q := Pushed(s.q),
         device := Resting,
         used := s.used + [Elem(s.device.head, s.device.len)])
    case Data(addr, data) =>
      s.(ram := Write(s.ram, addr, data))
  }

  predicate Legal(s: State, steps: seq<Step>)
    decreases |steps|
  {
    steps == [] || (Enabled(s, steps[0]) && Legal(Apply(s, steps[0]), steps[1..]))
  }

  function Run(s: State, steps: seq<Step>): State
    requires Legal(s, steps)
    decreases |steps|
  {
    if steps == [] then s else Run(Apply(s, steps[0]), steps[1..])
  }

  /** A queue just made ready over zeroed rings. */
  predicate Init(s: State) {
    && Layout(s.ram, s.q)
    && s.q.lastAvail == 0 && s.q.lastUsed == 0 && s.guestAvail == 0 && s.guestUsed == 0
    && Read16(s.ram, AvailIdxAddr(s.q)) == 0 && Read16(s.ram, UsedIdxAddr(s.q)) == 0
    && s.publisher == Quiet && !s.reaping && s.device == Resting
    && s.published == [] && s.popped == [] && s.used == [] && s.reaped == []
  }

  // ---- the invariant ----

  /** The 16-bit indices are the unbounded counters modulo 2^16. */
  predicate Indices(s: State) {
    && s.guestAvail == |s.published| % 0x1_0000 == Read16(s.ram, AvailIdxAddr(s.q))
    && s.q.lastAvail == |s.popped| % 0x1_0000
    && s.q.lastUsed == |s.used| % 0x1_0000 == Read16(s.ram, UsedIdxAddr(s.q))
    && s.guestUsed == |s.reaped| % 0x1_0000
  }

  predicate Counters(s: State) {
    |s.reaped| <= |s.used| <= |s.popped| <= |s.published| <= |s.reaped| + s.q.size
  }

  predicate Fifo(s: State) {
    && s.popped <= s.published
    && s.reaped <= s.used
    && |s.used| <= |s.popped|
    && forall i :: 0 <= i < |s.used| ==> s.used[i].id == s.popped[i]
  }

  predicate AvailMemory(s: State)
    requires s.q.size > 0
  {
    && (forall k :: |s.popped| <= k < |s.published| ==>
          AvailEntry(s.ram, s.q.availAddr, Slot(k, s.q.size)) == s.published[k])
    && (s.publisher.Slotted? ==>
          && |s.published| < |s.reaped| + s.q.size
          && AvailEntry(s.ram, s.q.availAddr, Slot(|s.published|, s.q.size)) == s.publisher.head)
  }

  predicate UsedMemory(s: State)
    requires s.q.size > 0
  {
    && (forall k :: |s.reaped| <= k < |s.used| ==> UsedEntry(s.ram, s.q.usedAddr, Slot(k, s.q.size)) == s.used[k])
    && (s.device.IdDone? ==> UsedEntry(s.ram, s.q.usedAddr, Slot(|s.used|, s.q.size)).id == s.device.head)
    && (s.device.ElemDone? ==>
          UsedEntry(s.ram, s.q.usedAddr, Slot(|s.used|, s.q.size)) == Elem(s.device.head, s.device.len))
    && (s.reaping ==> |s.reaped| < |s.used|)
  }

  predicate DeviceHolds(s: State) {
    match s.device
    case Resting => |s.popped| == |s.used|
    case Looked => |s.popped| == |s.used| < |s.published|
    case Holding(h) => |s.popped| == |s.used| + 1 && h == s.popped[|s.used|]
    case IdDone(h) => |s.popped| == |s.used| + 1 && h == s.popped[|s.used|]
    case ElemDone(h, _) => |s.popped| == |s.used| + 1 && h == s.popped[|s.used|]
  }

  predicate Inv(s: State) {
    && Layout(s.ram, s.q) && Indices(s) && Counters(s) && Fifo(s) && DeviceHolds(s)
    && AvailMemory(s) && UsedMemory(s)
  }

  // ---- wrapped arithmetic ----

  /** Slot numbers computed from wrapped and unwrapped counters agree. */
  lemma WrappedSlot(n: nat, size: U16)
    requires size > 0 && 0x1_0000 % size == 0
    ensures Slot(n % 0x1_0000, size) == Slot(n, size)
  {
    var m := 0x1_0000 / size;
    var w := n / 0x1_0000;
    assert n == w * (m * size) + n % 0x1_0000;
    assert w * (m * size) == (w * m) * size;
    ModShift(n % 0x1_0000, w * m, size);
  }

  lemma DifferentSlots(j: nat, k: nat, size: nat)
    requires j < k < j + size
    ensures Slot(j, size) != Slot(k, size)
  {
    DistinctSlots(j, k, size);
  }

  /** The ring arithmetic of the source is right exactly for ring sizes that divide 2^16. */
  lemma RingSizeMustDivide(size: U16)
    requires size > 0
    ensures (forall n: nat :: n % 0x1_0000 % size == n % size) <==> 0x1_0000 % size == 0
  {
    if 0x1_0000 % size == 0 {
      forall n: nat ensures n % 0x1_0000 % size == n % size { WrappedSlot(n, size); }
    } else {
      var n := 0x1_0000;
      assert n % 0x1_0000 % size == 0;
    }
  }

  // ---- frames ----

  predicate SameAvail(r: Ram, r': Ram, q: Queue) {
    && Read16(r', AvailIdxAddr(q)) == Read16(r, AvailIdxAddr(q))
    && forall i :: 0 <= i < q.size ==> AvailEntry(r', q.availAddr, i) == AvailEntry(r, q.availAddr, i)
  }

  predicate SameUsed(r: Ram, r': Ram, q: Queue) {
    && Read16(r', UsedIdxAddr(q)) == Read16(r, UsedIdxAddr(q))
    && forall i :: 0 <= i < q.size ==> UsedEntry(r', q.usedAddr, i) == UsedEntry(r, q.usedAddr, i)
  }

  lemma AvailFrame(r: Ram, q: Queue, a: nat, data: seq<Byte>)
    requires Apart(a, |data|, q.availAddr, 4 + 2 * q.size)
    ensures SameAvail(r, Write(r, a, data), q)
  {
    hide Write, Read;
    ReadOther(r, a, data, AvailIdxAddr(q), 2);
    forall i | 0 <= i < q.size
      ensures AvailEntry(Write(r, a, data), q.availAddr, i) == AvailEntry(r, q.availAddr, i)
    {
      ReadOther(r, a, data, q.availAddr + 4 + 2 * i, 2);
    }
  }

  lemma UsedFrame(r: Ram, q: Queue, a: nat, data: seq<Byte>)
    requires Apart(a, |data|, q.usedAddr, 4 + 8 * q.size)
    ensures SameUsed(r, Write(r, a, data), q)
  {
    hide Write, Read;
    ReadOther(r, a, data, UsedIdxAddr(q), 2);
    forall i | 0 <= i < q.size
      ensures UsedEntry(Write(r, a, data), q.usedAddr, i) == UsedEntry(r, q.usedAddr, i)
    {
      ReadOther(r, a, data, q.usedAddr + 4 + 8 * i, 4);
      ReadOther(r, a, data, q.usedAddr + 4 + 8 * i + 4, 4);
    }
  }

  /** Writing one available slot leaves the index and the other slots alone. */
  lemma AvailSlotWrite(r: Ram, q: Queue, j: nat, head: U16)
    requires Layout(r, q) && j < q.size
    ensures var r' := Write16(r, q.availAddr + 4 + 2 * j, head);
            && Read16(r', AvailIdxAddr(q)) == Read16(r, AvailIdxAddr(q))
            && AvailEntry(r', q.availAddr, j) == head
            && (forall i :: 0 <= i < q.size && i != j ==>
                  AvailEntry(r', q.availAddr, i) == AvailEntry(r, q.availAddr, i))
            && SameUsed(r, r', q)
  {
    hide Write, Read, ToLe;
    var a := q.availAddr + 4 + 2 * j;
    ReadOther(r, a, ToLe(head, 2), AvailIdxAddr(q), 2);
    Read16Same(r, a, head);
    forall i | 0 <= i < q.size && i != j
      ensures AvailEntry(Write16(r, a, head), q.availAddr, i) == AvailEntry(r, q.availAddr, i)
    {
      ReadOther(r, a, ToLe(head, 2), q.availAddr + 4 + 2 * i, 2);
    }
    UsedFrame(r, q, a, ToLe(head, 2));
  }

  lemma AvailIdxWrite(r: Ram, q: Queue, v: U16)
    requires Layout(r, q)
    ensures var r' := Write16(r, AvailIdxAddr(q), v);
            && Read16(r', AvailIdxAddr(q)) == v
            && (forall i :: 0 <= i < q.size ==> AvailEntry(r', q.availAddr, i) == AvailEntry(r, q.availAddr, i))
            && SameUsed(r, r', q)
  {
    hide Write, Read, ToLe;
    Read16Same(r, AvailIdxAddr(q), v);
    forall i | 0 <= i < q.size
      ensures AvailEntry(Write16(r, AvailIdxAddr(q), v), q.availAddr, i) == AvailEntry(r, q.availAddr, i)
    {
      ReadOther(r, AvailIdxAddr(q), ToLe(v, 2), q.availAddr + 4 + 2 * i, 2);
    }
    UsedFrame(r, q, AvailIdxAddr(q), ToLe(v, 2));
  }

  lemma UsedIdWrite(r: Ram, q: Queue, j: nat, id: U32)
    requires Layout(r, q) && j < q.size
    ensures var r' := Write32(r, q.usedAddr + 4 + 8 * j, id);
            && Read16(r', UsedIdxAddr(q)) == Read16(r, UsedIdxAddr(q))
            && UsedEntry(r', q.usedAddr, j).id == id
            && (forall i :: 0 <= i < q.size && i != j ==> UsedEntry(r', q.usedAddr, i) == UsedEntry(r, q.usedAddr, i))
            && SameAvail(r, r', q)
  {
    hide Write, Read, ToLe;
    var a := q.usedAddr + 4 + 8 * j;
    ReadOther(r, a, ToLe(id, 4), UsedIdxAddr(q), 2);
    Read32Same(r, a, id);
    forall i | 0 <= i < q.size && i != j
      ensures UsedEntry(Write32(r, a, id), q.usedAddr, i) == UsedEntry(r, q.usedAddr, i)
    {
      ReadOther(r, a, ToLe(id, 4), q.usedAddr + 4 + 8 * i, 4);
      ReadOther(r, a, ToLe(id, 4), q.usedAddr + 4 + 8 * i + 4, 4);
    }
    AvailFrame(r, q, a, ToLe(id, 4));
  }

  lemma UsedLenWrite(r: Ram, q: Queue, j: nat, len: U32)
    requires Layout(r, q) && j < q.size
    ensures var r' := Write32(r, q.usedAddr + 4 + 8 * j + 4, len);
            && Read16(r', UsedIdxAddr(q)) == Read16(r, UsedIdxAddr(q))
            && UsedEntry(r', q.usedAddr, j) == Elem(UsedEntry(r, q.usedAddr, j).id, len)
            && (forall i :: 0 <= i < q.size && i != j ==> UsedEntry(r', q.usedAddr, i) == UsedEntry(r, q.usedAddr, i))
            && SameAvail(r, r', q)
  {
    hide Write, Read, ToLe;
    var a := q.usedAddr + 4 + 8 * j + 4;
    ReadOther(r, a, ToLe(len, 4), UsedIdxAddr(q), 2);
    Read32Same(r, a, len);
    ReadOther(r, a, ToLe(len, 4), q.usedAddr + 4 + 8 * j, 4);
    forall i | 0 <= i < q.size && i != j
      ensures UsedEntry(Write32(r, a, len), q.usedAddr, i) == UsedEntry(r, q.usedAddr, i)
    {
      ReadOther(r, a, ToLe(len, 4), q.usedAddr + 4 + 8 * i, 4);
      ReadOther(r, a, ToLe(len, 4), q.usedAddr + 4 + 8 * i + 4, 4);
    }
    AvailFrame(r, q, a, ToLe(len, 4));
  }

  lemma UsedIdxWrite(r: Ram, q: Queue, v: U16)
    requires Layout(r, q)
    ensures var r' := Write16(r, UsedIdxAddr(q), v);
            && Read16(r', UsedIdxAddr(q)) == v
            && (forall i :: 0 <= i < q.size ==> UsedEntry(r', q.usedAddr, i) == UsedEntry(r, q.usedAddr, i))
            && SameAvail(r, r', q)
  {
    hide Write, Read, ToLe;
    var a := UsedIdxAddr(q);
    Read16Same(r, a, v);
    forall i | 0 <= i < q.size
      ensures UsedEntry(Write16(r, a, v), q.usedAddr, i) == UsedEntry(r, q.usedAddr, i)
    {
      ReadOther(r, a, ToLe(v, 2), q.usedAddr + 4 + 8 * i, 4);
      ReadOther(r, a, ToLe(v, 2), q.usedAddr + 4 + 8 * i + 4, 4);
    }
    AvailFrame(r, q, a, ToLe(v, 2));
  }

  // ---- every step keeps the invariant ----

  /** Wrapped distance and wrapped equality are the real ones while less than 2^16 apart. */
  lemma WrappedDistance(hi: nat, lo: nat)
    requires lo <= hi < lo + 0x1_0000
    ensures (hi % 0x1_0000 - lo % 0x1_0000) % 0x1_0000 == hi - lo
    ensures (hi % 0x1_0000 == lo % 0x1_0000) == (hi == lo)
    ensures Succ16(hi % 0x1_0000) == (hi + 1) % 0x1_0000
  {
    WrappedDifference(hi, lo);
    WrappedNext(hi);
  }

  lemma WrappedDifference(hi: nat, lo: nat)
    requires lo <= hi < lo + 0x1_0000
    ensures (hi % 0x1_0000 - lo % 0x1_0000) % 0x1_0000 == hi - lo
  {
    var k := lo / 0x1_0000 - hi / 0x1_0000;
    DivUnique(hi % 0x1_0000 - lo % 0x1_0000, 0x1_0000, k, hi - lo);
  }

  lemma WrappedNext(n: nat)
    ensures Succ16(n % 0x1_0000) == (n + 1) % 0x1_0000
  {
    ModShift(n % 0x1_0000 + 1, n / 0x1_0000, 0x1_0000);
  }

  lemma DividesIsSmall(q: Queue)
    requires q.size > 0 && 0x1_0000 % q.size == 0
    ensures q.size <= 0x8000
  {
    if q.size > 0x8000 {
      DivUnique(0x1_0000, q.size, 1, 0x1_0000 - q.size);
    }
  }

  lemma GuestSlotKeeps(s: State, head: U16)
    requires Inv(s) && Enabled(s, GuestSlot(head))
    ensures Inv(Apply(s, GuestSlot(head)))
  {
    hide Slot, Write, Read, ToLe;
    var n, size := |s.published|, s.q.size;
    DividesIsSmall(s.q);
    WrappedDistance(n, |s.reaped|);
    WrappedSlot(n, size);
    AvailSlotWrite(s.ram, s.q, Slot(n, size), head);
    var s' := Apply(s, GuestSlot(head));
    forall k | |s.popped| <= k < n
      ensures AvailEntry(s'.ram, s.q.availAddr, Slot(k, size)) == s.published[k]
    {
      DifferentSlots(k, n, size);
    }
    forall k | |s.reaped| <= k < |s.used|
      ensures UsedEntry(s'.ram, s.q.usedAddr, Slot(k, size)) == s.used[k]
    {
    }
  }

  lemma GuestIdxKeeps(s: State)
    requires Inv(s) && Enabled(s, GuestIdx)
    ensures Inv(Apply(s, GuestIdx))
  {
    hide Slot, Write, Read, ToLe;
    var n, size := |s.published|, s.q.size;
    DividesIsSmall(s.q);
    WrappedDistance(n, |s.reaped|);
    AvailIdxWrite(s.ram, s.q, Succ16(s.guestAvail));
    var s' := Apply(s, GuestIdx);
    forall k | |s'.popped| <= k < |s'.published|
      ensures AvailEntry(s'.ram, s.q.availAddr, Slot(k, size)) == s'.published[k]
    {
    }
  }

  lemma GuestPollKeeps(s: State)
    requires Inv(s) && Enabled(s, GuestPoll)
    ensures Inv(Apply(s, GuestPoll))
  {
    hide Slot, Write, Read, ToLe;
    DividesIsSmall(s.q);
    WrappedDistance(|s.used|, |s.reaped|);
  }

  lemma GuestReapKeeps(s: State)
    requires Inv(s) && Enabled(s, GuestReap)
    ensures Inv(Apply(s, GuestReap))
  {
    hide Slot, Read16, AvailEntry, UsedEntry;
    var n := |s.reaped|;
    WrappedDistance(n, n);
    WrappedSlot(n, s.q.size);
    assert UsedEntry(s.ram, s.q.usedAddr, Slot(s.guestUsed, s.q.size)) == s.used[n];
  }

  lemma HostLookKeeps(s: State)
    requires Inv(s) && Enabled(s, HostLook)
    ensures Inv(Apply(s, HostLook))
  {
    hide Slot, Write, Read, ToLe;
    DividesIsSmall(s.q);
    WrappedDistance(|s.published|, |s.popped|);
  }

  lemma NextHeadIsEntry(r: Ram, q: Queue, n: nat)
    requires q.size > 0 && 0x1_0000 % q.size == 0 && q.lastAvail == n % 0x1_0000
    ensures NextHead(r, q) == AvailEntry(r, q.availAddr, Slot(n, q.size))
  {
    WrappedSlot(n, q.size);
  }

  lemma HostTakeKeeps(s: State)
    requires Inv(s) && Enabled(s, HostTake)
    ensures Inv(Apply(s, HostTake))
  {
    hide Slot, Read16, NextHead, AvailEntry, UsedEntry;
    var n := |s.popped|;
    WrappedDistance(n, n);
    NextHeadIsEntry(s.ram, s.q, n);
    assert NextHead(s.ram, s.q) == s.published[n];
  }

  /** The available ring's part of the invariant depends on that ring alone. */
  lemma AvailMemoryKept(s: State, s': State)
    requires s.q.size > 0 && AvailMemory(s) && SameAvail(s.ram, s'.ram, s.q)
    requires s'.q.size == s.q.size && s'.q.availAddr == s.q.availAddr && s'.publisher == s.publisher
    requires s'.popped == s.popped && s'.published == s.published && s'.reaped == s.reaped
    ensures AvailMemory(s')
  {
    hide AvailEntry, Slot;
  }

  lemma HostIdKeeps(s: State)
    requires Inv(s) && Enabled(s, HostId)
    ensures Inv(Apply(s, HostId))
  {
    hide Slot, Write, Read, ToLe, AvailMemory, AvailEntry;
    var n, size := |s.used|, s.q.size;
    WrappedSlot(n, size);
    UsedIdWrite(s.ram, s.q, Slot(n, size), s.device.head);
    AvailMemoryKept(s, Apply(s, HostId));
    forall k | |s.reaped| <= k < n
      ensures UsedEntry(Apply(s, HostId).ram, s.q.usedAddr, Slot(k, size)) == s.used[k]
    {
      DifferentSlots(k, n, size);
    }
  }

  lemma HostLenKeeps(s: State, len: U32)
    requires Inv(s) && Enabled(s, HostLen(len))
    ensures Inv(Apply(s, HostLen(len)))
  {
    hide Slot, Write, Read, ToLe, AvailMemory, AvailEntry;
    var n, size := |s.used|, s.q.size;
    WrappedSlot(n, size);
    UsedLenWrite(s.ram, s.q, Slot(n, size), len);
    AvailMemoryKept(s, Apply(s, HostLen(len)));
    forall k | |s.reaped| <= k < n
      ensures UsedEntry(Apply(s, HostLen(len)).ram, s.q.usedAddr, Slot(k, size)) == s.used[k]
    {
      DifferentSlots(k, n, size);
    }
  }

  lemma HostIdxKeeps(s: State)
    requires Inv(s) && Enabled(s, HostIdx)
    ensures Inv(Apply(s, HostIdx))
  {
    hide Slot, Write, Read, ToLe;
    DividesIsSmall(s.q);
    WrappedDistance(|s.used|, |s.reaped|);
    UsedIdxWrite(s.ram, s.q, Succ16(s.q.lastUsed));
    var s' := Apply(s, HostIdx);
    forall k | |s'.reaped| <= k < |s'.used|
      ensures UsedEntry(s'.ram, s.q.usedAddr, Slot(k, s.q.size)) == s'.used[k]
    {
    }
  }

  lemma DataKeeps(s: State, addr: nat, data: seq<Byte>)
    requires Inv(s) && Enabled(s, Data(addr, data))
    ensures Inv(Apply(s, Data(addr, data)))
  {
    hide Slot, Write, Read, ToLe;
    AvailFrame(s.ram, s.q, addr, data);
    UsedFrame(s.ram, s.q, addr, data);
  }

  lemma StepKeepsInv(s: State, step: Step)
    requires Inv(s) && Enabled(s, step)
    ensures Inv(Apply(s, step))
  {
    hide Inv, Apply, Enabled;
    match step
    case GuestSlot(head) => GuestSlotKeeps(s, head);
    case GuestIdx => GuestIdxKeeps(s);
    case GuestPoll => GuestPollKeeps(s);
    case GuestReap => GuestReapKeeps(s);
    case HostLook => HostLookKeeps(s);
    case HostTake => HostTakeKeeps(s);
    case HostId => HostIdKeeps(s);
    case HostLen(len) => HostLenKeeps(s, len);
    case HostIdx => HostIdxKeeps(s);
    case Data(addr, data) => DataKeeps(s, addr, data);
  }

  // ---- the unbounded channel the rings implement ----

  /** Two unbounded queues and the progress made through each; nothing wraps here. */
  datatype Channel = Channel(published: seq<U16>, popped: nat, used: seq<Elem>, reaped: nat)

  predicate ChannelStep(size: nat, c: Channel, c': Channel) {
    || c' == c
    || (|c.published| < c.reaped + size && exists head :: c' == c.(published := c.published + [head]))
    || (c.popped < |c.published| && c' == c.(popped := c.popped + 1))
    || (|c.used| < c.popped <= |c.published| &&
        exists len :: c' == c.(used := c.used + [Elem(c.published[|c.used|], len)]))
    || (c.reaped < |c.used| && c' == c.(reaped := c.reaped + 1))
  }

  function Abs(s: State): Channel {
    Channel(s.published, |s.popped|, s.used, |s.reaped|)
  }

  /** Every single memory access is a step of the unbounded channel, or invisible in it. */
  lemma StepRefinesChannel(s: State, step: Step)
    requires Inv(s) && Enabled(s, step)
    ensures ChannelStep(s.q.size, Abs(s), Abs(Apply(s, step)))
  {
    hide Slot, Write, Read, ToLe;
    match step
    case HostTake =>
    case GuestReap =>
    case GuestIdx =>
      assert Abs(Apply(s, step)) == Abs(s).(published := s.published + [s.publisher.head]);
    case HostIdx =>
      assert Abs(Apply(s, step)) == Abs(s).(used := s.used + [Elem(s.published[|s.used|], s.device.len)]);
    case _ =>
  }

  lemma {:induction false} RunKeepsInv(s: State, steps: seq<Step>)
    requires Inv(s) && Legal(s, steps)
    ensures Inv(Run(s, steps)) && Run(s, steps).q.size == s.q.size
    decreases |steps|
  {
    hide Enabled, Inv;
    if steps != [] {
      StepKeepsInv(s, steps[0]);
      RunKeepsInv(Apply(s, steps[0]), steps[1..]);
    }
  }

  /**
    For every interleaving of any length, starting from a queue just made ready: the
    counters stay ordered and within a ring of each other, heads come out of the
    available ring exactly as they went in, each used element answers the head popped
    at the same position, and what the driver reaps is what the device pushed.
   */
  lemma RunsAreFifo(s: State, steps: seq<Step>)
    requires Init(s) && Legal(s, steps)
    ensures var t := Run(s, steps);
            && |t.reaped| <= |t.used| <= |t.popped| <= |t.published| <= |t.reaped| + s.q.size
            && t.popped <= t.published
            && t.reaped <= t.used
            && (forall i :: 0 <= i < |t.reaped| ==> t.reaped[i] == t.used[i] && t.reaped[i].id == t.published[i])
            && Indices(t)
  {
    hide Apply, Enabled, Indices, AvailMemory, UsedMemory, Layout;
    InitIsInv(s);
    RunKeepsInv(s, steps);
  }

  lemma InitIsInv(s: State)
    requires Init(s)
    ensures Inv(s)
  {
  }

  /** The wrapped emptiness tests of both sides decide emptiness of the real queues. */
  lemma EmptinessTests(s: State)
    requires Inv(s)
    ensures Pending(s.ram, s.q) <==> |s.popped| < |s.published|
    ensures Read16(s.ram, UsedIdxAddr(s.q)) != s.guestUsed <==> |s.reaped| < |s.used|
    ensures |s.popped| < |s.published| ==> NextHead(s.ram, s.q) == s.published[|s.popped|]
  {
    hide Slot, Write, Read, ToLe;
    DividesIsSmall(s.q);
    WrappedDistance(|s.published|, |s.popped|);
    WrappedDistance(|s.used|, |s.reaped|);
    NextHeadIsEntry(s.ram, s.q, |s.popped|);
  }

  // ---- the queue operations are these steps run back to back ----

  /** `PopAvail` is a look and, when it finds a head, a take. */
  lemma PopIsLookThenTake(s: State)
    requires s.q.size > 0 && s.device.Resting?
    ensures var looked := Apply(s, HostLook);
            if Pending(s.ram, s.q) then
              && Enabled(looked, HostTake)
              && Apply(looked, HostTake).q == Popped(s.q)
              && Apply(looked, HostTake).ram == s.ram
              && Apply(looked, HostTake).device == Holding(NextHead(s.ram, s.q))
            else looked == s
  {
  }

  /** `PushUsed` is the id, length and index writes, in that order. */
  lemma PushIsThreeWrites(s: State, len: U32)
    requires s.q.size > 0 && s.device.Holding?
    ensures Legal(s, [HostId, HostLen(len), HostIdx])
    ensures Run(s, [HostId, HostLen(len), HostIdx])
         == s.(ram := PushedRam(s.ram, s.q, s.device.head, len),
               q := Pushed(s.q),
               device := Resting,
               used := s.used + [Elem(s.device.head, len)])
  {
    hide Write;
    var s1 := Apply(s, HostId);
    var s2 := Apply(s1, HostLen(len));
    var s3 := Apply(s2, HostIdx);
    assert [HostId, HostLen(len), HostIdx][1..] == [HostLen(len), HostIdx];
    assert [HostLen(len), HostIdx][1..] == [HostIdx];
    assert [HostIdx][1..] == [];
    assert Legal(s3, []) && Run(s3, []) == s3;
    assert Legal(s2, [HostIdx]) && Run(s2, [HostIdx]) == s3;
    assert Legal(s1, [HostLen(len), HostIdx]) && Run(s1, [HostLen(len), HostIdx]) == s3;
  }
}
