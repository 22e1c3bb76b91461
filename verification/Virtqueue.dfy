/**
  The host side of a split virtqueue: taking heads from the available ring,
  reading descriptors, and returning heads on the used ring.
 */
module Virtqueue {
  import opened Bytes
  import opened GuestRam

  datatype Option<+T> = None | Some(value: T)

  /** Flag bits of a descriptor. */
  const NEXT: U16 := 1
  const WRITE: U16 := 2

  datatype Desc = Desc(addr: U64, len: U32, flags: U16, next: U16) {
    predicate HasNext() { flags % 2 == 1 }
    predicate Writable() { flags / 2 % 2 == 1 }
  }

  /** The device's record of one queue; the two indices wrap at 2^16. */
  datatype Queue = Queue(size: U16, ready: bool, descAddr: U64, availAddr: U64, usedAddr: U64,
                         lastAvail: U16, lastUsed: U16)

  const NEW_QUEUE := Queue(0, false, 0, 0, 0, 0, 0)

  function Succ16(x: U16): U16 {
    (x + 1) % 0x1_0000
  }

  lemma SuccAdd(a: U16, n: nat)
    ensures Succ16((a + n) % 0x1_0000) == (a + n + 1) % 0x1_0000
  {
  }

  // ---- addresses of the ring fields ----

  /** The ring position of the k-th entry, k counted without wrapping. */
  function Slot(k: nat, size: nat): (i: nat)
    requires size > 0
    ensures i < size
  {
    k % size
  }

  function AvailIdxAddr(q: Queue): nat { q.availAddr + 2 }

  function AvailSlotAddr(q: Queue, i: U16): nat
    requires q.size > 0
  {
    q.availAddr + 4 + 2 * Slot(i, q.size)
  }

  function UsedIdxAddr(q: Queue): nat { q.usedAddr + 2 }

  function UsedSlotAddr(q: Queue, i: U16): nat
    requires q.size > 0
  {
    q.usedAddr + 4 + 8 * Slot(i, q.size)
  }

  // ---- what the three operations compute ----

  function DescAt(r: Ram, q: Queue, index: U16): Desc {
    var base := q.descAddr + index * 16;
    Desc(Read64(r, base), Read32(r, base + 8), Read16(r, base + 12), Read16(r, base + 14))
  }

  lemma DescUntouched(r: Ram, q: Queue, i: U16, a: nat, data: seq<Byte>)
    requires Apart(a, |data|, q.descAddr + i * 16, 16)
    ensures DescAt(Write(r, a, data), q, i) == DescAt(r, q, i)
  {
    hide Read, Write;
    var base := q.descAddr + i * 16;
    ReadOther(r, a, data, base, 8);
    ReadOther(r, a, data, base + 8, 4);
    ReadOther(r, a, data, base + 12, 2);
    ReadOther(r, a, data, base + 14, 2);
  }

  predicate Pending(r: Ram, q: Queue) {
    q.size != 0 && Read16(r, AvailIdxAddr(q)) != q.lastAvail
  }

  function NextHead(r: Ram, q: Queue): U16
    requires q.size != 0
  {
    Read16(r, AvailSlotAddr(q, q.lastAvail))
  }

  function Popped(q: Queue): Queue {
    q.(lastAvail := Succ16(q.lastAvail))
  }

  /** The used element is complete in memory before the index moves past it. */
  function PushedRam(r: Ram, q: Queue, head: U16, len: U32): Ram {
    if q.size == 0 then r else
      var slot := UsedSlotAddr(q, q.lastUsed);
      Write16(Write32(Write32(r, slot, head), slot + 4, len), UsedIdxAddr(q), Succ16(q.lastUsed))
  }

  function Pushed(q: Queue): Queue {
    if q.size == 0 then q else q.(lastUsed := Succ16(q.lastUsed))
  }

  /** Heads taken and returned: both indices have moved by their number. */
  function Retired(q: Queue, n: nat): Queue {
    q.(lastAvail := (q.lastAvail + n) % 0x1_0000, lastUsed := (q.lastUsed + n) % 0x1_0000)
  }

  /** How far the published index is ahead of the device. */
  function Due(r: Ram, q: Queue): nat {
    if q.size == 0 then 0 else (Read16(r, AvailIdxAddr(q)) - q.lastAvail) % 0x1_0000
  }

  lemma PendingQueue(r: Ram, q: Queue)
    requires Pending(r, q)
    ensures q.size != 0
  {
  }

  /** Pushing a used element leaves memory outside the used ring alone. */
  lemma PushReads(r: Ram, q: Queue, head: U16, len: U32, a: nat, n: nat)
    requires q.size > 0 && Apart(a, n, q.usedAddr, 4 + 8 * q.size)
    ensures Read(PushedRam(r, q, head, len), a, n) == Read(r, a, n)
  {
    hide Write, Read, ToLe, Slot;
    var slot := UsedSlotAddr(q, q.lastUsed);
    var r1 := Write32(r, slot, head);
    var r2 := Write32(r1, slot + 4, len);
    ReadOther(r, slot, ToLe(head, 4), a, n);
    ReadOther(r1, slot + 4, ToLe(len, 4), a, n);
    ReadOther(r2, UsedIdxAddr(q), ToLe(Succ16(q.lastUsed), 2), a, n);
  }

  // ---- the queue object ----

  class VirtioQueue {
    var size: U16
    var ready: bool
    var descAddr: U64
    var availAddr: U64
    var usedAddr: U64
    var lastAvailIdx: U16
    var lastUsedIdx: U16

    function View(): Queue
      reads this
    {
      Queue(size, ready, descAddr, availAddr, usedAddr, lastAvailIdx, lastUsedIdx)
    }

    constructor ()
      ensures View() == NEW_QUEUE
    {
      size, ready, descAddr, availAddr, usedAddr := 0, false, 0, 0, 0;
      lastAvailIdx, lastUsedIdx := 0, 0;
    }

    method PopAvail(mem: GuestMemory) returns (head: Option<U16>)
      modifies this
      ensures head.Some? == Pending(mem.View(), old(View()))
      ensures head.Some? ==> head.value == NextHead(mem.View(), old(View())) && View() == Popped(old(View()))
      ensures head.None? ==> View() == old(View())
    {
      if size == 0 {
        return None;
      }
      var idx := mem.ReadBytes(availAddr + 2, 2);
      WidthBounds();
      if lastAvailIdx == FromLe(idx) {
        return None;
      }
      var ringIdx := lastAvailIdx % size;
      var slot := mem.ReadBytes(availAddr + 4 + ringIdx * 2, 2);
      lastAvailIdx := (lastAvailIdx + 1) % 0x1_0000;
      return Some(FromLe(slot));
    }

    method PushUsed(mem: GuestMemory, head: U16, len: U32)
      modifies this, mem.ram
      ensures mem.View() == PushedRam(old(mem.View()), old(View()), head, len)
      ensures View() == Pushed(old(View()))
    {
      hide Write, ToLe, Pow256;
      if size == 0 {
        return;
      }
      var slot := usedAddr + 4 + lastUsedIdx % size * 8;
      mem.WriteBytes(slot, ToLe(head, 4));
      mem.WriteBytes(slot + 4, ToLe(len, 4));
      lastUsedIdx := (lastUsedIdx + 1) % 0x1_0000;
      mem.WriteBytes(usedAddr + 2, ToLe(lastUsedIdx, 2));
    }

    method GetDescriptor(mem: GuestMemory, index: U16) returns (desc: Desc)
      ensures desc == DescAt(mem.View(), View(), index)
    {
      var base := descAddr + index * 16;
      var addr := mem.ReadBytes(base, 8);
      var len := mem.ReadBytes(base + 8, 4);
      var flags := mem.ReadBytes(base + 12, 2);
      var next := mem.ReadBytes(base + 14, 2);
      WidthBounds();
      desc := Desc(FromLe(addr), FromLe(len), FromLe(flags), FromLe(next));
    }
  }
}
