/** The block device: one request chain served against a disk image, and the batch loop around it. */
module BlkDevice {
  import opened Bytes
  import opened GuestRam
  import opened Virtqueue
  import opened Retire
  import opened Arith
  import P = RingProtocol

  const SECTOR := 512
  const MAX_BATCH := 64

  const OK: Byte := 0
  const IO_ERROR: Byte := 1

  /** The backing file, and the size past which the host refuses to grow it. */
  datatype Disk = Disk(data: seq<Byte>, limit: nat)

  /** The sector number is scaled in 64 bits without an overflow check. */
  function ByteOffset(sector: U64): U64 {
    sector * SECTOR % 0x1_0000_0000_0000_0000
  }

  /** File positions are signed 64-bit numbers. */
  predicate SeekOk(off: U64) {
    off < 0x8000_0000_0000_0000
  }

  function ReadAt(disk: Disk, off: nat, len: nat): Option<seq<Byte>> {
    if len == 0 then Some([])
    else if off + len <= |disk.data| then Some(disk.data[off..off + len])
    else None
  }

  /** `data` with `bytes` placed at `off`, grown with zeros where it was too short. */
  function Patch(data: seq<Byte>, off: nat, bytes: seq<Byte>): (d: seq<Byte>)
    ensures bytes != [] ==> |d| == if off + |bytes| > |data| then off + |bytes| else |data|
  {
    if bytes == [] then data else
      var grown := if |data| < off + |bytes| then data + Zeros(off + |bytes| - |data|) else data;
      grown[..off] + bytes + grown[off + |bytes|..]
  }

  /** Writes what fits under the file's limit, and says whether that was everything. */
  function WriteAt(disk: Disk, off: nat, bytes: seq<Byte>): (Disk, bool) {
    if bytes == [] || off + |bytes| <= disk.limit then (disk.(data := Patch(disk.data, off, bytes)), true)
    else
      var fits := if off < disk.limit then disk.limit - off else 0;
      (disk.(data := Patch(disk.data, off, bytes[..fits])), false)
  }

  // ---- one request ----

  datatype Served = Served(ram: Ram, disk: Disk, len: U32, work: bool)

  /** What the device does for the data and status descriptors of a well-formed chain. */
  function Perform(r: Ram, disk: Disk, isWrite: bool, off: U64, data: Desc, status: Desc): Served {
    if !SeekOk(off) then Served(r, disk, 0, false)
    else if isWrite then
      var (disk', all) := WriteAt(disk, off, Read(r, data.addr, data.len));
      Served(Write8(r, status.addr, if all then OK else IO_ERROR), disk', data.len, true)
    else
      match ReadAt(disk, off, data.len)
      case Some(bytes) => Served(Write8(Write(r, data.addr, bytes), status.addr, OK), disk, data.len, true)
      case None => Served(Write8(r, status.addr, IO_ERROR), disk, data.len, true)
  }

  /** A transfer whose position exists reports work and the data length, failed or not; otherwise nothing happens. */
  lemma PerformReports(r: Ram, disk: Disk, isWrite: bool, off: U64, data: Desc, status: Desc)
    ensures var s := Perform(r, disk, isWrite, off, data, status);
            if off < 0x8000_0000_0000_0000 then s.work && s.len == data.len else s == Served(r, disk, 0, false)
  {
    hide Write, Read, WriteAt, ReadAt;
  }

  function Serve(r: Ram, q: Queue, disk: Disk, head: U16): Served {
    var header := DescAt(r, q, head);
    if !header.HasNext() || header.len != 16 then Served(r, disk, 0, false)
    else
      var isWrite := Read32(r, header.addr) != 0;
      var sector := Read64(r, header.addr + 8);
      var data := DescAt(r, q, header.next);
      if data.Writable() == isWrite then Served(r, disk, 0, false)
      else
        var status := DescAt(r, q, data.next);
        if !status.Writable() then Served(r, disk, 0, false)
        else Perform(r, disk, isWrite, ByteOffset(sector), data, status)
  }

  // ---- the batch ----

  datatype Host = Host(ram: Ram, q: Queue, disk: Disk, work: bool)

  function ServeNext(h: Host): Host
    requires Pending(h.ram, h.q)
  {
    var head := NextHead(h.ram, h.q);
    var q := Popped(h.q);
    var s := Serve(h.ram, q, h.disk, head);
    Host(PushedRam(s.ram, q, head, s.len), Pushed(q), s.disk, h.work || s.work)
  }

  /** At most `n` requests, stopping early when the queue is empty. */
  function Batch(n: nat, h: Host): Host {
    if n == 0 || !Pending(h.ram, h.q) then h else Batch(n - 1, ServeNext(h))
  }

  /** On every path, malformed chains included, the batch takes heads in order and returns each. */
  lemma {:induction false} BatchRetires(n: nat, h: Host) returns (turns: seq<Turn>)
    ensures Loop(Snap(h.ram, h.q), turns, Snap(Batch(n, h).ram, Batch(n, h).q), n)
    decreases n
  {
    hide Serve, PushedRam, NextHead, Pending, Loop;
    var s := Snap(h.ram, h.q);
    if n == 0 || !Pending(h.ram, h.q) {
      turns := [];
      LoopNothing(s, n);
    } else {
      PendingQueue(h.ram, h.q);
      var head := NextHead(h.ram, h.q);
      var served := Serve(h.ram, Popped(h.q), h.disk, head);
      var t := Turn(head, served.ram, served.len);
      var rest := BatchRetires(n - 1, ServeNext(h));
      turns := [t] + rest;
      LoopCons(s, t, rest, Snap(Batch(n, h).ram, Batch(n, h).q), n);
    }
  }

  /** The data buffer and the status byte of a chain lie outside the rings. */
  predicate ChainClear(r: Ram, q: Queue, head: U16) {
    var data := DescAt(r, q, DescAt(r, q, head).next);
    var status := DescAt(r, q, data.next);
    P.OutsideRings(q, data.addr, data.len) && P.OutsideRings(q, status.addr, 1)
  }

  lemma ServeKeepsRings(r: Ram, q: Queue, disk: Disk, head: U16)
    requires ChainClear(r, q, head)
    ensures KeepsRings(r, Serve(r, q, disk, head).ram, q)
  {
    hide DescAt, Write, KeepsRings, WriteAt, Read32, Read64;
    KeepsRingsSelf(r, q);
    var data := DescAt(r, q, DescAt(r, q, head).next);
    var status := DescAt(r, q, data.next);
    forall r': Ram, v: Byte | KeepsRings(r, r', q) ensures KeepsRings(r, Write8(r', status.addr, v), q) {
      WriteKeepsRings(r', q, status.addr, [v]);
      KeepsRingsTrans(r, r', Write8(r', status.addr, v), q);
    }
    forall bytes: seq<Byte> | |bytes| == data.len ensures KeepsRings(r, Write(r, data.addr, bytes), q) {
      WriteKeepsRings(r, q, data.addr, bytes);
    }
  }

  /** Every chain of a batch is clear of the rings when its turn comes. */
  predicate BatchClear(n: nat, h: Host) {
    n > 0 && Pending(h.ram, h.q) ==>
      ChainClear(h.ram, Popped(h.q), NextHead(h.ram, h.q)) && BatchClear(n - 1, ServeNext(h))
  }

  lemma {:induction false} BatchKeepsRings(n: nat, h: Host) returns (turns: seq<Turn>)
    requires BatchClear(n, h)
    ensures Loop(Snap(h.ram, h.q), turns, Snap(Batch(n, h).ram, Batch(n, h).q), n) && RingsKept(Snap(h.ram, h.q), turns)
    decreases n
  {
    hide Serve, PushedRam, NextHead, Pending, Loop, ChainClear, RingsKept, KeepsRings;
    var s, e := Snap(h.ram, h.q), Snap(Batch(n, h).ram, Batch(n, h).q);
    if n == 0 || !Pending(h.ram, h.q) {
      turns := [];
      LoopNothing(s, n);
      NothingKept(s);
    } else {
      PendingQueue(h.ram, h.q);
      var head := NextHead(h.ram, h.q);
      ServeKeepsRings(h.ram, Popped(h.q), h.disk, head);
      var served := Serve(h.ram, Popped(h.q), h.disk, head);
      var t := Turn(head, served.ram, served.len);
      var rest := BatchKeepsRings(n - 1, ServeNext(h));
      turns := [t] + rest;
      LoopCons(s, t, rest, e, n);
      LoopServed(Next(s, t), rest, e, n - 1);
      PoppedRings(h.ram, t.mid, h.q);
      KeptCons(s, t, rest);
    }
  }

  /** With chains clear of the rings, a tick settles everything that was due, up to a batch. */
  lemma BatchSettles(h: Host) returns (turns: seq<Turn>)
    requires BatchClear(64, h) && P.Layout(h.ram, h.q) && Due(h.ram, h.q) <= Min(64, h.q.size)
    ensures var e := Batch(64, h);
            && Loop(Snap(h.ram, h.q), turns, Snap(e.ram, e.q), 64)
            && |turns| == Due(h.ram, h.q) && !Pending(e.ram, e.q) && Returned(Snap(h.ram, h.q), turns)
  {
    hide Batch, BatchClear, Loop, RingsKept, Returned, Due, Pending;
    turns := BatchKeepsRings(MAX_BATCH, h);
    var e := Batch(MAX_BATCH, h);
    TickSettles(Snap(h.ram, h.q), turns, Snap(e.ram, e.q), MAX_BATCH);
  }

  class BlkVirtio {
    var disk: Disk

    constructor (disk: Disk)
      ensures this.disk == disk
    {
      this.disk := disk;
    }

    /** One tick of the request queue: a batch, which takes heads in order and returns each. */
    method Tick(queue: VirtioQueue, mem: GuestMemory) returns (didWork: bool, ghost turns: seq<Turn>)
      modifies this, queue, mem.ram
      ensures Host(mem.View(), queue.View(), disk, didWork)
           == Batch(64, old(Host(mem.View(), queue.View(), disk, false)))
      ensures Loop(old(Snap(mem.View(), queue.View())), turns, Snap(mem.View(), queue.View()), 64)
    {
      hide Serve, PushedRam, NextHead, Pending, Loop;
      didWork := false;
      var count := 0;
      ghost var start := Host(mem.View(), queue.View(), disk, false);
      while count < MAX_BATCH
        invariant 0 <= count <= MAX_BATCH
        invariant Batch(MAX_BATCH, start) == Batch(MAX_BATCH - count, Host(mem.View(), queue.View(), disk, didWork))
      {
        ghost var h := Host(mem.View(), queue.View(), disk, didWork);
        var next := queue.PopAvail(mem);
        if next.None? {
          break;
        }
        var head := next.value;
        count := count + 1;
        PendingQueue(h.ram, h.q);
        var worked := HandleHead(queue, mem, head);
        didWork := didWork || worked;
        assert Host(mem.View(), queue.View(), disk, didWork) == ServeNext(h);
      }
      turns := BatchRetires(MAX_BATCH, start);
    }

    /** Serves one popped head and pushes it back, whichever path is taken. */
    method HandleHead(queue: VirtioQueue, mem: GuestMemory, head: U16) returns (worked: bool)
      requires queue.size != 0
      modifies this, queue, mem.ram
      ensures var s := old(Serve(mem.View(), queue.View(), disk, head));
              && mem.View() == PushedRam(s.ram, old(queue.View()), head, s.len)
              && disk == s.disk && worked == s.work
      ensures queue.View() == Pushed(old(queue.View()))
    {
      hide Write, Read, Perform, PushedRam;
      var header := queue.GetDescriptor(mem, head);
      if !header.HasNext() || header.len != 16 {
        queue.PushUsed(mem, head, 0);
        return false;
      }
      var kind := mem.ReadBytes(header.addr, 4);
      var sector := mem.ReadBytes(header.addr + 8, 8);
      var isWrite := FromLe(kind) != 0;
      WidthBounds();
      var data := queue.GetDescriptor(mem, header.next);
      if data.Writable() == isWrite {
        queue.PushUsed(mem, head, 0);
        return false;
      }
      var status := queue.GetDescriptor(mem, data.next);
      if !status.Writable() {
        queue.PushUsed(mem, head, 0);
        return false;
      }
      var off := ByteOffset(FromLe(sector));
      assert Serve(mem.View(), queue.View(), disk, head) == Perform(mem.View(), disk, isWrite, off, data, status);
      worked := Transfer(mem, isWrite, off, data, status);
      queue.PushUsed(mem, head, if worked then data.len else 0);
    }

    method Transfer(mem: GuestMemory, isWrite: bool, off: U64, data: Desc, status: Desc)
      returns (worked: bool)
      modifies this, mem.ram
      ensures Served(mem.View(), disk, if worked then data.len else 0, worked)
           == old(Perform(mem.View(), disk, isWrite, off, data, status))
    {
      hide Write, Read, WriteAt;
      if !isWrite {
        if !SeekOk(off) {
          return false;
        }
        var bytes := ReadAt(disk, off, data.len);
        if bytes.Some? {
          mem.WriteBytes(data.addr, bytes.value);
          mem.WriteBytes(status.addr, [OK]);
        } else {
          mem.WriteBytes(status.addr, [IO_ERROR]);
        }
      } else {
        var buf := mem.ReadBytes(data.addr, data.len);
        if !SeekOk(off) {
          return false;
        }
        var (disk', all) := WriteAt(disk, off, buf);
        disk := disk';
        mem.WriteBytes(status.addr, [if all then OK else IO_ERROR]);
      }
      return true;
    }
  }
}
