/**
  A transport with the device behind it: every tick is the device's own, on the queues and
  the memory it shares with the guest.  Whatever the guest does, heads taken are returned.
 */
module DeviceRuns {
  import opened Bytes
  import opened GuestRam
  import opened Virtqueue
  import opened Mmio
  import opened Interrupts
  import R = Retire
  import B = BlkDevice
  import G = GpuDevice
  import N = NetDevice
  import F = FsDevice

  datatype Device =
    | Blk(disk: B.Disk)
    | Gpu(gpu: G.Gpu, width: U32, height: U32)
    | Net(frames: seq<N.Frame>, sent: seq<N.Frame>)
    | Folder(dispatch: F.Dispatch, asked: nat)  // `asked` numbers requests; the numbers need only be fresh

  /** What a tick of one queue leaves behind, and whether it reports work. */
  datatype Outcome = Outcome(dev: Device, ram: Ram, q: Queue, work: bool)

  predicate DeviceInv(dev: Device) {
    dev.Gpu? ==> G.Inv(dev.gpu)
  }

  /** The tick comes back: always, but for a shared-folder chain that never ends. */
  ghost predicate ComesBack(dev: Device, sel: nat, r: Ram, q: Queue, rounds: nat) {
    dev.Folder? && sel <= F.REQUESTS ==> F.AllReturn(F.Fs(r, q), sel, dev.dispatch, dev.asked, rounds)
  }

  /** One tick of queue `sel`; `rounds` bounds the loops that a guest could keep supplied for ever. */
  ghost function Ticked(dev: Device, sel: nat, r: Ram, q: Queue, rounds: nat): Outcome
    requires DeviceInv(dev) && ComesBack(dev, sel, r, q, rounds)
  {
    match dev
    case Blk(disk) =>
      if sel != 0 then Outcome(dev, r, q, false)
      else
        var h := B.Batch(B.MAX_BATCH, B.Host(r, q, disk, false));
        Outcome(Blk(h.disk), h.ram, h.q, h.work)
    case Gpu(gpu, width, height) =>
      if sel == 0 then
        var h := G.ControlRounds(rounds, G.Host(r, q, gpu), width, height);
        Outcome(Gpu(h.gpu, width, height), h.ram, h.q, rounds > 0 && Pending(r, q))
      else if sel == 1 then
        var (r', q') := G.CursorRounds(rounds, r, q);
        Outcome(dev, r', q', rounds > 0 && Pending(r, q))
      else Outcome(dev, r, q, false)
    case Net(frames, sent) =>
      if sel == 0 then
        var e := N.RxTick(N.Rx(r, q, frames, []));
        Outcome(Net(e.frames, sent), e.ram, e.q, N.AnyDelivered(e.done))
      else if sel == 1 then
        var e := N.TxRounds(rounds, N.Tx(r, q, sent));
        Outcome(Net(frames, e.sent), e.ram, e.q, e.sent != sent)
      else Outcome(dev, r, q, false)
    case Folder(dispatch, asked) =>
      if sel > F.REQUESTS then Outcome(dev, r, q, false)
      else
        var e := F.FsRounds(F.Fs(r, q), sel, dispatch, asked, rounds);
        Outcome(Folder(dispatch, asked + rounds), e.ram, e.q, rounds > 0 && Pending(r, q))
  }

  /** Every tick of every device takes heads in order and returns each. */
  lemma TickRetires(dev: Device, sel: nat, r: Ram, q: Queue, rounds: nat) returns (turns: seq<R.Turn>)
    requires DeviceInv(dev) && ComesBack(dev, sel, r, q, rounds)
    ensures var o := Ticked(dev, sel, r, q, rounds);
            && R.Served(R.Snap(r, q), turns) && R.After(R.Snap(r, q), turns) == R.Snap(o.ram, o.q)
            && o.q == Retired(q, |turns|) && DeviceInv(o.dev)
  {
    hide G.Inv, Pending, Retired, R.Served, R.After, F.AllReturn, G.ControlRounds, G.CursorRounds, N.RxTick, N.TxRounds,
      F.FsRounds, B.Batch;
    var s := R.Snap(r, q);
    turns := [];
    R.LoopNothing(s, 0);
    match dev {
      case Blk(disk) =>
        if sel == 0 {
          turns := B.BatchRetires(B.MAX_BATCH, B.Host(r, q, disk, false));
        }
      case Gpu(gpu, width, height) =>
        if sel == 0 {
          turns := G.ControlRetires(rounds, G.Host(r, q, gpu), width, height);
        } else if sel == 1 {
          turns := G.CursorRetires(rounds, r, q);
        }
      case Net(frames, sent) =>
        if sel == 0 {
          turns := N.RxRetires(N.Rx(r, q, frames, []));
        } else if sel == 1 {
          turns := N.TxRetires(rounds, N.Tx(r, q, sent));
        }
      case Folder(dispatch, asked) =>
        if sel <= F.REQUESTS {
          turns := F.FsRetires(F.Fs(r, q), sel, dispatch, asked, rounds);
        }
    }
    R.IndicesMoveTogether(s, turns);
  }

  // ---- the machine ----

  datatype Machine = Machine(t: Transport, dev: Device, ram: Ram)

  /** Everything that can happen around one transport; `Others` is whatever else touches memory. */
  datatype Event =
    | Others(ram: Ram)
    | Arrive(frame: N.Frame)
    | ReadAt(reg: nat)
    | WriteTo(reg: nat, v: U32, rounds: nat)
    | Sweep(each: seq<nat>)

  predicate Notifies(t: Transport, reg: nat, v: U32) {
    reg == 0x050 && v < |t.queues| && t.queues[v].ready
  }

  /** One ready queue ticked in place; a queue that is not ready is passed over. */
  ghost function TickQueue(m: Machine, i: nat, rounds: nat): (m': Machine)
    requires i < |m.t.queues| && DeviceInv(m.dev)
    requires m.t.queues[i].ready ==> ComesBack(m.dev, i, m.ram, m.t.queues[i], rounds)
    ensures DeviceInv(m'.dev) && |m'.t.queues| == |m.t.queues|
  {
    if !m.t.queues[i].ready then m
    else
      var o := Ticked(m.dev, i, m.ram, m.t.queues[i], rounds);
      assert DeviceInv(o.dev) by { var _ := TickRetires(m.dev, i, m.ram, m.t.queues[i], rounds); }
      Machine(m.t.(queues := m.t.queues[i := o.q]), o.dev, o.ram)
  }

  /** The tick of queue `i`, if it is ready, comes back. */
  ghost predicate QueueComesBack(m: Machine, i: nat, rounds: nat)
    requires i < |m.t.queues|
  {
    m.t.queues[i].ready ==> ComesBack(m.dev, i, m.ram, m.t.queues[i], rounds)
  }

  ghost predicate SweepComesBack(m: Machine, i: nat, rounds: seq<nat>)
    requires DeviceInv(m.dev) && i <= |m.t.queues| == |rounds|
    decreases |rounds| - i
  {
    i < |rounds| ==> QueueComesBack(m, i, rounds[i]) && SweepComesBack(TickQueue(m, i, rounds[i]), i + 1, rounds)
  }

  /** The queues from `i` on, ticked in turn. */
  ghost function SweptFrom(m: Machine, i: nat, rounds: seq<nat>): Machine
    requires DeviceInv(m.dev) && i <= |m.t.queues| == |rounds| && SweepComesBack(m, i, rounds)
    decreases |rounds| - i
  {
    if i == |rounds| then m else SweptFrom(TickQueue(m, i, rounds[i]), i + 1, rounds)
  }

  ghost predicate AnyReports(m: Machine, i: nat, rounds: seq<nat>)
    requires DeviceInv(m.dev) && i <= |m.t.queues| == |rounds| && SweepComesBack(m, i, rounds)
    decreases |rounds| - i
  {
    i < |rounds| &&
    (|| (m.t.queues[i].ready && Ticked(m.dev, i, m.ram, m.t.queues[i], rounds[i]).work)
     || AnyReports(TickQueue(m, i, rounds[i]), i + 1, rounds))
  }

  /** What the device itself forgets on a reset of its transport. */
  function ResetDevice(dev: Device): Device {
    match dev
    case Gpu(gpu, width, height) => Gpu(G.Cleared(gpu), width, height)
    case Net(_, sent) => Net([], sent)
    case _ => dev
  }

  ghost predicate Can(m: Machine, e: Event) {
    && WellFormed(m.t) && DeviceInv(m.dev)
    && match e
       case WriteTo(reg, v, rounds) => Notifies(m.t, reg, v) ==> QueueComesBack(m, v, rounds)
       case Sweep(rounds) => |rounds| == |m.t.queues| && SweepComesBack(m, 0, rounds)
       case Arrive(_) => m.dev.Net?
       case _ => true
  }

  ghost function Happens(m: Machine, e: Event): Machine
    requires Can(m, e)
  {
    match e
    case Others(ram) => m.(ram := ram)
    case Arrive(frame) => m.(dev := m.dev.(frames := m.dev.frames + [frame]))
    case ReadAt(reg) => m.(t := OnRead(m.t, reg).0)
    case WriteTo(reg, v, rounds) =>
      if Notifies(m.t, reg, v) then
        var m' := TickQueue(m, v, rounds);
        if Ticked(m.dev, v, m.ram, m.t.queues[v], rounds).work then m'.(t := Raised(m'.t)) else m'
      else
        var dev := if reg == 0x070 && v == 0 then ResetDevice(m.dev) else m.dev;
        m.(t := OnWrite(m.t, reg, v, NO_TICK).0, dev := dev)
    case Sweep(rounds) =>
      if !DriverOk(m.t.status) then m
      else
        var m' := SweptFrom(m, 0, rounds);
        if AnyReports(m, 0, rounds) then m'.(t := Raised(m'.t)) else m'
  }

  /** A reset of the transport clears its queues, the GPU's resources and scanouts, and the frames not yet delivered. */
  lemma ResetClears(m: Machine, rounds: nat)
    requires Can(m, WriteTo(0x070, 0, rounds))
    ensures var m' := Happens(m, WriteTo(0x070, 0, rounds));
            && m'.ram == m.ram && m'.t.interrupt == 0 && |m'.t.queues| == |m.t.queues|
            && (forall k :: 0 <= k < |m'.t.queues| ==> m'.t.queues[k] == Queue(0, false, 0, 0, 0, 0, 0))
            && (m.dev.Net? ==> m'.dev == Net([], m.dev.sent))
            && (m.dev.Gpu? ==>
                  && m'.dev.Gpu? && m'.dev.gpu.resources == map[] && m'.dev.gpu.blits == m.dev.gpu.blits
                  && |m'.dev.gpu.scanouts| == 16
                  && forall i :: 0 <= i < 16 ==> m'.dev.gpu.scanouts[i].id == None)
            && (m.dev.Blk? || m.dev.Folder? ==> m'.dev == m.dev)
  {
    hide Ticked, ComesBack, SetLow, SetHigh, Unacked, SetUsed, G.Inv;
    SelectAndReset(m.t, 0, NO_TICK);
  }

  // ---- every real event is one the transport's own model allows ----

  /** On a queue of size 0 no device finds anything to do. */
  lemma NothingToDo(dev: Device, sel: nat, r: Ram, q: Queue, rounds: nat)
    requires DeviceInv(dev) && ComesBack(dev, sel, r, q, rounds) && q.size == 0
    ensures var o := Ticked(dev, sel, r, q, rounds); o.q == q && o.ram == r && !o.work
  {
    hide G.Inv, G.ServeControl, B.Serve, F.FsStep, F.NextReturns, G.CursorNext, N.RxStep, N.TxStep;
  }

  /** Ticking one queue retires some number of heads on it and leaves the rest of the transport alone. */
  lemma TickQueueRetires(m: Machine, i: nat, rounds: nat) returns (d: DeviceTick)
    requires i < |m.t.queues| && DeviceInv(m.dev) && QueueComesBack(m, i, rounds)
    ensures var q := m.t.queues[i];
            && TickQueue(m, i, rounds).t
            == m.t.(queues := m.t.queues[i := if q.ready then Retired(q, d.retired) else q])
            && Plausible(q, d)
            && (q.ready ==> d.work == Ticked(m.dev, i, m.ram, q, rounds).work)
  {
    hide Ticked, ComesBack, Retired, DeviceInv;
    d := NO_TICK;
    var q := m.t.queues[i];
    if q.ready {
      var turns := TickRetires(m.dev, i, m.ram, q, rounds);
      d := DeviceTick(|turns|, Ticked(m.dev, i, m.ram, q, rounds).work);
      if q.size == 0 {
        NothingToDo(m.dev, i, m.ram, q, rounds);
        if turns != [] {
          R.FirstPending(R.Snap(m.ram, q), turns);
        }
      }
    } else {
      assert m.t.queues[i := q] == m.t.queues;
    }
  }

  /** What a sweep from queue `i` does to the transport is what some list of device ticks does. */
  predicate SweptAs(t: Transport, t': Transport, i: nat, ds: seq<DeviceTick>)
    requires i <= |t.queues| == |ds|
  {
    && t' == t.(queues := t'.queues) && |t'.queues| == |t.queues|
    && (forall k :: 0 <= k < i ==> t'.queues[k] == t.queues[k])
    && forall k :: i <= k < |ds| ==>
         && Plausible(t.queues[k], ds[k])
         && t'.queues[k] == if t.queues[k].ready then Retired(t.queues[k], ds[k].retired) else t.queues[k]
  }

  lemma {:induction false} SweepRetires(m: Machine, i: nat, rounds: seq<nat>) returns (ds: seq<DeviceTick>)
    requires DeviceInv(m.dev) && i <= |m.t.queues| == |rounds| && SweepComesBack(m, i, rounds)
    ensures |ds| == |rounds| && SweptAs(m.t, SweptFrom(m, i, rounds).t, i, ds)
    ensures AnyReports(m, i, rounds) <==> exists k :: i <= k < |ds| && m.t.queues[k].ready && ds[k].work
    decreases |rounds| - i
  {
    hide Ticked, ComesBack, Retired, DeviceInv, TickQueue;
    if i == |rounds| {
      ds := seq(|rounds|, _ => NO_TICK);
    } else {
      var m' := TickQueue(m, i, rounds[i]);
      var d := TickQueueRetires(m, i, rounds[i]);
      var rest := SweepRetires(m', i + 1, rounds);
      ds := rest[i := if m.t.queues[i].ready then d else NO_TICK];
      assert forall j :: i < j < |ds| ==> m'.t.queues[j] == m.t.queues[j] && ds[j] == rest[j];
      assert m.t.queues[i].ready ==> ds[i] == d;
    }
  }

  /** Only register accesses and sweeps reach the transport. */
  predicate Reaches(e: Event) {
    e.ReadAt? || e.WriteTo? || e.Sweep?
  }

  /** Same kind of access, and for a write the same register and value. */
  predicate Matches(e: Event, a: Access) {
    match e
    case ReadAt(reg) => a == ReadReg(reg)
    case WriteTo(reg, v, _) => a.WriteReg? && a.reg == reg && a.v == v
    case Sweep(_) => a.Background? && !a.update
    case _ => false
  }

  /** What the devices really do is one of the things the transport's model allows them. */
  lemma EventIsAccess(m: Machine, e: Event) returns (a: Access)
    requires Can(m, e) && Reaches(e)
    ensures Matches(e, a) && Possible(m.t, a) && Happens(m, e).t == OnAccess(m.t, a).0
  {
    hide Ticked, ComesBack, Retired, DeviceInv, TickQueue, SetUsed, SweptFrom, AnyReports, SetLow, SetHigh, Unacked;
    match e
    case ReadAt(reg) => a := ReadReg(reg);
    case WriteTo(reg, v, rounds) =>
      a := WriteReg(reg, v, NO_TICK);
      if Notifies(m.t, reg, v) {
        var d := TickQueueRetires(m, v, rounds);
        a := WriteReg(reg, v, d);
      }
    case Sweep(each) =>
      var ds := SweepRetires(m, 0, each);
      a := Background(ds, false);
      SweptIs(m.t, SweptFrom(m, 0, each).t, ds);
  }

  lemma SweptIs(t: Transport, t': Transport, ds: seq<DeviceTick>)
    requires |ds| == |t.queues| && SweptAs(t, t', 0, ds)
    ensures t' == t.(queues := Swept(t.queues, ds))
  {
    hide Retired;
    assert t'.queues == Swept(t.queues, ds);
  }

  // ---- one ready write per queue per reset ----

  /** What a driver knows without looking: the queue it selected, and those it has made ready since the reset. */
  datatype Desk = Desk(sel: nat, started: set<nat>)

  predicate ReadyWrite(e: Event) {
    e.WriteTo? && e.reg == 0x044 && e.v % 0x100 != 0
  }

  function Noted(d: Desk, e: Event, n: nat): Desk {
    if ReadyWrite(e) then d.(started := d.started + {d.sel})
    else if e.WriteTo? && e.reg == 0x030 && e.v < n then d.(sel := e.v)
    else if e.WriteTo? && e.reg == 0x070 && e.v == 0 then Desk(0, {})
    else d
  }

  /** No queue is made ready twice without a reset in between. */
  predicate OnceReady(d: Desk, events: seq<Event>, n: nat)
    decreases |events|
  {
    events == [] || (
      && (ReadyWrite(events[0]) ==> d.sel !in d.started)
      && OnceReady(Noted(d, events[0], n), events[1..], n))
  }

  ghost predicate LegalRun(m: Machine, events: seq<Event>)
    decreases |events|
  {
    events == [] || (Can(m, events[0]) && LegalRun(Happens(m, events[0]), events[1..]))
  }

  ghost function RunOf(m: Machine, events: seq<Event>): Machine
    requires LegalRun(m, events)
    decreases |events|
  {
    if events == [] then m else RunOf(Happens(m, events[0]), events[1..])
  }

  predicate Unused(q: Queue) {
    !q.ready && q.lastAvail == 0 && q.lastUsed == 0
  }

  predicate Tracks(d: Desk, t: Transport) {
    && d.sel == t.queueSel
    && forall k :: 0 <= k < |t.queues| && k !in d.started ==> Unused(t.queues[k])
  }

  lemma WriteTracked(d: Desk, t: Transport, reg: nat, v: U32, tick: DeviceTick)
    requires WellFormed(t) && Tracks(d, t)
    ensures Tracks(Noted(d, WriteTo(reg, v, 0), |t.queues|), OnWrite(t, reg, v, tick).0)
    ensures |OnWrite(t, reg, v, tick).0.queues| == |t.queues|
  {
    hide Retired, SetUsed, SetLow, SetHigh, Unacked;
    if !Acts(reg) {
      hide OnWrite;
      PlainWrite(t, reg, v, tick);
    }
  }

  lemma TickTracked(d: Desk, t: Transport, ds: seq<DeviceTick>, update: bool)
    requires |ds| == |t.queues| && Tracks(d, t)
    ensures Tracks(d, OnTick(t, ds, update).0) && |OnTick(t, ds, update).0.queues| == |t.queues|
  {
    hide Retired, SetUsed, AnyWork;
  }

  lemma AccessTracked(d: Desk, t: Transport, e: Event, a: Access)
    requires Possible(t, a) && Matches(e, a) && Tracks(d, t)
    ensures Tracks(Noted(d, e, |t.queues|), OnAccess(t, a).0) && |OnAccess(t, a).0.queues| == |t.queues|
  {
    hide OnWrite, OnTick;
    match a
    case ReadReg(reg) => {}
    case WriteReg(reg, v, tick) =>
      hide Tracks;
      WriteTracked(d, t, reg, v, tick);
    case Background(ds, update) =>
      hide Tracks;
      TickTracked(d, t, ds, update);
  }

  lemma EventKeeps(m: Machine, e: Event, d: Desk)
    requires Can(m, e) && Synced(m.t) && Tracks(d, m.t) && (ReadyWrite(e) ==> d.sel !in d.started)
    ensures var t := Happens(m, e).t;
            Synced(t) && |t.queues| == |m.t.queues| && Tracks(Noted(d, e, |m.t.queues|), t)
  {
    hide OnAccess, DeviceInv, ComesBack;
    if Reaches(e) {
      hide Happens;
      var a := EventIsAccess(m, e);
      AccessTracked(d, m.t, e, a);
      SyncedUnlessRestarted(m.t, a);
    }
  }

  /**
    Over every run of a device behind its transport, whatever the guest does to memory, if
    no queue is made ready twice without a reset, the two indices of every queue agree
    between events.
   */
  lemma {:induction false} RunsStaySynced(m: Machine, events: seq<Event>, d: Desk)
    requires LegalRun(m, events) && Synced(m.t) && Tracks(d, m.t) && OnceReady(d, events, |m.t.queues|)
    ensures Synced(RunOf(m, events).t)
    decreases |events|
  {
    hide Synced, Tracks, Can, Happens, Noted;
    if events != [] {
      EventKeeps(m, events[0], d);
      RunsStaySynced(Happens(m, events[0]), events[1..], Noted(d, events[0], |m.t.queues|));
    }
  }

  /** The same from a new transport, with nothing to ask but the discipline. */
  lemma NewRunsStaySynced(m: Machine, events: seq<Event>)
    requires LegalRun(m, events) && m.t.queueSel == 0 && OnceReady(Desk(0, {}), events, |m.t.queues|)
    requires forall k :: 0 <= k < |m.t.queues| ==> m.t.queues[k] == NEW_QUEUE
    ensures forall k :: 0 <= k < |RunOf(m, events).t.queues| ==>
              var q := RunOf(m, events).t.queues[k]; q.lastAvail == q.lastUsed
  {
    hide LegalRun, RunOf, OnceReady;
    RunsStaySynced(m, events, Desk(0, {}));
  }

  // ---- a queue made ready twice ----

  lemma RunCons(m: Machine, e: Event, rest: seq<Event>)
    requires Can(m, e) && LegalRun(Happens(m, e), rest)
    ensures LegalRun(m, [e] + rest) && RunOf(m, [e] + rest) == RunOf(Happens(m, e), rest)
  {
    hide Can, Happens;
    assert ([e] + rest)[1..] == rest;
  }

  /** One head is published, at address 2 of a memory of four bytes. */
  const ONE_PUBLISHED := Ram(0, [0, 0, 1, 0])

  /** Queue 0 with its rings set up, used and not used. */
  function OneEntry(ready: bool, served: U16): Queue {
    Queue(1, ready, 0x2000, 0, 0x1000, served, served)
  }

  /** A block device takes the one head, finds a malformed chain and returns it. */
  lemma OneHeadServed(disk: B.Disk)
    ensures var q, r := OneEntry(true, 0), ONE_PUBLISHED;
            B.Batch(B.MAX_BATCH, B.Host(r, q, disk, false)) == B.Host(r, OneEntry(true, 1), disk, false)
  {
    hide B.Serve, PushedRam, Read16, NextHead, DescAt;
    var q, r := OneEntry(true, 0), ONE_PUBLISHED;
    OneWord();
    var head := NextHead(r, q);
    OutsideFlags(r, Popped(q), head);
    Malformed(r, Popped(q), disk, head);
    OutsidePush(r, Popped(q), head);
    assert B.ServeNext(B.Host(r, q, disk, false)) == B.Host(r, OneEntry(true, 1), disk, false);
  }

  lemma Malformed(r: Ram, q: Queue, disk: B.Disk, head: U16)
    requires !DescAt(r, q, head).HasNext()
    ensures B.Serve(r, q, disk, head) == B.Served(r, disk, 0, false)
  {
    hide DescAt, B.Perform;
  }

  lemma OneWord()
    ensures Read16(ONE_PUBLISHED, 2) == 1
  {
    var s := Read(ONE_PUBLISHED, 2, 2);
    assert s == [1, 0] && s[1..] == [0] && s[1..][1..] == [];
  }

  /** Reads outside RAM give zeros. */
  lemma OutsideFlags(r: Ram, q: Queue, i: U16)
    requires r == ONE_PUBLISHED && q.descAddr == 0x2000
    ensures DescAt(r, q, i).flags == 0
  {
    hide Read64, Read32;
    var s := Read(r, q.descAddr + i * 16 + 12, 2);
    assert s == Zeros(2) && s[1..] == Zeros(1) && s[1..][1..] == [];
    assert FromLe(s[1..]) == 0;
  }

  /** Writes outside RAM are dropped. */
  lemma OutsidePush(r: Ram, q: Queue, head: U16)
    requires r == ONE_PUBLISHED && q.usedAddr == 0x1000
    ensures PushedRam(r, q, head, 0) == r
  {
    hide ToLe, Slot;
  }

  /** Set up queue 0, make it ready, have it served, make it not ready and ready again. */
  function Restart(): seq<Event> {
    [WriteTo(0x038, 1, 0), WriteTo(0x080, 0x2000, 0), WriteTo(0x0A0, 0x1000, 0), WriteTo(0x044, 1, 0),
     WriteTo(0x050, 0, 0), WriteTo(0x044, 0, 0), WriteTo(0x044, 1, 0)]
  }

  /** The machine with queue 0 in a given state. */
  function WithQueue(t: Transport, q: Queue, disk: B.Disk): Machine {
    Machine(t.(queues := [q]), Blk(disk), ONE_PUBLISHED)
  }

  lemma SetOne(t: Transport, q: Queue, disk: B.Disk, e: Event, q': Queue)
    requires t.queueSel == 0 && e.WriteTo? && e.reg != 0x050 && e.reg != 0x070
    requires OnWrite(t.(queues := [q]), e.reg, e.v, NO_TICK).0 == t.(queues := [q'])
    ensures Can(WithQueue(t, q, disk), e) && Happens(WithQueue(t, q, disk), e) == WithQueue(t, q', disk)
  {
    hide OnWrite;
  }

  lemma NotifyOne(t: Transport, disk: B.Disk)
    requires t.queueSel == 0
    ensures var m := WithQueue(t, OneEntry(true, 0), disk);
            Can(m, WriteTo(0x050, 0, 0)) && Happens(m, WriteTo(0x050, 0, 0)) == WithQueue(t, OneEntry(true, 1), disk)
  {
    hide B.Batch, SetUsed;
    OneHeadServed(disk);
  }

  /** What the register writes of that run do to queue 0. */
  lemma RestartWrites(t: Transport, q: Queue)
    requires t.queueSel == 0
    ensures var u := t.(queues := [q]);
            && OnWrite(u, 0x038, 1, NO_TICK).0 == t.(queues := [q.(size := 1)])
            && OnWrite(u, 0x080, 0x2000, NO_TICK).0 == t.(queues := [q.(descAddr := SetLow(q.descAddr, 0x2000))])
            && OnWrite(u, 0x0A0, 0x1000, NO_TICK).0 == t.(queues := [q.(usedAddr := SetLow(q.usedAddr, 0x1000))])
            && OnWrite(u, 0x044, 1, NO_TICK).0 == t.(queues := [ReadyWritten(q, true)])
            && OnWrite(u, 0x044, 0, NO_TICK).0 == t.(queues := [ReadyWritten(q, false)])
  {
    hide SetLow, SetHigh, SetUsed, Unacked, ReadyWritten;
  }

  /** From a new transport, on a block device: the two indices of the queue end up different. */
  lemma RestartFails(t: Transport, disk: B.Disk)
    requires t.queues == [NEW_QUEUE] && t.queueSel == 0
    ensures var m := Machine(t, Blk(disk), ONE_PUBLISHED);
            && Synced(t) && LegalRun(m, Restart())
            && var q := RunOf(m, Restart()).t.queues; |q| == 1 && q[0].lastAvail == 0 && q[0].lastUsed == 1
  {
    hide LegalRun, RunOf, Can, Happens, OnWrite;
    var e, m := Restart(), Machine(t, Blk(disk), ONE_PUBLISHED);
    assert m == WithQueue(t, NEW_QUEUE, disk);
    var q1 := NEW_QUEUE.(size := 1);
    var q2 := q1.(descAddr := 0x2000);
    var q3 := q2.(usedAddr := 0x1000);
    var q6 := OneEntry(false, 1);
    var q7 := q6.(ready := true, lastAvail := 0);
    RestartWrites(t, NEW_QUEUE);
    SetOne(t, NEW_QUEUE, disk, e[0], q1);
    RestartWrites(t, q1);
    SetOne(t, q1, disk, e[1], q2);
    RestartWrites(t, q2);
    SetOne(t, q2, disk, e[2], q3);
    RestartWrites(t, q3);
    SetOne(t, q3, disk, e[3], OneEntry(true, 0));
    NotifyOne(t, disk);
    RestartWrites(t, OneEntry(true, 1));
    SetOne(t, OneEntry(true, 1), disk, e[5], q6);
    RestartWrites(t, q6);
    SetOne(t, q6, disk, e[6], q7);
    EventDrops(e);
    NoEvents(WithQueue(t, q7, disk));
    RunCons(WithQueue(t, q6, disk), e[6], e[7..]);
    RunCons(WithQueue(t, OneEntry(true, 1), disk), e[5], e[6..]);
    RunCons(WithQueue(t, OneEntry(true, 0), disk), e[4], e[5..]);
    RunCons(WithQueue(t, q3, disk), e[3], e[4..]);
    RunCons(WithQueue(t, q2, disk), e[2], e[3..]);
    RunCons(WithQueue(t, q1, disk), e[1], e[2..]);
    RunCons(m, e[0], e[1..]);
  }

  lemma NoEvents(m: Machine)
    ensures LegalRun(m, []) && RunOf(m, []) == m
  {
  }

  lemma EventDrops(e: seq<Event>)
    requires |e| == 7
    ensures e == [e[0]] + e[1..] && e[1..] == [e[1]] + e[2..] && e[2..] == [e[2]] + e[3..] && e[3..] == [e[3]] + e[4..]
    ensures e[4..] == [e[4]] + e[5..] && e[5..] == [e[5]] + e[6..] && e[6..] == [e[6]] + e[7..] && e[7..] == []
  {
  }

  // ---- the run on a shared line is one of real devices ----

  /** On a GPU with a chain pending on its control queue, the notification serves it and reports work. */
  lemma NotificationRaises(m: Machine)
    requires WellFormed(m.t) && DeviceInv(m.dev) && m.dev.Gpu?
    requires m.t.queues[0].ready && Pending(m.ram, m.t.queues[0])
    ensures Can(m, WriteTo(0x050, 0, 1))
    ensures Happens(m, WriteTo(0x050, 0, 1)).t == OnWrite(m.t, 0x050, 0, DeviceTick(1, true)).0
  {
    hide G.Inv, G.ServeControl, PushedRam, NextHead, Pending, SetUsed, R.Loop, G.ControlRounds;
    var q := m.t.queues[0];
    var h := G.Host(m.ram, q, m.dev.gpu);
    var turns := G.ControlRetires(1, h, m.dev.width, m.dev.height);
    var e := G.ControlRounds(1, h, m.dev.width, m.dev.height);
    R.LoopWorks(R.Snap(m.ram, q), turns, R.Snap(e.ram, e.q), 1);
    R.LoopServed(R.Snap(m.ram, q), turns, R.Snap(e.ram, e.q), 1);
    R.IndicesMoveTogether(R.Snap(m.ram, q), turns);
    LoopBound(R.Snap(m.ram, q), turns, R.Snap(e.ram, e.q), 1);
  }

  lemma LoopBound(s: R.Snap, turns: seq<R.Turn>, e: R.Snap, rounds: nat)
    requires R.Loop(s, turns, e, rounds)
    ensures |turns| <= rounds && R.After(s, turns) == e
  {
  }
}
