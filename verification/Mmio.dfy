/**
  The MMIO transport in front of every virtio device, the interrupt commands it
  queues, and the thread that applies them to the interrupt lines.
 */
module Mmio {
  import opened Bytes
  import opened Virtqueue

  // ---- interrupt commands ----

  datatype Cmd = Cmd(line: U32, level: bool)

  /** The level of a line after a sequence of commands, starting low. */
  function Level(cmds: seq<Cmd>, line: U32): bool {
    if cmds == [] then false
    else
      var last := cmds[|cmds| - 1];
      if last.line == line then last.level else Level(cmds[..|cmds| - 1], line)
  }

  lemma {:induction false} LevelElsewhere(cmds: seq<Cmd>, more: seq<Cmd>, line: U32)
    requires forall i :: 0 <= i < |more| ==> more[i].line != line
    ensures Level(cmds + more, line) == Level(cmds, line)
  {
    if more == [] {
      assert cmds + more == cmds;
    } else {
      var n := |more| - 1;
      assert (cmds + more)[..|cmds| + n] == cmds + more[..n];
      LevelElsewhere(cmds, more[..n], line);
    }
  }

  class IRQHandler {
    var commands: seq<Cmd>

    constructor ()
      ensures commands == []
    {
      commands := [];
    }

    method TriggerIrq(cmd: Cmd)
      modifies this
      ensures commands == old(commands) + [cmd]
    {
      commands := commands + [cmd];
    }

    /** Hands over everything queued so far. */
    method HandleIrqs() returns (taken: seq<Cmd>)
      modifies this
      ensures taken == old(commands) && commands == []
    {
      taken := commands;
      commands := [];
    }
  }

  // ---- the register file ----

  datatype Transport = Transport(
    queues: seq<Queue>, queueSel: nat, status: U32, interrupt: U32,
    deviceFeaturesSel: U32, driverFeaturesSel: U32, driverFeatures: U64, shmSel: U32, line: U32)

  /** What one tick of the device behind a queue does: heads retired, and whether it reports work. */
  datatype DeviceTick = DeviceTick(retired: nat, work: bool)

  /** Nothing taken, nothing reported. */
  const NO_TICK := DeviceTick(0, false)

  predicate WellFormed(t: Transport) {
    t.queueSel < |t.queues|
  }

  function SetLow(a: U64, v: U32): U64 {
    a / 0x1_0000_0000 * 0x1_0000_0000 + v
  }

  function SetHigh(a: U64, v: U32): U64 {
    a % 0x1_0000_0000 + v * 0x1_0000_0000
  }

  /** Writing the two halves of an address, in either order, sets the whole of it. */
  lemma BothHalves(a: U64, low: U32, high: U32)
    ensures SetHigh(SetLow(a, low), high) == SetLow(SetHigh(a, high), low) == high * 0x1_0000_0000 + low
  {
  }

  /** Bit `i` of `v`. */
  predicate Bit(v: nat, i: nat) {
    if i == 0 then v % 2 == 1 else Bit(v / 2, i - 1)
  }

  /** `pending` with the bits of `ack` cleared. */
  function Unacked(pending: nat, ack: nat): (rest: nat)
    ensures rest <= pending
  {
    if pending == 0 then 0
    else (if ack % 2 == 1 then 0 else pending % 2) + 2 * Unacked(pending / 2, ack / 2)
  }

  lemma {:induction false} ZeroHasNoBit(i: nat)
    ensures !Bit(0, i)
  {
    if i > 0 {
      ZeroHasNoBit(i - 1);
    }
  }

  lemma {:induction false} SomeBit(v: nat) returns (i: nat)
    requires v > 0
    ensures Bit(v, i)
  {
    if v % 2 == 1 {
      i := 0;
    } else {
      var j := SomeBit(v / 2);
      i := j + 1;
    }
  }

  /** Exactly the acknowledged bits are cleared. */
  lemma {:induction false} UnackedBit(pending: nat, ack: nat, i: nat)
    ensures Bit(Unacked(pending, ack), i) <==> Bit(pending, i) && !Bit(ack, i)
  {
    if pending == 0 {
      ZeroHasNoBit(i);
    } else {
      var rest := Unacked(pending, ack);
      assert rest % 2 == (if ack % 2 == 1 then 0 else pending % 2) && rest / 2 == Unacked(pending / 2, ack / 2);
      if i > 0 {
        UnackedBit(pending / 2, ack / 2, i - 1);
      }
    }
  }

  /** `ack` has every bit of `pending`. */
  ghost predicate CoversBits(ack: nat, pending: nat) {
    forall i: nat :: Bit(pending, i) ==> Bit(ack, i)
  }

  /** Nothing is left exactly if all was acknowledged. */
  lemma UnackedNothing(pending: nat, ack: nat)
    ensures Unacked(pending, ack) == 0 <==> CoversBits(ack, pending)
  {
    hide Unacked, Bit;
    var rest := Unacked(pending, ack);
    if rest == 0 {
      forall i: nat | Bit(pending, i) ensures Bit(ack, i) {
        UnackedBit(pending, ack, i);
        ZeroHasNoBit(i);
      }
    } else {
      var i := SomeBit(rest);
      UnackedBit(pending, ack, i);
    }
  }

  function Selected(t: Transport): Queue
    requires WellFormed(t)
  {
    t.queues[t.queueSel]
  }

  function Update(t: Transport, q: Queue): Transport
    requires WellFormed(t)
  {
    t.(queues := t.queues[t.queueSel := q])
  }

  /** A write of 1 to a queue that was not ready restarts its available index, and only that one. */
  function ReadyWritten(q: Queue, on: bool): Queue {
    if on && !q.ready then q.(ready := true, lastAvail := 0) else q.(ready := on)
  }

  /** The used-buffer bit set. */
  function SetUsed(pending: U32): U32 {
    pending / 2 * 2 + 1
  }

  /** Bit 0 is set, and no other changes. */
  lemma SetUsedBit(pending: U32, i: nat)
    ensures Bit(SetUsed(pending), i) <==> i == 0 || Bit(pending, i)
  {
    if i > 0 {
      assert SetUsed(pending) / 2 == pending / 2;
    }
  }

  lemma SetUsedFacts(pending: U32)
    ensures SetUsed(SetUsed(pending)) == SetUsed(pending) != 0
  {
  }

  function Raised(t: Transport): Transport {
    t.(interrupt := SetUsed(t.interrupt))
  }

  function ResetTransport(t: Transport): Transport {
    t.(queues := seq(|t.queues|, _ => NEW_QUEUE), interrupt := 0, queueSel := 0,
       deviceFeaturesSel := 0, driverFeaturesSel := 0, driverFeatures := 0, shmSel := 0)
  }

  /** The transport after a 32-bit register read, and the commands the read queues. */
  function OnRead(t: Transport, reg: nat): (Transport, seq<Cmd>) {
    if reg == 0x060 && t.interrupt != 0 then (t.(interrupt := 0), [Cmd(t.line, false)]) else (t, [])
  }

  /** The transport after a 32-bit register write; `d` is what the device does if the write notifies it. */
  function OnWrite(t: Transport, reg: nat, v: U32, d: DeviceTick): (Transport, seq<Cmd>)
    requires WellFormed(t)
  {
    var q := Selected(t);
    match reg
    case 0x014 => (t.(deviceFeaturesSel := v), [])
    case 0x020 =>
      var f := t.driverFeatures;
      (t.(driverFeatures := if t.driverFeaturesSel == 0 then SetLow(f, v) else SetHigh(f, v)), [])
    case 0x024 => (t.(driverFeaturesSel := v), [])
    case 0x0AC => (t.(shmSel := v), [])
    case 0x030 => (if v < |t.queues| then t.(queueSel := v) else t, [])
    case 0x038 => (Update(t, q.(size := v % 0x1_0000)), [])
    case 0x044 => (Update(t, ReadyWritten(q, v % 0x100 != 0)), [])
    case 0x050 =>
      if v < |t.queues| && t.queues[v].ready then
        var t' := t.(queues := t.queues[v := Retired(t.queues[v], d.retired)]);
        if d.work then (Raised(t'), [Cmd(t.line, true)]) else (t', [])
      else (t, [])
    case 0x060 => OnAck(t, v)
    case 0x064 => OnAck(t, v)
    case 0x070 =>
      if v == 0 then (ResetTransport(t).(status := 0), [Cmd(t.line, false)]) else (t.(status := v), [])
    case 0x080 => (Update(t, q.(descAddr := SetLow(q.descAddr, v))), [])
    case 0x084 => (Update(t, q.(descAddr := SetHigh(q.descAddr, v))), [])
    case 0x090 => (Update(t, q.(availAddr := SetLow(q.availAddr, v))), [])
    case 0x094 => (Update(t, q.(availAddr := SetHigh(q.availAddr, v))), [])
    case 0x0A0 => (Update(t, q.(usedAddr := SetLow(q.usedAddr, v))), [])
    case 0x0A4 => (Update(t, q.(usedAddr := SetHigh(q.usedAddr, v))), [])
    case _ => (t, [])
  }

  function OnAck(t: Transport, v: U32): (Transport, seq<Cmd>) {
    var rest := Unacked(t.interrupt, v);
    (t.(interrupt := rest), if rest == 0 then [Cmd(t.line, false)] else [])
  }

  /**
    Acknowledging: of the pending bits exactly those written are cleared, nothing else of the
    transport changes, and the line is lowered, by one command, exactly when none is left.
   */
  lemma AckClears(t: Transport, reg: nat, v: U32, d: DeviceTick)
    requires WellFormed(t) && (reg == 0x060 || reg == 0x064)
    ensures var (t', more) := OnWrite(t, reg, v, d);
            && t' == t.(interrupt := t'.interrupt)
            && (forall i: nat :: Bit(t'.interrupt, i) <==> Bit(t.interrupt, i) && !Bit(v, i))
            && more == (if CoversBits(v, t.interrupt) then [Cmd(t.line, false)] else [])
            && (v == t.interrupt ==> t'.interrupt == 0 && more == [Cmd(t.line, false)])
  {
    hide Unacked, OnWrite, Bit;
    AckWrite(t, reg, v, d);
    forall i: nat ensures Bit(Unacked(t.interrupt, v), i) <==> Bit(t.interrupt, i) && !Bit(v, i) {
      UnackedBit(t.interrupt, v, i);
    }
    UnackedNothing(t.interrupt, v);
  }

  lemma AckWrite(t: Transport, reg: nat, v: U32, d: DeviceTick)
    requires WellFormed(t) && (reg == 0x060 || reg == 0x064)
    ensures OnWrite(t, reg, v, d) == OnAck(t, v)
  {
    hide OnAck, SetLow, SetHigh, Retired, SetUsed, ReadyWritten;
  }

  /** The two registers of a ring address, written in either order, set that address and nothing else. */
  lemma AddressWrites(t: Transport, low: U32, high: U32, d: DeviceTick)
    requires WellFormed(t)
    ensures var q := Selected(t).(descAddr := high * 0x1_0000_0000 + low);
            Writes(t, 0x080, low, 0x084, high, d) == Writes(t, 0x084, high, 0x080, low, d) == Update(t, q)
    ensures var q := Selected(t).(availAddr := high * 0x1_0000_0000 + low);
            Writes(t, 0x090, low, 0x094, high, d) == Writes(t, 0x094, high, 0x090, low, d) == Update(t, q)
    ensures var q := Selected(t).(usedAddr := high * 0x1_0000_0000 + low);
            Writes(t, 0x0A0, low, 0x0A4, high, d) == Writes(t, 0x0A4, high, 0x0A0, low, d) == Update(t, q)
  {
    hide SetLow, SetHigh;
    var q := Selected(t);
    BothHalves(q.descAddr, low, high);
    BothHalves(q.availAddr, low, high);
    BothHalves(q.usedAddr, low, high);
  }

  /** Two register writes, one after the other. */
  function Writes(t: Transport, reg: nat, v: U32, reg': nat, v': U32, d: DeviceTick): Transport
    requires WellFormed(t) && !Acts(reg)
  {
    PlainWrite(t, reg, v, d);
    OnWrite(OnWrite(t, reg, v, d).0, reg', v', d).0
  }

  /** The registers of the selected queue. */
  predicate QueueRegister(reg: nat) {
    reg in {0x038, 0x044, 0x080, 0x084, 0x090, 0x094, 0x0A0, 0x0A4}
  }

  /** They reach that queue and nothing else; the size is the low sixteen bits written. */
  lemma QueueWriteLocal(t: Transport, reg: nat, v: U32, d: DeviceTick)
    requires WellFormed(t) && QueueRegister(reg)
    ensures var (t', more) := OnWrite(t, reg, v, d);
            && more == [] && |t'.queues| == |t.queues| && t' == t.(queues := t'.queues)
            && (forall k :: 0 <= k < |t.queues| && k != t.queueSel ==> t'.queues[k] == t.queues[k])
            && (reg == 0x038 ==> Selected(t') == Selected(t).(size := v % 0x1_0000))
            && (reg == 0x044 ==> Selected(t') == Selected(t).(ready := v % 0x100 != 0,
                  lastAvail := if v % 0x100 != 0 && !Selected(t).ready then 0 else Selected(t).lastAvail))
  {
    hide SetLow, SetHigh;
  }

  /** Selecting a queue that does not exist keeps the old selection; writing 0 to the status resets everything. */
  lemma SelectAndReset(t: Transport, v: U32, d: DeviceTick)
    requires WellFormed(t)
    ensures OnWrite(t, 0x030, v, d) == (t.(queueSel := if v < |t.queues| then v else t.queueSel), [])
    ensures var empty := seq(|t.queues|, _ => Queue(0, false, 0, 0, 0, 0, 0));
            OnWrite(t, 0x070, 0, d) == (Transport(empty, 0, 0, 0, 0, 0, 0, 0, t.line), [Cmd(t.line, false)])
    ensures v != 0 ==> OnWrite(t, 0x070, v, d) == (t.(status := v), [])
  {
    hide SetLow, SetHigh;
  }

  /** A notification ticks the named queue if it is ready, and work sets bit 0 and raises the line. */
  lemma NotifyLocal(t: Transport, v: U32, d: DeviceTick)
    requires WellFormed(t)
    ensures var (t', more) := OnWrite(t, 0x050, v, d);
            if v >= |t.queues| || !t.queues[v].ready then t' == t && more == []
            else
              && t' == t.(queues := t.queues[v := Retired(t.queues[v], d.retired)], interrupt := t'.interrupt)
              && more == (if d.work then [Cmd(t.line, true)] else [])
              && forall i: nat :: Bit(t'.interrupt, i) <==> Bit(t.interrupt, i) || (d.work && i == 0)
  {
    hide SetLow, SetHigh, Retired, Bit, SetUsed;
    forall i: nat ensures Bit(SetUsed(t.interrupt), i) <==> i == 0 || Bit(t.interrupt, i) {
      SetUsedBit(t.interrupt, i);
    }
  }

  /** Registers whose writes do more than set a field. */
  predicate Acts(reg: nat) {
    reg == 0x030 || reg == 0x044 || reg == 0x050 || reg == 0x060 || reg == 0x064 || reg == 0x070
  }

  predicate SameProgress(q: Queue, q': Queue) {
    q'.ready == q.ready && q'.lastAvail == q.lastAvail && q'.lastUsed == q.lastUsed
  }

  /** All other writes queue nothing and leave interrupts, selection and progress alone. */
  lemma PlainWrite(t: Transport, reg: nat, v: U32, d: DeviceTick)
    requires WellFormed(t) && !Acts(reg)
    ensures var (t', more) := OnWrite(t, reg, v, d);
            && more == [] && t'.interrupt == t.interrupt && t'.queueSel == t.queueSel && t'.line == t.line
            && |t'.queues| == |t.queues|
            && forall k :: 0 <= k < |t.queues| ==> SameProgress(t.queues[k], t'.queues[k])
  {
    hide SetLow, SetHigh;
  }

  /** Every ready queue ticked once. */
  function Swept(queues: seq<Queue>, ds: seq<DeviceTick>): (qs: seq<Queue>)
    requires |ds| == |queues|
    ensures |qs| == |queues|
  {
    seq(|queues|, i requires 0 <= i < |queues| =>
      if queues[i].ready then Retired(queues[i], ds[i].retired) else queues[i])
  }

  predicate AnyWork(queues: seq<Queue>, ds: seq<DeviceTick>)
    requires |ds| == |queues|
  {
    exists i :: 0 <= i < |queues| && queues[i].ready && ds[i].work
  }

  predicate DriverOk(status: U32) {
    status / 4 % 2 == 1
  }

  /** The driver is ready when bit 2 of the status is set. */
  lemma DriverOkBit(status: U32)
    ensures DriverOk(status) <==> Bit(status, 2)
  {
    assert Bit(status, 2) <==> Bit(status / 2, 1);
    assert Bit(status / 2, 1) <==> Bit(status / 2 / 2, 0);
  }

  /** A background tick: an edge to pending raises the line, nothing else does. */
  function OnTick(t: Transport, ds: seq<DeviceTick>, update: bool): (Transport, seq<Cmd>)
    requires |ds| == |t.queues|
  {
    if !DriverOk(t.status) then (t, [])
    else
      var t' := t.(queues := Swept(t.queues, ds));
      if AnyWork(t.queues, ds) || update then
        (Raised(t'), if t.interrupt == 0 then [Cmd(t.line, true)] else [])
      else (t', [])
  }

  /**
    A background tick of a driver that is ready: every ready queue is ticked and no other, a
    report of work or an update sets bit 0, and the line is raised only if nothing was pending.
   */
  lemma TickReports(t: Transport, ds: seq<DeviceTick>, update: bool)
    requires |ds| == |t.queues|
    ensures var (t', more) := OnTick(t, ds, update);
            if !Bit(t.status, 2) then t' == t && more == []
            else
              var report := update || exists k :: 0 <= k < |ds| && t.queues[k].ready && ds[k].work;
              && t' == t.(queues := t'.queues, interrupt := t'.interrupt) && |t'.queues| == |t.queues|
              && (forall k :: 0 <= k < |ds| ==>
                    t'.queues[k] == if t.queues[k].ready then Retired(t.queues[k], ds[k].retired) else t.queues[k])
              && (forall i: nat :: Bit(t'.interrupt, i) <==> Bit(t.interrupt, i) || (report && i == 0))
              && more == if report && t.interrupt == 0 then [Cmd(t.line, true)] else []
  {
    hide SetUsed, Bit, DriverOk, Retired;
    DriverOkBit(t.status);
    forall i: nat ensures Bit(SetUsed(t.interrupt), i) <==> i == 0 || Bit(t.interrupt, i) {
      SetUsedBit(t.interrupt, i);
    }
  }

  lemma FirstByte(s: seq<Byte>)
    requires s != []
    ensures var first: int := s[0]; FromLe(s) == first + 256 * FromLe(s[1..])
  {
    hide Pow256;
  }

  lemma LowParts(low: nat, high: nat, more: nat)
    requires low < 256 && high < 256
    ensures var x := low + 256 * (high + 256 * more); x % 0x100 == low && x % 0x1_0000 == low + 256 * high
  {
  }

  lemma LowByte(low: nat, more: nat)
    requires low < 256
    ensures (low + 256 * more) % 0x100 == low
  {
  }

  /** Padding with zeros does not change the low byte, nor the low two. */
  lemma ShortData(data: seq<Byte>)
    requires 1 <= |data| <= 4
    ensures FromLe(data) < 0x1_0000_0000 && FromLe(data) % 0x100 == data[0]
    ensures |data| >= 2 ==> FromLe(data) % 0x1_0000 == U16At(data, 0)
  {
    hide FromLe, Pow256;
    Bound(|data|);
    FirstByte(data);
    LowByte(data[0], FromLe(data[1..]));
    if |data| >= 2 {
      var two := data[0..2];
      FirstByte(data[1..]);
      FirstByte(two);
      FirstByte(two[1..]);
      assert two[1..][1..] == [] && two[0] == data[0] && two[1..][0] == data[1];
      Nothing();
      LowParts(data[0], data[1], FromLe(data[1..][1..]));
    }
  }

  lemma Nothing()
    ensures FromLe([]) == 0
  {
  }

  lemma Bound(n: nat)
    requires 1 <= n <= 4
    ensures Pow256(n) <= 0x1_0000_0000
  {
    WidthBounds();
    assert Pow256(3) == 0x100_0000;
  }

  // ---- the transport object ----

  class MMIOTransport {
    var queues: seq<Queue>
    var queueSel: nat
    var status: U32
    var interruptStatus: U32
    var deviceFeaturesSel: U32
    var driverFeaturesSel: U32
    var driverFeatures: U64
    var shmSel: U32
    const irqSel: U32
    const irq: IRQHandler

    function View(): Transport
      reads this
    {
      Transport(queues, queueSel, status, interruptStatus, deviceFeaturesSel, driverFeaturesSel,
                driverFeatures, shmSel, irqSel)
    }

    constructor (queueNum: nat, irqSel: U32, irq: IRQHandler)
      requires queueNum > 0
      ensures this.irq == irq && WellFormed(View())
      ensures View() == Transport(seq(queueNum, _ => NEW_QUEUE), 0, 0, 0, 0, 0, 0, 0, irqSel)
    {
      queues, queueSel, status, interruptStatus := seq(queueNum, _ => NEW_QUEUE), 0, 0, 0;
      deviceFeaturesSel, driverFeaturesSel, driverFeatures, shmSel := 0, 0, 0, 0;
      this.irqSel, this.irq := irqSel, irq;
    }

    method SetIrqLine(level: bool)
      modifies irq
      ensures irq.commands == old(irq.commands) + [Cmd(irqSel, level)]
    {
      irq.TriggerIrq(Cmd(irqSel, level));
    }

    /** Reading the interrupt status also acknowledges it. */
    method ReadInterruptStatus() returns (value: U32)
      modifies this`interruptStatus, irq
      ensures value == old(interruptStatus) && interruptStatus == 0
      ensures irq.commands == old(irq.commands) + if value != 0 then [Cmd(irqSel, false)] else []
      ensures View() == OnRead(old(View()), 0x060).0
      ensures irq.commands == old(irq.commands) + OnRead(old(View()), 0x060).1
    {
      value := interruptStatus;
      if value != 0 {
        interruptStatus := 0;
        SetIrqLine(false);
      }
    }

    method Write(reg: nat, v: U32, d: DeviceTick)
      requires WellFormed(View())
      modifies this, irq
      ensures WellFormed(View())
      ensures View() == OnWrite(old(View()), reg, v, d).0
      ensures irq.commands == old(irq.commands) + OnWrite(old(View()), reg, v, d).1
    {
      hide Retired, SetLow, SetHigh, Unacked;
      var q := queues[queueSel];
      match reg
      case 0x014 => deviceFeaturesSel := v;
      case 0x020 =>
        if driverFeaturesSel == 0 {
          driverFeatures := SetLow(driverFeatures, v);
        } else {
          driverFeatures := SetHigh(driverFeatures, v);
        }
      case 0x024 => driverFeaturesSel := v;
      case 0x0AC => shmSel := v;
      case 0x030 =>
        if v < |queues| {
          queueSel := v;
        }
      case 0x038 => queues := queues[queueSel := q.(size := v % 0x1_0000)];
      case 0x044 =>
        var wasReady := q.ready;
        q := q.(ready := v % 0x100 != 0);
        if !wasReady && v % 0x100 != 0 {
          q := q.(lastAvail := 0);
        }
        queues := queues[queueSel := q];
      case 0x050 =>
        if v < |queues| && queues[v].ready {
          queues := queues[v := Retired(queues[v], d.retired)];
          if d.work {
            interruptStatus := SetUsed(interruptStatus);
            SetIrqLine(true);
          }
        }
      case 0x060 => Acknowledge(v);
      case 0x064 => Acknowledge(v);
      case 0x070 =>
        if v == 0 {
          queues := seq(|queues|, _ => NEW_QUEUE);
          interruptStatus, queueSel, deviceFeaturesSel, driverFeaturesSel := 0, 0, 0, 0;
          driverFeatures, shmSel := 0, 0;
          SetIrqLine(false);
        }
        status := v;
      case 0x080 => queues := queues[queueSel := q.(descAddr := SetLow(q.descAddr, v))];
      case 0x084 => queues := queues[queueSel := q.(descAddr := SetHigh(q.descAddr, v))];
      case 0x090 => queues := queues[queueSel := q.(availAddr := SetLow(q.availAddr, v))];
      case 0x094 => queues := queues[queueSel := q.(availAddr := SetHigh(q.availAddr, v))];
      case 0x0A0 => queues := queues[queueSel := q.(usedAddr := SetLow(q.usedAddr, v))];
      case 0x0A4 => queues := queues[queueSel := q.(usedAddr := SetHigh(q.usedAddr, v))];
      case _ =>
    }

    /**
      A write as it arrives: one to four bytes, read as a little-endian number and padded with
      zeros.  The queue size is taken from two bytes, which must be there.
     */
    method WriteData(reg: nat, data: seq<Byte>, d: DeviceTick)
      requires WellFormed(View()) && 1 <= |data| <= 4 && (reg == 0x038 ==> |data| >= 2)
      modifies this, irq
      ensures WellFormed(View()) && FromLe(data) < 0x1_0000_0000
      ensures View() == OnWrite(old(View()), reg, FromLe(data), d).0
      ensures irq.commands == old(irq.commands) + OnWrite(old(View()), reg, FromLe(data), d).1
      ensures FromLe(data) % 0x100 == data[0]
      ensures |data| >= 2 ==> FromLe(data) % 0x1_0000 == U16At(data, 0)
    {
      hide OnWrite;
      ShortData(data);
      Write(reg, FromLe(data), d);
    }

    method Acknowledge(v: U32)
      modifies this`interruptStatus, irq
      ensures View() == OnAck(old(View()), v).0
      ensures irq.commands == old(irq.commands) + OnAck(old(View()), v).1
    {
      interruptStatus := Unacked(interruptStatus, v);
      if interruptStatus == 0 {
        SetIrqLine(false);
      }
    }

    method Tick(ds: seq<DeviceTick>, update: bool)
      requires |ds| == |queues|
      modifies this`queues, this`interruptStatus, irq
      ensures View() == OnTick(old(View()), ds, update).0
      ensures irq.commands == old(irq.commands) + OnTick(old(View()), ds, update).1
    {
      hide Retired, SetUsed;
      SetUsedFacts(interruptStatus);
      if !DriverOk(status) {
        return;
      }
      ghost var qs := queues;
      var wasPending := interruptStatus != 0;
      ghost var any := false;
      for i := 0 to |queues|
        invariant |queues| == |qs|
        invariant forall k :: 0 <= k < i ==> queues[k] == Swept(qs, ds)[k]
        invariant forall k :: i <= k < |qs| ==> queues[k] == qs[k]
        invariant any == exists k :: 0 <= k < i && qs[k].ready && ds[k].work
        invariant interruptStatus == if any then SetUsed(old(interruptStatus)) else old(interruptStatus)
        invariant irq.commands == old(irq.commands)
      {
        if queues[i].ready {
          queues := queues[i := Retired(queues[i], ds[i].retired)];
          if ds[i].work {
            interruptStatus := SetUsed(interruptStatus);
            any := true;
          }
        }
      }
      assert queues == Swept(qs, ds);
      if update {
        interruptStatus := SetUsed(interruptStatus);
      }
      if interruptStatus != 0 && !wasPending {
        SetIrqLine(true);
      }
    }
  }
}
