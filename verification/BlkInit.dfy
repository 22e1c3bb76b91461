/**
  The register writes by which the firmware sets up its block queue, run through the
  transport.  None of them notifies a queue, so no device tick happens under them.
 */
module BlkInit {
  import opened Bytes
  import opened Virtqueue
  import opened Mmio
  import BlkDriver

  const ACKNOWLEDGE: U32 := 1
  const DRIVER: U32 := 2
  const DRIVER_OK: U32 := 4
  const FEATURES_OK: U32 := 8

  /** Status 0 clears every queue; the features offered are accepted as they are. */
  method Negotiate(t: MMIOTransport, features: U32)
    requires WellFormed(t.View())
    modifies t, t.irq
    ensures WellFormed(t.View()) && t.queueSel == 0 && t.interruptStatus == 0
    ensures t.queues == seq(|old(t.queues)|, _ => NEW_QUEUE)
    ensures t.irq.commands == old(t.irq.commands) + [Cmd(t.irqSel, false)]
  {
    hide SetLow, SetHigh, ReadyWritten, OnAck, Retired;
    t.Write(0x070, 0, NO_TICK);
    t.Write(0x070, ACKNOWLEDGE, NO_TICK);
    t.Write(0x070, ACKNOWLEDGE + DRIVER, NO_TICK);
    t.Write(0x020, features, NO_TICK);
    t.Write(0x070, ACKNOWLEDGE + DRIVER + FEATURES_OK, NO_TICK);
  }

  method SetAddress(t: MMIOTransport, reg: nat, a: U32)
    requires WellFormed(t.View()) && (reg == 0x080 || reg == 0x090 || reg == 0x0A0)
    modifies t, t.irq
    ensures var was := old(t.View());
            var q := Selected(was);
            t.View() == Update(was, match reg
                                    case 0x080 => q.(descAddr := a)
                                    case 0x090 => q.(availAddr := a)
                                    case _ => q.(usedAddr := a))
    ensures WellFormed(t.View()) && t.irq.commands == old(t.irq.commands)
  {
    hide SetLow, SetHigh, ReadyWritten, OnAck, Retired;
    ghost var q := Selected(t.View());
    BothHalves(q.descAddr, a, 0);
    BothHalves(q.availAddr, a, 0);
    BothHalves(q.usedAddr, a, 0);
    t.Write(reg, a, NO_TICK);
    t.Write(reg + 4, 0, NO_TICK);
  }

  /** The selected queue gets its size and its rings. */
  method SetRings(t: MMIOTransport, l: BlkDriver.Layout)
    requires WellFormed(t.View())
    requires l.desc < 0x1_0000_0000 && l.avail < 0x1_0000_0000 && l.used < 0x1_0000_0000
    modifies t, t.irq
    ensures var was := old(t.View());
            var sized := Selected(was).(size := BlkDriver.QUEUE_SIZE);
            var q := sized.(descAddr := l.desc, availAddr := l.avail, usedAddr := l.used);
            t.View() == Update(was, q)
    ensures WellFormed(t.View()) && t.irq.commands == old(t.irq.commands)
  {
    hide SetLow, SetHigh, OnAck, Retired, ReadyWritten;
    t.Write(0x038, BlkDriver.QUEUE_SIZE, NO_TICK);
    SetAddress(t, 0x080, l.desc);
    SetAddress(t, 0x090, l.avail);
    SetAddress(t, 0x0A0, l.used);
  }

  /**
    Whatever the transport went through before, after the set-up queue 0 is exactly the
    queue the driver assumes: its own rings, both indices at 0, nothing pending.
   */
  method Init(t: MMIOTransport, l: BlkDriver.Layout, features: U32)
    requires WellFormed(t.View())
    requires l.desc < 0x1_0000_0000 && l.avail < 0x1_0000_0000 && l.used < 0x1_0000_0000
    modifies t, t.irq
    ensures WellFormed(t.View()) && |t.queues| == |old(t.queues)|
    ensures t.queues[0] == Queue(BlkDriver.QUEUE_SIZE, true, l.desc, l.avail, l.used, 0, 0)
    ensures forall i :: 0 < i < |t.queues| ==> t.queues[i] == NEW_QUEUE
    ensures DriverOk(t.status) && t.interruptStatus == 0
    ensures t.irq.commands == old(t.irq.commands) + [Cmd(t.irqSel, false)]
  {
    hide SetLow, SetHigh, OnAck, Retired;
    Negotiate(t, features);
    t.Write(0x030, 0, NO_TICK);
    SetRings(t, l);
    t.Write(0x044, 1, NO_TICK);
    t.Write(0x070, ACKNOWLEDGE + DRIVER + FEATURES_OK + DRIVER_OK, NO_TICK);
  }
}
