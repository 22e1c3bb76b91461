/**
  Many transports, one command queue, one thread applying commands to lines: the
  level the guest sees follows the transport's interrupt status.
 */
module Interrupts {
  import opened Bytes
  import opened Virtqueue
  import opened Mmio

  /** Everything that can reach a transport. */
  datatype Access =
    | ReadReg(reg: nat)
    | WriteReg(reg: nat, v: U32, d: DeviceTick)
    | Background(ds: seq<DeviceTick>, update: bool)

  /** A queue of size 0 yields no head, so its device has nothing to do and nothing to report. */
  predicate Plausible(q: Queue, d: DeviceTick) {
    q.size == 0 ==> d == DeviceTick(0, false)
  }

  predicate Possible(t: Transport, a: Access) {
    && WellFormed(t)
    && match a
       case ReadReg(_) => true
       case WriteReg(reg, v, d) => reg == 0x050 && v < |t.queues| ==> Plausible(t.queues[v], d)
       case Background(ds, _) => |ds| == |t.queues| && forall i :: 0 <= i < |ds| ==> Plausible(t.queues[i], ds[i])
  }

  function OnAccess(t: Transport, a: Access): (Transport, seq<Cmd>)
    requires Possible(t, a)
  {
    match a
    case ReadReg(reg) => OnRead(t, reg)
    case WriteReg(reg, v, d) => OnWrite(t, reg, v, d)
    case Background(ds, update) => OnTick(t, ds, update)
  }

  /** The replayed commands leave the line high exactly while an interrupt is pending. */
  predicate Agrees(t: Transport, cmds: seq<Cmd>) {
    Level(cmds, t.line) <==> t.interrupt != 0
  }

  /** What every access does: at most one command, on the transport's own line, keeping agreement. */
  predicate Sound(t: Transport, t': Transport, more: seq<Cmd>, cmds: seq<Cmd>) {
    && WellFormed(t') && t'.line == t.line && |t'.queues| == |t.queues|
    && |more| <= 1 && (forall i :: 0 <= i < |more| ==> more[i].line == t.line)
    && (Agrees(t, cmds) ==> Agrees(t', cmds + more))
  }

  /** It is enough that a command's level is the new status, and that silence keeps the status. */
  lemma SoundIf(t: Transport, t': Transport, more: seq<Cmd>, cmds: seq<Cmd>)
    requires WellFormed(t') && t'.line == t.line && |t'.queues| == |t.queues|
    requires |more| <= 1 && (more != [] ==> more[0] == Cmd(t.line, t'.interrupt != 0))
    requires more == [] ==> (t'.interrupt != 0 <==> t.interrupt != 0)
    ensures Sound(t, t', more, cmds)
  {
    if more == [] {
      assert cmds + more == cmds;
    } else {
      assert (cmds + more)[..|cmds|] == cmds;
    }
  }

  lemma WriteSound(t: Transport, reg: nat, v: U32, d: DeviceTick, cmds: seq<Cmd>)
    requires WellFormed(t)
    ensures var (t', more) := OnWrite(t, reg, v, d); Sound(t, t', more, cmds)
  {
    hide Retired, SetLow, SetHigh, Unacked, SetUsed, Sound, ReadyWritten;
    var (t', more) := OnWrite(t, reg, v, d);
    if Acts(reg) {
      SetUsedFacts(t.interrupt);
    } else {
      hide OnWrite;
      PlainWrite(t, reg, v, d);
    }
    SoundIf(t, t', more, cmds);
  }

  lemma TickSound(t: Transport, ds: seq<DeviceTick>, update: bool, cmds: seq<Cmd>)
    requires WellFormed(t) && |ds| == |t.queues|
    ensures var (t', more) := OnTick(t, ds, update); Sound(t, t', more, cmds)
  {
    hide SetUsed, Sound, AnyWork, Swept;
    var (t', more) := OnTick(t, ds, update);
    SetUsedFacts(t.interrupt);
    SoundIf(t, t', more, cmds);
  }

  lemma AccessAgrees(t: Transport, a: Access, cmds: seq<Cmd>)
    requires Possible(t, a)
    ensures var (t', more) := OnAccess(t, a); Sound(t, t', more, cmds)
  {
    hide OnWrite, OnTick, Sound;
    match a
    case ReadReg(reg) =>
      var (t', more) := OnRead(t, reg);
      SoundIf(t, t', more, cmds);
    case WriteReg(reg, v, d) => WriteSound(t, reg, v, d, cmds);
    case Background(ds, update) => TickSound(t, ds, update, cmds);
  }

  // ---- the system ----

  /** `others` are the lines of devices without a transport, such as the serial port and the timer. */
  datatype System = System(ts: seq<Transport>, others: set<U32>, queued: seq<Cmd>, batch: seq<Cmd>, applied: seq<Cmd>)

  datatype Step = Touch(i: nat, a: Access) | Foreign(cmd: Cmd) | TakeBatch | ApplyOne

  predicate Enabled(s: System, step: Step) {
    match step
    case Touch(i, a) => i < |s.ts| && Possible(s.ts[i], a)
    case Foreign(cmd) => cmd.line in s.others
    case TakeBatch => s.batch == []
    case ApplyOne => s.batch != []
  }

  function Apply(s: System, step: Step): System
    requires Enabled(s, step)
  {
    match step
    case Touch(i, a) =>
      var (t, more) := OnAccess(s.ts[i], a);
      s.(ts := s.ts[i := t], queued := s.queued + more)
    case Foreign(cmd) => s.(queued := s.queued + [cmd])
    case TakeBatch => s.(batch := s.queued, queued := [])
    case ApplyOne => s.(applied := s.applied + [s.batch[0]], batch := s.batch[1..])
  }

  /** What a step adds to the history of commands. */
  function Emitted(s: System, step: Step): seq<Cmd>
    requires Enabled(s, step)
  {
    match step
    case Touch(i, a) => OnAccess(s.ts[i], a).1
    case Foreign(cmd) => [cmd]
    case _ => []
  }

  predicate Legal(s: System, steps: seq<Step>)
    decreases |steps|
  {
    steps == [] || (Enabled(s, steps[0]) && Legal(Apply(s, steps[0]), steps[1..]))
  }

  function Run(s: System, steps: seq<Step>): System
    requires Legal(s, steps)
    decreases |steps|
  {
    if steps == [] then s else Run(Apply(s, steps[0]), steps[1..])
  }

  /** Every command queued in the course of a run, in order. */
  function Log(s: System, steps: seq<Step>): seq<Cmd>
    requires Legal(s, steps)
    decreases |steps|
  {
    if steps == [] then [] else Emitted(s, steps[0]) + Log(Apply(s, steps[0]), steps[1..])
  }

  function History(s: System): seq<Cmd> {
    s.applied + s.batch + s.queued
  }

  /** Nothing but transport i drives its line. */
  predicate OwnLine(s: System, i: nat)
    requires i < |s.ts|
  {
    && s.ts[i].line !in s.others
    && forall j :: 0 <= j < |s.ts| && j != i ==> s.ts[j].line != s.ts[i].line
  }

  predicate Start(s: System) {
    && s.queued == s.batch == s.applied == []
    && forall i :: 0 <= i < |s.ts| ==> WellFormed(s.ts[i]) && s.ts[i].interrupt == 0
  }

  lemma StepAgrees(s: System, step: Step, i: nat)
    requires Enabled(s, step) && i < |s.ts| && OwnLine(s, i)
    ensures var s' := Apply(s, step);
            && |s'.ts| == |s.ts| && OwnLine(s', i)
            && History(s') == History(s) + Emitted(s, step)
            && (Agrees(s.ts[i], History(s)) ==> Agrees(s'.ts[i], History(s')))
  {
    hide OnAccess, Agrees;
    match step
    case Touch(j, a) =>
      var t, more := s.ts[j], OnAccess(s.ts[j], a).1;
      AccessAgrees(t, a, History(s));
      assert History(Apply(s, step)) == History(s) + more;
      if j != i {
        OtherLine(s.ts[i], History(s), more);
      }
    case Foreign(cmd) =>
      assert History(Apply(s, step)) == History(s) + [cmd];
      OtherLine(s.ts[i], History(s), [cmd]);
    case TakeBatch =>
      assert History(Apply(s, step)) == History(s) == History(s) + [];
    case ApplyOne =>
      assert [s.batch[0]] + s.batch[1..] == s.batch;
      assert History(Apply(s, step)) == History(s) == History(s) + [];
  }

  lemma OtherLine(t: Transport, cmds: seq<Cmd>, more: seq<Cmd>)
    requires forall i :: 0 <= i < |more| ==> more[i].line != t.line
    ensures Agrees(t, cmds) ==> Agrees(t, cmds + more)
  {
    LevelElsewhere(cmds, more, t.line);
  }

  lemma {:induction false} RunAgrees(s: System, steps: seq<Step>, i: nat)
    requires Legal(s, steps) && i < |s.ts| && OwnLine(s, i) && Agrees(s.ts[i], History(s))
    ensures var t := Run(s, steps);
            |t.ts| == |s.ts| && History(t) == History(s) + Log(s, steps) && Agrees(t.ts[i], History(t))
    decreases |steps|
  {
    hide Agrees, OwnLine, Enabled, Apply, Emitted, History;
    if steps == [] {
      assert History(s) + [] == History(s);
    } else {
      StepAgrees(s, steps[0], i);
      RunAgrees(Apply(s, steps[0]), steps[1..], i);
    }
  }

  /**
    In every run, for a line only one transport drives: the commands applied, in the
    drained batch and still queued are together exactly those queued so far, in order,
    and replaying them gives a high line exactly while that transport has an interrupt
    pending.  Once everything is drained, that is the level the guest sees.
   */
  lemma LineFollowsStatus(s: System, steps: seq<Step>, i: nat)
    requires Start(s) && Legal(s, steps) && i < |s.ts| && OwnLine(s, i)
    ensures var t := Run(s, steps);
            && i < |t.ts|
            && t.applied + t.batch + t.queued == Log(s, steps)
            && (Level(Log(s, steps), s.ts[i].line) <==> t.ts[i].interrupt != 0)
            && (t.queued == t.batch == [] ==> (Level(t.applied, s.ts[i].line) <==> t.ts[i].interrupt != 0))
  {
    hide Run, Log, Legal, Apply;
    RunAgrees(s, steps, i);
    RunKeepsLine(s, steps, i);
    assert [] + Log(s, steps) == Log(s, steps);
    var t := Run(s, steps);
    if t.queued == t.batch == [] {
      assert t.applied + [] + [] == t.applied;
    }
  }

  /** After every run, acknowledging what is pending brings the line down. */
  lemma AckLowersLine(s: System, steps: seq<Step>, i: nat, reg: nat, v: U32)
    requires Start(s) && Legal(s, steps) && i < |s.ts| && OwnLine(s, i) && (reg == 0x060 || reg == 0x064)
    requires var t := Run(s, steps); i < |t.ts| && t.ts[i].interrupt == v && WellFormed(t.ts[i])
    ensures var t := Run(s, steps);
            var u := Apply(t, Touch(i, WriteReg(reg, v, NO_TICK)));
            && u.ts[i].interrupt == 0 && History(u) == Log(s, steps) + [Cmd(s.ts[i].line, false)]
            && !Level(History(u), s.ts[i].line)
  {
    hide Run, Log, Legal, OnWrite, WellFormed;
    RunAgrees(s, steps, i);
    RunKeepsLine(s, steps, i);
    var t := Run(s, steps);
    AckClears(t.ts[i], reg, v, NO_TICK);
    assert History(s) + Log(s, steps) == Log(s, steps);
    var u := Apply(t, Touch(i, WriteReg(reg, v, NO_TICK)));
    assert History(u) == History(t) + [Cmd(s.ts[i].line, false)];
  }

  lemma {:induction false} RunKeepsLine(s: System, steps: seq<Step>, i: nat)
    requires Legal(s, steps) && i < |s.ts|
    ensures |Run(s, steps).ts| == |s.ts| && Run(s, steps).ts[i].line == s.ts[i].line
    decreases |steps|
  {
    hide OnAccess;
    if steps != [] {
      if steps[0].Touch? {
        AccessAgrees(s.ts[steps[0].i], steps[0].a, []);
      }
      RunKeepsLine(Apply(s, steps[0]), steps[1..], i);
    }
  }

  /** In every run from `s`, line and interrupt status of transport i agree. */
  ghost predicate AlwaysAgrees(s: System, i: nat) {
    forall steps :: Legal(s, steps) ==> i < |Run(s, steps).ts| && Agrees(Run(s, steps).ts[i], History(Run(s, steps)))
  }

  /**
    The run that breaks agreement on a shared line: one transport gives queue 0 a size, makes
    it ready and has a head of it served, and the other acknowledges nothing.
   */
  function Clash(i: nat, j: nat): seq<Step> {
    [Touch(i, WriteReg(0x030, 0, NO_TICK)), Touch(i, WriteReg(0x038, 1, NO_TICK)),
     Touch(i, WriteReg(0x044, 1, NO_TICK)), Touch(i, WriteReg(0x050, 0, DeviceTick(1, true))),
     Touch(j, WriteReg(0x064, 1, NO_TICK))]
  }

  lemma Cons(s: System, step: Step, rest: seq<Step>)
    requires Enabled(s, step) && Legal(Apply(s, step), rest)
    ensures Legal(s, [step] + rest) && Run(s, [step] + rest) == Run(Apply(s, step), rest)
  {
    hide Enabled, Apply;
    assert ([step] + rest)[1..] == rest;
  }

  /** What the first four writes of that run do to the transport: nothing queued but one rise of its line. */
  lemma ServedOnce(t: Transport)
    requires WellFormed(t) && t.interrupt == 0
    ensures var (t1, m1) := OnWrite(t, 0x030, 0, NO_TICK);
            && WellFormed(t1) && m1 == []
            && var (t2, m2) := OnWrite(t1, 0x038, 1, NO_TICK);
            && WellFormed(t2) && m2 == []
            && var (t3, m3) := OnWrite(t2, 0x044, 1, NO_TICK);
            && WellFormed(t3) && m3 == [] && t3.queues[0].size == 1
            && var (t4, m4) := OnWrite(t3, 0x050, 0, DeviceTick(1, true));
            && m4 == [Cmd(t.line, true)] && t4.interrupt != 0 && t4.line == t.line
  {
    hide Retired, Unacked, SetUsed;
    SetUsedFacts(0);
  }

  lemma AcksNothing(t: Transport)
    requires WellFormed(t) && t.interrupt == 0
    ensures OnWrite(t, 0x064, 1, NO_TICK).1 == [Cmd(t.line, false)]
  {
    hide Unacked;
  }

  /** Two transports on one line: from any start, an acknowledgement by one drops the other's interrupt. */
  lemma SharedLineFails(s: System, i: nat, j: nat)
    requires Start(s) && i < |s.ts| && j < |s.ts| && i != j && s.ts[i].line == s.ts[j].line
    ensures Legal(s, Clash(i, j))
    ensures var t := Run(s, Clash(i, j));
            |t.ts| == |s.ts| && t.ts[i].interrupt != 0 && !Level(History(t), s.ts[i].line)
  {
    hide OnWrite, Legal, Run;
    var c := Clash(i, j);
    ServedOnce(s.ts[i]);
    AcksNothing(s.ts[j]);
    var s1 := Apply(s, c[0]);
    var s2 := Apply(s1, c[1]);
    var s3 := Apply(s2, c[2]);
    var s4 := Apply(s3, c[3]);
    assert s4.ts[j] == s.ts[j] && s4.queued == [Cmd(s.ts[i].line, true)];
    var s5 := Apply(s4, c[4]);
    assert s5.queued == [Cmd(s.ts[i].line, true), Cmd(s.ts[i].line, false)];
    Drops(c);
    NoSteps(s5);
    Cons(s4, c[4], c[5..]);
    Cons(s3, c[3], c[4..]);
    Cons(s2, c[2], c[3..]);
    Cons(s1, c[1], c[2..]);
    Cons(s, c[0], c[1..]);
    assert History(s5) == s5.queued;
  }

  lemma Drops(c: seq<Step>)
    requires |c| == 5
    ensures c == [c[0]] + c[1..] && c[1..] == [c[1]] + c[2..] && c[2..] == [c[2]] + c[3..]
    ensures c[3..] == [c[3]] + c[4..] && c[4..] == [c[4]] + c[5..] && c[5..] == []
  {
  }

  lemma NoSteps(s: System)
    ensures Legal(s, []) && Run(s, []) == s
  {
  }

  lemma ForeignLineFails(s: System, i: nat)
    requires Start(s) && i < |s.ts| && s.ts[i].line in s.others
    ensures !AlwaysAgrees(s, i)
  {
    hide Enabled, Legal, Run;
    var step := Foreign(Cmd(s.ts[i].line, true));
    var t := s.(queued := [Cmd(s.ts[i].line, true)]);
    assert Enabled(s, step) && Apply(s, step) == t by { ForeignStep(s, step.cmd); }
    NoSteps(t);
    Cons(s, step, []);
    assert History(t) == [step.cmd];
    assert !Agrees(t.ts[i], History(t));
    assert Legal(s, [step] + []);
  }

  lemma ForeignStep(s: System, cmd: Cmd)
    requires Start(s) && cmd.line in s.others
    ensures Enabled(s, Foreign(cmd)) && Apply(s, Foreign(cmd)) == s.(queued := [cmd])
  {
  }

  /** Line and status agree in every run if and only if nothing else drives the line. */
  lemma LineAgreesIff(s: System, i: nat)
    requires Start(s) && i < |s.ts|
    ensures OwnLine(s, i) <==> AlwaysAgrees(s, i)
  {
    hide Legal, Run, Agrees, History, Level, Clash;
    if OwnLine(s, i) {
      StartAgrees(s, i);
      forall steps | Legal(s, steps)
        ensures i < |Run(s, steps).ts| && Agrees(Run(s, steps).ts[i], History(Run(s, steps)))
      {
        RunAgrees(s, steps, i);
      }
    } else if s.ts[i].line in s.others {
      ForeignLineFails(s, i);
    } else {
      var j :| 0 <= j < |s.ts| && j != i && s.ts[j].line == s.ts[i].line;
      SharedLineFails(s, i, j);
      RunKeepsLine(s, Clash(i, j), i);
      Disagrees(Run(s, Clash(i, j)), i);
    }
  }

  lemma StartAgrees(s: System, i: nat)
    requires Start(s) && i < |s.ts|
    ensures Agrees(s.ts[i], History(s))
  {
  }

  lemma Disagrees(s: System, i: nat)
    requires i < |s.ts| && s.ts[i].interrupt != 0 && !Level(History(s), s.ts[i].line)
    ensures !Agrees(s.ts[i], History(s))
  {
  }

  /** The lines as the guest sees them: the commands applied so far. */
  class Lines {
    var applied: seq<Cmd>

    constructor ()
      ensures applied == []
    {
      applied := [];
    }

    /** One round of the tick thread: take everything queued, then apply it front to back. */
    method Drain(irq: IRQHandler)
      modifies this, irq
      ensures applied == old(applied) + old(irq.commands) && irq.commands == []
    {
      var irqs := irq.HandleIrqs();
      ghost var all := irqs;
      while irqs != []
        invariant applied + irqs == old(applied) + all
        invariant irq.commands == []
        decreases |irqs|
      {
        assert irqs == [irqs[0]] + irqs[1..];
        applied := applied + [irqs[0]];
        irqs := irqs[1..];
      }
    }
  }

  // ---- queue indices across the transport's life ----

  /** Between accesses every head popped has been pushed. */
  predicate Synced(t: Transport) {
    forall i :: 0 <= i < |t.queues| ==> t.queues[i].lastAvail == t.queues[i].lastUsed
  }

  /** A ready write that restarts the available index of a queue whose used index has moved. */
  predicate Restarts(t: Transport, a: Access)
    requires WellFormed(t)
  {
    a.WriteReg? && a.reg == 0x044 && a.v % 0x100 != 0 && !Selected(t).ready && Selected(t).lastUsed != 0
  }

  lemma WriteSyncs(t: Transport, reg: nat, v: U32, d: DeviceTick)
    requires WellFormed(t) && Synced(t) && reg != 0x044
    ensures Synced(OnWrite(t, reg, v, d).0)
  {
    hide SetLow, SetHigh, Unacked, SetUsed;
    if !Acts(reg) {
      hide OnWrite;
      PlainWrite(t, reg, v, d);
    }
  }

  lemma ReadyWriteSyncs(t: Transport, v: U32, d: DeviceTick)
    requires WellFormed(t) && Synced(t)
    ensures Synced(OnWrite(t, 0x044, v, d).0) <==> !Restarts(t, WriteReg(0x044, v, d))
  {
    var t' := OnWrite(t, 0x044, v, d).0;
    var q := t'.queues[t.queueSel];
    assert t'.queues == t.queues[t.queueSel := ReadyWritten(Selected(t), v % 0x100 != 0)];
    assert q.lastAvail == q.lastUsed <==> !Restarts(t, WriteReg(0x044, v, d));
  }

  lemma TickSyncs(t: Transport, ds: seq<DeviceTick>, update: bool)
    requires WellFormed(t) && Synced(t) && |ds| == |t.queues|
    ensures Synced(OnTick(t, ds, update).0)
  {
    hide SetUsed, AnyWork;
  }

  /** Exactly such a write puts the two indices of a queue out of step. */
  lemma SyncedUnlessRestarted(t: Transport, a: Access)
    requires Possible(t, a) && Synced(t)
    ensures Synced(OnAccess(t, a).0) <==> !Restarts(t, a)
  {
    hide OnWrite, OnTick, Synced;
    match a
    case ReadReg(reg) => assert OnRead(t, reg).0.queues == t.queues; SyncedSame(t, OnRead(t, reg).0);
    case WriteReg(reg, v, d) =>
      if reg == 0x044 {
        ReadyWriteSyncs(t, v, d);
      } else {
        WriteSyncs(t, reg, v, d);
      }
    case Background(ds, update) => TickSyncs(t, ds, update);
  }

  lemma SyncedSame(t: Transport, t': Transport)
    requires t'.queues == t.queues && Synced(t)
    ensures Synced(t')
  {
  }
}
