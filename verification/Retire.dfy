/**
  What every device tick comes to on the rings: heads are taken one by one from the
  available ring, something happens to memory, and each head goes back on the used ring.
 */
module Retire {
  import opened Bytes
  import opened GuestRam
  import opened Virtqueue
  import opened Arith
  import P = RingProtocol

  datatype Snap = Snap(ram: Ram, q: Queue)

  /** One head served: memory just before the head is pushed back, and the length pushed with it. */
  datatype Turn = Turn(head: U16, mid: Ram, len: U32)

  function Next(s: Snap, t: Turn): Snap {
    var q := Popped(s.q);
    Snap(PushedRam(t.mid, q, t.head, t.len), Pushed(q))
  }

  function After(s: Snap, turns: seq<Turn>): Snap {
    if turns == [] then s else Next(After(s, turns[..|turns| - 1]), turns[|turns| - 1])
  }

  /** Every head was pending and next in the available ring when its turn came. */
  predicate Served(s: Snap, turns: seq<Turn>) {
    turns == [] || (
      var n := |turns| - 1;
      var b := After(s, turns[..n]);
      Served(s, turns[..n]) && Pending(b.ram, b.q) && turns[n].head == NextHead(b.ram, b.q))
  }

  lemma {:induction false} Prepend(s: Snap, t: Turn, turns: seq<Turn>)
    requires Pending(s.ram, s.q) && t.head == NextHead(s.ram, s.q) && Served(Next(s, t), turns)
    ensures Served(s, [t] + turns) && After(s, [t] + turns) == After(Next(s, t), turns)
    decreases |turns|
  {
    hide Pending, NextHead, PushedRam;
    var all := [t] + turns;
    if turns == [] {
      assert all[..0] == [];
    } else {
      var n := |turns| - 1;
      Prepend(s, t, turns[..n]);
      assert all[..n + 1] == [t] + turns[..n];
    }
  }

  /** Heads taken are heads returned: the two indices of the queue move together. */
  lemma {:induction false} IndicesMoveTogether(s: Snap, turns: seq<Turn>)
    requires Served(s, turns)
    ensures After(s, turns).q == Retired(s.q, |turns|)
    decreases |turns|
  {
    hide Pending, NextHead, PushedRam;
    if turns != [] {
      var n := |turns| - 1;
      IndicesMoveTogether(s, turns[..n]);
      var b := After(s, turns[..n]);
      PendingQueue(b.ram, b.q);
      SuccAdd(s.q.lastAvail, n);
      SuccAdd(s.q.lastUsed, n);
    }
  }

  /** From `s` to `e` in at most `rounds` turns, stopping early only with nothing pending. */
  predicate Loop(s: Snap, turns: seq<Turn>, e: Snap, rounds: nat) {
    && Served(s, turns) && After(s, turns) == e
    && |turns| <= rounds && (|turns| == rounds || !Pending(e.ram, e.q))
  }

  lemma LoopNothing(s: Snap, rounds: nat)
    requires rounds == 0 || !Pending(s.ram, s.q)
    ensures Loop(s, [], s, rounds)
  {
  }

  lemma LoopCons(s: Snap, t: Turn, rest: seq<Turn>, e: Snap, rounds: nat)
    requires Pending(s.ram, s.q) && t.head == NextHead(s.ram, s.q)
    requires rounds > 0 && Loop(Next(s, t), rest, e, rounds - 1)
    ensures Loop(s, [t] + rest, e, rounds)
  {
    hide Pending, Next, NextHead, Served, After;
    Prepend(s, t, rest);
  }

  lemma LoopServed(s: Snap, turns: seq<Turn>, e: Snap, rounds: nat)
    requires Loop(s, turns, e, rounds)
    ensures Served(s, turns)
  {
  }

  /** A loop does something exactly when it is allowed a round and something is pending. */
  lemma LoopWorks(s: Snap, turns: seq<Turn>, e: Snap, rounds: nat)
    requires Loop(s, turns, e, rounds)
    ensures turns != [] <==> rounds > 0 && Pending(s.ram, s.q)
  {
    hide Pending, NextHead, Next;
    if turns != [] {
      FirstPending(s, turns);
    }
  }

  lemma {:induction false} FirstPending(s: Snap, turns: seq<Turn>)
    requires Served(s, turns) && turns != []
    ensures Pending(s.ram, s.q)
    decreases |turns|
  {
    hide Pending, NextHead, Next;
    if |turns| > 1 {
      FirstPending(s, turns[..|turns| - 1]);
    }
  }

  // ---- when the loop ends ----

  /** No turn changes the published index. */
  predicate IdxKept(s: Snap, turns: seq<Turn>) {
    forall j :: 0 <= j <= |turns| ==>
      Read16(After(s, turns[..j]).ram, AvailIdxAddr(s.q)) == Read16(s.ram, AvailIdxAddr(s.q))
  }

  lemma DueMeansPending(r: Ram, q: Queue)
    ensures Pending(r, q) <==> Due(r, q) > 0
  {
    hide Read16;
  }

  lemma DueFalls(idx: U16, last: U16, n: nat)
    requires n <= (idx - last) % 0x1_0000
    ensures (idx - (last + n) % 0x1_0000) % 0x1_0000 == (idx - last) % 0x1_0000 - n
  {
  }

  lemma DueAfter(a: Snap, b: Snap, n: nat)
    requires b.q == Retired(a.q, n) && n <= Due(a.ram, a.q)
    requires Read16(b.ram, AvailIdxAddr(a.q)) == Read16(a.ram, AvailIdxAddr(a.q))
    ensures Due(b.ram, b.q) == Due(a.ram, a.q) - n
  {
    hide Read16;
    if a.q.size != 0 {
      DueFalls(Read16(a.ram, AvailIdxAddr(a.q)), a.q.lastAvail, n);
    }
  }

  lemma {:induction false} DueCounts(s: Snap, turns: seq<Turn>)
    requires Served(s, turns) && IdxKept(s, turns)
    ensures var b := After(s, turns);
            |turns| <= Due(s.ram, s.q) && Due(b.ram, b.q) == Due(s.ram, s.q) - |turns|
    decreases |turns|
  {
    hide Pending, NextHead, Due, Retired, Next, Read16;
    var n := |turns|;
    if n > 0 {
      var before := turns[..n - 1];
      assert forall j :: 0 <= j <= n - 1 ==> before[..j] == turns[..j];
      DueCounts(s, before);
      var b := After(s, before);
      DueMeansPending(b.ram, b.q);
    }
    IndicesMoveTogether(s, turns);
    assert turns[..n] == turns;
    DueAfter(s, After(s, turns), n);
  }

  /**
    A loop that serves until nothing is pending, given `rounds` rounds and a published index
    that stays put, takes exactly the heads that were due, and then nothing is pending.
   */
  lemma LoopEnds(s: Snap, turns: seq<Turn>, e: Snap, rounds: nat)
    requires Loop(s, turns, e, rounds) && IdxKept(s, turns)
    ensures |turns| == Min(rounds, Due(s.ram, s.q))
    ensures rounds >= Due(s.ram, s.q) <==> !Pending(e.ram, e.q)
  {
    hide Pending, Due, After, Served;
    DueCounts(s, turns);
    DueMeansPending(e.ram, e.q);
  }

  // ---- what the rings then hold ----

  predicate KeepsRings(r: Ram, r': Ram, q: Queue) {
    && r'.start == r.start && |r'.bytes| == |r.bytes|
    && P.SameAvail(r, r', q) && P.SameUsed(r, r', q)
  }

  /** Serving a head leaves both rings alone until the head is pushed. */
  predicate RingsKept(s: Snap, turns: seq<Turn>) {
    forall j :: 0 <= j < |turns| ==> KeepsRings(After(s, turns[..j]).ram, turns[j].mid, s.q)
  }

  /** A push fills one used slot and moves the used index; the rest of both rings stays. */
  lemma PushWrites(r: Ram, q: Queue, head: U16, len: U32)
    requires P.Layout(r, q)
    ensures var r', slot := PushedRam(r, q, head, len), Slot(q.lastUsed, q.size);
            && r'.start == r.start && |r'.bytes| == |r.bytes| && P.SameAvail(r, r', q)
            && Read16(r', UsedIdxAddr(q)) == Succ16(q.lastUsed)
            && P.UsedEntry(r', q.usedAddr, slot) == P.Elem(head, len)
            && forall i :: 0 <= i < q.size && i != slot ==>
                 P.UsedEntry(r', q.usedAddr, i) == P.UsedEntry(r, q.usedAddr, i)
  {
    hide Write, Read, ToLe, P.UsedEntry, P.SameUsed, Slot, Succ16;
    var slot := Slot(q.lastUsed, q.size);
    var r1 := Write32(r, q.usedAddr + 4 + 8 * slot, head);
    P.UsedIdWrite(r, q, slot, head);
    var r2 := Write32(r1, q.usedAddr + 4 + 8 * slot + 4, len);
    P.UsedLenWrite(r1, q, slot, len);
    P.UsedIdxWrite(r2, q, Succ16(q.lastUsed));
  }

  lemma SameAvailTrans(r: Ram, m: Ram, r': Ram, q: Queue)
    requires P.SameAvail(r, m, q) && P.SameAvail(m, r', q)
    ensures P.SameAvail(r, r', q)
  {
    hide Read16, P.AvailEntry;
  }

  predicate Shape(r: Ram, r': Ram) {
    r'.start == r.start && |r'.bytes| == |r.bytes|
  }

  /** The used ring answers the first turns of a run, in order. */
  predicate Answered(r: Ram, q: Queue, turns: seq<Turn>)
    requires q.size > 0
  {
    forall j :: 0 <= j < |turns| ==>
      P.UsedEntry(r, q.usedAddr, Slot(q.lastUsed + j, q.size)) == P.Elem(turns[j].head, turns[j].len)
  }

  /** The heads of a run are those of the available ring, in order. */
  predicate TakenInOrder(r: Ram, q: Queue, turns: seq<Turn>)
    requires q.size > 0
  {
    forall j :: 0 <= j < |turns| ==> turns[j].head == P.AvailEntry(r, q.availAddr, Slot(q.lastAvail + j, q.size))
  }

  /** Heads taken in order and each answered at its own place. */
  predicate Returned(s: Snap, turns: seq<Turn>)
    requires s.q.size > 0
  {
    var b := After(s, turns);
    && Shape(s.ram, b.ram) && P.SameAvail(s.ram, b.ram, s.q)
    && TakenInOrder(s.ram, s.q, turns) && Answered(b.ram, s.q, turns)
    && (turns != [] ==> Read16(b.ram, UsedIdxAddr(s.q)) == b.q.lastUsed)
  }

  /**
    With buffers outside the rings, and at most a ring's worth of heads: the j-th head taken
    is the j-th entry of the available ring, the j-th used entry holds that head, and the used
    index has moved past all of them.
   */
  lemma {:induction false} HeadsReturned(s: Snap, turns: seq<Turn>)
    requires Served(s, turns) && P.Layout(s.ram, s.q) && RingsKept(s, turns) && |turns| <= s.q.size
    ensures Returned(s, turns)
    decreases |turns|
  {
    hide Pending, PushedRam, Returned, After, NextHead, KeepsRings, Retired;
    if turns == [] {
      Nothing(s);
    } else {
      var n := |turns| - 1;
      var before := turns[..n];
      forall j | 0 <= j < n ensures KeepsRings(After(s, before[..j]).ram, before[j].mid, s.q) {
        assert before[..j] == turns[..j];
      }
      HeadsReturned(s, before);
      PendingQueue(After(s, before).ram, After(s, before).q);
      assert before + [turns[n]] == turns;
      OneMore(s, before, turns[n]);
    }
  }

  lemma OneMore(s: Snap, before: seq<Turn>, t: Turn)
    requires P.Layout(s.ram, s.q) && Served(s, before) && Returned(s, before) && |before| < s.q.size
    requires var b := After(s, before);
             b.q.size != 0 && t.head == NextHead(b.ram, b.q) && KeepsRings(b.ram, t.mid, s.q)
    ensures Returned(s, before + [t])
  {
    hide Pending, PushedRam, Read16, P.AvailEntry, P.UsedEntry, Slot, P.SameAvail, P.SameUsed, Answered, TakenInOrder,
      NextHead, Served;
    var b, e := After(s, before), Next(After(s, before), t);
    IndicesMoveTogether(s, before);
    TakesEntry(s, b, |before|);
    TakenSnoc(s.ram, s.q, before, t);
    PushAnswers(s.q, b, t, before);
    SameAvailTrans(s.ram, b.ram, t.mid, s.q);
    SameAvailTrans(s.ram, t.mid, e.ram, s.q);
    assert (before + [t])[..|before|] == before;
  }

  lemma Nothing(s: Snap)
    requires s.q.size > 0
    ensures Returned(s, [])
  {
  }

  lemma TakesEntry(s: Snap, b: Snap, n: nat)
    requires P.Layout(s.ram, s.q) && b.q == Retired(s.q, n) && P.SameAvail(s.ram, b.ram, s.q)
    ensures NextHead(b.ram, b.q) == P.AvailEntry(s.ram, s.q.availAddr, Slot(s.q.lastAvail + n, s.q.size))
  {
    hide Read16, Slot;
    P.WrappedSlot(s.q.lastAvail + n, s.q.size);
  }

  lemma TakenSnoc(r: Ram, q: Queue, before: seq<Turn>, t: Turn)
    requires q.size > 0 && TakenInOrder(r, q, before)
    requires t.head == P.AvailEntry(r, q.availAddr, Slot(q.lastAvail + |before|, q.size))
    ensures TakenInOrder(r, q, before + [t])
  {
    hide P.AvailEntry, Slot;
  }

  lemma PushAnswers(q: Queue, b: Snap, t: Turn, before: seq<Turn>)
    requires P.Layout(b.ram, q) && b.q == Retired(q, |before|) && KeepsRings(b.ram, t.mid, q)
    requires |before| < q.size && Answered(b.ram, q, before)
    ensures var e := Next(b, t);
            && Shape(b.ram, e.ram) && P.SameAvail(t.mid, e.ram, q) && Answered(e.ram, q, before + [t])
            && Read16(e.ram, UsedIdxAddr(q)) == e.q.lastUsed
  {
    hide PushedRam, Read16, P.UsedEntry, Slot, P.SameAvail;
    var n, p, e := |before|, Popped(b.q), Next(b, t);
    P.WrappedSlot(q.lastUsed + n, q.size);
    PushWrites(t.mid, p, t.head, t.len);
    AvailOfRing(t.mid, e.ram, p, q);
    forall j | 0 <= j < n
      ensures P.UsedEntry(e.ram, q.usedAddr, Slot(q.lastUsed + j, q.size)) == P.Elem(before[j].head, before[j].len)
    {
      P.DifferentSlots(q.lastUsed + j, q.lastUsed + n, q.size);
    }
  }

  lemma AvailOfRing(r: Ram, r': Ram, p: Queue, q: Queue)
    requires P.SameAvail(r, r', p) && p.availAddr == q.availAddr && p.size == q.size
    ensures P.SameAvail(r, r', q)
  {
  }

  // ---- the two together ----

  lemma {:induction false} ServedPrefix(s: Snap, turns: seq<Turn>, j: nat)
    requires Served(s, turns) && j <= |turns|
    ensures Served(s, turns[..j])
    decreases |turns|
  {
    hide Pending, NextHead, Next;
    if j < |turns| {
      var n := |turns| - 1;
      ServedPrefix(s, turns[..n], j);
      assert turns[..n][..j] == turns[..j];
    } else {
      assert turns[..j] == turns;
    }
  }

  lemma {:induction false} AvailKept(s: Snap, turns: seq<Turn>)
    requires Served(s, turns) && P.Layout(s.ram, s.q) && RingsKept(s, turns)
    ensures Shape(s.ram, After(s, turns).ram) && P.SameAvail(s.ram, After(s, turns).ram, s.q)
    decreases |turns|
  {
    hide Pending, PushedRam, NextHead, Read16, P.AvailEntry, P.SameUsed, Retired;
    if turns != [] {
      var n := |turns| - 1;
      var before, t := turns[..n], turns[n];
      forall j | 0 <= j < n ensures KeepsRings(After(s, before[..j]).ram, before[j].mid, s.q) {
        assert before[..j] == turns[..j];
      }
      AvailKept(s, before);
      IndicesMoveTogether(s, before);
      hide P.SameAvail;
      var b := After(s, before);
      SameAvailTrans(s.ram, b.ram, t.mid, s.q);
      PushKeepsAvail(s, b, t, n);
      SameAvailTrans(s.ram, t.mid, Next(b, t).ram, s.q);
    }
  }

  lemma PushKeepsAvail(s: Snap, b: Snap, t: Turn, n: nat)
    requires P.Layout(s.ram, s.q) && b.q == Retired(s.q, n) && Shape(s.ram, t.mid)
    ensures Shape(s.ram, Next(b, t).ram) && P.SameAvail(t.mid, Next(b, t).ram, s.q)
  {
    hide PushedRam, P.SameAvail, P.UsedEntry, Read16, Slot;
    PushWrites(t.mid, Popped(b.q), t.head, t.len);
    AvailOfRing(t.mid, Next(b, t).ram, Popped(b.q), s.q);
  }

  lemma RingsKeptIdx(s: Snap, turns: seq<Turn>)
    requires Served(s, turns) && P.Layout(s.ram, s.q) && RingsKept(s, turns)
    ensures IdxKept(s, turns)
  {
    hide Served, After, Read16, KeepsRings;
    forall j | 0 <= j <= |turns|
      ensures Read16(After(s, turns[..j]).ram, AvailIdxAddr(s.q)) == Read16(s.ram, AvailIdxAddr(s.q))
    {
      var before := turns[..j];
      ServedPrefix(s, turns, j);
      forall i | 0 <= i < j ensures KeepsRings(After(s, before[..i]).ram, before[i].mid, s.q) {
        assert before[..i] == turns[..i];
      }
      AvailKept(s, before);
    }
  }

  /**
    A tick over chains whose buffers lie outside the rings, given rounds enough: it takes
    exactly the heads that were due, in order, returns each at its own place on the used ring,
    and leaves nothing pending.
   */
  lemma TickSettles(s: Snap, turns: seq<Turn>, e: Snap, rounds: nat)
    requires Loop(s, turns, e, rounds) && P.Layout(s.ram, s.q) && RingsKept(s, turns)
    requires Due(s.ram, s.q) <= Min(rounds, s.q.size)
    ensures |turns| == Due(s.ram, s.q) && !Pending(e.ram, e.q) && Returned(s, turns)
  {
    hide Pending, Due, After, Served, RingsKept, IdxKept, Returned;
    RingsKeptIdx(s, turns);
    LoopEnds(s, turns, e, rounds);
    HeadsReturned(s, turns);
  }

  /** A write outside both rings leaves them alone. */
  lemma WriteKeepsRings(r: Ram, q: Queue, a: nat, data: seq<Byte>)
    requires P.OutsideRings(q, a, |data|)
    ensures KeepsRings(r, Write(r, a, data), q)
  {
    hide Write;
    P.AvailFrame(r, q, a, data);
    P.UsedFrame(r, q, a, data);
  }

  lemma KeepsRingsTrans(r: Ram, m: Ram, r': Ram, q: Queue)
    requires KeepsRings(r, m, q) && KeepsRings(m, r', q)
    ensures KeepsRings(r, r', q)
  {
    hide Read16, P.AvailEntry, P.UsedEntry;
  }

  lemma KeepsRingsSelf(r: Ram, q: Queue)
    ensures KeepsRings(r, r, q)
  {
  }

  /** Turns that leave the rings alone, one at a time. */
  lemma KeptCons(s: Snap, t: Turn, rest: seq<Turn>)
    requires Pending(s.ram, s.q) && t.head == NextHead(s.ram, s.q) && Served(Next(s, t), rest)
    requires KeepsRings(s.ram, t.mid, s.q) && RingsKept(Next(s, t), rest)
    ensures RingsKept(s, [t] + rest)
  {
    hide Pending, NextHead, PushedRam, Served, After, KeepsRings;
    var all := [t] + rest;
    forall j | 0 <= j < |all| ensures KeepsRings(After(s, all[..j]).ram, all[j].mid, s.q) {
      if j == 0 {
        assert all[..0] == [];
        AfterNothing(s);
      } else {
        assert all[..j] == [t] + rest[..j - 1];
        ServedPrefix(Next(s, t), rest, j - 1);
        Prepend(s, t, rest[..j - 1]);
        SameRings(After(Next(s, t), rest[..j - 1]).ram, rest[j - 1].mid, s, t);
      }
    }
  }

  lemma NothingKept(s: Snap)
    ensures RingsKept(s, [])
  {
  }

  lemma PoppedRings(r: Ram, r': Ram, q: Queue)
    requires KeepsRings(r, r', Popped(q))
    ensures KeepsRings(r, r', q)
  {
    hide Read16, P.AvailEntry, P.UsedEntry, Succ16;
  }

  lemma AfterNothing(s: Snap)
    ensures After(s, []) == s
  {
  }

  lemma SameRings(r: Ram, r': Ram, s: Snap, t: Turn)
    requires KeepsRings(r, r', Next(s, t).q)
    ensures KeepsRings(r, r', s.q)
  {
    hide PushedRam, Read16, P.AvailEntry, P.UsedEntry, Succ16;
  }
}
