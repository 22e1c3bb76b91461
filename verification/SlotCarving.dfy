/** Cutting a RAM region into KVM memory slots around the interrupt controllers' address holes. */
module SlotCarving {

  datatype Range = Range(lo: nat, hi: nat)

  const IOAPIC := Range(0xFEC0_0000, 0xFEC0_1000)
  const LAPIC := Range(0xFEE0_0000, 0xFEE0_1000)

  predicate Covers(rs: seq<Range>, a: int) {
    exists i :: 0 <= i < |rs| && rs[i].lo <= a < rs[i].hi
  }

  /** Non-empty, in address order, not overlapping. */
  predicate Tidy(rs: seq<Range>) {
    && (forall i :: 0 <= i < |rs| ==> rs[i].lo < rs[i].hi)
    && (forall i, j :: 0 <= i < j < |rs| ==> rs[i].hi <= rs[j].lo)
  }

  lemma CoversSnoc(rs: seq<Range>, r: Range, a: int)
    ensures Covers(rs + [r], a) <==> Covers(rs, a) || r.lo <= a < r.hi
  {
    if Covers(rs, a) {
      var i :| 0 <= i < |rs| && rs[i].lo <= a < rs[i].hi;
      assert (rs + [r])[i] == rs[i];
    }
    if r.lo <= a < r.hi {
      assert (rs + [r])[|rs|] == r;
    }
  }

  /** What is left of one segment: all of it when clear of the hole, else the parts on either side. */
  function Pieces(s: Range, hole: Range): seq<Range> {
    if hole.lo >= s.hi || hole.hi <= s.lo then [s]
    else
      (if s.lo < hole.lo then [Range(s.lo, hole.lo)] else []) +
      (if hole.hi < s.hi then [Range(hole.hi, s.hi)] else [])
  }

  lemma CoversJoin(a: seq<Range>, b: seq<Range>, x: int)
    ensures Covers(a + b, x) <==> Covers(a, x) || Covers(b, x)
  {
    if Covers(a, x) {
      var i :| 0 <= i < |a| && a[i].lo <= x < a[i].hi;
      assert (a + b)[i] == a[i];
    }
    if Covers(b, x) {
      var i :| 0 <= i < |b| && b[i].lo <= x < b[i].hi;
      assert (a + b)[|a| + i] == b[i];
    }
  }

  lemma PiecesCover(s: Range, hole: Range, x: int)
    requires hole.lo <= hole.hi
    ensures Covers(Pieces(s, hole), x) <==> s.lo <= x < s.hi && !(hole.lo <= x < hole.hi)
  {
    var left := if s.lo < hole.lo then [Range(s.lo, hole.lo)] else [];
    var right := if hole.hi < s.hi then [Range(hole.hi, s.hi)] else [];
    CoversJoin(left, right, x);
    assert Covers([s], x) <==> [s][0].lo <= x < [s][0].hi;
    assert Covers(left, x) <==> left != [] && left[0].lo <= x < left[0].hi;
    assert Covers(right, x) <==> right != [] && right[0].lo <= x < right[0].hi;
  }

  /** Everything kept so far ends no later than `top`. */
  predicate Below(rs: seq<Range>, top: nat) {
    forall k :: 0 <= k < |rs| ==> rs[k].hi <= top
  }

  lemma PiecesTidy(rs: seq<Range>, s: Range, hole: Range)
    requires Tidy(rs) && Below(rs, s.lo) && s.lo < s.hi && hole.lo <= hole.hi
    ensures Tidy(rs + Pieces(s, hole)) && Below(rs + Pieces(s, hole), s.hi)
  {
    var ps := Pieces(s, hole);
    assert forall i :: 0 <= i < |ps| ==> s.lo <= ps[i].lo < ps[i].hi <= s.hi;
    assert forall i, j :: 0 <= i < j < |ps| ==> ps[i].hi <= ps[j].lo;
  }

  /** Segments clear of the hole are kept, others lose the part inside it. */
  method CarveHole(segs: seq<Range>, hole: Range) returns (next: seq<Range>)
    requires Tidy(segs) && hole.lo <= hole.hi
    ensures Tidy(next)
    ensures forall a :: Covers(next, a) <==> Covers(segs, a) && !(hole.lo <= a < hole.hi)
  {
    next := [];
    for i := 0 to |segs|
      invariant Tidy(next) && (i < |segs| ==> Below(next, segs[i].lo))
      invariant forall a :: Covers(next, a) <==> Covers(segs[..i], a) && !(hole.lo <= a < hole.hi)
    {
      hide Covers, Tidy;
      var s := segs[i];
      ghost var before := next;
      if hole.lo >= s.hi || hole.hi <= s.lo {
        next := next + [s];
      } else {
        if s.lo < hole.lo {
          next := next + [Range(s.lo, hole.lo)];
        }
        if hole.hi < s.hi {
          next := next + [Range(hole.hi, s.hi)];
        }
      }
      assert next == before + Pieces(s, hole);
      CarveStep(segs, i, before, hole);
    }
    assert segs[..|segs|] == segs;
  }

  /** What carving segment i adds keeps the pieces tidy and covers what it should. */
  lemma CarveStep(segs: seq<Range>, i: nat, before: seq<Range>, hole: Range)
    requires Tidy(segs) && hole.lo <= hole.hi && i < |segs| && Tidy(before) && Below(before, segs[i].lo)
    requires forall a :: Covers(before, a) <==> Covers(segs[..i], a) && !(hole.lo <= a < hole.hi)
    ensures var next := before + Pieces(segs[i], hole);
            && Tidy(next) && (i + 1 < |segs| ==> Below(next, segs[i + 1].lo))
            && forall a :: Covers(next, a) <==> Covers(segs[..i + 1], a) && !(hole.lo <= a < hole.hi)
  {
    hide Covers, Tidy, Pieces;
    var s, next := segs[i], before + Pieces(segs[i], hole);
    TidyAt(segs, i);
    PiecesTidy(before, s, hole);
    assert segs[..i + 1] == segs[..i] + [s];
    forall a ensures Covers(next, a) <==> Covers(segs[..i + 1], a) && !(hole.lo <= a < hole.hi) {
      CoversJoin(before, Pieces(s, hole), a);
      PiecesCover(s, hole, a);
      CoversSnoc(segs[..i], s, a);
    }
  }

  lemma TidyAt(rs: seq<Range>, i: nat)
    requires Tidy(rs) && i < |rs|
    ensures rs[i].lo < rs[i].hi && (i + 1 < |rs| ==> rs[i].hi <= rs[i + 1].lo)
  {
  }

  /** Carving is set difference: the tidy segments cover the region minus every hole, and nothing else. */
  method Carve(region: Range, holes: seq<Range>) returns (segs: seq<Range>)
    requires region.lo < region.hi
    requires forall i :: 0 <= i < |holes| ==> holes[i].lo <= holes[i].hi
    ensures Tidy(segs)
    ensures forall a :: Covers(segs, a) <==> region.lo <= a < region.hi && !Covers(holes, a)
  {
    segs := [region];
    assert forall a :: Covers(segs, a) <==> region.lo <= a < region.hi by {
      forall a ensures Covers(segs, a) <==> region.lo <= a < region.hi {
        CoversSnoc([], region, a);
        assert [] + [region] == segs;
      }
    }
    for i := 0 to |holes|
      invariant Tidy(segs)
      invariant forall a :: Covers(segs, a) <==> region.lo <= a < region.hi && !Covers(holes[..i], a)
    {
      segs := CarveHole(segs, holes[i]);
      forall a ensures Covers(segs, a) <==> region.lo <= a < region.hi && !Covers(holes[..i + 1], a) {
        assert holes[..i + 1] == holes[..i] + [holes[i]];
        CoversSnoc(holes[..i], holes[i], a);
      }
    }
    assert holes[..|holes|] == holes;
  }

  datatype Slot = Slot(id: nat, guest: nat, size: nat, host: int)

  predicate Backed(slots: seq<Slot>, a: int) {
    exists i :: 0 <= i < |slots| && slots[i].guest <= a < slots[i].guest + slots[i].size
  }

  /**
    The slots registered for a region backed from host address `mem` on: guest addresses
    with RAM behind them are those of the region outside both holes, each in exactly one
    slot, and every slot maps linearly, so one offset serves the whole region.
   */
  method RegisterSlots(region: Range, mem: nat) returns (slots: seq<Slot>)
    requires region.lo < region.hi
    ensures forall i :: 0 <= i < |slots| ==>
              slots[i].id == i && slots[i].size > 0 && slots[i].host - mem == slots[i].guest - region.lo
    ensures forall i, j :: 0 <= i < j < |slots| ==> slots[i].guest + slots[i].size <= slots[j].guest
    ensures forall a :: Backed(slots, a) <==>
              region.lo <= a < region.hi && !(0xFEC0_0000 <= a < 0xFEC0_1000) && !(0xFEE0_0000 <= a < 0xFEE0_1000)
  {
    var segs := Carve(region, [IOAPIC, LAPIC]);
    slots := [];
    for i := 0 to |segs|
      invariant |slots| == i
      invariant forall k :: 0 <= k < i ==>
                  slots[k] == Slot(k, segs[k].lo, segs[k].hi - segs[k].lo, mem + (segs[k].lo - region.lo))
    {
      slots := slots + [Slot(i, segs[i].lo, segs[i].hi - segs[i].lo, mem + (segs[i].lo - region.lo))];
    }
    forall a
      ensures Backed(slots, a) <==>
                region.lo <= a < region.hi && !(IOAPIC.lo <= a < IOAPIC.hi) && !(LAPIC.lo <= a < LAPIC.hi)
    {
      BothHoles(a);
      SameCover(segs, slots, a);
    }
  }

  lemma BothHoles(a: int)
    ensures Covers([IOAPIC, LAPIC], a) <==> IOAPIC.lo <= a < IOAPIC.hi || LAPIC.lo <= a < LAPIC.hi
  {
    CoversSnoc([IOAPIC], LAPIC, a);
    CoversSnoc([], IOAPIC, a);
    assert [IOAPIC, LAPIC] == [IOAPIC] + [LAPIC] && [IOAPIC] == [] + [IOAPIC];
  }

  lemma SameCover(segs: seq<Range>, slots: seq<Slot>, a: int)
    requires |slots| == |segs| && Tidy(segs)
    requires forall k :: 0 <= k < |segs| ==>
               slots[k].guest == segs[k].lo && slots[k].guest + slots[k].size == segs[k].hi
    ensures Backed(slots, a) <==> Covers(segs, a)
  {
    if Covers(segs, a) {
      var i :| 0 <= i < |segs| && segs[i].lo <= a < segs[i].hi;
      assert slots[i].guest <= a < slots[i].guest + slots[i].size;
    }
  }
}
