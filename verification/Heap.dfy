/**
  The firmware heap: a first-fit free list threaded through block headers, with
  bump allocation when no free block is large enough.

  The state is the headers in memory and the allocator's variables, together with
  the history needed to speak about them: which blocks exist, in address order,
  and which of them are live and for how many bytes they were asked.
 */
module Heap {
  import opened Bytes

  const TOP := 0x1_0000_0000_0000_0000
  const HDR := 16

  /**
    `sizes` is the size word of every header, `free` the free list from its head,
    `live` the requested size of every block handed out and not yet freed.
   */
  datatype State = State(start: nat, ptr: nat, end: nat,
                         sizes: map<nat, nat>, blocks: seq<nat>, free: seq<nat>, live: map<nat, nat>)

  // ---- what the allocator computes, in 64-bit arithmetic ----

  /** Header plus payload, rounded up to eight bytes; both additions wrap. */
  function Needed(size: U64): U64 {
    ((HDR + size) % TOP + 7) % TOP / 8 * 8
  }

  /** Index of the first free block of at least `n` bytes, or the length of the list. */
  function FirstFit(free: seq<nat>, sizes: map<nat, nat>, n: nat): (k: nat)
    requires forall i :: 0 <= i < |free| ==> free[i] in sizes
    ensures k <= |free|
    ensures forall i :: 0 <= i < k ==> sizes[free[i]] < n
    ensures k < |free| ==> sizes[free[k]] >= n
  {
    if free == [] || sizes[free[0]] >= n then 0 else 1 + FirstFit(free[1..], sizes, n)
  }

  function Without<T>(s: seq<T>, k: nat): seq<T>
    requires k < |s|
  {
    s[..k] + s[k + 1..]
  }

  function Allocated(s: State, size: U64): (State, nat)
    requires forall i :: 0 <= i < |s.free| ==> s.free[i] in s.sizes
  {
    var n := Needed(size);
    var k := FirstFit(s.free, s.sizes, n);
    if k < |s.free| then
      var h := s.free[k];
      (s.(free := Without(s.free, k), live := s.live[h := size]), h + HDR)
    else if (s.ptr + n) % TOP > s.end then (s, 0)
    else
      var h := s.ptr;
      (s.(sizes := s.sizes[h := n], ptr := (h + n) % TOP, blocks := s.blocks + [h], live := s.live[h := size]), h + HDR)
  }

  function Freed(s: State, p: nat): State
    requires p != 0 ==> p >= HDR
  {
    if p == 0 then s else s.(free := [p - HDR] + s.free, live := s.live - {p - HDR})
  }

  // ---- the invariant ----

  /** Each block starts where the one before it ends; together they fill [start, ptr). */
  predicate Tiles(s: State) {
    && (forall i :: 0 <= i < |s.blocks| ==> s.blocks[i] in s.sizes)
    && (if s.blocks == [] then s.ptr == s.start
        else
          var last := s.blocks[|s.blocks| - 1];
          s.blocks[0] == s.start && last + s.sizes[last] == s.ptr)
    && (forall i :: 0 <= i < |s.blocks| - 1 ==> s.blocks[i] + s.sizes[s.blocks[i]] == s.blocks[i + 1])
    && (forall i :: 0 <= i < |s.blocks| ==> s.sizes[s.blocks[i]] >= HDR && s.sizes[s.blocks[i]] % 8 == 0)
  }

  predicate NoDuplicates<T(==)>(s: seq<T>) {
    forall i, j :: 0 <= i < j < |s| ==> s[i] != s[j]
  }

  predicate Partition(s: State) {
    && NoDuplicates(s.free)
    && (forall i :: 0 <= i < |s.free| ==> s.free[i] in s.blocks && s.free[i] !in s.live)
    && (forall a :: a in s.live ==> a in s.blocks)
    && (forall i :: 0 <= i < |s.blocks| ==> s.blocks[i] in s.live || s.blocks[i] in s.free)
  }

  predicate Inv(s: State) {
    && 0 < s.start <= s.ptr <= s.end < TOP
    && Tiles(s) && Partition(s)
    && (forall a :: a in s.live ==> a in s.sizes && HDR + s.live[a] <= s.sizes[a])
  }

  // ---- consequences of tiling ----

  lemma {:induction false} BlocksInOrder(s: State, i: nat, j: nat)
    requires Tiles(s) && i < j < |s.blocks|
    ensures s.blocks[i] + s.sizes[s.blocks[i]] <= s.blocks[j]
    decreases j
  {
    if i < j - 1 {
      BlocksInOrder(s, i, j - 1);
    }
    assert s.blocks[j - 1] + s.sizes[s.blocks[j - 1]] == s.blocks[j - 1 + 1];
  }

  lemma BlockInside(s: State, i: nat)
    requires Tiles(s) && i < |s.blocks|
    ensures s.start <= s.blocks[i] && s.blocks[i] + s.sizes[s.blocks[i]] <= s.ptr
  {
    if i > 0 {
      BlocksInOrder(s, 0, i);
    }
    if i < |s.blocks| - 1 {
      BlocksInOrder(s, i, |s.blocks| - 1);
    }
  }

  /** Distinct live blocks do not overlap, header or payload. */
  lemma LiveBlocksDisjoint(s: State, a: nat, b: nat)
    requires Inv(s) && a in s.live && b in s.live && a != b
    ensures a + s.sizes[a] <= b || b + s.sizes[b] <= a
    ensures a + HDR + s.live[a] <= b || b + HDR + s.live[b] <= a
  {
    var i :| 0 <= i < |s.blocks| && s.blocks[i] == a;
    var j :| 0 <= j < |s.blocks| && s.blocks[j] == b;
    if i < j {
      BlocksInOrder(s, i, j);
    } else {
      BlocksInOrder(s, j, i);
    }
  }

  // ---- when a call is safe ----

  /**
    The guards the allocator does not have: the rounded size must not wrap unless the
    call fails anyway, and a bump must not wrap the address space.
   */
  predicate Safe(s: State, size: U64)
    requires forall i :: 0 <= i < |s.free| ==> s.free[i] in s.sizes
  {
    var n := Needed(size);
    var fits := FirstFit(s.free, s.sizes, n) < |s.free|;
    if size + 23 < TOP then fits || s.ptr + n < TOP
    else !fits && s.end < s.ptr + n < TOP
  }

  lemma NeededExact(size: U64)
    ensures size + 23 < TOP ==> HDR + size <= Needed(size) <= size + 23 && Needed(size) % 8 == 0
    ensures size + 23 >= TOP ==> Needed(size) <= HDR
  {
  }

  lemma WithoutFacts<T>(s: seq<T>, k: nat)
    requires k < |s| && NoDuplicates(s)
    ensures NoDuplicates(Without(s, k)) && s[k] !in Without(s, k)
    ensures forall x :: x in s && x != s[k] ==> x in Without(s, k)
    ensures forall x :: x in Without(s, k) ==> x in s
  {
    var t := Without(s, k);
    assert forall i :: 0 <= i < |t| ==> t[i] == s[if i < k then i else i + 1];
    forall x | x in s && x != s[k] ensures x in t {
      var j :| 0 <= j < |s| && s[j] == x;
      assert t[if j < k then j else j - 1] == x;
    }
  }

  lemma ReuseKeepsInv(s: State, size: U64, k: nat)
    requires Inv(s) && k < |s.free| && s.free[k] in s.sizes && HDR + size <= s.sizes[s.free[k]]
    ensures Inv(s.(free := Without(s.free, k), live := s.live[s.free[k] := size]))
  {
    hide Without, Partition;
    ReusePartition(s, size, k);
    assert Tiles(s.(free := Without(s.free, k), live := s.live[s.free[k] := size]));
  }

  lemma ReusePartition(s: State, size: nat, k: nat)
    requires Partition(s) && k < |s.free|
    ensures Partition(s.(free := Without(s.free, k), live := s.live[s.free[k] := size]))
  {
    hide Without, NoDuplicates;
    WithoutFacts(s.free, k);
    var t := s.(free := Without(s.free, k), live := s.live[s.free[k] := size]);
    forall i | 0 <= i < |t.free| ensures t.free[i] in t.blocks && t.free[i] !in t.live {
      assert t.free[i] in Without(s.free, k);
    }
  }

  function Bumped(s: State, size: nat, n: nat): State {
    s.(sizes := s.sizes[s.ptr := n], ptr := s.ptr + n, blocks := s.blocks + [s.ptr], live := s.live[s.ptr := size])
  }

  lemma BlocksBelow(s: State)
    requires Tiles(s)
    ensures forall i :: 0 <= i < |s.blocks| ==> s.start <= s.blocks[i] < s.ptr
    ensures s.ptr !in s.blocks
  {
    forall i | 0 <= i < |s.blocks| ensures s.start <= s.blocks[i] < s.ptr {
      BlockInside(s, i);
    }
  }

  lemma BumpTiles(s: State, size: nat, n: nat)
    requires Tiles(s) && n >= HDR && n % 8 == 0
    ensures Tiles(Bumped(s, size, n))
  {
    BlocksBelow(s);
    var t := Bumped(s, size, n);
    forall i | 0 <= i < |s.blocks| ensures t.blocks[i] == s.blocks[i] && t.sizes[t.blocks[i]] == s.sizes[s.blocks[i]] {
    }
    forall i | 0 <= i < |t.blocks| - 1 ensures t.blocks[i] + t.sizes[t.blocks[i]] == t.blocks[i + 1] {
    }
  }

  lemma BumpPartition(s: State, size: nat, n: nat)
    requires Tiles(s) && Partition(s)
    ensures Partition(Bumped(s, size, n))
  {
    BlocksBelow(s);
    hide Tiles;
    var t := Bumped(s, size, n);
    forall i | 0 <= i < |t.blocks| ensures t.blocks[i] in t.live || t.blocks[i] in t.free {
    }
  }

  lemma BumpKeepsInv(s: State, size: nat, n: nat)
    requires Inv(s) && HDR + size <= n && n % 8 == 0 && s.ptr + n <= s.end
    ensures Inv(Bumped(s, size, n))
  {
    BlocksBelow(s);
    hide Tiles, Partition;
    BumpTiles(s, size, n);
    BumpPartition(s, size, n);
    var t := Bumped(s, size, n);
    forall a | a in t.live ensures a in t.sizes && HDR + t.live[a] <= t.sizes[a] {
      LiveBelow(s, a);
    }
  }

  lemma LiveBelow(s: State, a: nat)
    requires Tiles(s) && Partition(s)
    ensures a in s.live ==> a < s.ptr
  {
    BlocksBelow(s);
  }

  lemma FreePartition(s: State, h: nat)
    requires Partition(s) && h in s.live
    ensures Partition(s.(free := [h] + s.free, live := s.live - {h}))
  {
    var t := s.(free := [h] + s.free, live := s.live - {h});
    assert forall i :: 0 < i < |t.free| ==> t.free[i] == s.free[i - 1];
    assert forall x :: x in t.free <==> x == h || x in s.free;
  }

  lemma FreeKeepsInv(s: State, p: nat)
    requires Inv(s) && (p == 0 || (p >= HDR && p - HDR in s.live))
    ensures Inv(Freed(s, p))
  {
    hide Partition;
    if p != 0 {
      FreePartition(s, p - HDR);
      assert Tiles(Freed(s, p));
    }
  }

  lemma FreeHaveSizes(s: State)
    requires Tiles(s) && Partition(s)
    ensures forall i :: 0 <= i < |s.free| ==>
              s.free[i] in s.sizes && s.sizes[s.free[i]] <= s.ptr - s.start && s.sizes[s.free[i]] % 8 == 0
  {
    forall i | 0 <= i < |s.free|
      ensures s.free[i] in s.sizes && s.sizes[s.free[i]] <= s.ptr - s.start && s.sizes[s.free[i]] % 8 == 0
    {
      var j :| 0 <= j < |s.blocks| && s.blocks[j] == s.free[i];
      BlockInside(s, j);
    }
  }

  /** The heap stays well formed, with every live block large enough, exactly when the call was safe. */
  lemma MallocSafeIffInv(s: State, size: U64)
    requires Inv(s)
    ensures forall i :: 0 <= i < |s.free| ==> s.free[i] in s.sizes
    ensures Inv(Allocated(s, size).0) <==> Safe(s, size)
  {
    FreeHaveSizes(s);
    if Safe(s, size) {
      SafeMallocKeepsInv(s, size);
    } else {
      UnsafeMallocBreaksInv(s, size);
    }
  }

  lemma SafeMallocKeepsInv(s: State, size: U64)
    requires Inv(s) && forall i :: 0 <= i < |s.free| ==> s.free[i] in s.sizes
    requires Safe(s, size)
    ensures Inv(Allocated(s, size).0)
  {
    hide Tiles, Partition, Needed, Without, Inv;
    var n := Needed(size);
    NeededExact(size);
    InvBounds(s);
    var k := FirstFit(s.free, s.sizes, n);
    if k < |s.free| {
      ReuseKeepsInv(s, size, k);
    } else if s.ptr + n <= s.end {
      BumpKeepsInv(s, size, n);
    }
  }

  lemma InvBounds(s: State)
    requires Inv(s)
    ensures 0 < s.start <= s.ptr <= s.end < TOP
  {
  }

  lemma UnsafeMallocBreaksInv(s: State, size: U64)
    requires Inv(s) && forall i :: 0 <= i < |s.free| ==> s.free[i] in s.sizes
    requires !Safe(s, size)
    ensures !Inv(Allocated(s, size).0)
  {
    hide Tiles, Partition, Needed, Without;
    NeededExact(size);
    if FirstFit(s.free, s.sizes, Needed(size)) < |s.free| {
      UnsafeReuse(s, size);
    } else {
      UnsafeBump(s, size);
    }
  }

  /** No free block holds a request whose size wraps. */
  lemma FreeBlockTooSmall(s: State, size: U64, k: nat)
    requires Inv(s) && size + 23 >= TOP && k < |s.free|
    ensures s.free[k] in s.sizes && HDR + size > s.sizes[s.free[k]]
  {
    FreeHaveSizes(s);
    hide Tiles, Partition;
  }

  lemma LiveFits(s: State, a: nat)
    requires Inv(s) && a in s.live
    ensures a in s.sizes && HDR + s.live[a] <= s.sizes[a]
  {
    hide Tiles, Partition;
  }

  /** A wrapped size fits any free block, and none holds the bytes asked for. */
  lemma UnsafeReuse(s: State, size: U64)
    requires Inv(s) && (forall i :: 0 <= i < |s.free| ==> s.free[i] in s.sizes) && size + 23 >= TOP
    requires FirstFit(s.free, s.sizes, Needed(size)) < |s.free|
    ensures !Inv(Allocated(s, size).0)
  {
    hide Inv, Needed, Without;
    var k := FirstFit(s.free, s.sizes, Needed(size));
    var h, t := s.free[k], Allocated(s, size).0;
    FreeBlockTooSmall(s, size, k);
    assert h in t.live && t.live[h] == size && t.sizes == s.sizes;
    if Inv(t) {
      LiveFits(t, h);
    }
  }

  /** A wrapped size or a wrapped pointer leaves a block too small, or a pointer out of place. */
  lemma UnsafeBump(s: State, size: U64)
    requires Inv(s) && (forall i :: 0 <= i < |s.free| ==> s.free[i] in s.sizes)
    requires FirstFit(s.free, s.sizes, Needed(size)) == |s.free| && (s.ptr + Needed(size)) % TOP <= s.end
    requires size + 23 >= TOP || s.ptr + Needed(size) >= TOP
    ensures !Inv(Allocated(s, size).0)
  {
    hide Partition, Needed;
    NeededExact(size);
    var n, t := Needed(size), Allocated(s, size).0;
    assert t.live[s.ptr] == size && t.sizes[s.ptr] == n;
    assert t.blocks[|t.blocks| - 1] == s.ptr && t.ptr == (s.ptr + n) % TOP;
  }

  /** Requests that leave room for the header, the rounding and the heap's end below 2^64 are always safe. */
  lemma ModestRequestsAreSafe(s: State, size: U64)
    requires Inv(s) && size + 23 + s.end < TOP
    ensures forall i :: 0 <= i < |s.free| ==> s.free[i] in s.sizes
    ensures Safe(s, size)
  {
    FreeHaveSizes(s);
    NeededExact(size);
  }

  /** A request of 2^64 - 16 bytes is answered with a block that holds none of them. */
  lemma HugeRequestSucceeds(s: State)
    requires Inv(s) && s.free == []
    ensures Allocated(s, TOP - 16).1 == s.ptr + HDR && Allocated(s, TOP - 16).0.sizes[s.ptr] == 0
  {
    assert Needed(TOP - 16) == 0;
  }

  // ---- what a safe call promises ----

  /**
    NULL means no free block fits and the bump space is exhausted, and nothing changed;
    otherwise the payload is new: inside the heap, not live before, and clear of every
    block that was.
   */
  lemma MallocMeaning(s: State, size: U64)
    requires Inv(s) && forall i :: 0 <= i < |s.free| ==> s.free[i] in s.sizes
    requires Safe(s, size) && size + 23 < TOP
    ensures var (t, p) := Allocated(s, size);
            if p == 0 then
              && t == s && s.ptr + Needed(size) > s.end
              && forall i :: 0 <= i < |s.free| ==> s.sizes[s.free[i]] < Needed(size)
            else
              && p >= HDR && p - HDR !in s.live && t.live == s.live[p - HDR := size]
              && s.start <= p - HDR && p + size <= s.end
              && forall a :: a in s.live ==> p + size <= a || a + HDR + s.live[a] <= p - HDR
  {
    hide Inv, Tiles, Partition, Needed, Safe;
    var (t, p) := Allocated(s, size);
    SafeMallocKeepsInv(s, size);
    InvBounds(s);
    NoWrap(s, size);
    if p != 0 {
      var h := p - HDR;
      FreshBlock(s, size);
      InsideHeap(t, h);
      forall a | a in s.live ensures p + size <= a || a + HDR + s.live[a] <= h {
        LiveBlocksDisjoint(t, h, a);
      }
    }
  }

  lemma NoWrap(s: State, size: U64)
    requires forall i :: 0 <= i < |s.free| ==> s.free[i] in s.sizes
    requires Safe(s, size) && size + 23 < TOP
    ensures FirstFit(s.free, s.sizes, Needed(size)) < |s.free| || s.ptr + Needed(size) < TOP
  {
  }

  lemma FreshBlock(s: State, size: U64)
    requires Inv(s) && forall i :: 0 <= i < |s.free| ==> s.free[i] in s.sizes
    requires Allocated(s, size).1 != 0
    ensures var (t, p) := Allocated(s, size);
            p >= HDR && p - HDR !in s.live && t.live == s.live[p - HDR := size]
            && t.start == s.start && t.end == s.end
  {
    hide Needed, Tiles;
    LiveBelow(s, s.ptr);
  }

  lemma InsideHeap(t: State, h: nat)
    requires Inv(t) && h in t.live
    ensures t.start <= h && h + HDR + t.live[h] <= t.end
  {
    var i :| 0 <= i < |t.blocks| && t.blocks[i] == h;
    BlockInside(t, i);
  }

  // ---- whole runs ----

  datatype Op = Alloc(size: U64) | Release(p: nat)

  /** Callers free only NULL or live pointers and ask only for safe sizes. */
  predicate Allowed(s: State, op: Op) {
    && (forall i :: 0 <= i < |s.free| ==> s.free[i] in s.sizes)
    && match op
       case Alloc(size) => Safe(s, size)
       case Release(p) => p == 0 || (p >= HDR && p - HDR in s.live)
  }

  function Do(s: State, op: Op): State
    requires Allowed(s, op)
  {
    match op
    case Alloc(size) => Allocated(s, size).0
    case Release(p) => Freed(s, p)
  }

  predicate Disciplined(s: State, ops: seq<Op>)
    decreases |ops|
  {
    ops == [] || (Allowed(s, ops[0]) && Disciplined(Do(s, ops[0]), ops[1..]))
  }

  function DoAll(s: State, ops: seq<Op>): State
    requires Disciplined(s, ops)
    decreases |ops|
  {
    if ops == [] then s else DoAll(Do(s, ops[0]), ops[1..])
  }

  function Fresh(start: nat, end: nat): State {
    State(start, start, end, map[], [], [], map[])
  }

  lemma {:induction false} RunsKeepInv(s: State, ops: seq<Op>)
    requires Inv(s) && Disciplined(s, ops)
    ensures Inv(DoAll(s, ops))
    decreases |ops|
  {
    hide Inv, Allocated, Freed, Safe;
    if ops != [] {
      match ops[0] {
        case Alloc(size) => SafeMallocKeepsInv(s, size);
        case Release(p) => FreeKeepsInv(s, p);
      }
      RunsKeepInv(Do(s, ops[0]), ops[1..]);
    }
  }

  /** After any disciplined sequence of calls, live payloads are disjoint and inside the heap, and blocks tile it. */
  lemma RunsAreSafe(start: nat, end: nat, ops: seq<Op>)
    requires 0 < start <= end < TOP && Disciplined(Fresh(start, end), ops)
    ensures var t := DoAll(Fresh(start, end), ops);
            && Inv(t)
            && (forall a :: a in t.live ==> t.start <= a && a + HDR + t.live[a] <= t.end)
            && (forall a, b :: a in t.live && b in t.live && a != b ==>
                  a + HDR + t.live[a] <= b || b + HDR + t.live[b] <= a)
  {
    hide DoAll;
    RunsKeepInv(Fresh(start, end), ops);
    var t := DoAll(Fresh(start, end), ops);
    hide Inv;
    forall a | a in t.live ensures t.start <= a && a + HDR + t.live[a] <= t.end {
      InsideHeap(t, a);
    }
    forall a, b | a in t.live && b in t.live && a != b
      ensures a + HDR + t.live[a] <= b || b + HDR + t.live[b] <= a
    {
      LiveBlocksDisjoint(t, a, b);
    }
  }

  // ---- the allocator on its linked list ----

  /** The next words, followed from `head`, spell out `list`; 0 is NULL. */
  predicate Linked(next: map<nat, nat>, head: nat, list: seq<nat>) {
    && head == At(list, 0)
    && forall i :: 0 <= i < |list| ==> list[i] != 0 && list[i] in next && next[list[i]] == At(list, i + 1)
  }

  /** Element i of the list, or NULL past its end. */
  function At(list: seq<nat>, i: nat): nat {
    if i < |list| then list[i] else 0
  }

  /** A heap that starts at 0 hands out a block whose header is NULL: once freed, no list can hold it. */
  lemma ZeroStartLosesBlock(end: U64, size: U64, next: map<nat, nat>, head: nat)
    requires size + 23 < TOP && Needed(size) <= end
    ensures var (t, p) := Allocated(Fresh(0, end), size);
            p == HDR && Freed(t, p).free == [0] && !Linked(next, head, Freed(t, p).free)
  {
    hide Needed;
    var (t, p) := Allocated(Fresh(0, end), size);
    assert Freed(t, p).free[0] == 0;
  }

  /** A range that starts past its end gives nothing out, as long as the sum does not wrap. */
  lemma EmptyRangeGivesNothing(start: U64, end: U64, size: U64)
    requires end < start && start + Needed(size) < TOP
    ensures Allocated(Fresh(start, end), size) == (Fresh(start, end), 0)
  {
    hide Needed;
  }

  lemma FirstFitIs(free: seq<nat>, sizes: map<nat, nat>, n: nat, k: nat)
    requires forall i :: 0 <= i < |free| ==> free[i] in sizes
    requires k <= |free| && (forall i :: 0 <= i < k ==> sizes[free[i]] < n) && (k < |free| ==> sizes[free[k]] >= n)
    ensures FirstFit(free, sizes, n) == k
  {
  }

  /** Unlinking element k through the word that points at it. */
  lemma UnlinkInside(next: map<nat, nat>, head: nat, list: seq<nat>, k: nat)
    requires Linked(next, head, list) && NoDuplicates(list) && k < |list|
    ensures k == 0 ==> Linked(next, next[list[0]], Without(list, 0))
    ensures k > 0 ==> Linked(next[list[k - 1] := next[list[k]]], head, Without(list, k))
  {
    var rest := Without(list, k);
    assert forall i :: 0 <= i < |rest| ==> rest[i] == list[if i < k then i else i + 1];
  }

  lemma LinkFront(next: map<nat, nat>, head: nat, list: seq<nat>, h: nat)
    requires Linked(next, head, list) && h !in list && h != 0
    ensures Linked(next[h := head], h, [h] + list)
  {
    var l := [h] + list;
    assert forall i :: 0 < i < |l| ==> l[i] == list[i - 1] && l[i] != h;
  }

  lemma LinkedAt(next: map<nat, nat>, head: nat, list: seq<nat>, k: nat)
    requires Linked(next, head, list) && k <= |list| && At(list, k) != 0
    ensures k < |list| && list[k] in next && next[list[k]] == At(list, k + 1)
  {
  }

  lemma LinkedHead(next: map<nat, nat>, head: nat, list: seq<nat>)
    requires Linked(next, head, list)
    ensures head == At(list, 0) && forall i :: 0 <= i < |list| ==> list[i] != 0
  {
  }

  class FirmwareHeap {
    var next: map<nat, nat>
    var size: map<nat, nat>
    var freeList: nat
    var heapPtr: nat
    var heapEnd: nat
    var initialized: bool
    /** Which blocks exist, which are free in which order, and which are live. */
    ghost var st: State

    ghost predicate Valid()
      reads this
    {
      initialized ==>
        && Inv(st) && st.ptr == heapPtr && st.end == heapEnd && st.sizes == size
        && Linked(next, freeList, st.free)
    }

    constructor ()
      ensures !initialized && Valid()
    {
      next, size, freeList, heapPtr, heapEnd, initialized := map[], map[], 0, 0, 0, false;
      st := Fresh(0, 0);
    }

    /** Takes any range; it is a heap exactly when it starts above 0 and not past its end. */
    method InitHeap(start: U64, end: U64)
      modifies this
      ensures initialized && st == Fresh(start, end)
      ensures Valid() <==> 0 < start <= end
    {
      freeList := 0;
      heapPtr := start;
      heapEnd := end;
      initialized := true;
      size := map[];
      st := Fresh(start, end);
    }

    /** Frees a live pointer; NULL and an uninitialised heap are ignored. */
    method Free(p: nat)
      requires Valid() && (initialized && p != 0 ==> p >= HDR && p - HDR in st.live)
      modifies this
      ensures Valid()
      ensures st == if old(initialized) then Freed(old(st), p) else old(st)
    {
      if p == 0 || !initialized {
        return;
      }
      hide Inv, Linked;
      var h := p - HDR;
      FreeKeepsInv(st, p);
      LiveIsBlock(st, h);
      LinkFront(next, freeList, st.free, h);
      next := next[h := freeList];
      freeList := h;
      st := Freed(st, p);
    }

    /** Walks the list for the first block of at least `needed` bytes, keeping the block before it. */
    method FindFit(needed: nat) returns (prev: nat, cur: nat)
      requires initialized && Valid()
      ensures forall i :: 0 <= i < |st.free| ==> st.free[i] in st.sizes
      ensures var k := FirstFit(st.free, st.sizes, needed);
              cur == At(st.free, k) && prev == if k == 0 then 0 else st.free[k - 1]
    {
      hide Inv, Linked, At;
      HaveSizes(st);
      LinkedHead(next, freeList, st.free);
      ghost var k := 0;
      prev, cur := 0, freeList;
      while cur != 0
        invariant k <= |st.free| && cur == At(st.free, k) && prev == if k == 0 then 0 else st.free[k - 1]
        invariant forall i :: 0 <= i < k ==> size[st.free[i]] < needed
        decreases |st.free| - k
      {
        LinkedAt(next, freeList, st.free, k);
        AtCases(st.free, k);
        if size[cur] >= needed {
          FirstFitIs(st.free, size, needed, k);
          return;
        }
        prev := cur;
        cur := next[cur];
        k := k + 1;
      }
      AtCases(st.free, k);
      FirstFitIs(st.free, size, needed, k);
    }

    /** First fit along the list, else bump. */
    method Malloc(n: U64) returns (p: nat)
      requires Valid()
      modifies this
      ensures !old(initialized) ==> p == 0 && st == old(st) && Valid()
      ensures old(initialized) ==>
                && (forall i :: 0 <= i < |old(st).free| ==> old(st).free[i] in old(st).sizes)
                && (st, p) == Allocated(old(st), n)
                && (Safe(old(st), n) ==> Valid())
    {
      hide Inv, Needed, Safe, Linked, Allocated, Without, FirstFit, At;
      if !initialized {
        return 0;
      }
      MallocSafeIffInv(st, n);
      var needed := Needed(n);
      var prev: nat, cur: nat := FindFit(needed);
      HaveSizes(st);
      LinkedHead(next, freeList, st.free);
      ghost var k := FirstFit(st.free, st.sizes, needed);
      ghost var (st', p') := Allocated(st, n);
      AllocatedFields(st, n);
      AtCases(st.free, k);
      if cur != 0 {
        LinkedAt(next, freeList, st.free, k);
        UnlinkInside(next, freeList, st.free, k);
        if prev == 0 {
          freeList := next[cur];
        } else {
          next := next[prev := next[cur]];
        }
        st := st';
        return cur + HDR;
      }
      if (heapPtr + needed) % TOP > heapEnd {
        return 0;
      }
      var h := heapPtr;
      size := size[h := needed];
      heapPtr := (heapPtr + needed) % TOP;
      st := st';
      return h + HDR;
    }
  }

  lemma AllocatedFields(s: State, n: U64)
    requires forall i :: 0 <= i < |s.free| ==> s.free[i] in s.sizes
    ensures var (t, p) := Allocated(s, n);
            var k := FirstFit(s.free, s.sizes, Needed(n));
            && t.end == s.end
            && if k < |s.free| then
                 p == s.free[k] + HDR && t.ptr == s.ptr && t.sizes == s.sizes && t.free == Without(s.free, k)
               else if (s.ptr + Needed(n)) % TOP > s.end then
                 p == 0 && t == s
               else
                 && p == s.ptr + HDR && t.ptr == (s.ptr + Needed(n)) % TOP
                 && t.sizes == s.sizes[s.ptr := Needed(n)] && t.free == s.free
  {
    hide Needed;
  }

  lemma AtCases(list: seq<nat>, k: nat)
    requires k <= |list| && forall i :: 0 <= i < |list| ==> list[i] != 0
    ensures At(list, k) == 0 <==> k == |list|
    ensures k < |list| ==> At(list, k) == list[k]
  {
  }

  lemma LiveIsBlock(s: State, h: nat)
    requires Inv(s) && h in s.live
    ensures h !in s.free && h >= s.start > 0
  {
    InsideHeap(s, h);
  }

  lemma HaveSizes(s: State)
    requires Inv(s)
    ensures forall i :: 0 <= i < |s.free| ==> s.free[i] in s.sizes
    ensures NoDuplicates(s.free)
  {
    FreeHaveSizes(s);
  }
}
