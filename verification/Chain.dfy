/**
  Walking a descriptor chain: gathering a control request from its readable
  prefix, and scattering a reply over its writable descriptors.
 */
module Chain {
  import opened Arith
  import opened Bytes
  import opened GuestRam
  import opened Virtqueue

  const MAX_REQUEST_BYTES := 256 * 1024

  /** The table index of the k-th descriptor reached from `head` by following `next`. */
  function HopIndex(r: Ram, q: Queue, head: U16, k: nat): U16 {
    if k == 0 then head else DescAt(r, q, HopIndex(r, q, head, k - 1)).next
  }

  function Hop(r: Ram, q: Queue, head: U16, k: nat): Desc {
    DescAt(r, q, HopIndex(r, q, head, k))
  }

  // ---- gather ----

  /** The first `m` descriptors are readable and link on inside the table. */
  predicate ReadablePrefix(r: Ram, q: Queue, head: U16, m: nat) {
    forall i :: 0 <= i < m ==>
      !Hop(r, q, head, i).Writable() && Hop(r, q, head, i).HasNext() && Hop(r, q, head, i).next < q.size
  }

  /** The buffers of the first `m` descriptors, joined. */
  function Gathered(r: Ram, q: Queue, head: U16, m: nat): seq<Byte> {
    if m == 0 then [] else
      var d := Hop(r, q, head, m - 1);
      Gathered(r, q, head, m - 1) + Read(r, d.addr, d.len)
  }

  /** What a well-formed control chain is: a readable request, then a writable response descriptor. */
  predicate ControlChain(r: Ram, q: Queue, head: U16, m: nat) {
    && m < q.size
    && ReadablePrefix(r, q, head, m) && Hop(r, q, head, m).Writable()
    && 0 < |Gathered(r, q, head, m)| <= MAX_REQUEST_BYTES
  }

  lemma {:induction false} GatheredGrows(r: Ram, q: Queue, head: U16, k: nat, m: nat)
    requires k <= m
    ensures |Gathered(r, q, head, k)| <= |Gathered(r, q, head, m)|
  {
    hide Read, Hop;
    if k < m {
      GatheredGrows(r, q, head, k, m - 1);
    }
  }

  /** A well-formed chain passes through every descriptor before its response. */
  lemma PassesThrough(r: Ram, q: Queue, head: U16, i: nat, m: nat)
    requires ControlChain(r, q, head, m) && i < m
    ensures var d := Hop(r, q, head, i);
            !d.Writable() && d.HasNext() && d.next < q.size
            && |Gathered(r, q, head, i)| + d.len <= MAX_REQUEST_BYTES
  {
    hide Read, Hop;
    GatheredGrows(r, q, head, i + 1, m);
  }

  /** At most one prefix length makes the chain well formed. */
  lemma ControlChainUnique(r: Ram, q: Queue, head: U16, m: nat, n: nat)
    requires ControlChain(r, q, head, m) && ControlChain(r, q, head, n)
    ensures m == n
  {
    hide Read, Hop, ControlChain;
    if m < n {
      PassesThrough(r, q, head, m, n);
      EndsWritable(r, q, head, m);
    } else if n < m {
      PassesThrough(r, q, head, n, m);
      EndsWritable(r, q, head, n);
    }
  }

  lemma EndsWritable(r: Ram, q: Queue, head: U16, m: nat)
    requires ControlChain(r, q, head, m)
    ensures Hop(r, q, head, m).Writable()
  {
  }

  /** A walk that cannot go on past descriptor `i`, and does not end well there, is not well formed. */
  lemma DeadEnd(r: Ram, q: Queue, head: U16, i: nat)
    requires ReadablePrefix(r, q, head, i)
    requires var d := Hop(r, q, head, i);
             if d.Writable() then Gathered(r, q, head, i) == []
             else !d.HasNext() || d.next >= q.size || |Gathered(r, q, head, i)| + d.len > MAX_REQUEST_BYTES
    ensures forall m :: !ControlChain(r, q, head, m)
  {
    hide Read, Hop;
    forall m: nat ensures !ControlChain(r, q, head, m) {
      if i < m && ControlChain(r, q, head, m) {
        PassesThrough(r, q, head, i, m);
      }
    }
  }

  datatype Request = Request(bytes: seq<Byte>, response: Desc)

  /** The request a chain carries, if it is well formed. */
  ghost function RequestOf(r: Ram, q: Queue, head: U16): (o: Option<Request>)
    ensures o.Some? <==> exists m :: ControlChain(r, q, head, m)
    ensures forall m :: ControlChain(r, q, head, m) ==>
              o == Some(Request(Gathered(r, q, head, m), Hop(r, q, head, m)))
  {
    if m :| ControlChain(r, q, head, m) then
      assert forall n :: ControlChain(r, q, head, n) ==> n == m by {
        forall n: nat | ControlChain(r, q, head, n) ensures n == m { ControlChainUnique(r, q, head, m, n); }
      }
      Some(Request(Gathered(r, q, head, m), Hop(r, q, head, m)))
    else None
  }

  lemma RequestBounded(r: Ram, q: Queue, head: U16)
    requires RequestOf(r, q, head).Some?
    ensures var req := RequestOf(r, q, head).value;
            0 < |req.bytes| <= MAX_REQUEST_BYTES && req.response.Writable()
  {
    hide Hop, Gathered;
    var m :| ControlChain(r, q, head, m);
  }

  /** Exactly the well-formed chains gather, cyclic tables included, and they gather to their readable prefix. */
  method Gather(queue: VirtioQueue, mem: GuestMemory, head: U16) returns (request: Option<Request>)
    ensures request == RequestOf(mem.View(), queue.View(), head)
  {
    hide Read, DescAt, ControlChain;
    ghost var r, q := mem.View(), queue.View();
    var bytes: seq<Byte> := [];
    var index := head;
    for i := 0 to queue.size
      invariant ReadablePrefix(r, q, head, i)
      invariant bytes == Gathered(r, q, head, i) && |bytes| <= MAX_REQUEST_BYTES
      invariant index == HopIndex(r, q, head, i)
    {
      var desc := queue.GetDescriptor(mem, index);
      if desc.Writable() {
        if bytes == [] {
          DeadEnd(r, q, head, i);
          return None;
        }
        WellFormed(r, q, head, i);
        return Some(Request(bytes, desc));
      }
      if |bytes| + desc.len > MAX_REQUEST_BYTES {
        DeadEnd(r, q, head, i);
        return None;
      }
      var chunk := mem.ReadBytes(desc.addr, desc.len);
      bytes := bytes + chunk;
      if !desc.HasNext() || desc.next >= queue.size {
        DeadEnd(r, q, head, i);
        return None;
      }
      index := desc.next;
    }
    TooLong(r, q, head);
    return None;
  }

  lemma WellFormed(r: Ram, q: Queue, head: U16, m: nat)
    requires m < q.size && ReadablePrefix(r, q, head, m) && Hop(r, q, head, m).Writable()
    requires 0 < |Gathered(r, q, head, m)| <= MAX_REQUEST_BYTES
    ensures ControlChain(r, q, head, m)
  {
  }

  /** A walk as long as the table never reaches a response: the chain is cyclic. */
  lemma TooLong(r: Ram, q: Queue, head: U16)
    requires ReadablePrefix(r, q, head, q.size)
    ensures forall m :: !ControlChain(r, q, head, m)
  {
    hide Read, Hop;
  }

  // ---- scatter ----

  /** The contents of the writable buffers, joined in chain order. */
  function Writables(r: Ram, descs: seq<Desc>): seq<Byte> {
    if descs == [] then []
    else (if descs[0].Writable() then Read(r, descs[0].addr, descs[0].len) else []) + Writables(r, descs[1..])
  }

  /** Memory after laying `reply` over the writable descriptors, and how much was laid. */
  function Scattered(r: Ram, descs: seq<Desc>, reply: seq<Byte>): (Ram, nat)
    decreases |descs|
  {
    if descs == [] then (r, 0)
    else if !descs[0].Writable() then Scattered(r, descs[1..], reply)
    else
      var n := Min(|reply|, descs[0].len);
      var r' := Write(r, descs[0].addr, reply[..n]);
      if n == |reply| then (r', n)
      else
        var (r'', m) := Scattered(r', descs[1..], reply[n..]);
        (r'', n + m)
  }

  /** Writable buffers lie in RAM and do not overlap one another. */
  predicate SeparateBuffers(r: Ram, descs: seq<Desc>) {
    && (forall i :: 0 <= i < |descs| && descs[i].Writable() ==> InRam(r, descs[i].addr, descs[i].len))
    && (forall i, j :: 0 <= i < j < |descs| && descs[i].Writable() && descs[j].Writable() ==>
          Apart(descs[i].addr, descs[i].len, descs[j].addr, descs[j].len))
  }

  predicate ApartFromBuffers(descs: seq<Desc>, a: nat, n: nat) {
    forall i :: 0 <= i < |descs| && descs[i].Writable() ==> Apart(descs[i].addr, descs[i].len, a, n)
  }

  lemma {:induction false} ScatterFrame(r: Ram, descs: seq<Desc>, reply: seq<Byte>, a: nat, n: nat)
    requires ApartFromBuffers(descs, a, n)
    ensures var r' := Scattered(r, descs, reply).0;
            Read(r', a, n) == Read(r, a, n) && r'.start == r.start && |r'.bytes| == |r.bytes|
    decreases |descs|
  {
    hide Read, Write;
    if descs != [] {
      var k := Min(|reply|, descs[0].len);
      if descs[0].Writable() {
        ReadOther(r, descs[0].addr, reply[..k], a, n);
        ScatterFrame(Write(r, descs[0].addr, reply[..k]), descs[1..], reply[k..], a, n);
      } else {
        ScatterFrame(r, descs[1..], reply, a, n);
      }
    }
  }

  lemma {:induction false} WritablesFrame(r: Ram, descs: seq<Desc>, a: nat, data: seq<Byte>)
    requires ApartFromBuffers(descs, a, |data|)
    ensures Writables(Write(r, a, data), descs) == Writables(r, descs)
    decreases |descs|
  {
    hide Read, Write;
    if descs != [] {
      if descs[0].Writable() {
        ReadOther(r, a, data, descs[0].addr, descs[0].len);
      }
      WritablesFrame(r, descs[1..], a, data);
    }
  }

  lemma PartialOverwrite(r: Ram, a: nat, len: nat, data: seq<Byte>)
    requires InRam(r, a, len) && |data| <= len
    ensures Read(Write(r, a, data), a, len) == data + Read(r, a, len)[|data|..]
  {
    var w := Write(r, a, data);
    var x, y := Read(w, a, len), data + Read(r, a, len)[|data|..];
    forall i | 0 <= i < len ensures x[i] == y[i] {
      WriteIndex(r, a, data, a - r.start + i);
    }
  }

  /**
    Read back in chain order, the writable buffers hold the first min(reply, space)
    bytes of the reply followed by what they held before.
   */
  lemma {:induction false} ScatterFills(r: Ram, descs: seq<Desc>, reply: seq<Byte>)
    requires SeparateBuffers(r, descs)
    ensures var (r', n) := Scattered(r, descs, reply);
            var before := Writables(r, descs);
            n == Min(|reply|, |before|) && Writables(r', descs) == reply[..n] + before[n..]
    decreases |descs|
  {
    hide Read, Write;
    if descs != [] {
      var d, rest := descs[0], descs[1..];
      if !d.Writable() {
        ScatterFills(r, rest, reply);
      } else {
        var k := Min(|reply|, d.len);
        SeparateRest(r, descs, reply[..k]);
        if k < |reply| {
          ScatterFills(Write(r, d.addr, reply[..k]), rest, reply[k..]);
          ScatterSpills(r, descs, reply);
        } else {
          FilledHere(Read(r, d.addr, d.len), Writables(r, rest), reply);
        }
      }
    }
  }

  /** Filling the first buffer leaves the others as they were, and as separate. */
  lemma SeparateRest(r: Ram, descs: seq<Desc>, data: seq<Byte>)
    requires SeparateBuffers(r, descs) && descs != [] && descs[0].Writable() && |data| <= descs[0].len
    ensures var d, rest, r1 := descs[0], descs[1..], Write(r, descs[0].addr, data);
            && SeparateBuffers(r1, rest) && ApartFromBuffers(rest, d.addr, d.len)
            && Writables(r1, rest) == Writables(r, rest)
            && Read(r1, d.addr, d.len) == data + Read(r, d.addr, d.len)[|data|..]
  {
    hide Read, Write, Writables;
    PartialOverwrite(r, descs[0].addr, descs[0].len, data);
    WritablesFrame(r, descs[1..], descs[0].addr, data);
  }

  lemma WritablesHead(r: Ram, descs: seq<Desc>)
    requires descs != [] && descs[0].Writable()
    ensures Writables(r, descs) == Read(r, descs[0].addr, descs[0].len) + Writables(r, descs[1..])
  {
    hide Read;
  }

  lemma ScatteredOn(r: Ram, descs: seq<Desc>, reply: seq<Byte>)
    requires descs != [] && descs[0].Writable() && descs[0].len < |reply|
    ensures var d := descs[0];
            var (r', n) := Scattered(Write(r, d.addr, reply[..d.len]), descs[1..], reply[d.len..]);
            Scattered(r, descs, reply) == (r', d.len + n)
  {
    hide Write;
  }

  /** A reply longer than the first buffer goes on in the others. */
  lemma ScatterSpills(r: Ram, descs: seq<Desc>, reply: seq<Byte>)
    requires SeparateBuffers(r, descs) && descs != [] && descs[0].Writable() && descs[0].len < |reply|
    requires var d, rest := descs[0], descs[1..];
             var r1 := Write(r, d.addr, reply[..d.len]);
             var (r', n) := Scattered(r1, rest, reply[d.len..]);
             var later := Writables(r1, rest);
             n == Min(|reply| - d.len, |later|) && Writables(r', rest) == reply[d.len..][..n] + later[n..]
    ensures var (r', n) := Scattered(r, descs, reply);
            var before := Writables(r, descs);
            n == Min(|reply|, |before|) && Writables(r', descs) == reply[..n] + before[n..]
  {
    hide Read, Write, SeparateBuffers, Scattered, Writables, ApartFromBuffers;
    var d, rest := descs[0], descs[1..];
    var r1 := Write(r, d.addr, reply[..d.len]);
    var here, later := Read(r, d.addr, d.len), Writables(r, rest);
    var (r', n) := Scattered(r1, rest, reply[d.len..]);
    SeparateRest(r, descs, reply[..d.len]);
    ScatterFrame(r1, rest, reply[d.len..], d.addr, d.len);
    ScatteredOn(r, descs, reply);
    WritablesHead(r, descs);
    WritablesHead(r', descs);
    assert here[d.len..] == [];
    assert reply[..d.len] + [] == reply[..d.len];
    SpillsOver(here, later, reply);
  }

  lemma FilledHere(here: seq<Byte>, later: seq<Byte>, reply: seq<Byte>)
    requires |reply| <= |here|
    ensures reply[..|reply|] + here[|reply|..] + later == reply[..|reply|] + (here + later)[|reply|..]
  {
  }

  lemma SpillsOver(here: seq<Byte>, later: seq<Byte>, reply: seq<Byte>)
    requires |here| < |reply|
    ensures var k := |here|;
            var m := Min(|reply| - k, |later|);
            reply[..k] + (reply[k..][..m] + later[m..]) == reply[..k + m] + (here + later)[k + m..]
  {
    var k := |here|;
    var m := Min(|reply| - k, |later|);
    assert (here + later)[k + m..] == later[m..];
    assert reply[..k + m] == reply[..k] + reply[k..][..m];
  }

  // ---- the walks over chains of any shape ----

  /**
    The request bytes before the first writable descriptor, or nothing if the walk has not
    come to an end within `fuel` descriptors.
   */
  function ReadableFrom(r: Ram, q: Queue, index: U16, fuel: nat): Option<seq<Byte>>
    decreases fuel
  {
    if fuel == 0 then None
    else
      var d := DescAt(r, q, index);
      if d.Writable() then Some([])
      else if !d.HasNext() then Some(Read(r, d.addr, d.len))
      else
        match ReadableFrom(r, q, d.next, fuel - 1)
        case Some(rest) => Some(Read(r, d.addr, d.len) + rest)
        case None => None
  }

  /** The walk ends at descriptor `n`: the first that is writable or links no further. */
  predicate StopsAt(r: Ram, q: Queue, head: U16, n: nat) {
    && (forall i :: 0 <= i < n ==> !Hop(r, q, head, i).Writable() && Hop(r, q, head, i).HasNext())
    && (Hop(r, q, head, n).Writable() || !Hop(r, q, head, n).HasNext())
  }

  lemma {:induction false} HopFrom(r: Ram, q: Queue, head: U16, k: nat)
    ensures HopIndex(r, q, DescAt(r, q, head).next, k) == HopIndex(r, q, head, k + 1)
  {
    hide DescAt;
    if k > 0 {
      HopFrom(r, q, head, k - 1);
    }
  }

  lemma StopsFrom(r: Ram, q: Queue, head: U16, n: nat)
    requires Hop(r, q, head, 0).HasNext() && !Hop(r, q, head, 0).Writable()
    ensures StopsAt(r, q, head, n + 1) <==> StopsAt(r, q, DescAt(r, q, head).next, n)
  {
    hide DescAt;
    forall k: nat ensures Hop(r, q, DescAt(r, q, head).next, k) == Hop(r, q, head, k + 1) {
      HopFrom(r, q, head, k);
    }
    if StopsAt(r, q, DescAt(r, q, head).next, n) {
      forall i | 0 <= i < n + 1 ensures !Hop(r, q, head, i).Writable() && Hop(r, q, head, i).HasNext() {
        if i > 0 {
          assert Hop(r, q, DescAt(r, q, head).next, i - 1) == Hop(r, q, head, i);
        }
      }
    }
  }

  /** The walk comes back with something exactly when it meets its end within its fuel. */
  lemma {:induction false} ReadableIff(r: Ram, q: Queue, head: U16, fuel: nat)
    ensures ReadableFrom(r, q, head, fuel).Some? <==> exists n :: 0 <= n < fuel && StopsAt(r, q, head, n)
    decreases fuel
  {
    hide DescAt, Read, StopsAt;
    if fuel > 0 {
      var d := Hop(r, q, head, 0);
      StopsHere(r, q, head);
      if !d.Writable() && d.HasNext() {
        ReadableIff(r, q, d.next, fuel - 1);
        forall n: nat ensures StopsAt(r, q, head, n + 1) <==> StopsAt(r, q, d.next, n) {
          StopsFrom(r, q, head, n);
        }
        if n :| 0 <= n < fuel && StopsAt(r, q, head, n) {
          assert n == (n - 1) + 1 && StopsAt(r, q, d.next, n - 1);
        }
        if n :| 0 <= n < fuel - 1 && StopsAt(r, q, d.next, n) {
          assert StopsAt(r, q, head, n + 1);
        }
      }
    }
  }

  lemma StopsHere(r: Ram, q: Queue, head: U16)
    ensures StopsAt(r, q, head, 0) <==> Hop(r, q, head, 0).Writable() || !Hop(r, q, head, 0).HasNext()
  {
    hide DescAt;
  }

  /** Two hops at the same table entry are followed by the same hops. */
  lemma {:induction false} Repeats(r: Ram, q: Queue, head: U16, i: nat, j: nat, k: nat)
    requires HopIndex(r, q, head, i) == HopIndex(r, q, head, j)
    ensures HopIndex(r, q, head, i + k) == HopIndex(r, q, head, j + k)
    decreases k
  {
    hide DescAt;
    if k > 0 {
      Repeats(r, q, head, i, j, k - 1);
    }
  }

  /** A table has 2^16 entries at most, so a walk that ends does so within as many hops. */
  lemma StopsInTime(r: Ram, q: Queue, head: U16, n: nat)
    requires StopsAt(r, q, head, n)
    ensures n < 0x1_0000
  {
    hide DescAt;
    var visited := seq(n + 1, i requires 0 <= i <= n => HopIndex(r, q, head, i));
    forall i, j | 0 <= i < j <= n ensures visited[i] != visited[j] {
      if visited[i] == visited[j] {
        Repeats(r, q, head, i, j, n - j);
        var earlier := Hop(r, q, head, i + (n - j));
      }
    }
    Pigeonhole(visited, 0x1_0000);
  }

  /** What collecting a request gives; nothing exactly when the walk never ends. */
  function Collected(r: Ram, q: Queue, head: U16): Option<seq<Byte>> {
    ReadableFrom(r, q, head, 0x1_0000)
  }

  /** Collecting returns exactly when some descriptor of the chain is writable or links no further. */
  lemma CollectedIff(r: Ram, q: Queue, head: U16)
    ensures Collected(r, q, head).Some? <==> exists n :: StopsAt(r, q, head, n)
    ensures Collected(r, q, head).None? <==> forall fuel :: ReadableFrom(r, q, head, fuel).None?
  {
    hide ReadableFrom, StopsAt;
    ReadableIff(r, q, head, 0x1_0000);
    if n :| StopsAt(r, q, head, n) {
      StopsInTime(r, q, head, n);
    }
    forall fuel: nat ensures ReadableFrom(r, q, head, fuel).Some? ==> exists n :: StopsAt(r, q, head, n) {
      ReadableIff(r, q, head, fuel);
    }
  }

  /** A readable descriptor linked to itself is popped and never comes back. */
  lemma SelfLinkHangs(r: Ram, q: Queue, head: U16, fuel: nat)
    requires var d := DescAt(r, q, head); !d.Writable() && d.HasNext() && d.next == head
    ensures ReadableFrom(r, q, head, fuel).None?
  {
    hide DescAt, Read;
  }

  /** Gathers the readable front of a chain; behind it the chain may have any shape. */
  method CollectReadable(queue: VirtioQueue, mem: GuestMemory, head: U16) returns (bytes: seq<Byte>)
    requires Collected(mem.View(), queue.View(), head).Some?
    ensures Some(bytes) == Collected(mem.View(), queue.View(), head)
  {
    hide Read, DescAt;
    ghost var r, q := mem.View(), queue.View();
    ghost var goal, index := Collected(r, q, head).value, head;
    ghost var fuel: nat := 0x1_0000;
    bytes := [];
    var desc := queue.GetDescriptor(mem, head);
    while true
      invariant desc == DescAt(r, q, index) && ReadableFrom(r, q, index, fuel).Some?
      invariant goal == bytes + ReadableFrom(r, q, index, fuel).value
      decreases fuel
    {
      if desc.Writable() {
        assert bytes + [] == bytes;
        break;
      }
      var chunk := mem.ReadBytes(desc.addr, desc.len);
      bytes := bytes + chunk;
      if !desc.HasNext() {
        break;
      }
      index, fuel := desc.next, fuel - 1;
      desc := queue.GetDescriptor(mem, desc.next);
    }
  }

  // ---- writing a reply ----

  /**
    Memory after laying `reply` over the writable descriptors from `index` on, and how much
    was laid; the table is reread as memory changes.  Nothing if that takes more than `fuel`
    descriptors.
   */
  function Laid(r: Ram, q: Queue, index: U16, reply: seq<Byte>, fuel: nat): (o: Option<(Ram, nat)>)
    ensures o.Some? ==> o.value.1 <= |reply|
    decreases fuel
  {
    if fuel == 0 then None
    else
      var d := DescAt(r, q, index);
      var k := if d.Writable() then Min(|reply|, d.len) else 0;
      var r' := if d.Writable() then Write(r, d.addr, reply[..k]) else r;
      if (d.Writable() && k == |reply|) || !d.HasNext() then Some((r', k))
      else
        match Laid(r', q, d.next, reply[k..], fuel - 1)
        case Some((r'', m)) => Some((r'', k + m))
        case None => None
  }

  /** Laying the reply comes to an end at all. */
  ghost predicate LaidAtAll(r: Ram, q: Queue, index: U16, reply: seq<Byte>) {
    exists fuel :: Laid(r, q, index, reply, fuel).Some?
  }

  ghost function Fuel(r: Ram, q: Queue, index: U16, reply: seq<Byte>): (fuel: nat)
    requires LaidAtAll(r, q, index, reply)
    ensures Laid(r, q, index, reply, fuel).Some?
  {
    var fuel: nat :| Laid(r, q, index, reply, fuel).Some?;
    fuel
  }

  /** More fuel changes nothing once the reply is laid. */
  lemma {:induction false} LaidMore(r: Ram, q: Queue, index: U16, reply: seq<Byte>, fuel: nat, more: nat)
    requires Laid(r, q, index, reply, fuel).Some? && fuel <= more
    ensures Laid(r, q, index, reply, more) == Laid(r, q, index, reply, fuel)
    decreases fuel
  {
    hide DescAt, Write;
    var d := DescAt(r, q, index);
    var k := if d.Writable() then Min(|reply|, d.len) else 0;
    var r' := if d.Writable() then Write(r, d.addr, reply[..k]) else r;
    if !((d.Writable() && k == |reply|) || !d.HasNext()) {
      LaidMore(r', q, d.next, reply[k..], fuel - 1, more - 1);
    }
  }

  lemma LaidSame(r: Ram, q: Queue, index: U16, reply: seq<Byte>, a: nat, b: nat)
    requires Laid(r, q, index, reply, a).Some? && Laid(r, q, index, reply, b).Some?
    ensures Laid(r, q, index, reply, a) == Laid(r, q, index, reply, b)
  {
    if a <= b {
      LaidMore(r, q, index, reply, a, b);
    } else {
      LaidMore(r, q, index, reply, b, a);
    }
  }

  lemma LaidPast(r: Ram, q: Queue, index: U16, reply: seq<Byte>, fuel: nat)
    requires fuel > 0 && var d := DescAt(r, q, index); !d.Writable() && d.HasNext()
    ensures Laid(r, q, index, reply, fuel) == Laid(r, q, DescAt(r, q, index).next, reply, fuel - 1)
  {
    hide DescAt, Write;
    assert reply[0..] == reply;
  }

  lemma LaidOn(r: Ram, q: Queue, index: U16, reply: seq<Byte>, fuel: nat)
    requires fuel > 0 && var d := DescAt(r, q, index); d.Writable() && d.HasNext() && d.len < |reply|
    ensures var d := DescAt(r, q, index);
            var rest := Laid(Write(r, d.addr, reply[..d.len]), q, d.next, reply[d.len..], fuel - 1);
            Laid(r, q, index, reply, fuel) == if rest.Some? then Some((rest.value.0, d.len + rest.value.1)) else None
  {
    hide DescAt, Write;
  }

  lemma LaidStopped(r: Ram, q: Queue, index: U16, reply: seq<Byte>, fuel: nat)
    requires fuel > 0 && var d := DescAt(r, q, index); !d.HasNext() || (d.Writable() && |reply| <= d.len)
    ensures var d := DescAt(r, q, index);
            var k := Min(|reply|, d.len);
            Laid(r, q, index, reply, fuel) == Some(if d.Writable() then (Write(r, d.addr, reply[..k]), k) else (r, 0))
  {
    hide DescAt, Write;
  }

  lemma NeedsFuel(r: Ram, q: Queue, index: U16, reply: seq<Byte>, fuel: nat)
    requires Laid(r, q, index, reply, fuel).Some?
    ensures fuel > 0
  {
  }

  /** Lays a reply over a chain of any shape, whenever that comes to an end at all. */
  method WriteOutReply(queue: VirtioQueue, mem: GuestMemory, head: U16, reply: seq<Byte>, ghost fuel: nat)
    returns (written: nat)
    requires Laid(mem.View(), queue.View(), head, reply, fuel).Some?
    modifies mem.ram
    ensures Some((mem.View(), written)) == Laid(old(mem.View()), queue.View(), head, reply, fuel)
  {
    hide Read, Write, DescAt, Laid;
    ghost var q, index, left := queue.View(), head, fuel;
    ghost var goal := Laid(mem.View(), q, head, reply, fuel).value;
    written := 0;
    var desc := queue.GetDescriptor(mem, head);
    while true
      invariant written <= |reply| && desc == DescAt(mem.View(), q, index)
      invariant var rest := Laid(mem.View(), q, index, reply[written..], left);
                rest.Some? && goal == (rest.value.0, written + rest.value.1)
      decreases left
    {
      ghost var r, todo := mem.View(), reply[written..];
      NeedsFuel(r, q, index, todo, left);
      if desc.Writable() {
        var n := Min(|reply| - written, desc.len);
        assert todo[..n] == reply[written..written + n] && todo[n..] == reply[written + n..];
        mem.WriteBytes(desc.addr, reply[written..written + n]);
        written := written + n;
        if written >= |reply| {
          LaidStopped(r, q, index, todo, left);
          break;
        }
        if desc.HasNext() {
          LaidOn(r, q, index, todo, left);
        }
      } else if desc.HasNext() {
        LaidPast(r, q, index, todo, left);
      }
      if !desc.HasNext() {
        LaidStopped(r, q, index, todo, left);
        break;
      }
      index, left := desc.next, left - 1;
      desc := queue.GetDescriptor(mem, desc.next);
    }
  }

  // ---- replies over chains whose buffers spare their descriptors ----

  /** Every descriptor before the n-th links on. */
  predicate Linked(r: Ram, q: Queue, head: U16, n: nat) {
    forall i :: 0 <= i < n ==> Hop(r, q, head, i).HasNext()
  }

  /** No writable buffer overlaps a descriptor of the chain. */
  predicate TableSafe(r: Ram, q: Queue, head: U16, n: nat) {
    forall i, j :: 0 <= i <= n && 0 <= j <= n && Hop(r, q, head, i).Writable() ==>
      Apart(Hop(r, q, head, i).addr, Hop(r, q, head, i).len, q.descAddr + HopIndex(r, q, head, j) * 16, 16)
  }

  function Hops(r: Ram, q: Queue, head: U16, n: nat): (s: seq<Desc>)
    ensures |s| == n + 1 && forall i :: 0 <= i <= n ==> s[i] == Hop(r, q, head, i)
  {
    seq(n + 1, i requires 0 <= i <= n => Hop(r, q, head, i))
  }

  predicate SameTable(r: Ram, r': Ram, q: Queue, head: U16, n: nat) {
    forall j :: 0 <= j <= n ==> DescAt(r', q, HopIndex(r, q, head, j)) == Hop(r, q, head, j)
  }

  lemma SameTableAfter(r: Ram, r': Ram, q: Queue, head: U16, n: nat, i: nat, data: seq<Byte>)
    requires TableSafe(r, q, head, n) && SameTable(r, r', q, head, n)
    requires i <= n && Hop(r, q, head, i).Writable() && |data| <= Hop(r, q, head, i).len
    ensures SameTable(r, Write(r', Hop(r, q, head, i).addr, data), q, head, n)
  {
    hide Write, DescAt;
    var a := Hop(r, q, head, i).addr;
    forall j | 0 <= j <= n
      ensures DescAt(Write(r', a, data), q, HopIndex(r, q, head, j)) == Hop(r, q, head, j)
    {
      DescUntouched(r', q, HopIndex(r, q, head, j), a, data);
    }
  }

  /** The writable descriptors among these take all of `len` bytes. */
  predicate Suffices(descs: seq<Desc>, len: nat) {
    descs != [] &&
    if !descs[0].Writable() then Suffices(descs[1..], len)
    else len <= descs[0].len || Suffices(descs[1..], len - descs[0].len)
  }

  lemma {:induction false} SufficesIff(r: Ram, descs: seq<Desc>, len: nat)
    requires len > 0
    ensures Suffices(descs, len) <==> len <= |Writables(r, descs)|
    decreases |descs|
  {
    hide Read;
    if descs != [] {
      if !descs[0].Writable() {
        SufficesIff(r, descs[1..], len);
      } else if len > descs[0].len {
        SufficesIff(r, descs[1..], len - descs[0].len);
      }
    }
  }

  /** Laying `len` bytes comes to its end by descriptor `n`: the chain does, or they are laid by then. */
  predicate EndsBy(r: Ram, q: Queue, head: U16, n: nat, len: nat) {
    Linked(r, q, head, n) && (!Hop(r, q, head, n).HasNext() || Suffices(Hops(r, q, head, n), len))
  }

  /** The chain ends at descriptor `n`, or its writable buffers up to there hold `len` bytes in all. */
  predicate RoomBy(r: Ram, q: Queue, head: U16, n: nat, len: nat) {
    Linked(r, q, head, n) && (!Hop(r, q, head, n).HasNext() || len <= |Writables(r, Hops(r, q, head, n))|)
  }

  lemma RoomIsEnough(r: Ram, q: Queue, head: U16, n: nat, len: nat)
    requires len > 0
    ensures RoomBy(r, q, head, n, len) <==> EndsBy(r, q, head, n, len)
  {
    hide DescAt, Read, Suffices, Writables;
    SufficesIff(r, Hops(r, q, head, n), len);
  }

  lemma LaidLast(r: Ram, q: Queue, index: U16, reply: seq<Byte>, fuel: nat)
    requires fuel > 0 && var d := DescAt(r, q, index); !d.HasNext() || (d.Writable() && |reply| <= d.len)
    ensures var d := DescAt(r, q, index);
            Laid(r, q, index, reply, fuel) == Some(Scattered(r, [d], reply))
            && (d.Writable() && |reply| <= d.len ==>
                  forall more: seq<Desc> :: Scattered(r, [d] + more, reply) == Scattered(r, [d], reply))
  {
    hide DescAt, Write;
    var d := DescAt(r, q, index);
    assert [d][1..] == [];
  }

  lemma {:induction false} LaidFrom(r: Ram, r': Ram, q: Queue, head: U16, n: nat, i: nat, reply: seq<Byte>)
    requires TableSafe(r, q, head, n) && SameTable(r, r', q, head, n) && Linked(r, q, head, n) && i <= n
    requires !Hop(r, q, head, n).HasNext() || Suffices(Hops(r, q, head, n)[i..], |reply|)
    ensures Laid(r', q, HopIndex(r, q, head, i), reply, n - i + 1)
         == Some(Scattered(r', Hops(r, q, head, n)[i..], reply))
    decreases n - i
  {
    hide Read, Write, DescAt, TableSafe, Laid, Scattered, SameTable, Hops;
    var descs, d, index := Hops(r, q, head, n), Hop(r, q, head, i), HopIndex(r, q, head, i);
    HopsFrom(r, q, head, n, i);
    SameEntry(r, r', q, head, n, i);
    if !d.HasNext() || (d.Writable() && |reply| <= d.len) || i == n {
      LaidLast(r', q, index, reply, n - i + 1);
    } else if d.Writable() {
      LaidOn(r', q, index, reply, n - i + 1);
      ScatteredOn(r', descs[i..], reply);
      SameTableAfter(r, r', q, head, n, i, reply[..d.len]);
      LaidFrom(r, Write(r', d.addr, reply[..d.len]), q, head, n, i + 1, reply[d.len..]);
    } else {
      LaidPast(r', q, index, reply, n - i + 1);
      ScatteredPast(r', descs[i..], reply);
      LaidFrom(r, r', q, head, n, i + 1, reply);
    }
  }

  lemma HopsFrom(r: Ram, q: Queue, head: U16, n: nat, i: nat)
    requires i <= n
    ensures var descs := Hops(r, q, head, n);
            descs[i..] == [Hop(r, q, head, i)] + descs[i + 1..] && descs[i..][1..] == descs[i + 1..]
            && (i == n ==> descs[i..] == [Hop(r, q, head, i)])
  {
    hide DescAt;
  }

  lemma SameEntry(r: Ram, r': Ram, q: Queue, head: U16, n: nat, i: nat)
    requires SameTable(r, r', q, head, n) && i <= n
    ensures DescAt(r', q, HopIndex(r, q, head, i)) == Hop(r, q, head, i)
  {
    hide DescAt;
  }

  lemma ScatteredPast(r: Ram, descs: seq<Desc>, reply: seq<Byte>)
    requires descs != [] && !descs[0].Writable()
    ensures Scattered(r, descs, reply) == Scattered(r, descs[1..], reply)
  {
  }

  /** Over such a chain the reply fills the writable buffers in order, as far as it goes. */
  lemma LaidIsScattered(r: Ram, q: Queue, head: U16, n: nat, reply: seq<Byte>)
    requires TableSafe(r, q, head, n) && EndsBy(r, q, head, n, |reply|)
    ensures Laid(r, q, head, reply, n + 1) == Some(Scattered(r, Hops(r, q, head, n), reply))
  {
    hide DescAt, TableSafe, Laid, Scattered, Suffices;
    assert Hops(r, q, head, n)[0..] == Hops(r, q, head, n);
    LaidFrom(r, r, q, head, n, 0, reply);
  }

  /** No writable buffer of the chain, however long, overlaps one of its descriptors. */
  ghost predicate Spares(r: Ram, q: Queue, head: U16) {
    forall n :: TableSafe(r, q, head, n)
  }

  lemma {:induction false} LaidEnds(r: Ram, r': Ram, q: Queue, head: U16, i: nat, reply: seq<Byte>, fuel: nat)
    returns (n: nat)
    requires Spares(r, q, head) && (forall m :: SameTable(r, r', q, head, m)) && Linked(r, q, head, i)
    requires Laid(r', q, HopIndex(r, q, head, i), reply, fuel).Some?
    ensures i <= n && Linked(r, q, head, n)
    ensures !Hop(r, q, head, n).HasNext() || Suffices(Hops(r, q, head, n)[i..], |reply|)
    decreases fuel
  {
    hide Read, Write, DescAt, TableSafe, Laid, Scattered, SameTable;
    var d, index := Hop(r, q, head, i), HopIndex(r, q, head, i);
    TableEntry(r, r', q, head, i);
    NeedsFuel(r', q, index, reply, fuel);
    if !d.HasNext() || (d.Writable() && |reply| <= d.len) {
      n := i;
      assert Hops(r, q, head, n)[i..] == [d];
    } else if d.Writable() {
      LaidOn(r', q, index, reply, fuel);
      var w := Write(r', d.addr, reply[..d.len]);
      forall m: nat ensures SameTable(r, w, q, head, m) {
        TablesAfter(r, r', q, head, m, i, reply[..d.len]);
      }
      n := LaidEnds(r, w, q, head, i + 1, reply[d.len..], fuel - 1);
      assert Hops(r, q, head, n)[i..] == [d] + Hops(r, q, head, n)[i + 1..];
    } else {
      LaidPast(r', q, index, reply, fuel);
      n := LaidEnds(r, r', q, head, i + 1, reply, fuel - 1);
      assert Hops(r, q, head, n)[i..] == [d] + Hops(r, q, head, n)[i + 1..];
    }
  }

  lemma TableEntry(r: Ram, r': Ram, q: Queue, head: U16, i: nat)
    requires forall m :: SameTable(r, r', q, head, m)
    ensures DescAt(r', q, HopIndex(r, q, head, i)) == Hop(r, q, head, i)
  {
    hide DescAt;
    assert SameTable(r, r', q, head, i);
  }

  lemma TablesAfter(r: Ram, r': Ram, q: Queue, head: U16, m: nat, i: nat, data: seq<Byte>)
    requires Spares(r, q, head) && (forall n :: SameTable(r, r', q, head, n))
    requires Hop(r, q, head, i).Writable() && |data| <= Hop(r, q, head, i).len
    ensures SameTable(r, Write(r', Hop(r, q, head, i).addr, data), q, head, m)
  {
    hide Write, DescAt, TableSafe;
    var n := if i < m then m else i;
    SameTableAfter(r, r', q, head, n, i, data);
  }

  ghost predicate HasRoom(r: Ram, q: Queue, head: U16, len: nat) {
    exists n :: RoomBy(r, q, head, n, len)
  }

  /** Laying a reply returns exactly when the chain ends or has room for all of it. */
  lemma LaidIff(r: Ram, q: Queue, head: U16, reply: seq<Byte>)
    requires Spares(r, q, head) && reply != []
    ensures LaidAtAll(r, q, head, reply) <==> HasRoom(r, q, head, |reply|)
  {
    hide DescAt, TableSafe, Laid, Suffices, Scattered, RoomBy;
    if HasRoom(r, q, head, |reply|) {
      var n :| RoomBy(r, q, head, n, |reply|);
      RoomIsEnough(r, q, head, n, |reply|);
      LaidIsScattered(r, q, head, n, reply);
    }
    if LaidAtAll(r, q, head, reply) {
      assert Linked(r, q, head, 0);
      var n := LaidEnds(r, r, q, head, 0, reply, Fuel(r, q, head, reply));
      assert Hops(r, q, head, n)[0..] == Hops(r, q, head, n);
      RoomIsEnough(r, q, head, n, |reply|);
    }
  }

  // ---- how long laying a reply can take, on any chain ----

  /** A descriptor the walk passes without laying anything: memory and reply stay as they are. */
  predicate Passed(d: Desc, reply: seq<Byte>) {
    d.HasNext() && (!d.Writable() || (d.len == 0 && reply != []))
  }

  /** The first descriptor at which something happens is the n-th. */
  predicate ActsAt(r: Ram, q: Queue, head: U16, reply: seq<Byte>, n: nat) {
    && (forall i :: 0 <= i < n ==> Passed(Hop(r, q, head, i), reply))
    && !Passed(Hop(r, q, head, n), reply)
  }

  lemma LaidPassed(r: Ram, q: Queue, index: U16, reply: seq<Byte>, fuel: nat)
    requires fuel > 0 && Passed(DescAt(r, q, index), reply)
    ensures Laid(r, q, index, reply, fuel) == Laid(r, q, DescAt(r, q, index).next, reply, fuel - 1)
  {
    hide DescAt, Write;
    var d := DescAt(r, q, index);
    assert reply[0..] == reply && reply[..0] == [];
    WriteNothing(r, d.addr);
  }

  /** The walk goes straight to the first descriptor at which something happens. */
  lemma {:induction false} LaidFromAct(r: Ram, q: Queue, head: U16, reply: seq<Byte>, n: nat, fuel: nat)
    requires (forall i :: 0 <= i < n ==> Passed(Hop(r, q, head, i), reply)) && fuel >= n
    ensures Laid(r, q, head, reply, fuel) == Laid(r, q, HopIndex(r, q, head, n), reply, fuel - n)
    decreases n
  {
    hide DescAt, Laid;
    if n > 0 {
      LaidFromAct(r, q, head, reply, n - 1, fuel);
      assert Passed(Hop(r, q, head, n - 1), reply);
      LaidPassed(r, q, HopIndex(r, q, head, n - 1), reply, fuel - (n - 1));
    }
  }

  /** A walk that returns meets such a descriptor. */
  lemma {:induction false} LaidActs(r: Ram, q: Queue, head: U16, reply: seq<Byte>, i: nat, fuel: nat) returns (n: nat)
    requires forall k :: 0 <= k < i ==> Passed(Hop(r, q, head, k), reply)
    requires Laid(r, q, HopIndex(r, q, head, i), reply, fuel).Some?
    ensures ActsAt(r, q, head, reply, n)
    decreases fuel
  {
    hide DescAt, Laid;
    NeedsFuel(r, q, HopIndex(r, q, head, i), reply, fuel);
    if Passed(Hop(r, q, head, i), reply) {
      LaidPassed(r, q, HopIndex(r, q, head, i), reply, fuel);
      n := LaidActs(r, q, head, reply, i + 1, fuel - 1);
    } else {
      n := i;
    }
  }

  lemma ActsInTime(r: Ram, q: Queue, head: U16, reply: seq<Byte>, n: nat)
    requires ActsAt(r, q, head, reply, n)
    ensures n < 0x1_0000
  {
    hide DescAt;
    var visited := seq(n + 1, i requires 0 <= i <= n => HopIndex(r, q, head, i));
    forall i, j | 0 <= i < j <= n ensures visited[i] != visited[j] {
      if visited[i] == visited[j] {
        Repeats(r, q, head, i, j, n - j);
        var earlier := Hop(r, q, head, i + (n - j));
      }
    }
    Pigeonhole(visited, 0x1_0000);
  }

  /** One pass over the table for every byte of the reply, and one more. */
  function ReplyBound(reply: seq<Byte>): nat {
    (|reply| + 1) * 0x1_0000
  }

  /**
    On every chain, whatever its buffers overlap: laying a reply either ends within one pass
    over the table for every byte of the reply and one more, or never.
   */
  lemma {:induction false} LaidInTime(r: Ram, q: Queue, head: U16, reply: seq<Byte>)
    ensures LaidAtAll(r, q, head, reply) <==> Laid(r, q, head, reply, ReplyBound(reply)).Some?
    decreases |reply|
  {
    hide DescAt, Laid, Write, ReplyBound;
    if LaidAtAll(r, q, head, reply) {
      var fuel := Fuel(r, q, head, reply);
      var n := LaidActs(r, q, head, reply, 0, fuel);
      ActsInTime(r, q, head, reply, n);
      var all := if fuel < n then n else fuel;
      LaidMore(r, q, head, reply, fuel, all);
      LaidFromAct(r, q, head, reply, n, all);
      var index, d := HopIndex(r, q, head, n), Hop(r, q, head, n);
      NeedsFuel(r, q, index, reply, all - n);
      Bound(reply, n);
      LaidFromAct(r, q, head, reply, n, ReplyBound(reply));
      if !d.HasNext() || (d.Writable() && |reply| <= d.len) {
        LaidStopped(r, q, index, reply, ReplyBound(reply) - n);
      } else {
        var w := Write(r, d.addr, reply[..d.len]);
        LaidOn(r, q, index, reply, all - n);
        LaidOn(r, q, index, reply, ReplyBound(reply) - n);
        LaidInTime(w, q, d.next, reply[d.len..]);
        Fewer(reply, d.len, n);
        LaidMore(w, q, d.next, reply[d.len..], ReplyBound(reply[d.len..]), ReplyBound(reply) - n - 1);
      }
    }
  }

  lemma Bound(reply: seq<Byte>, n: nat)
    requires n < 0x1_0000
    ensures ReplyBound(reply) > n
  {
  }

  lemma Fewer(reply: seq<Byte>, k: nat, n: nat)
    requires 0 < k < |reply| && n < 0x1_0000
    ensures ReplyBound(reply[k..]) <= ReplyBound(reply) - n - 1
  {
  }
}
