/**
  Guest physical memory as the devices see it: one RAM region, addressed by
  guest physical addresses.  `Ram` is the value of the region; `GuestMemory` is
  the handle that reads and updates it in place.

  An access that does not lie inside the region reads as zeros and writes
  nothing, which is what the bulk accessors of the source do.
 */
module GuestRam {
  import opened Bytes

  datatype Ram = Ram(start: nat, bytes: seq<Byte>)

  predicate InRam(r: Ram, addr: nat, len: nat) {
    r.start <= addr && addr + len <= r.start + |r.bytes|
  }

  function Read(r: Ram, addr: nat, len: nat): (s: seq<Byte>)
    ensures |s| == len
  {
    if InRam(r, addr, len) then r.bytes[addr - r.start..addr - r.start + len] else Zeros(len)
  }

  function Write(r: Ram, addr: nat, data: seq<Byte>): (r': Ram)
    ensures r'.start == r.start && |r'.bytes| == |r.bytes|
  {
    if InRam(r, addr, |data|) then
      var i := addr - r.start;
      Ram(r.start, r.bytes[..i] + data + r.bytes[i + |data|..])
    else r
  }

  function Read8(r: Ram, addr: nat): Byte {
    Read(r, addr, 1)[0]
  }

  function Read16(r: Ram, addr: nat): U16 {
    WidthBounds();
    FromLe(Read(r, addr, 2))
  }

  function Read32(r: Ram, addr: nat): U32 {
    WidthBounds();
    FromLe(Read(r, addr, 4))
  }

  function Read64(r: Ram, addr: nat): U64 {
    WidthBounds();
    FromLe(Read(r, addr, 8))
  }

  function Write8(r: Ram, addr: nat, v: Byte): Ram {
    Write(r, addr, [v])
  }

  function Write16(r: Ram, addr: nat, v: U16): Ram {
    Write(r, addr, ToLe(v, 2))
  }

  function Write32(r: Ram, addr: nat, v: U32): Ram {
    Write(r, addr, ToLe(v, 4))
  }

  function Write64(r: Ram, addr: nat, v: U64): Ram {
    Write(r, addr, ToLe(v, 8))
  }

  // ---- reading back what was written ----

  lemma WriteIndex(r: Ram, a: nat, data: seq<Byte>, i: nat)
    requires i < |r.bytes|
    ensures Write(r, a, data).bytes[i]
         == if InRam(r, a, |data|) && a <= r.start + i < a + |data| then data[r.start + i - a] else r.bytes[i]
  {
  }

  lemma ReadOther(r: Ram, a: nat, data: seq<Byte>, b: nat, len: nat)
    requires Apart(a, |data|, b, len)
    ensures Read(Write(r, a, data), b, len) == Read(r, b, len)
  {
    var w := Write(r, a, data);
    if InRam(r, b, len) {
      forall i | 0 <= i < len
        ensures Read(w, b, len)[i] == Read(r, b, len)[i]
      {
      }
    }
  }

  lemma WriteNothing(r: Ram, a: nat)
    ensures Write(r, a, []) == r
  {
    var w := Write(r, a, []);
    assert w.bytes == r.bytes;
  }

  lemma ReadSame(r: Ram, a: nat, data: seq<Byte>)
    requires InRam(r, a, |data|)
    ensures Read(Write(r, a, data), a, |data|) == data
  {
  }

  lemma ReadPart(r: Ram, a: nat, len: nat, off: nat, n: nat)
    requires InRam(r, a, len) && off + n <= len
    ensures Read(r, a + off, n) == Read(r, a, len)[off..off + n]
  {
    var whole, part := Read(r, a, len), Read(r, a + off, n);
    assert forall i :: 0 <= i < n ==> part[i] == whole[off + i];
    assert part == whole[off..off + n];
  }

  /** Two adjacent writes are one write of the joined data. */
  lemma WriteJoin(r: Ram, a: nat, x: seq<Byte>, y: seq<Byte>)
    requires InRam(r, a, |x| + |y|)
    ensures Write(Write(r, a, x), a + |x|, y) == Write(r, a, x + y)
  {
    var i := a - r.start;
    var l := Write(Write(r, a, x), a + |x|, y).bytes;
    var w := Write(r, a, x + y).bytes;
    forall k | 0 <= k < |w|
      ensures l[k] == w[k]
    {
    }
    assert l == w;
  }

  lemma Read16Same(r: Ram, a: nat, v: U16)
    requires InRam(r, a, 2)
    ensures Read16(Write16(r, a, v), a) == v
  {
    ReadSame(r, a, ToLe(v, 2));
    WidthBounds();
    FromToLe(v, 2);
  }

  lemma Read32Same(r: Ram, a: nat, v: U32)
    requires InRam(r, a, 4)
    ensures Read32(Write32(r, a, v), a) == v
  {
    ReadSame(r, a, ToLe(v, 4));
    WidthBounds();
    FromToLe(v, 4);
  }

  // ---- the handle ----

  class GuestMemory {
    const start: nat
    const ram: array<Byte>

    function View(): Ram
      reads ram
    {
      Ram(start, ram[..])
    }

    constructor (start: nat, size: nat)
      ensures this.start == start && fresh(ram)
      ensures View() == Ram(start, Zeros(size))
    {
      this.start := start;
      ram := new Byte[size](_ => 0);
      new;
      assert ram[..] == Zeros(size);
    }

    method ReadBytes(addr: nat, len: nat) returns (data: seq<Byte>)
      ensures data == Read(View(), addr, len)
    {
      if start <= addr && addr + len <= start + ram.Length {
        data := ram[addr - start..addr - start + len];
        assert data == ram[..][addr - start..addr - start + len];
      } else {
        data := Zeros(len);
      }
    }

    method WriteBytes(addr: nat, data: seq<Byte>)
      modifies ram
      ensures View() == Write(old(View()), addr, data)
    {
      if start <= addr && addr + |data| <= start + ram.Length {
        CopyInto(ram, addr - start, data);
      }
    }
  }
}
