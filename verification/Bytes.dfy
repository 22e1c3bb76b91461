/** Fixed-width unsigned integers and their little-endian encoding. */
module Bytes {

  type Byte = x: int | 0 <= x < 0x100
  type U16 = x: int | 0 <= x < 0x1_0000
  type U32 = x: int | 0 <= x < 0x1_0000_0000
  type U64 = x: int | 0 <= x < 0x1_0000_0000_0000_0000

  function Pow256(n: nat): (p: int)
    ensures p > 0
  {
    if n == 0 then 1 else 256 * Pow256(n - 1)
  }

  /** The low `n` bytes of `v`, least significant first. */
  function ToLe(v: nat, n: nat): (s: seq<Byte>)
    ensures |s| == n
  {
    if n == 0 then [] else [v % 256] + ToLe(v / 256, n - 1)
  }

  /** The number a little-endian byte string denotes. */
  function FromLe(s: seq<Byte>): (v: nat)
    ensures v < Pow256(|s|)
  {
    if s == [] then 0 else s[0] + 256 * FromLe(s[1..])
  }

  lemma WidthBounds()
    ensures Pow256(1) == 0x100
    ensures Pow256(2) == 0x1_0000
    ensures Pow256(4) == 0x1_0000_0000
    ensures Pow256(8) == 0x1_0000_0000_0000_0000
  {
    assert Pow256(3) == 0x100_0000;
    assert Pow256(5) == 0x100_0000_0000;
    assert Pow256(6) == 0x1_0000_0000_0000;
    assert Pow256(7) == 0x100_0000_0000_0000;
  }

  /** Encoding truncates to the width and is otherwise undone by decoding. */
  lemma {:induction false} FromToLe(v: nat, n: nat)
    requires v < Pow256(n)
    ensures FromLe(ToLe(v, n)) == v
  {
    if n > 0 {
      FromToLe(v / 256, n - 1);
      assert ToLe(v, n)[1..] == ToLe(v / 256, n - 1);
    }
  }

  lemma {:induction false} ToFromLe(s: seq<Byte>)
    ensures ToLe(FromLe(s), |s|) == s
  {
    if s != [] {
      ToFromLe(s[1..]);
      assert s == [s[0]] + s[1..];
      assert FromLe(s) % 256 == s[0] && FromLe(s) / 256 == FromLe(s[1..]);
    }
  }

  function U16At(b: seq<Byte>, at: nat): U16
    requires at + 2 <= |b|
  {
    WidthBounds();
    FromLe(b[at..at + 2])
  }

  function U32At(b: seq<Byte>, at: nat): U32
    requires at + 4 <= |b|
  {
    WidthBounds();
    FromLe(b[at..at + 4])
  }

  function U64At(b: seq<Byte>, at: nat): U64
    requires at + 8 <= |b|
  {
    WidthBounds();
    FromLe(b[at..at + 8])
  }

  /** The ranges [a, a+n) and [b, b+m) do not overlap. */
  predicate Apart(a: nat, n: nat, b: nat, m: nat) {
    a + n <= b || b + m <= a
  }

  lemma SliceSlice(b: seq<Byte>, lo: nat, hi: nat, d: nat, n: nat)
    requires lo + d + n <= hi <= |b|
    ensures b[lo..hi][d..d + n] == b[lo + d..lo + d + n]
  {
    var x, y := b[lo..hi][d..d + n], b[lo + d..lo + d + n];
    assert forall i :: 0 <= i < n ==> x[i] == y[i];
    assert x == y;
  }

  /** `b` holds `data` at `at`. */
  predicate Holds(b: seq<Byte>, at: nat, data: seq<Byte>) {
    at + |data| <= |b| && b[at..at + |data|] == data
  }

  lemma HoldsPart(b: seq<Byte>, at: nat, data: seq<Byte>, lo: nat, part: seq<Byte>)
    requires Holds(b, at, data) && lo + |part| <= |data| && data[lo..lo + |part|] == part
    ensures Holds(b, at + lo, part)
  {
    SliceSlice(b, at, at + |data|, lo, |part|);
  }

  lemma HoldsAt(b: seq<Byte>, at: nat, data: seq<Byte>)
    requires at + |data| <= |b| && b[at..at + |data|] == data
    ensures Holds(b, at, data)
  {
  }

  lemma HeldLength(b: seq<Byte>, at: nat, data: seq<Byte>)
    requires Holds(b, at, data)
    ensures at + |data| <= |b|
  {
  }

  lemma HoldsNumber(b: seq<Byte>, at: nat, v: nat)
    ensures v < 0x1_0000 && Holds(b, at, ToLe(v, 2)) ==> U16At(b, at) == v
    ensures v < 0x1_0000_0000 && Holds(b, at, ToLe(v, 4)) ==> U32At(b, at) == v
    ensures v < 0x1_0000_0000_0000_0000 && Holds(b, at, ToLe(v, 8)) ==> U64At(b, at) == v
  {
    hide ToLe, FromLe;
    WidthBounds();
    if v < 0x1_0000 { FromToLe(v, 2); }
    if v < 0x1_0000_0000 { FromToLe(v, 4); }
    if v < 0x1_0000_0000_0000_0000 { FromToLe(v, 8); }
  }

  lemma FourWords(a: seq<Byte>, b: seq<Byte>, c: seq<Byte>, d: seq<Byte>)
    requires |a| == |b| == |c| == |d| == 4
    ensures var s := a + b + c + d;
            s[0..0 + 4] == a && s[4..4 + 4] == b && s[8..8 + 4] == c && s[12..12 + 4] == d
  {
  }

  /** `n` zero bytes. */
  function Zeros(n: nat): (s: seq<Byte>)
    ensures |s| == n && forall i :: 0 <= i < n ==> s[i] == 0
  {
    seq(n, _ => 0)
  }

  method CopyInto(a: array<Byte>, at: nat, data: seq<Byte>)
    requires at + |data| <= a.Length
    modifies a
    ensures a[..] == old(a[..])[..at] + data + old(a[..])[at + |data|..]
  {
    ghost var was := a[..];
    for i := 0 to |data|
      invariant a[..] == was[..at] + data[..i] + was[at + i..]
    {
      a[at + i] := data[i];
    }
    assert data[..|data|] == data;
  }
}
