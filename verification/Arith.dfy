/** Division facts the ring and stride arithmetic rests on. */
module Arith {

  function Min(a: nat, b: nat): nat {
    if a < b then a else b
  }

  lemma MulGap(x: int, y: int, n: int)
    requires x > y && n >= 0
    ensures x * n >= y * n + n
  {
    var d := x - y - 1;
    assert x * n == (y + 1 + d) * n == y * n + n + d * n;
    assert d * n >= 0;
  }

  lemma MulSucc(x: int, n: int)
    ensures (x + 1) * n == x * n + n
  {
  }

  lemma DivUnique(a: int, n: int, q: int, m: int)
    requires n > 0 && a == q * n + m && 0 <= m < n
    ensures a / n == q && a % n == m
  {
    var q', m' := a / n, a % n;
    assert a == q' * n + m';
    if q > q' {
      MulGap(q, q', n);
    } else if q < q' {
      MulGap(q', q, n);
    }
  }

  lemma ModShift(a: int, k: int, n: int)
    requires n > 0
    ensures (a + k * n) % n == a % n
  {
    var d, m := a / n, a % n;
    assert a == d * n + m;
    assert (d + k) * n == d * n + k * n;
    DivUnique(a + k * n, n, d + k, m);
  }

  /** Two counters less than a ring apart occupy different slots. */
  lemma DistinctSlots(j: nat, k: nat, n: nat)
    requires j < k < j + n
    ensures j % n != k % n
  {
    if j % n == k % n {
      var a, b := j / n, k / n;
      assert j == a * n + j % n && k == b * n + k % n;
      if b > a {
        MulGap(b, a, n);
      } else if b < a {
        MulGap(a, b, n);
      }
    }
  }

  /** More than `m` numbers below `m` cannot all be different. */
  lemma {:induction false} Pigeonhole(s: seq<nat>, m: nat)
    requires forall i :: 0 <= i < |s| ==> s[i] < m
    requires forall i, j :: 0 <= i < j < |s| ==> s[i] != s[j]
    ensures |s| <= m
    decreases m
  {
    if s != [] {
      assert s[0] < m;
      if k :| 0 <= k < |s| && s[k] == m - 1 {
        var rest := s[..k] + s[k + 1..];
        assert forall i :: 0 <= i < |rest| ==> rest[i] == s[if i < k then i else i + 1];
        Pigeonhole(rest, m - 1);
      } else {
        Pigeonhole(s, m - 1);
      }
    }
  }
}
