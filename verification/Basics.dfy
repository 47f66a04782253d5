/** What the modules share: optional values, the smaller and the greater of two reals, and the one fact
    about products that the index arithmetic needs. */
module Basics {
  datatype Option<T> = None | Some(value: T)

  function MinReal(a: real, b: real): real {
    if b < a then b else a
  }

  function MaxReal(a: real, b: real): real {
    if a < b then b else a
  }

  /** Two occurrences in a sequence are at two places. */
  lemma TwoPlaces<T>(a: seq<T>, x: T, y: T) returns (i: nat, j: nat)
    requires multiset{x, y} <= multiset(a)
    ensures i < |a| && j < |a| && i != j && a[i] == x && a[j] == y
  {
    assert x in multiset(a);
    var n := |a| - 1;
    var init := a[..n];
    assert a == init + [a[n]];
    if a[n] == x {
      assert y in multiset(init);
      var k :| 0 <= k < n && init[k] == y;
      i, j := n, k;
    } else if a[n] == y {
      assert x in multiset(init);
      var k :| 0 <= k < n && init[k] == x;
      i, j := k, n;
    } else {
      i, j := TwoPlaces(init, x, y);
    }
  }

  lemma Times(a: int, b: int, c: nat)
    requires a <= b
    ensures a * c <= b * c
  {
    var d := b - a;
    assert b * c == a * c + d * c;
  }

  /** Division by its defining property. */
  lemma DivMod(v: nat, q: nat, r: nat, n: nat)
    requires r < n && v == q * n + r
    ensures v / n == q && v % n == r
  {
    var k, m := v / n, v % n;
    assert v == k * n + m;
    assert (q + 1) * n == q * n + n && (k + 1) * n == k * n + n;
    if k < q {
      Times(k + 1, q, n);
    } else if q < k {
      Times(q + 1, k, n);
    }
  }
}
