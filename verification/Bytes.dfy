/** Bytes as numbers, and the few sequence helpers that the binary formats share. */
module Bytes {
  type Byte = b: int | 0 <= b < 256

  function At(d: seq<Byte>, i: nat): int
    requires i < |d|
  {
    d[i]
  }

  function Min(a: nat, b: nat): nat {
    if a <= b then a else b
  }

  function Zeros(n: nat): (r: seq<Byte>)
    ensures |r| == n && forall k :: 0 <= k < n ==> r[k] == 0
  {
    seq(n, k => 0)
  }

  /** The byte order of `std::string`. */
  predicate Less(a: seq<Byte>, b: seq<Byte>) {
    b != [] && (a == [] || a[0] < b[0] || (a[0] == b[0] && Less(a[1..], b[1..])))
  }

  lemma {:induction false} LessIrreflexive(a: seq<Byte>)
    ensures !Less(a, a)
  {
    if a != [] {
      LessIrreflexive(a[1..]);
    }
  }

  lemma {:induction false} LessTransitive(a: seq<Byte>, b: seq<Byte>, c: seq<Byte>)
    requires Less(a, b) && Less(b, c)
    ensures Less(a, c)
  {
    if a != [] && a[0] == b[0] && b[0] == c[0] {
      LessTransitive(a[1..], b[1..], c[1..]);
    }
  }

  lemma {:induction false} LessTotal(a: seq<Byte>, b: seq<Byte>)
    ensures Less(a, b) || a == b || Less(b, a)
  {
    if a != [] && b != [] {
      LessTotal(a[1..], b[1..]);
      assert a == [a[0]] + a[1..] && b == [b[0]] + b[1..];
    }
  }

  lemma {:induction false} LessAfter(p: seq<Byte>, a: seq<Byte>, b: seq<Byte>)
    ensures Less(p + a, p + b) == Less(a, b)
  {
    if p == [] {
      assert p + a == a && p + b == b;
    } else {
      assert (p + a)[1..] == p[1..] + a && (p + b)[1..] == p[1..] + b;
      LessAfter(p[1..], a, b);
    }
  }

  /** Between texts of equal length, what is smaller stays smaller whatever follows. */
  lemma {:induction false} LessBefore(a: seq<Byte>, b: seq<Byte>, s: seq<Byte>, t: seq<Byte>)
    requires |a| == |b| && Less(a, b)
    ensures Less(a + s, b + t)
  {
    assert (a + s)[1..] == a[1..] + s && (b + t)[1..] == b[1..] + t;
    if a[0] == b[0] {
      LessBefore(a[1..], b[1..], s, t);
    }
  }

  /** The order in plain terms: at the first difference `a` has ended or has the smaller byte. */
  lemma {:induction false} LessIff(a: seq<Byte>, b: seq<Byte>)
    ensures Less(a, b) <==> exists k: nat :: DiffersAt(a, b, k) && (k == |a| || a[k] < b[k])
  {
    if a == [] || b == [] || a[0] != b[0] {
      assert b != [] ==> DiffersAt(a, b, 0);
    } else {
      var s, t := a[1..], b[1..];
      LessIff(s, t);
      assert a == [a[0]] + s && b == [b[0]] + t;
      forall k: nat ensures DiffersAt(a, b, k + 1) <==> DiffersAt(s, t, k) {
        SamePrefix(a, b, k);
      }
      if k: nat :| DiffersAt(a, b, k) && (k == |a| || a[k] < b[k]) {
        assert DiffersAt(s, t, k - 1);
      }
    }
  }

  /** The texts agree before position `k`, and `b` goes on there. */
  predicate DiffersAt(a: seq<Byte>, b: seq<Byte>, k: nat) {
    k <= |a| && k < |b| && a[..k] == b[..k]
  }

  lemma SamePrefix(a: seq<Byte>, b: seq<Byte>, k: nat)
    requires a != [] && b != [] && a[0] == b[0]
    ensures DiffersAt(a, b, k + 1) <==> DiffersAt(a[1..], b[1..], k)
  {
    if k + 1 <= |a| && k + 1 <= |b| {
      assert a[..k + 1] == [a[0]] + a[1..][..k] && b[..k + 1] == [b[0]] + b[1..][..k];
      assert a[..k + 1] == b[..k + 1] ==> a[1..][..k] == a[..k + 1][1..] == b[..k + 1][1..] == b[1..][..k];
    }
  }

  /** The bytes of a text. */
  function Ascii(s: string): (r: seq<Byte>)
    requires forall i :: 0 <= i < |s| ==> s[i] < 128 as char
    ensures |r| == |s|
  {
    seq(|s|, i requires 0 <= i < |s| => s[i] as int)
  }
}
