/** The reorder buffer of `utils.hpp`: items arrive with an index, in any order, and are passed to a
    callback in index order. */
module IndexedQueue {
  import Basics

  datatype View<T> = View(buffer: map<nat, T>, cur: nat)

  function Start<T>(): View<T> {
    View(map[], 0)
  }

  /** The inner loop: hand out the buffered items from `cur` on, as far as they go without a gap. */
  function Drain<T>(v: View<T>): (r: (View<T>, seq<T>))
    decreases |v.buffer|
  {
    if v.cur in v.buffer then
      var (w, rest) := Drain(View(v.buffer - {v.cur}, v.cur + 1));
      (w, [v.buffer[v.cur]] + rest)
    else (v, [])
  }

  /** One `put`: the new state, and the data passed to the callback, in order. */
  function PutStep<T>(v: View<T>, index: nat, data: T): (View<T>, seq<T>) {
    if index == v.cur then
      var (w, rest) := Drain(View(v.buffer, v.cur + 1));
      (w, [data] + rest)
    else (v.(buffer := v.buffer[index := data]), [])
  }

  class IndexedQueue<T> {
    var buffer: map<nat, T>
    var cur: nat
    var last: nat

    function Now(): View<T>
      reads this
    {
      View(buffer, cur)
    }

    constructor ()
      ensures Now() == Start()
    {
      buffer, cur, last := map[], 0, 0;
    }

    method Put(index: nat, data: T) returns (called: seq<T>)
      modifies this
      ensures (Now(), called) == PutStep(old(Now()), index, data)
    {
      called := [];
      if index == cur {
        called := called + [data];
        cur := cur + 1;
        ghost var (end, rest) := Drain(Now());
        while cur in buffer
          invariant Drain(Now()).0 == end && called + Drain(Now()).1 == [data] + rest
          decreases |buffer|
        {
          assert (called + [buffer[cur]]) + Drain(View(buffer - {cur}, cur + 1)).1 == called + Drain(Now()).1;
          called := called + [buffer[cur]];
          buffer := buffer - {cur};
          cur := cur + 1;
        }
        assert called + [] == called;
        last := cur;
      } else {
        buffer := buffer[index := data];
      }
    }
  }

  // ------------------------------------------------------------------ whole runs

  /** A run of `put`s from the empty queue: the final state, and everything called back. */
  function Run<T>(arrivals: seq<(nat, T)>): (View<T>, seq<T>) {
    if arrivals == [] then (Start(), [])
    else
      var n := |arrivals| - 1;
      var (v, before) := Run(arrivals[..n]);
      var (w, now) := PutStep(v, arrivals[n].0, arrivals[n].1);
      (w, before + now)
  }

  ghost predicate Arrived<T>(arrivals: seq<(nat, T)>, k: nat) {
    exists i :: 0 <= i < |arrivals| && arrivals[i].0 == k
  }

  ghost predicate Distinct<T>(arrivals: seq<(nat, T)>) {
    forall i, j :: 0 <= i < j < |arrivals| ==> arrivals[i].0 != arrivals[j].0
  }

  /** The account of a run: called back are indices 0 to `cur - 1`, each with data that arrived under
      it; everything else that arrived from `cur` on is buffered. */
  ghost predicate Account<T(!new)>(arrivals: seq<(nat, T)>, v: View<T>, called: seq<T>) {
    && |called| == v.cur
    && (forall k :: 0 <= k < |called| ==> (k, called[k]) in arrivals)
    && (forall k <- v.buffer :: (k, v.buffer[k]) in arrivals)
    && (forall i :: 0 <= i < |arrivals| && v.cur <= arrivals[i].0 ==> arrivals[i].0 in v.buffer)
  }

  lemma {:induction false} DrainKeeps<T(!new)>(arrivals: seq<(nat, T)>, v: View<T>, called: seq<T>)
    requires Account(arrivals, v, called)
    ensures Account(arrivals, Drain(v).0, called + Drain(v).1)
    ensures Drain(v).0.cur !in Drain(v).0.buffer
    ensures Drain(v).0.buffer.Keys <= v.buffer.Keys
    ensures (forall k <- v.buffer :: v.cur <= k) ==> forall k <- Drain(v).0.buffer :: Drain(v).0.cur < k
    decreases |v.buffer|
  {
    if v.cur in v.buffer {
      var next := View(v.buffer - {v.cur}, v.cur + 1);
      DrainKeeps(arrivals, next, called + [v.buffer[v.cur]]);
      assert called + Drain(v).1 == (called + [v.buffer[v.cur]]) + Drain(next).1;
    } else {
      assert called + Drain(v).1 == called;
    }
  }

  lemma AccountGrows<T(!new)>(arrivals: seq<(nat, T)>, x: (nat, T), v: View<T>, called: seq<T>)
    requires Account(arrivals, v, called)
    ensures x.0 != v.cur ==> Account(arrivals + [x], v.(buffer := v.buffer[x.0 := x.1]), called)
    ensures x.0 == v.cur && v.cur !in v.buffer ==> Account(arrivals + [x], View(v.buffer, v.cur + 1), called + [x.1])
  {
    var more := arrivals + [x];
    assert more[|arrivals|] == x;
    assert forall y <- arrivals :: y in more;
  }

  /** One more arrival. */
  lemma PutKeeps<T(!new)>(arrivals: seq<(nat, T)>, x: (nat, T), v: View<T>, called: seq<T>)
    requires Account(arrivals, v, called) && v.cur !in v.buffer
    ensures var (w, more) := PutStep(v, x.0, x.1);
            Account(arrivals + [x], w, called + more) && w.cur !in w.buffer
  {
    hide Drain, Account;
    AccountGrows(arrivals, x, v, called);
    if x.0 == v.cur {
      var next := View(v.buffer, v.cur + 1);
      DrainKeeps(arrivals + [x], next, called + [x.1]);
      assert called + ([x.1] + Drain(next).1) == (called + [x.1]) + Drain(next).1;
    } else {
      assert called + [] == called;
    }
  }

  /** After any arrivals, repeated indices included, the queue has called back on exactly the longest
      contiguous run of indices that arrived from 0: in index order, once each, with data that
      arrived under that index. What arrived above it waits in the buffer. */
  lemma {:induction false} RunAccount<T(!new)>(arrivals: seq<(nat, T)>)
    ensures Account(arrivals, Run(arrivals).0, Run(arrivals).1)
    ensures Run(arrivals).0.cur !in Run(arrivals).0.buffer
    ensures !Arrived(arrivals, Run(arrivals).0.cur)
    ensures forall k: nat :: k < Run(arrivals).0.cur ==> Arrived(arrivals, k)
  {
    if arrivals != [] {
      hide PutStep, Account;
      var n := |arrivals| - 1;
      RunAccount(arrivals[..n]);
      PutKeeps(arrivals[..n], arrivals[n], Run(arrivals[..n]).0, Run(arrivals[..n]).1);
      assert arrivals[..n] + [arrivals[n]] == arrivals;
    }
    AccountFrontier(arrivals, Run(arrivals).0, Run(arrivals).1);
  }

  lemma AccountFrontier<T(!new)>(arrivals: seq<(nat, T)>, v: View<T>, called: seq<T>)
    requires Account(arrivals, v, called) && v.cur !in v.buffer
    ensures !Arrived(arrivals, v.cur)
    ensures forall k: nat :: k < v.cur ==> Arrived(arrivals, k)
  {
    forall k: nat | k < v.cur ensures Arrived(arrivals, k) {
      assert (k, called[k]) in arrivals;
    }
  }

  /** When the indices are distinct nothing stale stays behind: the buffered keys are all above `cur`. */
  lemma {:induction false} DistinctBuffer<T(!new)>(arrivals: seq<(nat, T)>)
    requires Distinct(arrivals)
    ensures forall k <- Run(arrivals).0.buffer :: Run(arrivals).0.cur < k
  {
    if arrivals != [] {
      var n := |arrivals| - 1;
      var x := arrivals[n];
      var (v, before) := Run(arrivals[..n]);
      DistinctBuffer(arrivals[..n]);
      RunAccount(arrivals[..n]);
      assert !Arrived(arrivals[..n], x.0);
      assert v.cur <= x.0;
      if x.0 == v.cur {
        AccountGrows(arrivals[..n], x, v, before);
        DrainKeeps(arrivals[..n] + [x], View(v.buffer, v.cur + 1), before + [x.1]);
      }
    }
  }

  lemma SameData<T(!new)>(a: seq<(nat, T)>, k: nat, x: T, y: T)
    requires Distinct(a) && (k, x) in a && (k, y) in a
    ensures x == y
  {
  }

  /** The order of arrival does not matter: the same distinct arrivals in any order give the same
      callbacks, in the same order, and the same buffer. */
  lemma OrderIrrelevant<T(!new)>(a: seq<(nat, T)>, b: seq<(nat, T)>)
    requires multiset(a) == multiset(b) && Distinct(a)
    ensures Run(a) == Run(b)
  {
    hide Run, Account, Arrived;
    DistinctBag(a, b);
    RunAccount(a);
    RunAccount(b);
    SameElements(a, b);
    SameElements(b, a);
    DistinctBuffer(a);
    DistinctBuffer(b);
    var (v, called) := Run(a);
    var (w, called') := Run(b);
    FrontierUnique(a, b, v.cur, w.cur);
    SameCalls(a, b, v, w, called, called');
    SameBuffers(a, b, v, w, called, called');
  }

  lemma DistinctBag<T(!new)>(a: seq<(nat, T)>, b: seq<(nat, T)>)
    requires multiset(a) == multiset(b) && Distinct(a)
    ensures Distinct(b)
  {
    forall i, j | 0 <= i < j < |b| ensures b[i].0 != b[j].0 {
      BothCounted(b, i, j);
      var k, l := Basics.TwoPlaces(a, b[i], b[j]);
    }
  }

  lemma BothCounted<T>(b: seq<T>, i: nat, j: nat)
    requires i < j < |b|
    ensures multiset{b[i], b[j]} <= multiset(b)
  {
    var before, between, after := b[..i], b[i + 1..j], b[j + 1..];
    assert b == before + [b[i]] + between + [b[j]] + after;
  }

  lemma SameElements<T(!new)>(a: seq<(nat, T)>, b: seq<(nat, T)>)
    requires multiset(a) == multiset(b)
    ensures forall x <- a :: x in b
    ensures forall k: nat :: Arrived(a, k) ==> Arrived(b, k)
  {
    forall x | x in a ensures x in b {
      assert x in multiset(b);
    }
    forall k: nat | Arrived(a, k) ensures Arrived(b, k) {
      var i :| 0 <= i < |a| && a[i].0 == k;
      assert a[i] in b;
    }
  }

  lemma FrontierUnique<T(!new)>(a: seq<(nat, T)>, b: seq<(nat, T)>, c: nat, d: nat)
    requires forall k: nat :: Arrived(a, k) <==> Arrived(b, k)
    requires !Arrived(a, c) && (forall k: nat :: k < c ==> Arrived(a, k))
    requires !Arrived(b, d) && (forall k: nat :: k < d ==> Arrived(b, k))
    ensures c == d
  {
    hide Arrived;
    assert c < d ==> Arrived(b, c);
    assert d < c ==> Arrived(a, d);
  }

  lemma SameCalls<T(!new)>(a: seq<(nat, T)>, b: seq<(nat, T)>, v: View<T>, w: View<T>, s: seq<T>, t: seq<T>)
    requires Account(a, v, s) && Account(b, w, t) && v.cur == w.cur
    requires Distinct(b) && forall x <- a :: x in b
    ensures s == t
  {
    forall k: nat | k < |s| ensures s[k] == t[k] {
      SameData(b, k, s[k], t[k]);
    }
  }

  lemma SameBuffers<T(!new)>(a: seq<(nat, T)>, b: seq<(nat, T)>, v: View<T>, w: View<T>, s: seq<T>, t: seq<T>)
    requires Account(a, v, s) && Account(b, w, t) && v.cur == w.cur
    requires Distinct(b) && (forall x <- a :: x in b) && (forall x <- b :: x in a)
    requires (forall k <- v.buffer :: v.cur < k) && (forall k <- w.buffer :: w.cur < k)
    ensures v.buffer == w.buffer
  {
    forall k | k in v.buffer ensures k in w.buffer && v.buffer[k] == w.buffer[k] {
      var i :| 0 <= i < |b| && b[i] == (k, v.buffer[k]);
      assert b[i].0 in w.buffer;
      SameData(b, k, v.buffer[k], w.buffer[k]);
    }
    forall k | k in w.buffer ensures k in v.buffer {
      var i :| 0 <= i < |a| && a[i] == (k, w.buffer[k]);
      assert a[i].0 in v.buffer;
    }
  }

  function Indexed<T>(data: seq<T>): (r: seq<(nat, T)>)
    ensures |r| == |data| && forall i :: 0 <= i < |data| ==> r[i] == (i, data[i])
  {
    seq(|data|, i requires 0 <= i < |data| => (i, data[i]))
  }

  /** After any permutation of the indices 0 to n-1 everything has been called back in index order and
      nothing is left. */
  lemma Permutation<T(!new)>(arrivals: seq<(nat, T)>, data: seq<T>)
    requires multiset(arrivals) == multiset(Indexed(data))
    ensures Run(arrivals) == (View(map[], |data|), data)
  {
    hide Run;
    OrderIrrelevant(Indexed(data), arrivals);
    InOrder(data);
  }

  lemma {:induction false} InOrder<T(!new)>(data: seq<T>)
    ensures Run(Indexed(data)) == (View(map[], |data|), data)
  {
    if data != [] {
      var n := |data| - 1;
      InOrder(data[..n]);
      assert Indexed(data)[..n] == Indexed(data[..n]);
      assert data[..n] + ([data[n]] + []) == data;
    }
  }
}
