/** Greedy non-maximum suppression: `yolo5Nms` of `yolovXPostProcess.cpp`. */
module Nms {
  import opened Basics
  import opened Detect

  // ------------------------------------------------------------------ std::stable_sort

  /** Highest key first. */
  ghost predicate Sorted(s: seq<Detection>) {
    forall i, j :: 0 <= i < j < |s| ==> s[i].Key() >= s[j].Key()
  }

  /** The element goes behind all those with the same or a greater key. */
  function Insert(s: seq<Detection>, d: Detection): seq<Detection> {
    if s == [] || s[|s| - 1].Key() >= d.Key() then s + [d]
    else Insert(s[..|s| - 1], d) + [s[|s| - 1]]
  }

  /** The library call, as a specification: `StableSortUnique` says it is the only stable sort. */
  function StableSort(s: seq<Detection>): seq<Detection> {
    if s == [] then [] else Insert(StableSort(s[..|s| - 1]), s[|s| - 1])
  }

  function Filter(s: seq<Detection>, keep: Detection -> bool): seq<Detection> {
    if s == [] then []
    else
      var rest := Filter(s[..|s| - 1], keep);
      if keep(s[|s| - 1]) then rest + [s[|s| - 1]] else rest
  }

  lemma {:induction false} InsertBag(s: seq<Detection>, d: Detection)
    ensures multiset(Insert(s, d)) == multiset(s) + multiset{d}
  {
    hide Detection.Key;
    if s != [] && s[|s| - 1].Key() < d.Key() {
      InsertBag(s[..|s| - 1], d);
      assert s == s[..|s| - 1] + [s[|s| - 1]];
    }
  }

  /** No element has a smaller key. */
  ghost predicate AtLeast(s: seq<Detection>, key: real) {
    forall i :: 0 <= i < |s| ==> s[i].Key() >= key
  }

  lemma BagAtLeast(s: seq<Detection>, d: Detection, t: seq<Detection>, key: real)
    requires AtLeast(s, key) && d.Key() >= key && multiset(t) == multiset(s) + multiset{d}
    ensures AtLeast(t, key)
  {
    hide Detection.Key;
    forall i | 0 <= i < |t| ensures t[i].Key() >= key {
      assert t[i] in multiset(s) + multiset{d};
    }
  }

  lemma SortedPush(s: seq<Detection>, d: Detection)
    requires Sorted(s) && AtLeast(s, d.Key())
    ensures Sorted(s + [d])
  {
    hide Detection.Key;
  }

  lemma SortedLast(s: seq<Detection>)
    requires Sorted(s) && s != []
    ensures Sorted(s[..|s| - 1]) && AtLeast(s[..|s| - 1], s[|s| - 1].Key())
    ensures forall key: real :: s[|s| - 1].Key() >= key ==> AtLeast(s, key)
  {
    hide Detection.Key;
  }

  lemma {:induction false} InsertSorted(s: seq<Detection>, d: Detection)
    requires Sorted(s)
    ensures Sorted(Insert(s, d)) && multiset(Insert(s, d)) == multiset(s) + multiset{d}
  {
    InsertBag(s, d);
    if s == [] {
    } else if s[|s| - 1].Key() >= d.Key() {
      hide AtLeast;
      SortedLast(s);
      SortedPush(s, d);
    } else {
      hide AtLeast, Sorted;
      var init, last := s[..|s| - 1], s[|s| - 1];
      SortedLast(s);
      InsertSorted(init, d);
      BagAtLeast(init, d, Insert(init, d), last.Key());
      SortedPush(Insert(init, d), last);
    }
  }

  lemma BagPush(s: seq<Detection>, d: Detection)
    ensures multiset(s + [d]) == multiset(s) + multiset{d}
  {
  }

  lemma {:induction false} StableSortSorted(s: seq<Detection>)
    ensures Sorted(StableSort(s)) && multiset(StableSort(s)) == multiset(s)
  {
    if s != [] {
      hide Insert, Sorted;
      var init, last := s[..|s| - 1], s[|s| - 1];
      StableSortSorted(init);
      InsertSorted(StableSort(init), last);
      BagPush(init, last);
      assert init + [last] == s;
    }
  }

  lemma FilterPush(s: seq<Detection>, d: Detection, keep: Detection -> bool)
    ensures Filter(s + [d], keep) == if keep(d) then Filter(s, keep) + [d] else Filter(s, keep)
  {
    assert (s + [d])[..|s|] == s;
  }

  lemma {:induction false} FilterSubset(s: seq<Detection>, keep: Detection -> bool)
    ensures forall x :: x in Filter(s, keep) <==> x in s && keep(x)
  {
    if s != [] {
      FilterSubset(s[..|s| - 1], keep);
      assert s == s[..|s| - 1] + [s[|s| - 1]];
    }
  }

  lemma FilterPrefix(s: seq<Detection>, d: Detection, keep: Detection -> bool)
    requires s == [] || s[|s| - 1].Key() >= d.Key()
    requires Sorted(s)
    ensures Filter(s, keep) == [] || Filter(s, keep)[|Filter(s, keep)| - 1].Key() >= d.Key()
  {
    if Filter(s, keep) != [] {
      var f := Filter(s, keep);
      FilterSubset(s, keep);
      assert f[|f| - 1] in s;
    }
  }

  lemma {:induction false} FilterInsert(s: seq<Detection>, d: Detection, keep: Detection -> bool)
    requires Sorted(s)
    ensures Filter(Insert(s, d), keep) == if keep(d) then Insert(Filter(s, keep), d) else Filter(s, keep)
  {
    if s == [] || s[|s| - 1].Key() >= d.Key() {
      FilterPush(s, d, keep);
      FilterPrefix(s, d, keep);
    } else {
      var init, last := s[..|s| - 1], s[|s| - 1];
      FilterInsert(init, d, keep);
      FilterPush(Insert(init, d), last, keep);
      if keep(last) {
        var f := Filter(init, keep);
        assert (f + [last])[..|f|] == f;
      }
    }
  }

  /** Sorting commutes with every filter. */
  lemma {:induction false} SortFilter(s: seq<Detection>, keep: Detection -> bool)
    ensures Filter(StableSort(s), keep) == StableSort(Filter(s, keep))
  {
    if s != [] {
      var init, last := s[..|s| - 1], s[|s| - 1];
      SortFilter(init, keep);
      StableSortSorted(init);
      FilterInsert(StableSort(init), last, keep);
      if keep(last) {
        var f := Filter(init, keep);
        assert (f + [last])[..|f|] == f;
      }
    }
  }

  /** A sorted sequence is left alone. */
  lemma {:induction false} SortSorted(s: seq<Detection>)
    requires Sorted(s)
    ensures StableSort(s) == s
  {
    if s != [] {
      SortSorted(s[..|s| - 1]);
      assert s == s[..|s| - 1] + [s[|s| - 1]];
    }
  }

  function HasKey(v: real): Detection -> bool {
    (d: Detection) => d.Key() == v
  }

  ghost predicate SameByKey(r: seq<Detection>, t: seq<Detection>) {
    forall v: real :: Filter(r, HasKey(v)) == Filter(t, HasKey(v))
  }

  lemma LastKey(r: seq<Detection>, t: seq<Detection>)
    requires Sorted(t) && r != [] && SameByKey(r, t)
    ensures t != [] && t[|t| - 1].Key() <= r[|r| - 1].Key()
  {
    var a := r[|r| - 1];
    FilterSubset(r, HasKey(a.Key()));
    FilterSubset(t, HasKey(a.Key()));
    assert a in Filter(r, HasKey(a.Key()));
    assert a in t;
  }

  lemma {:induction false} SortedDetermined(r: seq<Detection>, t: seq<Detection>)
    requires Sorted(r) && Sorted(t) && SameByKey(r, t)
    ensures r == t
    decreases |r|
  {
    if r != [] || t != [] {
      if r != [] { LastKey(r, t); }
      if t != [] { LastKey(t, r); }
      var a, b := r[|r| - 1], t[|t| - 1];
      var f := Filter(r, HasKey(a.Key()));
      assert f == Filter(t, HasKey(a.Key()));
      assert f[|f| - 1] == a && f[|f| - 1] == b;
      forall v: real ensures Filter(r[..|r| - 1], HasKey(v)) == Filter(t[..|t| - 1], HasKey(v)) {
        var g := Filter(r, HasKey(v));
        assert g == Filter(t, HasKey(v));
        if v == a.Key() {
          assert Filter(r[..|r| - 1], HasKey(v)) == g[..|g| - 1];
          assert Filter(t[..|t| - 1], HasKey(v)) == g[..|g| - 1];
        }
      }
      SortedDetermined(r[..|r| - 1], t[..|t| - 1]);
    }
  }

  lemma FilterKeySorted(s: seq<Detection>, v: real)
    ensures Sorted(Filter(s, HasKey(v)))
  {
    FilterSubset(s, HasKey(v));
    var f := Filter(s, HasKey(v));
    forall i | 0 <= i < |f| ensures f[i].Key() == v {
      assert f[i] in f;
      assert HasKey(v)(f[i]);
    }
  }

  /** A sorted sequence that keeps elements of equal key in their original order is `StableSort`. */
  lemma StableSortUnique(s: seq<Detection>, r: seq<Detection>)
    ensures Sorted(r) && SameByKey(r, s) <==> r == StableSort(s)
  {
    StableSortSorted(s);
    forall v: real ensures Filter(StableSort(s), HasKey(v)) == Filter(s, HasKey(v)) {
      SortFilter(s, HasKey(v));
      FilterKeySorted(s, v);
      SortSorted(Filter(s, HasKey(v)));
    }
    if Sorted(r) && SameByKey(r, s) {
      SortedDetermined(r, StableSort(s));
    }
  }

  // ------------------------------------------------------------------ suppression

  function Area(b: Bbox): real {
    (b.xmax - b.xmin) * (b.ymax - b.ymin)
  }

  function Overlap(a: Bbox, b: Bbox): Bbox {
    Bbox(MaxReal(a.xmin, b.xmin), MaxReal(a.ymin, b.ymin), MinReal(a.xmax, b.xmax), MinReal(a.ymax, b.ymax))
  }

  predicate Proper(b: Bbox) {
    b.xmax > b.xmin && b.ymax > b.ymin
  }

  lemma Grow(w: real, h: real, w': real, h': real)
    requires 0.0 < w <= w' && 0.0 < h <= h'
    ensures 0.0 < w * h <= w' * h'
  {
    assert w * h <= w' * h;
    assert w' * h <= w' * h';
  }

  /** Whenever the ratio is computed its denominator is positive and it lies in (0, 1], even when the
      input boxes are inverted: a proper overlap makes both boxes proper. */
  lemma RatioInUnit(a: Bbox, b: Bbox)
    requires Proper(Overlap(a, b))
    ensures Proper(a) && Proper(b)
    ensures 0.0 < Area(Overlap(a, b)) <= Area(b) + Area(a) - Area(Overlap(a, b))
  {
    var o := Overlap(a, b);
    Grow(o.xmax - o.xmin, o.ymax - o.ymin, a.xmax - a.xmin, a.ymax - a.ymin);
    Grow(o.xmax - o.xmin, o.ymax - o.ymin, b.xmax - b.xmin, b.ymax - b.ymin);
  }

  function Iou(a: Bbox, b: Bbox): (r: real)
    requires Proper(Overlap(a, b))
    ensures 0.0 < r <= 1.0
  {
    RatioInUnit(a, b);
    Quotient(Area(Overlap(a, b)), Area(b) + Area(a) - Area(Overlap(a, b)))
  }

  function Quotient(part: real, whole: real): (r: real)
    requires 0.0 < part <= whole
    ensures 0.0 < r <= 1.0
  {
    part / whole
  }

  /** `k`, once kept, drops the later detection `d`. */
  predicate Suppresses(k: Detection, d: Detection, threshold: real, suppress: bool) {
    && (suppress || k.id == d.id)
    && Proper(Overlap(k.bbox, d.bbox))
    && Iou(k.bbox, d.bbox) > threshold
  }

  ghost predicate Suppressed(kept: seq<Detection>, d: Detection, threshold: real, suppress: bool) {
    exists i :: 0 <= i < |kept| && Suppresses(kept[i], d, threshold, suppress)
  }

  /** The greedy choice: best first, a detection stays unless one that already stays suppresses it. */
  ghost function Keep(s: seq<Detection>, threshold: real, suppress: bool): seq<Detection> {
    if s == [] then []
    else
      var kept := Keep(s[..|s| - 1], threshold, suppress);
      if Suppressed(kept, s[|s| - 1], threshold, suppress) then kept else kept + [s[|s| - 1]]
  }

  ghost function Nms(s: seq<Detection>, threshold: real, suppress: bool): seq<Detection> {
    Keep(StableSort(s), threshold, suppress)
  }

  /** The body of the inner loop: does the one box overlap the other by more than the threshold? */
  method OverlapsMore(k: Bbox, d: Bbox, areaK: real, areaD: real, iouThreshold: real) returns (more: bool)
    requires areaK == Area(k) && areaD == Area(d)
    ensures more <==> Proper(Overlap(k, d)) && Iou(k, d) > iouThreshold
  {
    var xx1 := MaxReal(k.xmin, d.xmin);
    var yy1 := MaxReal(k.ymin, d.ymin);
    var xx2 := MinReal(k.xmax, d.xmax);
    var yy2 := MinReal(k.ymax, d.ymax);
    assert Overlap(k, d) == Bbox(xx1, yy1, xx2, yy2);
    more := false;
    if xx2 > xx1 && yy2 > yy1 {
      var areaIntersection := (xx2 - xx1) * (yy2 - yy1);
      assert areaIntersection == Area(Overlap(k, d));
      RatioInUnit(k, d);
      hide Area;
      var iouRatio := areaIntersection / (areaD + areaK - areaIntersection);
      more := iouRatio > iouThreshold;
    }
  }

  /** The inner loop: marks every later detection that `input[i]` suppresses. */
  method SkipOverlapping(input: array<Detection>, i: nat, areas: seq<real>, skip: array<bool>,
                         iouThreshold: real, suppress: bool)
    requires i < input.Length == skip.Length == |areas|
    requires forall k :: 0 <= k < input.Length ==> areas[k] == Area(input[k].bbox)
    modifies skip
    ensures forall k :: 0 <= k <= i ==> skip[k] == old(skip[k])
    ensures forall k :: i < k < skip.Length ==>
              (skip[k] <==> old(skip[k]) || Suppresses(input[i], input[k], iouThreshold, suppress))
  {
    hide Iou, Area, Overlap;
    for j := i + 1 to input.Length
      invariant forall k :: 0 <= k <= i || j <= k < skip.Length ==> skip[k] == old(skip[k])
      invariant forall k :: i < k < j ==>
                  (skip[k] <==> old(skip[k]) || Suppresses(input[i], input[k], iouThreshold, suppress))
    {
      if skip[j] {
        continue;
      }
      if !suppress {
        if input[i].id != input[j].id {
          continue;
        }
      }
      var more := OverlapsMore(input[i].bbox, input[j].bbox, areas[i], areas[j], iouThreshold);
      if more {
        skip[j] := true;
      }
    }
  }

  /** The source's double loop over a skip array. `topK` is accepted and never read. */
  method Yolo5Nms(input: array<Detection>, iouThreshold: real, topK: int, suppress: bool) returns (result: seq<Detection>)
    modifies input
    ensures input[..] == StableSort(old(input[..]))
    ensures result == Nms(old(input[..]), iouThreshold, suppress)
  {
    hide Suppresses, StableSort, Area;
    SortInPlace(input);
    ghost var s := input[..];
    var skip := new bool[input.Length](_ => false);
    var areas: seq<real> := [];
    for i := 0 to input.Length
      invariant input[..] == s && forall j :: 0 <= j < skip.Length ==> !skip[j]
      invariant |areas| == i && forall k :: 0 <= k < i ==> areas[k] == Area(input[k].bbox)
    {
      AreaIs(input[i].bbox);
      areas := areas + [(input[i].bbox.xmax - input[i].bbox.xmin) * (input[i].bbox.ymax - input[i].bbox.ymin)];
    }
    result := [];
    for i := 0 to input.Length
      invariant input[..] == s
      invariant result == Keep(s[..i], iouThreshold, suppress)
      invariant forall j :: i <= j < |s| ==> (skip[j] <==> Suppressed(result, s[j], iouThreshold, suppress))
    {
      assert s[..i + 1][..i] == s[..i];
      if skip[i] {
        continue;
      }
      skip[i] := true;
      SkipOverlapping(input, i, areas, skip, iouThreshold, suppress);
      forall k | i < k < |s|
        ensures Suppressed(result + [s[i]], s[k], iouThreshold, suppress) <==>
                Suppressed(result, s[k], iouThreshold, suppress) || Suppresses(s[i], s[k], iouThreshold, suppress)
      {
        SuppressedPush(result, s[i], s[k], iouThreshold, suppress);
      }
      result := result + [input[i]];
    }
    assert s[..|s|] == s;
  }

  lemma AreaIs(b: Bbox)
    ensures Area(b) == (b.xmax - b.xmin) * (b.ymax - b.ymin)
  {
  }

  lemma SuppressedPush(kept: seq<Detection>, x: Detection, d: Detection, threshold: real, suppress: bool)
    ensures Suppressed(kept + [x], d, threshold, suppress) <==>
            Suppressed(kept, d, threshold, suppress) || Suppresses(x, d, threshold, suppress)
  {
    var all := kept + [x];
    if Suppressed(kept, d, threshold, suppress) {
      var i :| 0 <= i < |kept| && Suppresses(kept[i], d, threshold, suppress);
      assert all[i] == kept[i];
    }
    assert all[|kept|] == x;
  }

  /** `std::stable_sort` on the vector. */
  method SortInPlace(a: array<Detection>)
    modifies a
    ensures a[..] == StableSort(old(a[..]))
  {
    var s := StableSort(a[..]);
    StableSortSorted(a[..]);
    assert |s| == |multiset(s)| == |multiset(a[..])| == a.Length;
    forall i | 0 <= i < a.Length {
      a[i] := s[i];
    }
    assert a[..] == s;
  }

  // ------------------------------------------------------------------ what greedy means

  /** One of the first `n` elements is in the kernel and suppresses `d`. */
  ghost predicate SuppressedBy(s: seq<Detection>, kernel: set<nat>, d: Detection, threshold: real, suppress: bool, n: nat)
    requires n <= |s|
  {
    exists i: nat :: i < n && i in kernel && Suppresses(s[i], d, threshold, suppress)
  }

  /** Element `j` belongs to the kernel exactly when no earlier member suppresses it. */
  ghost predicate Decided(s: seq<Detection>, kernel: set<nat>, threshold: real, suppress: bool, j: nat)
    requires j < |s|
  {
    j in kernel <==> !SuppressedBy(s, kernel, s[j], threshold, suppress, j)
  }

  /** `kernel` marks a subset none of whose members suppresses another, and that suppresses all the
      rest: no two kept detections overlap too much, and every dropped one has a better kept one that
      does. */
  ghost predicate IsKernel(s: seq<Detection>, kernel: set<nat>, threshold: real, suppress: bool) {
    && (forall i <- kernel :: i < |s|)
    && (forall j: nat :: j < |s| ==> Decided(s, kernel, threshold, suppress, j))
  }

  /** The marked elements, in order. */
  function Select(s: seq<Detection>, kernel: set<nat>): seq<Detection> {
    if s == [] then []
    else
      var rest := Select(s[..|s| - 1], kernel);
      if |s| - 1 in kernel then rest + [s[|s| - 1]] else rest
  }

  lemma SelectStep(s: seq<Detection>, kernel: set<nat>, n: nat)
    requires n < |s|
    ensures Select(s[..n + 1], kernel) == if n in kernel then Select(s[..n], kernel) + [s[n]] else Select(s[..n], kernel)
  {
    assert s[..n + 1][..n] == s[..n] && s[..n + 1][n] == s[n];
  }

  lemma SuppressedByStep(s: seq<Detection>, kernel: set<nat>, d: Detection, threshold: real, suppress: bool, n: nat)
    requires n < |s|
    ensures SuppressedBy(s, kernel, d, threshold, suppress, n + 1) <==>
            SuppressedBy(s, kernel, d, threshold, suppress, n) || (n in kernel && Suppresses(s[n], d, threshold, suppress))
  {
    hide Suppresses;
  }

  lemma {:induction false} SelectSuppresses(s: seq<Detection>, kernel: set<nat>, d: Detection, threshold: real, suppress: bool, n: nat)
    requires n <= |s|
    ensures Suppressed(Select(s[..n], kernel), d, threshold, suppress) <==>
            SuppressedBy(s, kernel, d, threshold, suppress, n)
  {
    hide Suppresses;
    if n > 0 {
      hide Suppressed, SuppressedBy, Select;
      SelectSuppresses(s, kernel, d, threshold, suppress, n - 1);
      SelectStep(s, kernel, n - 1);
      SuppressedByStep(s, kernel, d, threshold, suppress, n - 1);
      if n - 1 in kernel {
        SuppressedPush(Select(s[..n - 1], kernel), s[n - 1], d, threshold, suppress);
      }
    }
  }

  lemma KeepStep(s: seq<Detection>, threshold: real, suppress: bool, n: nat)
    requires n < |s|
    ensures var kept := Keep(s[..n], threshold, suppress);
            Keep(s[..n + 1], threshold, suppress) ==
            if Suppressed(kept, s[n], threshold, suppress) then kept else kept + [s[n]]
  {
    hide Suppressed;
    assert s[..n + 1][..n] == s[..n] && s[..n + 1][n] == s[n];
  }

  /** The greedy result IS the selection of the kernel, whichever kernel one is given ... */
  lemma {:induction false} KeepIsKernel(s: seq<Detection>, kernel: set<nat>, threshold: real, suppress: bool, n: nat)
    requires IsKernel(s, kernel, threshold, suppress) && n <= |s|
    ensures Keep(s[..n], threshold, suppress) == Select(s[..n], kernel)
  {
    hide Suppressed, SuppressedBy;
    if n > 0 {
      assert Decided(s, kernel, threshold, suppress, n - 1);
      hide Keep, Select;
      KeepIsKernel(s, kernel, threshold, suppress, n - 1);
      KeepStep(s, threshold, suppress, n - 1);
      SelectStep(s, kernel, n - 1);
      SelectSuppresses(s, kernel, s[n - 1], threshold, suppress, n - 1);
    }
  }

  ghost function Kernel(s: seq<Detection>, threshold: real, suppress: bool, n: nat): set<nat>
    requires n <= |s|
  {
    if n == 0 then {}
    else
      var before := Kernel(s, threshold, suppress, n - 1);
      if SuppressedBy(s, before, s[n - 1], threshold, suppress, n - 1) then before
      else before + {n - 1}
  }

  lemma {:induction false} KernelMembers(s: seq<Detection>, threshold: real, suppress: bool, n: nat)
    requires n <= |s|
    ensures forall i <- Kernel(s, threshold, suppress, n) :: i < n
  {
    hide Suppresses;
    if n > 0 {
      KernelMembers(s, threshold, suppress, n - 1);
    }
  }

  /** The next element decides nothing about the earlier ones. */
  lemma KernelGrows(s: seq<Detection>, threshold: real, suppress: bool, n: nat, j: nat)
    requires j < n < |s| && Decided(s, Kernel(s, threshold, suppress, n), threshold, suppress, j)
    ensures Decided(s, Kernel(s, threshold, suppress, n + 1), threshold, suppress, j)
  {
    hide Suppresses;
    var before, after := Kernel(s, threshold, suppress, n), Kernel(s, threshold, suppress, n + 1);
    assert forall i: nat :: i < n ==> (i in after <==> i in before);
  }

  lemma KernelNext(s: seq<Detection>, threshold: real, suppress: bool, n: nat)
    requires n < |s|
    ensures Decided(s, Kernel(s, threshold, suppress, n + 1), threshold, suppress, n)
  {
    hide Suppresses;
    var before, after := Kernel(s, threshold, suppress, n), Kernel(s, threshold, suppress, n + 1);
    KernelMembers(s, threshold, suppress, n);
    assert forall i: nat :: i < n ==> (i in after <==> i in before);
  }

  lemma {:induction false} KernelDecides(s: seq<Detection>, threshold: real, suppress: bool, n: nat, j: nat)
    requires j < n <= |s|
    ensures Decided(s, Kernel(s, threshold, suppress, n), threshold, suppress, j)
    decreases n
  {
    hide Suppresses, Decided, Kernel;
    if j < n - 1 {
      KernelDecides(s, threshold, suppress, n - 1, j);
      KernelGrows(s, threshold, suppress, n - 1, j);
    } else {
      KernelNext(s, threshold, suppress, n - 1);
    }
  }

  lemma KernelIsKernel(s: seq<Detection>, threshold: real, suppress: bool)
    ensures IsKernel(s, Kernel(s, threshold, suppress, |s|), threshold, suppress)
  {
    hide Suppresses, Decided, Kernel;
    KernelMembers(s, threshold, suppress, |s|);
    forall j: nat | j < |s| ensures Decided(s, Kernel(s, threshold, suppress, |s|), threshold, suppress, j) {
      KernelDecides(s, threshold, suppress, |s|, j);
    }
  }

  lemma {:induction false} KernelUnique(s: seq<Detection>, a: set<nat>, b: set<nat>, threshold: real, suppress: bool, j: nat)
    requires IsKernel(s, a, threshold, suppress) && IsKernel(s, b, threshold, suppress)
    requires j < |s|
    ensures j in a <==> j in b
    decreases j
  {
    hide Suppresses;
    assert Decided(s, a, threshold, suppress, j) && Decided(s, b, threshold, suppress, j);
    forall i: nat | i < j ensures i in a <==> i in b {
      KernelUnique(s, a, b, threshold, suppress, i);
    }
  }

  /** THE characterisation: the sorted input has exactly one kernel, and the result is its selection. */
  lemma NmsIsTheKernel(s: seq<Detection>, kernel: set<nat>, threshold: real, suppress: bool)
    ensures var t := StableSort(s);
            && (IsKernel(t, kernel, threshold, suppress) <==> kernel == Kernel(t, threshold, suppress, |t|))
            && Nms(s, threshold, suppress) == Select(t, Kernel(t, threshold, suppress, |t|))
  {
    var t := StableSort(s);
    var k := Kernel(t, threshold, suppress, |t|);
    KernelIsKernel(t, threshold, suppress);
    assert t[..|t|] == t;
    KeepIsKernel(t, k, threshold, suppress, |t|);
    if IsKernel(t, kernel, threshold, suppress) {
      forall j: nat ensures j in kernel <==> j in k {
        if j < |t| {
          KernelUnique(t, kernel, k, threshold, suppress, j);
        }
      }
    }
  }

  // ------------------------------------------------------------------ algebra

  function OfClass(id: int): Detection -> bool {
    (d: Detection) => d.id == id
  }

  lemma FilterSuppresses(kept: seq<Detection>, d: Detection, threshold: real)
    ensures Suppressed(Filter(kept, OfClass(d.id)), d, threshold, false) <==> Suppressed(kept, d, threshold, false)
  {
    var f := Filter(kept, OfClass(d.id));
    FilterSubset(kept, OfClass(d.id));
    if i :| 0 <= i < |f| && Suppresses(f[i], d, threshold, false) {
      assert f[i] in kept;
    }
    if i :| 0 <= i < |kept| && Suppresses(kept[i], d, threshold, false) {
      assert kept[i] in f;
    }
  }

  lemma {:induction false} KeepClass(s: seq<Detection>, threshold: real, id: int)
    ensures Filter(Keep(s, threshold, false), OfClass(id)) == Keep(Filter(s, OfClass(id)), threshold, false)
  {
    if s != [] {
      var init, last := s[..|s| - 1], s[|s| - 1];
      KeepClass(init, threshold, id);
      var f := Filter(init, OfClass(id));
      FilterPush(Keep(init, threshold, false), last, OfClass(id));
      if last.id == id {
        FilterSuppresses(Keep(init, threshold, false), last, threshold);
        assert (f + [last])[..|f|] == f;
      }
    }
  }

  /** Without cross-class suppression, the result for one class is what NMS on that class alone gives. */
  lemma NmsPerClass(s: seq<Detection>, threshold: real, id: int)
    ensures Filter(Nms(s, threshold, false), OfClass(id)) == Nms(Filter(s, OfClass(id)), threshold, false)
  {
    KeepClass(StableSort(s), threshold, id);
    SortFilter(s, OfClass(id));
  }

  lemma {:induction false} KeepSorted(s: seq<Detection>, threshold: real, suppress: bool)
    requires Sorted(s)
    ensures Sorted(Keep(s, threshold, suppress))
    ensures forall x :: x in Keep(s, threshold, suppress) ==> x in s
  {
    if s != [] {
      var init := s[..|s| - 1];
      KeepSorted(init, threshold, suppress);
      forall i | 0 <= i < |Keep(init, threshold, suppress)|
        ensures Keep(init, threshold, suppress)[i].Key() >= s[|s| - 1].Key()
      {
        assert Keep(init, threshold, suppress)[i] in init;
      }
    }
  }

  lemma {:induction false} KeepTwice(s: seq<Detection>, threshold: real, suppress: bool)
    ensures Keep(Keep(s, threshold, suppress), threshold, suppress) == Keep(s, threshold, suppress)
  {
    if s != [] {
      var kept := Keep(s[..|s| - 1], threshold, suppress);
      KeepTwice(s[..|s| - 1], threshold, suppress);
      assert (kept + [s[|s| - 1]])[..|kept|] == kept;
    }
  }

  /** Running it again changes nothing. */
  lemma NmsIdempotent(s: seq<Detection>, threshold: real, suppress: bool)
    ensures Nms(Nms(s, threshold, suppress), threshold, suppress) == Nms(s, threshold, suppress)
  {
    StableSortSorted(s);
    KeepSorted(StableSort(s), threshold, suppress);
    SortSorted(Nms(s, threshold, suppress));
    KeepTwice(StableSort(s), threshold, suppress);
  }
}
