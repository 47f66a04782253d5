/** What `yolo5Nms` measures and what it leaves, without its formulas: the overlap ratio counts cells, and
    the result is spaced out, complete and sorted. */
module NmsMeaning {
  import opened Basics
  import opened Detect
  import opened Nms

  // ------------------------------------------------------------------ what the ratio measures

  /** The unit cells of a box with integer corners. */
  function Cells(x0: int, y0: int, x1: int, y1: int): set<(int, int)> {
    set x, y | x0 <= x < x1 && y0 <= y < y1 :: (x, y)
  }

  lemma {:induction false} RowOfCells(x0: int, x1: int, y: int)
    requires x0 <= x1
    ensures |Cells(x0, y, x1, y + 1)| == x1 - x0
    decreases x1 - x0
  {
    if x0 < x1 {
      RowOfCells(x0, x1 - 1, y);
      assert Cells(x0, y, x1, y + 1) == Cells(x0, y, x1 - 1, y + 1) + {(x1 - 1, y)};
    } else {
      assert Cells(x0, y, x1, y + 1) == {};
    }
  }

  lemma {:induction false} CellCount(x0: int, y0: int, x1: int, y1: int)
    requires x0 <= x1 && y0 <= y1
    ensures |Cells(x0, y0, x1, y1)| == (x1 - x0) * (y1 - y0)
    decreases y1 - y0
  {
    if y0 < y1 {
      OneRowMore(x0, y0, x1, y1);
      hide Cells;
      CellCount(x0, y0, x1, y1 - 1);
      RowOfCells(x0, x1, y1 - 1);
      Distribute(x1 - x0, y1 - y0);
    } else {
      assert Cells(x0, y0, x1, y1) == {};
      Distribute(x1 - x0, 0);
    }
  }

  lemma OneRowMore(x0: int, y0: int, x1: int, y1: int)
    requires y0 < y1
    ensures |Cells(x0, y0, x1, y1)| == |Cells(x0, y0, x1, y1 - 1)| + |Cells(x0, y1 - 1, x1, y1)|
  {
    var before, row := Cells(x0, y0, x1, y1 - 1), Cells(x0, y1 - 1, x1, y1);
    assert Cells(x0, y0, x1, y1) == before + row;
    Disjoint(before, row);
  }

  lemma Distribute(w: int, h: int)
    ensures w * h == w * (h - 1) + w && w * 0 == 0
  {
  }

  lemma Disjoint<T>(a: set<T>, b: set<T>)
    requires a !! b
    ensures |a + b| == |a| + |b|
  {
  }

  lemma Common<T>(a: set<T>, b: set<T>)
    ensures |a + b| == |a| + |b| - |a * b|
  {
    assert a + b == a + (b - a);
    Disjoint(a, b - a);
    assert b == a * b + (b - a);
    Disjoint(a * b, b - a);
  }

  /** The cells that two boxes share are those of a box, and it is what `Overlap` computes. */
  lemma SharedCells(ax0: int, ay0: int, ax1: int, ay1: int, bx0: int, by0: int, bx1: int, by1: int)
    returns (x0: int, y0: int, x1: int, y1: int)
    ensures Cells(ax0, ay0, ax1, ay1) * Cells(bx0, by0, bx1, by1) == Cells(x0, y0, x1, y1)
    ensures Overlap(Whole(ax0, ay0, ax1, ay1), Whole(bx0, by0, bx1, by1)) == Whole(x0, y0, x1, y1)
  {
    x0, x1 := if ax0 < bx0 then bx0 else ax0, if bx1 < ax1 then bx1 else ax1;
    y0, y1 := if ay0 < by0 then by0 else ay0, if by1 < ay1 then by1 else ay1;
  }

  lemma ProperCells(x0: int, y0: int, x1: int, y1: int)
    ensures Proper(Whole(x0, y0, x1, y1)) <==> Cells(x0, y0, x1, y1) != {}
    ensures Proper(Whole(x0, y0, x1, y1)) ==> Area(Whole(x0, y0, x1, y1)) == |Cells(x0, y0, x1, y1)| as real
  {
    if x0 < x1 && y0 < y1 {
      assert (x0, y0) in Cells(x0, y0, x1, y1);
      hide Cells;
      CellCount(x0, y0, x1, y1);
      var w, h := x1 - x0, y1 - y0;
      assert (w * h) as real == w as real * h as real;
    }
  }

  function Whole(x0: int, y0: int, x1: int, y1: int): Bbox {
    Bbox(x0 as real, y0 as real, x1 as real, y1 as real)
  }

  /** The two boxes overlap properly exactly when they share a cell, and the ratio is the number of cells
      in both over the number of cells in either. */
  lemma IouCounts(ax0: int, ay0: int, ax1: int, ay1: int, bx0: int, by0: int, bx1: int, by1: int)
    ensures var a, b := Bbox(ax0 as real, ay0 as real, ax1 as real, ay1 as real), Bbox(bx0 as real, by0 as real, bx1 as real, by1 as real);
            var p, q := Cells(ax0, ay0, ax1, ay1), Cells(bx0, by0, bx1, by1);
            && (Proper(Overlap(a, b)) <==> p * q != {})
            && (Proper(Overlap(a, b)) ==> Iou(a, b) * |p + q| as real == |p * q| as real)
  {
    hide Overlap, Cells, Iou, Area, Proper;
    var a, b := Whole(ax0, ay0, ax1, ay1), Whole(bx0, by0, bx1, by1);
    var x0, y0, x1, y1 := SharedCells(ax0, ay0, ax1, ay1, bx0, by0, bx1, by1);
    ProperCells(x0, y0, x1, y1);
    if Proper(Overlap(a, b)) {
      RatioInUnit(a, b);
      ProperCells(ax0, ay0, ax1, ay1);
      ProperCells(bx0, by0, bx1, by1);
      var p, q := Cells(ax0, ay0, ax1, ay1), Cells(bx0, by0, bx1, by1);
      Common(p, q);
      RatioIs(a, b, |p * q|, |p + q|);
    }
  }

  lemma RatioIs(a: Bbox, b: Bbox, part: nat, whole: nat)
    requires Proper(Overlap(a, b)) && Area(Overlap(a, b)) == part as real
    requires Area(b) + Area(a) - Area(Overlap(a, b)) == whole as real
    ensures Iou(a, b) * whole as real == part as real
  {
    hide Overlap, Area;
    RatioInUnit(a, b);
  }

  lemma ScaledOverlap(a: Bbox, b: Bbox, f: real, dx: real, dy: real)
    requires f > 0.0
    ensures Overlap(Affine(a, f, dx, dy), Affine(b, f, dx, dy)) == Affine(Overlap(a, b), f, dx, dy)
  {
    hide Moved;
    OrderKept(a.xmin, b.xmin, f, dx);
    OrderKept(a.ymin, b.ymin, f, dy);
    OrderKept(a.xmax, b.xmax, f, dx);
    OrderKept(a.ymax, b.ymax, f, dy);
  }

  function Moved(x: real, f: real, d: real): real {
    f * x + d
  }

  lemma OrderKept(x: real, y: real, f: real, d: real)
    requires f > 0.0
    ensures x < y <==> Moved(x, f, d) < Moved(y, f, d)
  {
    var e := y - x;
    assert f * y - f * x == f * e;
    assert (e > 0.0 ==> f * e > 0.0) && (e < 0.0 ==> f * e < 0.0);
  }

  function Affine(b: Bbox, f: real, dx: real, dy: real): Bbox {
    Bbox(Moved(b.xmin, f, dx), Moved(b.ymin, f, dy), Moved(b.xmax, f, dx), Moved(b.ymax, f, dy))
  }

  predicate Multiple(y: real, k: real, x: real) {
    y == k * x
  }

  lemma ScaledArea(b: Bbox, f: real, dx: real, dy: real, k: real)
    requires k == Product(f, f)
    ensures Multiple(Area(Affine(b, f, dx, dy)), k, Area(b))
  {
    var w, h := b.xmax - b.xmin, b.ymax - b.ymin;
    assert (f * b.xmax + dx) - (f * b.xmin + dx) == f * w;
    assert (f * b.ymax + dy) - (f * b.ymin + dy) == f * h;
    assert (f * w) * (f * h) == f * f * (w * h);
  }

  /** The ratio depends neither on the unit of length nor on the origin: this carries `IouCounts` to boxes
      with rational corners, and tile coordinates to frame coordinates. */
  lemma IouScales(a: Bbox, b: Bbox, f: real, dx: real, dy: real)
    requires f > 0.0
    ensures var a', b' := Affine(a, f, dx, dy), Affine(b, f, dx, dy);
            && (Proper(Overlap(a', b')) <==> Proper(Overlap(a, b)))
            && (Proper(Overlap(a, b)) ==> Iou(a', b') == Iou(a, b))
  {
    hide Moved, Area, Iou, Multiple, Product;
    ScaledOverlap(a, b, f, dx, dy);
    ScaledProper(Overlap(a, b), f, dx, dy);
    hide Affine, Overlap, Proper;
    if Proper(Overlap(a, b)) {
      ProductPositive(f, f);
      var k := Product(f, f);
      ScaledArea(a, f, dx, dy, k);
      ScaledArea(b, f, dx, dy, k);
      ScaledArea(Overlap(a, b), f, dx, dy, k);
      SameRatio(a, b, Affine(a, f, dx, dy), Affine(b, f, dx, dy), k);
    }
  }

  function Product(x: real, y: real): real {
    x * y
  }

  lemma ProductPositive(x: real, y: real)
    requires x > 0.0 && y > 0.0
    ensures Product(x, y) > 0.0
  {
  }

  lemma ScaledProper(b: Bbox, f: real, dx: real, dy: real)
    requires f > 0.0
    ensures Proper(Affine(b, f, dx, dy)) <==> Proper(b)
  {
    hide Moved;
    OrderKept(b.xmin, b.xmax, f, dx);
    OrderKept(b.ymin, b.ymax, f, dy);
  }

  lemma SameRatio(a: Bbox, b: Bbox, a': Bbox, b': Bbox, k: real)
    requires k > 0.0 && Proper(Overlap(a, b)) && Proper(Overlap(a', b'))
    requires Multiple(Area(a'), k, Area(a)) && Multiple(Area(b'), k, Area(b))
    requires Multiple(Area(Overlap(a', b')), k, Area(Overlap(a, b)))
    ensures Iou(a', b') == Iou(a, b)
  {
    hide Area, Overlap, Quotient, Multiple;
    RatioInUnit(a, b);
    RatioInUnit(a', b');
    Distributes(Area(b), Area(a), Area(Overlap(a, b)), Area(b'), Area(a'), Area(Overlap(a', b')), k);
    SameQuotient(Area(Overlap(a, b)), Area(b) + Area(a) - Area(Overlap(a, b)),
                 Area(Overlap(a', b')), Area(b') + Area(a') - Area(Overlap(a', b')), k);
  }

  lemma Distributes(a: real, b: real, c: real, a': real, b': real, c': real, k: real)
    requires Multiple(a', k, a) && Multiple(b', k, b) && Multiple(c', k, c)
    ensures Multiple(a' + b' - c', k, a + b - c)
  {
  }

  lemma SameQuotient(part: real, whole: real, part': real, whole': real, k: real)
    requires k > 0.0 && 0.0 < part <= whole && 0.0 < part' <= whole'
    requires Multiple(part', k, part) && Multiple(whole', k, whole)
    ensures Quotient(part', whole') == Quotient(part, whole)
  {
    var q := part / whole;
    assert q * whole == part;
    assert q * whole' == part';
  }

  /** A proper box overlaps itself wholly. */
  lemma IouSelf(b: Bbox)
    requires Proper(b)
    ensures Proper(Overlap(b, b)) && Iou(b, b) == 1.0
  {
    Grow(b.xmax - b.xmin, b.ymax - b.ymin, b.xmax - b.xmin, b.ymax - b.ymin);
  }

  // ------------------------------------------------------------------ what suppression leaves

  lemma {:induction false} KeepBag(s: seq<Detection>, threshold: real, suppress: bool)
    ensures multiset(Keep(s, threshold, suppress)) <= multiset(s)
  {
    hide Suppressed;
    if s != [] {
      KeepBag(s[..|s| - 1], threshold, suppress);
      assert s == s[..|s| - 1] + [s[|s| - 1]];
    }
  }

  lemma {:induction false} KeepSpaced(s: seq<Detection>, threshold: real, suppress: bool, i: nat, j: nat)
    requires i < j < |Keep(s, threshold, suppress)|
    ensures !Suppresses(Keep(s, threshold, suppress)[i], Keep(s, threshold, suppress)[j], threshold, suppress)
  {
    hide Suppresses;
    var init := s[..|s| - 1];
    if j < |Keep(init, threshold, suppress)| {
      KeepSpaced(init, threshold, suppress, i, j);
    }
  }

  lemma {:induction false} KeepComplete(s: seq<Detection>, threshold: real, suppress: bool, j: nat) returns (k: Detection)
    requires Sorted(s) && j < |s|
    ensures k in Keep(s, threshold, suppress) && (k == s[j] || (Suppresses(k, s[j], threshold, suppress) && k.Key() >= s[j].Key()))
  {
    hide Suppresses, Detection.Key;
    var n := |s| - 1;
    var init := s[..n];
    if j < n {
      k := KeepComplete(init, threshold, suppress, j);
    } else if Suppressed(Keep(init, threshold, suppress), s[n], threshold, suppress) {
      var i :| 0 <= i < |Keep(init, threshold, suppress)| && Suppresses(Keep(init, threshold, suppress)[i], s[n], threshold, suppress);
      k := Keep(init, threshold, suppress)[i];
      KeepSorted(init, threshold, suppress);
      assert k in init;
    } else {
      k := s[n];
    }
  }

  lemma NmsSpaced(s: seq<Detection>, threshold: real, i: nat, j: nat)
    requires i < j < |Nms.Nms(s, threshold, false)|
    ensures var a, b := Nms.Nms(s, threshold, false)[i], Nms.Nms(s, threshold, false)[j];
            a.id == b.id && Proper(Overlap(a.bbox, b.bbox)) ==> Iou(a.bbox, b.bbox) <= threshold
  {
    hide Iou, Overlap, Proper;
    KeepSpaced(StableSort(s), threshold, false, i, j);
  }

  lemma NmsComplete(s: seq<Detection>, threshold: real, d: Detection) returns (k: Detection)
    requires d in s
    ensures k in Nms.Nms(s, threshold, false)
    ensures k == d || (k.id == d.id && k.score >= d.score && Proper(Overlap(k.bbox, d.bbox)) && Iou(k.bbox, d.bbox) > threshold)
  {
    hide Iou, Overlap, Proper;
    var t := StableSort(s);
    StableSortSorted(s);
    assert d in multiset(t);
    var j :| 0 <= j < |t| && t[j] == d;
    hide StableSort, Sorted, Keep;
    k := KeepComplete(t, threshold, false, j);
  }

  lemma NmsSorted(s: seq<Detection>, threshold: real)
    ensures var r := Nms.Nms(s, threshold, false);
            && multiset(r) <= multiset(s)
            && forall i, j :: 0 <= i < j < |r| ==> r[i].id as real + r[i].score >= r[j].id as real + r[j].score
  {
    hide Keep, StableSort;
    StableSortSorted(s);
    KeepSorted(StableSort(s), threshold, false);
    KeepBag(StableSort(s), threshold, false);
  }

  /** The result of suppression within classes: detections of the input, by descending sum of class and
      score; no two of one class that overlap by more than the threshold; and every detection that is not in
      it gave way to one that is: of its class, with at least its score, and overlapping it by more. */
  lemma NmsLeaves(s: seq<Detection>, threshold: real)
    ensures var r := Nms.Nms(s, threshold, false);
            && multiset(r) <= multiset(s)
            && (forall i, j :: 0 <= i < j < |r| ==> r[i].id as real + r[i].score >= r[j].id as real + r[j].score)
            && (forall i, j :: 0 <= i < j < |r| && r[i].id == r[j].id && Proper(Overlap(r[i].bbox, r[j].bbox)) ==>
                  Iou(r[i].bbox, r[j].bbox) <= threshold)
            && (forall d <- s :: d in r ||
                  exists k :: k in r && k.id == d.id && k.score >= d.score
                              && Proper(Overlap(k.bbox, d.bbox)) && Iou(k.bbox, d.bbox) > threshold)
  {
    hide Iou, Overlap, Proper, Nms.Nms;
    var r := Nms.Nms(s, threshold, false);
    NmsSorted(s, threshold);
    forall i, j | 0 <= i < j < |r| && r[i].id == r[j].id && Proper(Overlap(r[i].bbox, r[j].bbox))
      ensures Iou(r[i].bbox, r[j].bbox) <= threshold
    {
      NmsSpaced(s, threshold, i, j);
    }
    forall d | d in s && d !in r
      ensures exists k :: k in r && k.id == d.id && k.score >= d.score
                          && Proper(Overlap(k.bbox, d.bbox)) && Iou(k.bbox, d.bbox) > threshold
    {
      var k := NmsComplete(s, threshold, d);
    }
  }

  /** Two different detections that leave each other alone. */
  predicate Apart(a: Detection, b: Detection, threshold: real) {
    a.id == b.id && Proper(Overlap(a.bbox, b.bbox)) ==> Iou(a.bbox, b.bbox) <= threshold
  }

  ghost predicate Spaced(s: seq<Detection>, threshold: real) {
    (forall d <- s :: Proper(d.bbox)) && forall a, b :: a in s && b in s && a != b ==> Apart(a, b, threshold)
  }

  ghost predicate Distinct(s: seq<Detection>) {
    forall i, j :: 0 <= i < j < |s| ==> s[i] != s[j]
  }

  /** When only repetitions overlap by more than the threshold, suppression drops exactly the repetitions. */
  lemma NmsDropsRepetitions(s: seq<Detection>, threshold: real)
    requires Spaced(s, threshold) && threshold < 1.0
    ensures Distinct(Nms.Nms(s, threshold, false))
    ensures forall d :: d in Nms.Nms(s, threshold, false) <==> d in s
  {
    hide Iou, Overlap, Proper, Nms.Nms;
    var r := Nms.Nms(s, threshold, false);
    NmsLeaves(s, threshold);
    forall d ensures d in r <==> d in s {
      InBag(r, s, d);
      if d in s {
        forall k | k in r && k.id == d.id && Proper(Overlap(k.bbox, d.bbox)) && Iou(k.bbox, d.bbox) > threshold
          ensures k == d
        {
          InBag(r, s, k);
          assert k != d ==> Apart(k, d, threshold);
        }
      }
    }
    forall i, j | 0 <= i < j < |r| ensures r[i] != r[j] {
      IouSelf(r[i].bbox);
    }
  }

  lemma InBag(r: seq<Detection>, s: seq<Detection>, d: Detection)
    requires multiset(r) <= multiset(s)
    ensures d in r ==> d in s
  {
    if d in r {
      assert d in multiset(r);
    }
  }

  /** Two lists without repetitions and with the same members are permutations of each other. */
  lemma SameMembers(r: seq<Detection>, s: seq<Detection>)
    requires Distinct(r) && Distinct(s) && forall d :: d in r <==> d in s
    ensures multiset(r) == multiset(s)
  {
    forall d ensures multiset(r)[d] == multiset(s)[d] {
      CountsOnce(r, d);
      CountsOnce(s, d);
    }
  }

  lemma {:induction false} CountsOnce(s: seq<Detection>, d: Detection)
    requires Distinct(s)
    ensures multiset(s)[d] == if d in s then 1 else 0
  {
    if s != [] {
      var n := |s| - 1;
      CountsOnce(s[..n], d);
      assert s == s[..n] + [s[n]];
    }
  }
}
