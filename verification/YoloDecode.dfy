/** Raw tensors to detections: `Yolov8sPostProcess` and `Yolov9sPostProcess` of
    `yolovXPostProcess.cpp`. `half` is the reading of a 16-bit pattern as a number. */
module YoloDecode {
  import opened Basics
  import opened Detect
  import Nms

  datatype PostInfo = PostInfo(height: nat, width: nat, oriHeight: nat, oriWidth: nat,
                               scoreThreshold: real, nmsThreshold: real, nmsTopK: int,
                               isPadResize: bool, classNum: nat)
  {
    predicate Valid() {
      height > 0 && width > 0 && oriHeight > 0 && oriWidth > 0
    }

    function WidthRatio(): (r: real)
      requires Valid()
      ensures r > 0.0
    {
      var w, h := width as real / oriWidth as real, height as real / oriHeight as real;
      if isPadResize then MinReal(w, h) else w
    }

    function HeightRatio(): (r: real)
      requires Valid()
      ensures r > 0.0
    {
      var w, h := width as real / oriWidth as real, height as real / oriHeight as real;
      if isPadResize then MinReal(w, h) else h
    }
  }

  const KNUM_DETECTIONS: nat := 8400

  // ------------------------------------------------------------------ the two flat layouts

  lemma FlatIndex(i: nat, c: nat, n: nat, w: nat)
    requires i < n && c < w
    ensures i * w + c < n * w
  {
    var d: nat := n - i - 1;
    assert n * w == i * w + w + d * w;
  }

  /** `Tensor3D::at`: the assertions of the source are the precondition. */
  datatype Tensor3D = Tensor3D(data: seq<int>, b: nat, c: nat, h: nat)
  {
    function At(bi: nat, ci: nat, hi: nat): int
      requires bi < b && ci < c && hi < h && |data| == b * c * h
    {
      FlatIndex(bi, ci, b, c);
      FlatIndex(bi * c + ci, hi, b * c, h);
      data[(bi * c + ci) * h + hi]
    }
  }

  /** Anchor `i`'s values, anchors first (YOLOv8: 8400 rows of 4 + classes). */
  function RowsV8(data: seq<int>, n: nat, w: nat, half: int -> real): (rows: seq<seq<real>>)
    requires |data| == n * w
    ensures |rows| == n
    ensures forall i :: 0 <= i < n ==> |rows[i]| == w
  {
    seq(n, i requires 0 <= i < n => seq(w, c requires 0 <= c < w => half(Tensor3D(data, 1, n, w).At(0, i, c))))
  }

  /** Anchor `i`'s values, channels first (YOLOv9: 4 + classes rows of 8400). */
  function RowsV9(data: seq<int>, n: nat, w: nat, half: int -> real): (rows: seq<seq<real>>)
    requires |data| == w * n
    ensures |rows| == n
    ensures forall i :: 0 <= i < n ==> |rows[i]| == w
  {
    seq(n, i requires 0 <= i < n => seq(w, c requires 0 <= c < w => half(Tensor3D(data, 1, w, n).At(0, c, i))))
  }

  lemma RowsV8At(data: seq<int>, n: nat, w: nat, half: int -> real, i: nat, c: nat)
    requires |data| == n * w && i < n && c < w
    ensures 0 <= i * w + c < |data| && RowsV8(data, n, w, half)[i][c] == half(data[i * w + c])
  {
    FlatIndex(i, c, n, w);
    var k := 0 * n + i;
    assert k == i && k * w == i * w;
    assert Tensor3D(data, 1, n, w).At(0, i, c) == data[k * w + c];
  }

  lemma RowsV9At(data: seq<int>, n: nat, w: nat, half: int -> real, i: nat, c: nat)
    requires |data| == w * n && i < n && c < w
    ensures 0 <= c * n + i < |data| && RowsV9(data, n, w, half)[i][c] == half(data[c * n + i])
  {
    FlatIndex(c, i, w, n);
    var k := 0 * w + c;
    assert k == c && k * n == c * n;
    assert Tensor3D(data, 1, w, n).At(0, c, i) == data[k * n + i];
  }

  /** `v8` holds the `w` values of each of `n` anchors together; `v9` holds each value of all anchors
      together. */
  ghost predicate Transposed(v8: seq<int>, v9: seq<int>, n: nat, w: nat) {
    forall i: nat, c: nat :: i < n && c < w ==> SameValue(v8, v9, n, w, i, c)
  }

  predicate SameValue(v8: seq<int>, v9: seq<int>, n: nat, w: nat, i: nat, c: nat) {
    i * w + c < |v8| && c * n + i < |v9| && v8[i * w + c] == v9[c * n + i]
  }

  lemma SameRows(v8: seq<int>, v9: seq<int>, n: nat, w: nat, half: int -> real)
    requires |v8| == n * w && |v9| == w * n && Transposed(v8, v9, n, w)
    ensures RowsV8(v8, n, w, half) == RowsV9(v9, n, w, half)
  {
    var a, b := RowsV8(v8, n, w, half), RowsV9(v9, n, w, half);
    forall i | 0 <= i < n ensures a[i] == b[i] {
      forall c | 0 <= c < w ensures a[i][c] == b[i][c] {
        RowsV8At(v8, n, w, half, i, c);
        RowsV9At(v9, n, w, half, i, c);
        assert SameValue(v8, v9, n, w, i, c);
      }
    }
  }

  // ------------------------------------------------------------------ one anchor

  /** `max_conf` and `class_id` after the first `n` classes. */
  function Best(row: seq<real>, n: nat): (real, int)
    requires n + 4 <= |row|
  {
    if n == 0 then (0.0, -1)
    else
      var (m, id) := Best(row, n - 1);
      if row[4 + n - 1] > m then (row[4 + n - 1], n - 1) else (m, id)
  }

  /** It is the first class with the highest confidence, or -1 when none is above zero. */
  lemma {:induction false} BestIsFirstMaximum(row: seq<real>, n: nat)
    requires n + 4 <= |row|
    ensures var (m, id) := Best(row, n);
            && m >= 0.0 && -1 <= id < n
            && (forall k :: 4 <= k < n + 4 ==> row[k] <= m)
            && (id == -1 <==> forall k :: 4 <= k < n + 4 ==> row[k] <= 0.0)
            && (id == -1 ==> m == 0.0)
            && (id >= 0 ==> row[4 + id] == m && m > 0.0 && forall k :: 4 <= k < id + 4 ==> row[k] < m)
  {
    if n > 0 {
      BestIsFirstMaximum(row, n - 1);
    }
  }

  /** Centre and size in model pixels to corners in image pixels, before clamping. */
  function Corners(info: PostInfo, row: seq<real>): Bbox
    requires info.Valid() && |row| >= 4
  {
    var w, h := info.WidthRatio(), info.HeightRatio();
    var padX := (info.width as real - w * info.oriWidth as real) / 2.0;
    var padY := (info.height as real - h * info.oriHeight as real) / 2.0;
    Bbox((row[0] - row[2] / 2.0 - padX) / w, (row[1] - row[3] / 2.0 - padY) / h,
         (row[0] + row[2] / 2.0 - padX) / w, (row[1] + row[3] / 2.0 - padY) / h)
  }

  /** Where letterboxing puts the middle of a box, along one axis: scaled, and moved by the padding. */
  function Centre(ratio: real, low: real, high: real, n: real, size: real): real {
    ratio * ((low + high) / 2.0) + (size - ratio * n) / 2.0
  }

  function Side(ratio: real, low: real, high: real): real {
    ratio * (high - low)
  }

  /** How letterboxing shows a box of the original image to the model: scaled, moved by the padding,
      and given by its centre and size. */
  function Letterboxed(info: PostInfo, b: Bbox): (r: seq<real>)
    requires info.Valid()
    ensures |r| == 4
  {
    var w, h := info.WidthRatio(), info.HeightRatio();
    [Centre(w, b.xmin, b.xmax, info.oriWidth as real, info.width as real),
     Centre(h, b.ymin, b.ymax, info.oriHeight as real, info.height as real), Side(w, b.xmin, b.xmax), Side(h, b.ymin, b.ymax)]
  }

  /** The ratios: a padded resize keeps the aspect ratio and is the largest that fits, touching two sides of
      the model's input; any other fills it. */
  lemma ScaleFits(info: PostInfo)
    requires info.Valid()
    ensures var w, h := info.WidthRatio() * info.oriWidth as real, info.HeightRatio() * info.oriHeight as real;
            if info.isPadResize then
              && info.WidthRatio() == info.HeightRatio() && w <= info.width as real && h <= info.height as real
              && (w == info.width as real || h == info.height as real)
            else w == info.width as real && h == info.height as real
  {
    Fits(info.width as real, info.oriWidth as real, info.height as real / info.oriHeight as real);
    Fits(info.height as real, info.oriHeight as real, info.width as real / info.oriWidth as real);
  }

  lemma Fits(x: real, n: real, r: real)
    requires n > 0.0
    ensures x / n * n == x && (r <= x / n ==> r * n <= x)
  {
    var q, d := x / n, x / n - r;
    assert q * n == x;
    assert d * n == q * n - r * n;
    assert d >= 0.0 ==> d * n >= 0.0;
  }

  /** The padding puts the image in the middle of the model's input. */
  lemma ImageCentred(info: PostInfo)
    requires info.Valid()
    ensures var r := Letterboxed(info, Bbox(0.0, 0.0, info.oriWidth as real, info.oriHeight as real));
            && 2.0 * r[0] == info.width as real && 2.0 * r[1] == info.height as real
            && r[2] == info.WidthRatio() * info.oriWidth as real && r[3] == info.HeightRatio() * info.oriHeight as real
  {
    hide PostInfo.WidthRatio, PostInfo.HeightRatio, Centre, Side;
    var w, h := info.WidthRatio(), info.HeightRatio();
    Centred(w, info.oriWidth as real, info.width as real);
    Centred(h, info.oriHeight as real, info.height as real);
  }

  lemma Centred(ratio: real, n: real, size: real)
    ensures Centre(ratio, 0.0, n, n, size) * 2.0 == size && Side(ratio, 0.0, n) == ratio * n
  {
    var half := n / 2.0;
    assert n == 2.0 * half && (0.0 + n) / 2.0 == half;
    assert ratio * n == 2.0 * (ratio * half);
  }

  lemma Unscale(centre: real, size: real, pad: real, ratio: real, low: real, high: real)
    requires ratio > 0.0 && centre == ratio * ((low + high) / 2.0) + pad && size == ratio * (high - low)
    ensures (centre - size / 2.0 - pad) / ratio == low && (centre + size / 2.0 - pad) / ratio == high
  {
    assert centre - size / 2.0 - pad == ratio * low;
    assert centre + size / 2.0 - pad == ratio * high;
  }

  /** The decoded corners undo the letterboxing of every box. */
  lemma CornersUndoLetterbox(info: PostInfo, b: Bbox)
    requires info.Valid()
    ensures Corners(info, Letterboxed(info, b)) == b
  {
    hide PostInfo.WidthRatio, PostInfo.HeightRatio;
    var w, h, row := info.WidthRatio(), info.HeightRatio(), Letterboxed(info, b);
    Unscale(row[0], row[2], (info.width as real - w * info.oriWidth as real) / 2.0, w, b.xmin, b.xmax);
    Unscale(row[1], row[3], (info.height as real - h * info.oriHeight as real) / 2.0, h, b.ymin, b.ymax);
  }

  predicate Accepted(info: PostInfo, row: seq<real>)
    requires info.Valid() && |row| == info.classNum + 4
  {
    var b := Corners(info, row);
    Best(row, info.classNum).0 >= info.scoreThreshold && b.xmax > 0.0 && b.ymax > 0.0 && b.xmin <= b.xmax && b.ymin <= b.ymax
  }

  function Clamped(info: PostInfo, b: Bbox): Bbox {
    Bbox(MaxReal(b.xmin, 0.0), MaxReal(b.ymin, 0.0),
         MinReal(b.xmax, info.oriWidth as real - 1.0), MinReal(b.ymax, info.oriHeight as real - 1.0))
  }

  function Decoded(info: PostInfo, row: seq<real>): Detection
    requires info.Valid() && |row| == info.classNum + 4
  {
    var (conf, id) := Best(row, info.classNum);
    Detection(id, conf, Clamped(info, Corners(info, row)))
  }

  /** What becomes of an anchor that shows box `b` with these confidences: it is accepted exactly when some
      confidence reaches the threshold (or zero does) and the box has a part right of and below the origin;
      the detection has the first class of the highest confidence, that confidence, and the box cut off below
      at zero and above at the last pixel. */
  lemma AnchorDecoded(info: PostInfo, b: Bbox, scores: seq<real>)
    requires info.Valid() && |scores| == info.classNum
    ensures var row := Letterboxed(info, b) + scores;
            var d := Decoded(info, row);
            && (Accepted(info, row) <==>
                  && (info.scoreThreshold <= 0.0 || exists s :: s in scores && s >= info.scoreThreshold)
                  && b.xmax > 0.0 && b.ymax > 0.0 && b.xmin <= b.xmax && b.ymin <= b.ymax)
            && -1 <= d.id < |scores| && d.score >= 0.0 && (forall s <- scores :: s <= d.score)
            && (d.id < 0 <==> d.score == 0.0)
            && (d.id >= 0 ==> scores[d.id] == d.score && forall c :: 0 <= c < d.id ==> scores[c] < d.score)
            && d.bbox == Bbox(if b.xmin < 0.0 then 0.0 else b.xmin, if b.ymin < 0.0 then 0.0 else b.ymin,
                              if b.xmax > info.oriWidth as real - 1.0 then info.oriWidth as real - 1.0 else b.xmax,
                              if b.ymax > info.oriHeight as real - 1.0 then info.oriHeight as real - 1.0 else b.ymax)
  {
    hide Corners, Best, Letterboxed;
    var box := Letterboxed(info, b);
    var row := box + scores;
    CornersUndoLetterbox(info, b);
    CornersOfPrefix(info, box, scores);
    BestIsFirstMaximum(row, info.classNum);
    forall c | 0 <= c < |scores| ensures scores[c] == row[4 + c] {
    }
    var (m, id) := Best(row, info.classNum);
    if m >= info.scoreThreshold && info.scoreThreshold > 0.0 {
      assert scores[id] in scores;
    }
  }

  lemma CornersOfPrefix(info: PostInfo, box: seq<real>, scores: seq<real>)
    requires info.Valid() && |box| == 4
    ensures Corners(info, box + scores) == Corners(info, box)
  {
    hide PostInfo.WidthRatio, PostInfo.HeightRatio;
  }

  predicate Shaped(info: PostInfo, rows: seq<seq<real>>) {
    forall row <- rows :: |row| == info.classNum + 4
  }

  function Candidates(info: PostInfo, rows: seq<seq<real>>): seq<Detection>
    requires info.Valid() && Shaped(info, rows)
  {
    if rows == [] then []
    else
      var before, row := Candidates(info, rows[..|rows| - 1]), rows[|rows| - 1];
      if Accepted(info, row) then before + [Decoded(info, row)] else before
  }

  /** `at` are the accepted anchors, in order. */
  ghost predicate AcceptedAt(info: PostInfo, rows: seq<seq<real>>, at: seq<nat>)
    requires info.Valid() && Shaped(info, rows)
  {
    && (forall i, j :: 0 <= i < j < |at| ==> at[i] < at[j])
    && (forall j :: 0 <= j < |at| ==> at[j] < |rows| && Accepted(info, rows[at[j]]))
    && (forall i: nat :: i < |rows| && Accepted(info, rows[i]) ==> i in at)
  }

  lemma OneMoreAnchor(info: PostInfo, rows: seq<seq<real>>, row: seq<real>, at: seq<nat>)
    requires info.Valid() && Shaped(info, rows) && |row| == info.classNum + 4 && AcceptedAt(info, rows, at)
    ensures Shaped(info, rows + [row])
    ensures AcceptedAt(info, rows + [row], if Accepted(info, row) then at + [|rows|] else at)
  {
    hide Accepted;
    var more, n := rows + [row], |rows|;
    var at' := if Accepted(info, row) then at + [n] else at;
    forall j | 0 <= j < |at'| ensures at'[j] < |more| && Accepted(info, more[at'[j]]) {
      assert j < |at| ==> more[at[j]] == rows[at[j]];
    }
    forall i: nat | i < |more| && Accepted(info, more[i]) ensures i in at' {
      if i < n {
        assert more[i] == rows[i] && i in at;
      } else {
        assert at'[|at|] == n;
      }
    }
  }

  /** The candidates are the decoded accepted anchors, in the order of the anchors. */
  lemma {:induction false} CandidatesInOrder(info: PostInfo, rows: seq<seq<real>>) returns (at: seq<nat>)
    requires info.Valid() && Shaped(info, rows)
    ensures AcceptedAt(info, rows, at) && |at| == |Candidates(info, rows)|
    ensures forall j :: 0 <= j < |at| ==> at[j] < |rows| && Candidates(info, rows)[j] == Decoded(info, rows[at[j]])
  {
    hide Accepted, Decoded, AcceptedAt;
    if rows == [] {
      at := [];
      NoAnchors(info);
    } else {
      var init, last := rows[..|rows| - 1], rows[|rows| - 1];
      at := CandidatesInOrder(info, init);
      OneMoreAnchor(info, init, last, at);
      assert init + [last] == rows;
      if Accepted(info, last) {
        at := at + [|init|];
      }
    }
  }

  lemma NoAnchors(info: PostInfo)
    requires info.Valid()
    ensures AcceptedAt(info, [], [])
  {
  }

  /** The body of both decode loops, with its early exits. */
  method DecodeAnchor(info: PostInfo, row: seq<real>) returns (r: Option<Detection>)
    requires info.Valid() && |row| == info.classNum + 4
    ensures r == if Accepted(info, row) then Some(Decoded(info, row)) else None
  {
    var maxConf, classId := 0.0, -1;
    for j := 0 to info.classNum
      invariant (maxConf, classId) == Best(row, j)
    {
      var conf := row[4 + j];
      if conf > maxConf {
        maxConf, classId := conf, j;
      }
    }
    if maxConf < info.scoreThreshold {
      return None;
    }
    var b := Corners(info, row);
    if b.xmax <= 0.0 || b.ymax <= 0.0 {
      return None;
    }
    if b.xmin > b.xmax || b.ymin > b.ymax {
      return None;
    }
    return Some(Detection(classId, maxConf, Clamped(info, b)));
  }

  // ------------------------------------------------------------------ the two decoders

  method DecodeRows(info: PostInfo, rows: seq<seq<real>>) returns (result: seq<Detection>)
    requires info.Valid() && Shaped(info, rows)
    ensures result == Nms.Nms(Candidates(info, rows), info.nmsThreshold, false)
  {
    var dets: seq<Detection> := [];
    for i := 0 to |rows|
      invariant dets == Candidates(info, rows[..i])
    {
      assert rows[..i + 1][..i] == rows[..i];
      var r := DecodeAnchor(info, rows[i]);
      if r.Some? {
        dets := dets + [r.value];
      }
    }
    assert rows[..|rows|] == rows;
    var input := new Detection[|dets|](i requires 0 <= i < |dets| => dets[i]);
    assert input[..] == dets;
    result := Nms.Yolo5Nms(input, info.nmsThreshold, info.nmsTopK, false);
  }

  method Yolov8sPostProcess(info: PostInfo, data: seq<int>, half: int -> real) returns (result: seq<Detection>)
    requires info.Valid() && |data| == KNUM_DETECTIONS * (info.classNum + 4)
    ensures result == Nms.Nms(Candidates(info, RowsV8(data, KNUM_DETECTIONS, info.classNum + 4, half)), info.nmsThreshold, false)
  {
    result := DecodeRows(info, RowsV8(data, KNUM_DETECTIONS, info.classNum + 4, half));
  }

  method Yolov9sPostProcess(info: PostInfo, data: seq<int>, half: int -> real) returns (result: seq<Detection>)
    requires info.Valid() && |data| == (info.classNum + 4) * KNUM_DETECTIONS
    ensures result == Nms.Nms(Candidates(info, RowsV9(data, KNUM_DETECTIONS, info.classNum + 4, half)), info.nmsThreshold, false)
  {
    result := DecodeRows(info, RowsV9(data, KNUM_DETECTIONS, info.classNum + 4, half));
  }

  // ------------------------------------------------------------------ bounds

  predicate WithinImage(info: PostInfo, b: Bbox) {
    0.0 <= b.xmin && 0.0 <= b.ymin && b.xmax <= info.oriWidth as real - 1.0 && b.ymax <= info.oriHeight as real - 1.0
  }

  /** The clamp bounds every accepted box, but clamps only one side of each coordinate: the box comes
      out upright exactly when its unclamped lower corner was inside the image. */
  lemma ClampedBounds(info: PostInfo, row: seq<real>)
    requires info.Valid() && |row| == info.classNum + 4 && Accepted(info, row)
    ensures var b, c := Decoded(info, row).bbox, Corners(info, row);
            && WithinImage(info, b)
            && (b.xmin <= b.xmax && b.ymin <= b.ymax <==>
                c.xmin <= info.oriWidth as real - 1.0 && c.ymin <= info.oriHeight as real - 1.0)
  {
  }

  /** Such a row: a confident box whose lower corner is beyond the right edge comes out inverted. */
  lemma InvertedBox()
    ensures var info := PostInfo(640, 640, 640, 640, 0.25, 0.45, 100, true, 1);
            var row := [700.0, 320.0, 20.0, 20.0, 0.9];
            && Accepted(info, row)
            && Decoded(info, row) == Detection(0, 0.9, Bbox(690.0, 310.0, 639.0, 330.0))
  {
    var info := PostInfo(640, 640, 640, 640, 0.25, 0.45, 100, true, 1);
    var row := [700.0, 320.0, 20.0, 20.0, 0.9];
    assert Best(row, 0) == (0.0, -1) && Best(row, 1) == (0.9, 0);
    assert info.WidthRatio() == 1.0 && info.HeightRatio() == 1.0;
    assert Corners(info, row) == Bbox(690.0, 310.0, 710.0, 330.0);
  }

  lemma {:induction false} CandidatesWithin(info: PostInfo, rows: seq<seq<real>>)
    requires info.Valid() && Shaped(info, rows)
    ensures forall d <- Candidates(info, rows) :: WithinImage(info, d.bbox)
  {
    if rows != [] {
      CandidatesWithin(info, rows[..|rows| - 1]);
      if Accepted(info, rows[|rows| - 1]) {
        ClampedBounds(info, rows[|rows| - 1]);
      }
    }
  }

  /** Whatever a decoder returns is in the image ... */
  lemma ResultWithin(info: PostInfo, rows: seq<seq<real>>)
    requires info.Valid() && Shaped(info, rows)
    ensures forall d <- Nms.Nms(Candidates(info, rows), info.nmsThreshold, false) :: WithinImage(info, d.bbox)
  {
    var c := Candidates(info, rows);
    CandidatesWithin(info, rows);
    Nms.StableSortSorted(c);
    Nms.KeepSorted(Nms.StableSort(c), info.nmsThreshold, false);
    forall d <- Nms.Nms(c, info.nmsThreshold, false) ensures WithinImage(info, d.bbox) {
      assert d in multiset(Nms.StableSort(c));
      assert d in multiset(c);
    }
  }

  /** ... and, moved by the offset of a tile inside a frame, in the frame. */
  lemma ShiftedWithin(info: PostInfo, d: Detection, at: ImageInfo, frameWidth: nat, frameHeight: nat)
    requires info.Valid() && WithinImage(info, d.bbox)
    requires at.xOffset + info.oriWidth <= frameWidth && at.yOffset + info.oriHeight <= frameHeight
    ensures var b := Shift(d, at).bbox;
            0.0 <= b.xmin && 0.0 <= b.ymin && b.xmax <= frameWidth as real - 1.0 && b.ymax <= frameHeight as real - 1.0
  {
  }
}
