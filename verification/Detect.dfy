/** Plain records shared by the detector stages: `src/backends/lynxi/infer/detect.h`.
    Floats are modelled by reals. */
module Detect {
  datatype Bbox = Bbox(xmin: real, ymin: real, xmax: real, ymax: real)

  datatype Detection = Detection(id: int, score: real, bbox: Bbox)
  {
    /** What `operator>` compares: the class number is added to the score. */
    function Key(): real {
      score + id as real
    }
  }

  /** Where a tile was cut from. */
  datatype ImageInfo = ImageInfo(xOffset: nat, yOffset: nat)

  /** A tile-local detection moved to frame coordinates. */
  function Shift(d: Detection, info: ImageInfo): Detection {
    d.(bbox := Bbox(d.bbox.xmin + info.xOffset as real, d.bbox.ymin + info.yOffset as real,
                    d.bbox.xmax + info.xOffset as real, d.bbox.ymax + info.yOffset as real))
  }

  function ShiftAll(ds: seq<Detection>, info: ImageInfo): (r: seq<Detection>)
    ensures |r| == |ds|
    ensures forall i :: 0 <= i < |ds| ==> r[i] == Shift(ds[i], info)
  {
    seq(|ds|, i requires 0 <= i < |ds| => Shift(ds[i], info))
  }

  /** Moving a detection by a tile's offset undoes taking the offset from the box of the frame. */
  lemma ShiftBack(id: int, score: real, x0: real, y0: real, x1: real, y1: real, dx: nat, dy: nat)
    ensures Shift(Detection(id, score, Bbox(x0 - dx as real, y0 - dy as real, x1 - dx as real, y1 - dy as real)), ImageInfo(dx, dy))
            == Detection(id, score, Bbox(x0, y0, x1, y1))
  {
  }
}
