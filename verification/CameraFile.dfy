/** A file of camera lines through the sliding-window source: which picture lines every frame shows. */
module CameraFile {
  import opened Basics
  import opened Bytes
  import opened Cdg00
  import opened Cdg00Window
  import opened CameraLines
  import opened Cdg00Src

  lemma BlockPush(lines: seq<Line>, line: Line)
    requires Regular(lines) && line.Valid()
    ensures Regular(lines + [line]) && Block(lines + [line]) == Block(lines) + line.Encode()
  {
    hide Line.Valid, Line.Encode;
    assert (lines + [line])[..|lines|] == lines;
  }

  lemma {:induction false} BlockConcat(a: seq<Line>, b: seq<Line>)
    requires Regular(a) && Regular(b)
    ensures Regular(a + b) && Block(a + b) == Block(a) + Block(b)
  {
    hide Line.Valid, Line.Encode;
    if b == [] {
      assert a + b == a;
    } else {
      var init, last := b[..|b| - 1], b[|b| - 1];
      hide Block;
      BlockConcat(a, init);
      assert last.Valid();
      BlockPush(a + init, last);
      BlockPush(init, last);
      assert a + b == a + init + [last] && b == init + [last];
    }
  }

  /** The lines of frame `k`. */
  function WindowOf(lines: seq<Line>, stride: nat, height: nat, k: nat): seq<Line>
    requires k * stride <= |lines|
  {
    lines[k * stride..Min(k * stride + height, |lines|)]
  }

  /** The window of frame `k` holds whole lines of the camera, and after the last of them perhaps the
      beginning of another. */
  lemma WindowIsBlock(s: Source, lines: seq<Line>, tail: seq<Byte>, k: nat) returns (rest: seq<Byte>)
    requires s.Valid() && Regular(lines) && |tail| < 6448 && s.file == Block(lines) + tail && k < s.Frames()
    ensures s.Lines() == |lines| && k * s.stride < |lines|
    ensures Regular(WindowOf(lines, s.stride, s.height, k)) && |rest| < 6448
    ensures Window(s, k) == Block(WindowOf(lines, s.stride, s.height, k)) + rest
  {
    hide Line.Valid, Block, Source.Frames;
    FrameCount(s, k);
    OffsetInFile(s, k);
    var first := k * s.stride;
    var end := Min(first + s.height, |lines|);
    var before, mid, after := lines[..first], lines[first..end], lines[end..];
    assert lines == before + mid + after;
    BlockConcat(before, mid);
    BlockConcat(before + mid, after);
    var window := Window(s, k);
    if end == |lines| {
      assert after == [];
      rest := if first + s.height == end then [] else tail;
    } else {
      rest := [];
    }
  }

  lemma DecodesIff(lines: seq<Line>, rest: seq<Byte>)
    requires Regular(lines) && |rest| < 6448
    ensures (exists i: nat :: ValidLine(Block(lines) + rest, i)) <==> Pictures(lines) != []
  {
    hide Block, Line.Valid, ValidLine, Pictures, ValidLines;
    var raw := Block(lines) + rest;
    assert lines[..|lines|] == lines;
    assert LineCount(raw) == |lines|;
    PicturesAreValid(lines, rest, |lines|);
    SomeLine(raw);
  }

  /** Every window shows something: the source never fails. */
  ghost predicate NoDarkWindow(s: Source, lines: seq<Line>)
    requires Regular(lines)
  {
    forall k: nat :: k * s.stride < |lines| ==> Regular(WindowOf(lines, s.stride, s.height, k)) && Lit(s, lines, k)
  }

  ghost predicate Lit(s: Source, lines: seq<Line>, k: nat)
    requires k * s.stride < |lines| && Regular(WindowOf(lines, s.stride, s.height, k))
  {
    Pictures(WindowOf(lines, s.stride, s.height, k)) != []
  }

  lemma CameraDecodes(s: Source, lines: seq<Line>, tail: seq<Byte>)
    requires s.Valid() && Regular(lines) && |tail| < 6448 && s.file == Block(lines) + tail
    ensures AllDecode(s) <==> NoDarkWindow(s, lines)
  {
    hide Regular, Block, Pictures, ValidLine, Source.Frames, Source.Block;
    forall k: nat ensures k < s.Frames() <==> k * s.stride < |lines| {
      FrameCount(s, k);
    }
    forall k: nat | k < s.Frames()
      ensures Regular(WindowOf(lines, s.stride, s.height, k)) && LINE_SIZE * (k * s.stride) <= |s.file|
      ensures s.Decodes(s.Block(LINE_SIZE * (k * s.stride))) <==> Lit(s, lines, k)
    {
      var rest := WindowIsBlock(s, lines, tail, k);
      DecodesIff(WindowOf(lines, s.stride, s.height, k), rest);
    }
  }

  /** THE result: of a file of camera lines, in which every window shows something, the source pushes one
      frame for every `stride` lines, and row r of frame k shows the r-th picture line among lines
      k * stride to k * stride + height, without the two low bits of its pixels. */
  lemma CameraFrames(s: Source, lines: seq<Line>, tail: seq<Byte>, calls: nat, k: nat, r: nat, c: nat)
    requires s.Valid() && Regular(lines) && |tail| < 6448 && s.file == Block(lines) + tail && NoDarkWindow(s, lines)
    requires k < calls && r < s.height && c < 4096
    ensures |Run(s, calls, 0, 0)| == calls
    ensures k * s.stride < |lines| ==>
              var flow, p := Run(s, calls, 0, 0)[k], Pictures(lines[k * s.stride..Min(k * s.stride + s.height, |lines|)]);
              && flow.Pushed? && flow.number == k && |flow.pixels| == s.height * 4096
              && flow.pixels[r * 4096 + c] == if r < |p| then p[r][c] / 4 else 0
    ensures k * s.stride >= |lines| ==> Run(s, calls, 0, 0)[k] == Eos
  {
    hide Regular, Block, Pictures, Source.Frames, Source.Block, AllDecode, Run, Image, First, Last, NoDarkWindow;
    CameraDecodes(s, lines, tail);
    RunIs(s, calls, k);
    FrameCount(s, k);
    if k < s.Frames() {
      var rest := WindowIsBlock(s, lines, tail, k);
      BlockShows(WindowOf(lines, s.stride, s.height, k), rest, s.height, r, c);
    }
  }
}
