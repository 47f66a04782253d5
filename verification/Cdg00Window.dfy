/** `decode_window` of `cdg00_decode.hpp`: the valid lines of a block of raw lines, compacted to the
    top of an image, and the first and last complete sample among them. */
module Cdg00Window {
  import opened Bytes
  import opened Cdg00

  function LineCount(raw: seq<Byte>): nat {
    |raw| / LINE_SIZE
  }

  predicate ValidLine(raw: seq<Byte>, i: nat) {
    i < LineCount(raw) && raw[i * LINE_SIZE..i * LINE_SIZE + |MAGIC|] == MAGIC
  }

  /** A valid line of row number zero that has sixteen lines of the block from itself on. */
  predicate SampleLine(raw: seq<Byte>, i: nat) {
    ValidLine(raw, i) && i + 16 <= LineCount(raw) && raw[i * LINE_SIZE + 9] % 16 == 0
  }

  function ValidLines(raw: seq<Byte>, n: nat): (r: seq<nat>) {
    if n == 0 then [] else ValidLines(raw, n - 1) + (if ValidLine(raw, n - 1) then [n - 1] else [])
  }

  function SampleLines(raw: seq<Byte>, n: nat): (r: seq<nat>) {
    if n == 0 then [] else SampleLines(raw, n - 1) + (if SampleLine(raw, n - 1) then [n - 1] else [])
  }

  predicate Increasing(s: seq<nat>) {
    forall i, j :: 0 <= i < j < |s| ==> s[i] < s[j]
  }

  lemma {:induction false} ValidLinesAre(raw: seq<Byte>, n: nat)
    ensures Increasing(ValidLines(raw, n))
    ensures forall j :: 0 <= j < |ValidLines(raw, n)| ==> ValidLines(raw, n)[j] < n && ValidLine(raw, ValidLines(raw, n)[j])
    ensures forall i: nat :: i < n && ValidLine(raw, i) ==> i in ValidLines(raw, n)
  {
    hide ValidLine;
    if n > 0 {
      ValidLinesAre(raw, n - 1);
    }
  }

  lemma {:induction false} SampleLinesAre(raw: seq<Byte>, n: nat)
    ensures Increasing(SampleLines(raw, n))
    ensures forall j :: 0 <= j < |SampleLines(raw, n)| ==> SampleLines(raw, n)[j] < n && SampleLine(raw, SampleLines(raw, n)[j])
    ensures forall i: nat :: i < n && SampleLine(raw, i) ==> i in SampleLines(raw, n)
  {
    hide SampleLine;
    if n > 0 {
      SampleLinesAre(raw, n - 1);
    }
  }

  /** The packed pixels of a line: what follows its header and its parameters. */
  function Payload(raw: seq<Byte>, i: nat): (r: seq<Byte>)
    requires i < LineCount(raw)
    ensures |r| == PACKED_LINE_SIZE
  {
    var at := i * LINE_SIZE + LINE_HEADER_SIZE + LINE_PARAM_SIZE;
    raw[at..at + PACKED_LINE_SIZE]
  }

  function SampleAt(raw: seq<Byte>, i: nat): Sample
    requires SampleLine(raw, i)
  {
    ParseSample(raw[i * LINE_SIZE..])
  }

  predicate AllInBlock(raw: seq<Byte>, lines: seq<nat>) {
    forall j :: 0 <= j < |lines| ==> lines[j] < LineCount(raw)
  }

  /** The unpacked lines one below the other. */
  function Rows(raw: seq<Byte>, lines: seq<nat>): (r: seq<Byte>)
    requires AllInBlock(raw, lines)
    ensures |r| == |lines| * IMAGE_WIDTH
  {
    if lines == [] then [] else Rows(raw, lines[..|lines| - 1]) + Top8(Payload(raw, lines[|lines| - 1]))
  }

  function Kept(raw: seq<Byte>, n: nat, height: nat): (r: seq<nat>)
    ensures |r| == Min(|ValidLines(raw, n)|, height) && r <= ValidLines(raw, n)
  {
    ValidLines(raw, n)[..Min(|ValidLines(raw, n)|, height)]
  }

  /** The image after the first `n` lines of the block. */
  function Image(raw: seq<Byte>, n: nat, height: nat): (r: seq<Byte>)
    requires n <= LineCount(raw)
    ensures |r| == height * IMAGE_WIDTH
  {
    ValidLinesAre(raw, n);
    Rows(raw, Kept(raw, n, height)) + Zeros((height - |Kept(raw, n, height)|) * IMAGE_WIDTH)
  }

  function First(raw: seq<Byte>, n: nat): Sample {
    SampleLinesAre(raw, n);
    if SampleLines(raw, n) == [] then EMPTY_SAMPLE
    else SampleAt(raw, SampleLines(raw, n)[0])
  }

  function Last(raw: seq<Byte>, n: nat): Sample {
    SampleLinesAre(raw, n);
    var s := SampleLines(raw, n);
    if s == [] then EMPTY_SAMPLE else SampleAt(raw, s[|s| - 1])
  }

  lemma Splice(rows: seq<Byte>, row: seq<Byte>, free: nat)
    requires |row| == IMAGE_WIDTH && free > 0
    ensures var full := rows + Zeros(free * IMAGE_WIDTH);
            rows + row + Zeros((free - 1) * IMAGE_WIDTH) == full[..|rows|] + row + full[|rows| + IMAGE_WIDTH..]
  {
  }

  lemma KeptStep(raw: seq<Byte>, n: nat, height: nat)
    ensures Kept(raw, n + 1, height) ==
            if ValidLine(raw, n) && |ValidLines(raw, n)| < height then Kept(raw, n, height) + [n]
            else Kept(raw, n, height)
  {
    hide ValidLine;
  }

  lemma RowsStep(raw: seq<Byte>, lines: seq<nat>, n: nat)
    requires AllInBlock(raw, lines) && n < LineCount(raw)
    ensures Rows(raw, lines + [n]) == Rows(raw, lines) + Top8(Payload(raw, n))
  {
    assert (lines + [n])[..|lines|] == lines;
  }

  /** One more line: at the next free row if it is valid and there is one. */
  lemma ImageStep(raw: seq<Byte>, n: nat, height: nat)
    requires n < LineCount(raw)
    ensures var full, next := Image(raw, n, height), Image(raw, n + 1, height);
            var at := Min(|ValidLines(raw, n)|, height) * IMAGE_WIDTH;
            if ValidLine(raw, n) && |ValidLines(raw, n)| < height then
              next == full[..at] + Top8(Payload(raw, n)) + full[at + IMAGE_WIDTH..]
            else next == full
  {
    hide ValidLine, Payload, Top8, ValidLines, Rows;
    ValidLinesAre(raw, n);
    KeptStep(raw, n, height);
    var k := Kept(raw, n, height);
    if ValidLine(raw, n) && |ValidLines(raw, n)| < height {
      assert AllInBlock(raw, k);
      RowsStep(raw, k, n);
      Splice(Rows(raw, k), Top8(Payload(raw, n)), height - |k|);
    }
  }

  lemma SamplesStep(raw: seq<Byte>, n: nat)
    requires n < LineCount(raw)
    ensures SampleLine(raw, n) ==> Last(raw, n + 1) == SampleAt(raw, n)
    ensures SampleLine(raw, n) ==> First(raw, n + 1) == if First(raw, n).valid then First(raw, n) else SampleAt(raw, n)
    ensures !SampleLine(raw, n) ==> First(raw, n + 1) == First(raw, n) && Last(raw, n + 1) == Last(raw, n)
  {
    hide SampleLine;
    SampleLinesAre(raw, n);
  }

  lemma NothingYet(raw: seq<Byte>, height: nat)
    ensures Image(raw, 0, height) == Zeros(height * IMAGE_WIDTH)
    ensures First(raw, 0) == EMPTY_SAMPLE && Last(raw, 0) == EMPTY_SAMPLE && ValidLines(raw, 0) == []
  {
  }

  lemma SomeLine(raw: seq<Byte>)
    ensures ValidLines(raw, LineCount(raw)) != [] <==> exists i: nat :: ValidLine(raw, i)
  {
    ValidLinesAre(raw, LineCount(raw));
    var v := ValidLines(raw, LineCount(raw));
    if v != [] {
      assert v[0] in v;
    }
    if i: nat :| ValidLine(raw, i) {
      assert i in v;
    }
  }

  /** Unpacking a valid line behind the pixels converted so far makes the image of one more line. */
  lemma LineConverted(raw: seq<Byte>, line: nat, height: nat, converted: nat, written: nat, row: seq<Byte>, out: seq<Byte>)
    requires line < LineCount(raw) && ValidLine(raw, line) && row == Top8(Payload(raw, line))
    requires converted == Min(|ValidLines(raw, line)|, height) * IMAGE_WIDTH
    requires written == Min(height * IMAGE_WIDTH - converted, IMAGE_WIDTH)
    requires var image := Image(raw, line, height); out == image[..converted] + row[..written] + image[converted + written..]
    ensures out == Image(raw, line + 1, height)
    ensures converted + written == Min(|ValidLines(raw, line + 1)|, height) * IMAGE_WIDTH
  {
    hide Top8, Image, ValidLines, ValidLine, Payload;
    ImageStep(raw, line, height);
    CountStep(raw, line);
    if |ValidLines(raw, line)| >= height {
      NothingWritten(Image(raw, line, height), row);
    } else {
      assert row[..IMAGE_WIDTH] == row;
    }
  }

  /** The pixels of one valid line, written behind those converted so far. */
  method ConvertLine(raw: seq<Byte>, line: nat, height: nat, pixels: array<Byte>, converted: nat) returns (next: nat)
    requires ValidLine(raw, line) && pixels[..] == Image(raw, line, height)
    requires converted == Min(|ValidLines(raw, line)|, height) * IMAGE_WIDTH
    modifies pixels
    ensures pixels[..] == Image(raw, line + 1, height)
    ensures next == Min(|ValidLines(raw, line + 1)|, height) * IMAGE_WIDTH
  {
    InRange(raw, line);
    hide Top8, Image, ValidLines, Zeros, Symbol, ValidLine;
    var packed := line * LINE_SIZE + LINE_HEADER_SIZE + LINE_PARAM_SIZE;
    var payload := raw[packed..packed + PACKED_LINE_SIZE];
    assert payload == Payload(raw, line);
    hide Payload;
    ghost var image := Image(raw, line, height);
    var written := Unpack10To8(payload, pixels, converted);
    next := converted + written;
    LineConverted(raw, line, height, converted, written, Top8(payload), pixels[..]);
  }

  lemma InRange(raw: seq<Byte>, line: nat)
    requires ValidLine(raw, line)
    ensures line < LineCount(raw) && (line + 1) * LINE_SIZE <= |raw|
  {
  }

  lemma NothingWritten(image: seq<Byte>, row: seq<Byte>)
    ensures image[..|image|] + row[..0] + image[|image|..] == image
  {
  }

  method DecodeWindow(raw: seq<Byte>, height: nat)
    returns (ok: bool, pixels: array<Byte>, windowStart: Sample, windowEnd: Sample)
    ensures fresh(pixels) && pixels[..] == Image(raw, LineCount(raw), height)
    ensures ok <==> height > 0 && exists i: nat :: ValidLine(raw, i)
    ensures windowStart == First(raw, LineCount(raw)) && windowEnd == Last(raw, LineCount(raw))
  {
    hide Image, First, Last, ParseSample, ValidLines, SampleLines, Zeros;
    var lineCount := LineCount(raw);
    pixels := new Byte[IMAGE_WIDTH * height](_ => 0);
    windowStart, windowEnd := EMPTY_SAMPLE, EMPTY_SAMPLE;
    var converted, line := 0, 0;
    NothingYet(raw, height);
    assert pixels[..] == Zeros(height * IMAGE_WIDTH);
    while line < lineCount
      invariant 0 <= line <= lineCount
      invariant converted == Min(|ValidLines(raw, line)|, height) * IMAGE_WIDTH
      invariant pixels[..] == Image(raw, line, height)
      invariant windowStart == First(raw, line) && windowEnd == Last(raw, line)
    {
      var at := line * LINE_SIZE;
      SamplesStep(raw, line);
      if raw[at..at + |MAGIC|] == MAGIC {
        if line + 16 <= lineCount && raw[at + 9] % 16 == 0 {
          var sample := ParseSample(raw[at..]);
          if !windowStart.valid {
            windowStart := sample;
          }
          windowEnd := sample;
        }
        converted := ConvertLine(raw, line, height, pixels, converted);
      } else {
        ImageStep(raw, line, height);
        CountStep(raw, line);
      }
      line := line + 1;
    }
    ok := converted > 0;
    SomeLine(raw);
  }

  lemma CountStep(raw: seq<Byte>, n: nat)
    ensures |ValidLines(raw, n + 1)| == |ValidLines(raw, n)| + if ValidLine(raw, n) then 1 else 0
  {
  }

  // ------------------------------------------------------------------ what the image shows

  lemma {:induction false} RowsAt(raw: seq<Byte>, lines: seq<nat>, r: nat, c: nat)
    requires AllInBlock(raw, lines) && r < |lines| && c < IMAGE_WIDTH
    ensures Rows(raw, lines)[r * IMAGE_WIDTH + c] == Symbol(Payload(raw, lines[r]), c) / 4
  {
    hide Payload, Symbol;
    if r < |lines| - 1 {
      RowsAt(raw, lines[..|lines| - 1], r, c);
    }
  }

  /** Output row `r` shows the top eight bits of the symbols of the r-th valid line; the rows after the
      last valid line are zero. */
  lemma ImageAt(raw: seq<Byte>, height: nat, r: nat, c: nat)
    requires r < height && c < IMAGE_WIDTH
    ensures var v := ValidLines(raw, LineCount(raw));
            && (r < |v| ==> v[r] < LineCount(raw) &&
                            Image(raw, LineCount(raw), height)[r * IMAGE_WIDTH + c] == Symbol(Payload(raw, v[r]), c) / 4)
            && (r >= |v| ==> Image(raw, LineCount(raw), height)[r * IMAGE_WIDTH + c] == 0)
  {
    hide Payload, Symbol, Rows, ValidLines;
    var n := LineCount(raw);
    var v, k := ValidLines(raw, n), Kept(raw, n, height);
    ValidLinesAre(raw, n);
    if r < |v| {
      assert AllInBlock(raw, k);
      RowsAt(raw, k, r, c);
    }
  }

  /** A line whose payload packs 10-bit pixels shows those pixels without their two low bits. */
  lemma PackedLineShows(raw: seq<Byte>, height: nat, r: nat, px: seq<Pixel10>, c: nat)
    requires r < height && r < |ValidLines(raw, LineCount(raw))| && |px| == IMAGE_WIDTH && c < IMAGE_WIDTH
    requires ValidLines(raw, LineCount(raw))[r] < LineCount(raw)
    requires Payload(raw, ValidLines(raw, LineCount(raw))[r]) == Pack(px)
    ensures Image(raw, LineCount(raw), height)[r * IMAGE_WIDTH + c] == px[c] / 4
  {
    hide Image, Payload, ValidLines, Symbol, Pack;
    ImageAt(raw, height, r, c);
    SymbolsOfPacked(px, c);
  }

  /** The window's start and end come from the first and the last valid row-zero line with a complete
      sample, if there is one. */
  lemma WindowEnds(raw: seq<Byte>, i: nat, j: nat)
    requires SampleLine(raw, i) && SampleLine(raw, j)
    requires forall k: nat :: SampleLine(raw, k) ==> i <= k <= j
    ensures First(raw, LineCount(raw)) == SampleAt(raw, i) && Last(raw, LineCount(raw)) == SampleAt(raw, j)
  {
    hide SampleLine, SampleAt;
    var n := LineCount(raw);
    SampleLinesAre(raw, n);
    var s := SampleLines(raw, n);
    InBlock(raw, i);
    InBlock(raw, j);
    assert i in s && j in s;
    assert s[0] in s && s[|s| - 1] in s;
    assert s[0] <= i && j <= s[|s| - 1];
  }

  lemma InBlock(raw: seq<Byte>, i: nat)
    requires SampleLine(raw, i)
    ensures i < LineCount(raw)
  {
  }

  lemma NoWindowEnds(raw: seq<Byte>)
    ensures (forall k: nat :: !SampleLine(raw, k)) <==> !First(raw, LineCount(raw)).valid
    ensures (forall k: nat :: !SampleLine(raw, k)) <==> !Last(raw, LineCount(raw)).valid
  {
    var n := LineCount(raw);
    SampleLinesAre(raw, n);
    var s := SampleLines(raw, n);
    if s == [] {
      forall k: nat ensures !SampleLine(raw, k) {
        assert SampleLine(raw, k) ==> k in s;
      }
    }
  }

  /** A window sample starts on a sixteen-row boundary. */
  lemma SampleRowAligned(raw: seq<Byte>, i: nat)
    requires SampleLine(raw, i)
    ensures SampleAt(raw, i).rowNumber % 16 == 0
  {
    var d := raw[i * LINE_SIZE..];
    MaskOut(d, 6);
    assert d[9] == raw[i * LINE_SIZE + 9];
    LowBits(d[7], d[8], d[9]);
    hide ReadBe32;
  }

  lemma LowBits(a: int, b: int, c: int)
    requires c % 16 == 0
    ensures (a * 0x1_0000 + b * 0x100 + c) % 16 == 0
  {
    var q := c / 16;
    assert c == 16 * q;
    Sixteen(a * 0x1000 + b * 0x10 + q);
  }

  lemma Sixteen(n: int)
    ensures (16 * n) % 16 == 0
  {
  }
}
