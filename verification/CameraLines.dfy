/** What the camera writes, line by line, and what `decode_window` makes of it: the layout of a line in
    plain numbers, independent of the decoder's own constants. */
module CameraLines {
  import opened Basics
  import opened Bytes
  import opened Cdg00
  import opened Cdg00Window

  // ------------------------------------------------------------------ a camera

  /** A line of 6448 bytes: a picture line starts with the five magic bytes, noise does not. */
  datatype Line =
    | Picture(header: seq<Byte>, params: seq<Byte>, px: seq<Pixel10>, trailer: seq<Byte>)
    | Noise(bytes: seq<Byte>)
  {
    predicate Valid() {
      match this
      case Picture(header, params, px, trailer) => |header| == 11 && |params| == 32 && |px| == 4096 && |trailer| == 1280
      case Noise(bytes) => |bytes| == 6448 && bytes[..5] != [0xFA, 0xF3, 0x34, 0x0A, 0x01]
    }

    function Encode(): (r: seq<Byte>)
      requires Valid()
      ensures |r| == 6448
    {
      match this
      case Picture(header, params, px, trailer) => [0xFA, 0xF3, 0x34, 0x0A, 0x01] + header + params + Pack(px) + trailer
      case Noise(bytes) => bytes
    }
  }

  predicate Regular(lines: seq<Line>) {
    forall i :: 0 <= i < |lines| ==> lines[i].Valid()
  }

  /** One line after the other. */
  function Block(lines: seq<Line>): (r: seq<Byte>)
    requires Regular(lines)
    ensures |r| == 6448 * |lines|
  {
    if lines == [] then [] else Block(lines[..|lines| - 1]) + lines[|lines| - 1].Encode()
  }

  /** The pixels of the picture lines, in order. */
  function Pictures(lines: seq<Line>): (r: seq<seq<Pixel10>>)
    requires Regular(lines)
    ensures forall px <- r :: |px| == 4096
  {
    if lines == [] then []
    else
      var last := lines[|lines| - 1];
      Pictures(lines[..|lines| - 1]) + if last.Picture? then [last.px] else []
  }

  lemma {:induction false} ByteOfLine(lines: seq<Line>, tail: seq<Byte>, i: nat, k: nat)
    requires Regular(lines) && i < |lines| && k < 6448
    ensures (Block(lines) + tail)[i * 6448 + k] == lines[i].Encode()[k]
  {
    hide Line.Encode, Line.Valid;
    var n := |lines| - 1;
    if i < n {
      ByteOfLine(lines[..n], tail, i, k);
    }
  }

  lemma LineOfBlock(lines: seq<Line>, tail: seq<Byte>, i: nat)
    requires Regular(lines) && i < |lines| && |tail| < 6448
    ensures var raw := Block(lines) + tail;
            && LineCount(raw) == |lines| && (ValidLine(raw, i) <==> lines[i].Picture?)
            && (lines[i].Picture? ==> Payload(raw, i) == Pack(lines[i].px))
  {
    hide Block, Pack, Line.Encode, ValidLine, Payload;
    var raw, line := Block(lines) + tail, lines[i].Encode();
    assert lines[i].Valid();
    hide Line.Valid;
    forall k: nat | k < 6448 ensures raw[i * 6448 + k] == line[k] {
      ByteOfLine(lines, tail, i, k);
    }
    assert LineCount(raw) == |lines|;
    LineAt(raw, i, line);
    EncodedParts(lines[i]);
  }

  /** Where the decoder looks in a line of the block. */
  lemma LineAt(raw: seq<Byte>, i: nat, line: seq<Byte>)
    requires i < LineCount(raw) && |line| == 6448 && forall k: nat :: k < 6448 ==> raw[i * 6448 + k] == line[k]
    ensures ValidLine(raw, i) <==> line[..5] == [0xFA, 0xF3, 0x34, 0x0A, 0x01]
    ensures Payload(raw, i) == line[48..5168]
  {
    assert raw[i * 6448..i * 6448 + 5] == line[..5];
    assert raw[i * 6448 + 48..i * 6448 + 5168] == line[48..5168];
  }

  lemma EncodedParts(line: Line)
    requires line.Valid()
    ensures line.Encode()[..5] == [0xFA, 0xF3, 0x34, 0x0A, 0x01] <==> line.Picture?
    ensures line.Picture? ==> line.Encode()[48..5168] == Pack(line.px)
  {
    hide Pack;
  }

  /** The lines `v` are picture lines, and show the pictures `p`. */
  predicate Match(lines: seq<Line>, v: seq<nat>, p: seq<seq<Pixel10>>) {
    |v| == |p| && forall r :: 0 <= r < |v| ==> v[r] < |lines| && lines[v[r]].Picture? && lines[v[r]].px == p[r]
  }

  lemma MatchOneMore(lines: seq<Line>, v: seq<nat>, p: seq<seq<Pixel10>>, n: nat)
    requires Match(lines, v, p) && n < |lines| && lines[n].Picture?
    ensures Match(lines, v + [n], p + [lines[n].px])
  {
  }

  /** The valid lines of the block are the picture lines. */
  lemma {:induction false} PicturesAreValid(lines: seq<Line>, tail: seq<Byte>, n: nat)
    requires Regular(lines) && n <= |lines| && |tail| < 6448
    ensures Match(lines, ValidLines(Block(lines) + tail, n), Pictures(lines[..n]))
  {
    hide Block, Line.Valid, Match;
    if n > 0 {
      hide ValidLines, Pictures;
      PicturesAreValid(lines, tail, n - 1);
      NextLine(lines, tail, n - 1);
      if lines[n - 1].Picture? {
        MatchOneMore(lines, ValidLines(Block(lines) + tail, n - 1), Pictures(lines[..n - 1]), n - 1);
      }
    } else {
      NothingMatched(lines);
      assert lines[..0] == [];
    }
  }

  lemma NothingMatched(lines: seq<Line>)
    ensures Match(lines, [], [])
  {
  }

  lemma NextLine(lines: seq<Line>, tail: seq<Byte>, n: nat)
    requires Regular(lines) && n < |lines| && |tail| < 6448
    ensures var raw := Block(lines) + tail;
            ValidLines(raw, n + 1) == if lines[n].Picture? then ValidLines(raw, n) + [n] else ValidLines(raw, n)
    ensures Pictures(lines[..n + 1]) == if lines[n].Picture? then Pictures(lines[..n]) + [lines[n].px] else Pictures(lines[..n])
  {
    hide Block, Line.Valid, ValidLine, Payload, Pack, LineCount;
    LineOfBlock(lines, tail, n);
    assert lines[..n + 1][..n] == lines[..n];
  }

  /** THE round trip: of a block of picture lines mixed with noise, and part of a line behind it, image
      row r shows the r-th picture line without the two low bits of its pixels, and black when there is none. */
  lemma BlockShows(lines: seq<Line>, tail: seq<Byte>, height: nat, r: nat, c: nat)
    requires Regular(lines) && |tail| < 6448 && r < height && c < 4096
    ensures var raw, p := Block(lines) + tail, Pictures(lines);
            && LineCount(raw) == |lines| && |Image(raw, |lines|, height)| == height * 4096
            && Image(raw, |lines|, height)[r * 4096 + c] == if r < |p| then p[r][c] / 4 else 0
  {
    hide Block, Line.Valid, Image, ValidLines, Payload, Pack, Symbol, Pictures, ValidLine;
    var raw := Block(lines) + tail;
    assert lines[..|lines|] == lines;
    assert LineCount(raw) == |lines|;
    PicturesAreValid(lines, tail, |lines|);
    ImageAt(raw, height, r, c);
    if r < |Pictures(lines)| {
      var i := ValidLines(raw, |lines|)[r];
      LineOfBlock(lines, tail, i);
      SymbolsOfPacked(lines[i].px, c);
    }
  }

  // ------------------------------------------------------------------ bits

  /** Halved `k` times. */
  function Shift(x: nat, k: nat): nat {
    if k == 0 then x else Shift(x / 2, k - 1)
  }

  /** Bit `j` of a byte, the most significant first. */
  function Bit(x: Byte, j: nat): nat
    requires j < 8
  {
    Shift(x, 7 - j) % 2
  }

  /** Bit `n` of the bytes from `at` on. */
  function StreamBit(d: seq<Byte>, at: nat, n: nat): nat
    requires at + n / 8 < |d|
  {
    Bit(d[at + n / 8], n % 8)
  }

  /** Doubled `k` times. */
  function Doubled(x: nat, k: nat): nat {
    if k == 0 then x else 2 * Doubled(x, k - 1)
  }

  lemma {:induction false} ShiftTwice(x: nat, a: nat, b: nat)
    ensures Shift(x, a + b) == Shift(Shift(x, a), b)
    decreases a
  {
    if a > 0 {
      ShiftTwice(x / 2, a - 1, b);
    }
  }

  /** What is added above bit `k` does not change it. */
  lemma {:induction false} Parity(r: nat, t: nat, k: nat)
    ensures Shift(r + 2 * Doubled(t, k), k) % 2 == Shift(r, k) % 2
    decreases k
  {
    if k > 0 {
      var p := Doubled(t, k - 1);
      HalfOfSum(r, p);
      Parity(r / 2, t, k - 1);
    }
  }

  lemma HalfOfSum(r: nat, p: nat)
    ensures (r + 2 * (2 * p)) / 2 == r / 2 + 2 * p
  {
  }

  lemma {:induction false} DoubledTwice(t: nat, a: nat, b: nat)
    ensures Doubled(Doubled(t, a), b) == Doubled(t, a + b)
    decreases b
  {
    if b > 0 {
      DoubledTwice(t, a, b - 1);
    }
  }

  lemma Doubled7(t: nat)
    ensures Doubled(t, 7) == 128 * t
  {
    assert Doubled(t, 1) == 2 * t && Doubled(t, 2) == 4 * t && Doubled(t, 3) == 8 * t;
    assert Doubled(t, 5) == 32 * t;
  }

  lemma LowBit(v: nat, k: nat)
    requires k < 8
    ensures Shift(v % 256, k) % 2 == Shift(v, k) % 2
  {
    hide Shift, Doubled;
    var r, t := v % 256, v / 256;
    Parity(r, Doubled(t, 7 - k), k);
    DoubledTwice(t, 7 - k, k);
    Doubled7(t);
  }

  lemma ShiftOne(x: nat)
    ensures Shift(x, 1) == x / 2
  {
    assert Shift(x, 1) == Shift(x / 2, 0);
  }

  /** Two bytes as one number: its upper half is the first byte, its lower bits are those of the second. */
  lemma UpperByte(x: Byte, y: Byte)
    ensures Shift(256 * x + y, 8) == x
  {
    var w := 256 * x + y;
    assert w / 2 == 128 * x + y / 2 && w / 2 / 2 == 64 * x + y / 4 && w / 2 / 2 / 2 == 32 * x + y / 8;
    UpperHalf(w / 2 / 2 / 2, x, y / 8);
    ShiftTwice(w, 3, 5);
    Unroll3(w);
  }

  lemma UpperHalf(w: nat, x: nat, y: nat)
    requires y < 32 && w == 32 * x + y
    ensures Shift(w, 5) == x
  {
    assert w / 2 == 16 * x + y / 2 && w / 2 / 2 == 8 * x + y / 4;
    Unroll3(w);
    Unroll3(w / 2 / 2);
    ShiftTwice(w, 2, 3);
    assert Shift(w, 2) == w / 2 / 2;
  }

  lemma Unroll3(w: nat)
    ensures Shift(w, 1) == w / 2 && Shift(w, 2) == w / 2 / 2 && Shift(w, 3) == w / 2 / 2 / 2
  {
    ShiftOne(w);
    ShiftTwice(w, 1, 1);
    ShiftOne(w / 2);
    ShiftTwice(w, 2, 1);
    ShiftOne(w / 2 / 2);
  }

  /** Eight bits of two bytes, from bit `2 q` of the first on. */
  function Straddled(x: Byte, y: Byte, q: nat): Byte
    requires q < 4
  {
    Shift(256 * x + y, 8 - 2 * q) % 256
  }

  lemma StraddledBit(x: Byte, y: Byte, q: nat, j: nat)
    requires q < 4 && j < 8
    ensures Bit(Straddled(x, y, q), j) == if 2 * q + j < 8 then Bit(x, 2 * q + j) else Bit(y, 2 * q + j - 8)
  {
    hide Shift;
    var w, k: nat := 256 * x + y, 15 - 2 * q - j;
    LowBit(Shift(w, 8 - 2 * q), 7 - j);
    ShiftTwice(w, 8 - 2 * q, 7 - j);
    if k < 8 {
      LowBit(w, k);
      assert w % 256 == y;
    } else {
      UpperByte(x, y);
      ShiftTwice(w, 8, k - 8);
    }
  }

  /** Bit `j` of image pixel (r, c) is bit 10 c + j of what follows the first 48 bytes of the r-th valid
      line: ten bits a pixel, the most significant first, the two least significant left out. */
  lemma ImageBits(raw: seq<Byte>, height: nat, r: nat, c: nat, j: nat)
    requires r < height && c < 4096 && j < 8 && r < |ValidLines(raw, LineCount(raw))|
    ensures var at := ValidLines(raw, LineCount(raw))[r] * 6448 + 48;
            && at + 5120 <= |raw| && |Image(raw, LineCount(raw), height)| == height * 4096
            && Bit(Image(raw, LineCount(raw), height)[r * 4096 + c], j) == StreamBit(raw, at, 10 * c + j)
  {
    hide Image, ValidLines, Bit, Symbol;
    ImageAt(raw, height, r, c);
    var i := ValidLines(raw, LineCount(raw))[r];
    SymbolBits(Payload(raw, i), c, j);
  }

  lemma SymbolBits(d: seq<Byte>, c: nat, j: nat)
    requires |d| == 5120 && c < 4096 && j < 8
    ensures Symbol(d, c) / 4 < 256 && Bit(Symbol(d, c) / 4, j) == StreamBit(d, 0, 10 * c + j)
  {
    hide Bit, Symbol, Unpacked, Straddled;
    var pack, q := c / 4, c % 4;
    var b := d[pack * 5..pack * 5 + 5];
    ShiftsAreDigits(d, pack, q);
    UnpackedPixel(b, q);
    StraddledBit(b[q], b[q + 1], q, j);
    assert 10 * c + j == 40 * pack + 10 * q + j;
    assert (10 * c + j) / 8 == 5 * pack + (10 * q + j) / 8 && (10 * c + j) % 8 == (10 * q + j) % 8;
  }

  lemma UnpackedPixel(b: seq<Byte>, q: nat)
    requires |b| == 5 && q < 4
    ensures Unpacked(b)[q] / 4 == Straddled(b[q], b[q + 1], q)
  {
    var x: nat, y: nat := b[q], b[q + 1];
    hide Shift;
    hide Straddled;
    if q == 0 {
      EightBits(x, y);
    } else if q == 1 {
      SixBits(x, y);
    } else if q == 2 {
      FourBits(x, y);
    } else {
      TwoBits(x, y);
    }
  }

  lemma EightBits(x: Byte, y: Byte)
    ensures Straddled(x, y, 0) == (x * 4 + y / 64) / 4
  {
    UpperByte(x, y);
    hide Shift;
    DivMod(x * 4 + y / 64, x, y / 64, 4);
  }

  lemma Shift6(w: nat)
    ensures Shift(w, 6) == w / 64
  {
    ShiftTwice(w, 3, 3);
    Unroll3(w);
    Unroll3(w / 2 / 2 / 2);
    assert w / 2 / 2 / 2 == w / 8;
    assert w / 8 / 2 / 2 / 2 == w / 64;
  }

  lemma Shift4(w: nat)
    ensures Shift(w, 4) == w / 16
  {
    ShiftTwice(w, 2, 2);
    Unroll3(w);
    Unroll3(w / 2 / 2);
    assert w / 2 / 2 == w / 4;
    assert w / 4 / 2 / 2 == w / 16;
  }

  /** The lower six bits of the one byte and the upper two of the other. */
  lemma SixBits(x: Byte, y: Byte)
    ensures Straddled(x, y, 1) == (x % 64 * 16 + y / 16) / 4
  {
    Shift6(256 * x + y);
    hide Shift;
    var q: nat, r: nat, s: nat, t: nat := x / 64, x % 64, y / 64, y % 64;
    DivMod(256 * x + y, 256 * q + (4 * r + s), t, 64);
    DivMod(256 * q + (4 * r + s), q, 4 * r + s, 256);
    DivMod(y, 4 * s + t / 16, t % 16, 16);
    DivMod(16 * r + (4 * s + t / 16), 4 * r + s, t / 16, 4);
  }

  lemma FourBits(x: Byte, y: Byte)
    ensures Straddled(x, y, 2) == (x % 16 * 64 + y / 4) / 4
  {
    Shift4(256 * x + y);
    hide Shift;
    var q: nat, r: nat, s: nat, t: nat := x / 16, x % 16, y / 16, y % 16;
    DivMod(256 * x + y, 256 * q + (16 * r + s), t, 16);
    DivMod(256 * q + (16 * r + s), q, 16 * r + s, 256);
    DivMod(y, 4 * s + t / 4, t % 4, 4);
    DivMod(64 * r + (4 * s + t / 4), 16 * r + s, t / 4, 4);
  }

  lemma TwoBits(x: Byte, y: Byte)
    ensures Straddled(x, y, 3) == (x % 4 * 256 + y) / 4
  {
    Unroll3(256 * x + y);
    hide Shift;
    var q: nat, r: nat, s: nat, t: nat := x / 4, x % 4, y / 4, y % 4;
    DivMod(256 * x + y, 256 * q + (64 * r + s), t, 4);
    assert (256 * x + y) / 2 / 2 == (256 * x + y) / 4;
    DivMod(256 * q + (64 * r + s), q, 64 * r + s, 256);
    DivMod(256 * r + y, 64 * r + s, t, 4);
  }

  // ------------------------------------------------------------------ samples

  lemma FieldDrop(raw: seq<Byte>, skip: nat, d: seq<Byte>, at: nat, width: nat)
    requires skip <= |raw| && d == raw[skip..] && at + width <= |d|
    ensures Field(d, at, width) == Field(raw, skip + at, width)
  {
    FieldShift(raw[..skip], d, at, width);
    assert raw[..skip] + d == raw;
  }

  /** A sample starts at a valid line whose row number is a multiple of sixteen and which has fifteen whole
      lines behind it. Its fields are big-endian numbers at these bytes of the block. */
  lemma SampleReads(raw: seq<Byte>, i: nat)
    ensures SampleLine(raw, i) <==>
              && (i + 16) * 6448 <= |raw| && raw[i * 6448..i * 6448 + 5] == [0xFA, 0xF3, 0x34, 0x0A, 0x01]
              && raw[i * 6448 + 9] % 16 == 0
    ensures SampleLine(raw, i) ==>
              var s, at := SampleAt(raw, i), i * 6448;
              && s.valid && s.channelId == raw[at + 5] && s.stripNumber == raw[at + 6] && s.rowNumber == Field(raw, at + 7, 3)
              && s.cameraMicroseconds == Field(raw, at + 10, 3) && s.cameraSeconds == Field(raw, at + 16, 4)
              && 2 * s.exposureTimeNs <= 25 * Field(raw, at + 20, 3) < 2 * s.exposureTimeNs + 2
              && s.timeSyncStatus == raw[at + 20]
  {
    hide Field, ParseSample;
    if SampleLine(raw, i) {
      SampleFields(raw, i * 6448);
    }
  }

  lemma SampleFields(raw: seq<Byte>, at: nat)
    requires at + 103168 <= |raw|
    ensures var s := ParseSample(raw[at..]);
            && s.valid && s.channelId == raw[at + 5] && s.stripNumber == raw[at + 6] && s.rowNumber == Field(raw, at + 7, 3)
            && s.cameraMicroseconds == Field(raw, at + 10, 3) && s.cameraSeconds == Field(raw, at + 16, 4)
            && 2 * s.exposureTimeNs <= 25 * Field(raw, at + 20, 3) < 2 * s.exposureTimeNs + 2
            && s.timeSyncStatus == raw[at + 20]
  {
    hide Field, ParseSample;
    var d := raw[at..];
    ParsedFields(d);
    Be8IsField(d, 5);
    Be8IsField(d, 6);
    FieldDrop(raw, at, d, 7, 3);
    FieldDrop(raw, at, d, 10, 3);
    FieldDrop(raw, at, d, 16, 4);
    FieldDrop(raw, at, d, 20, 3);
    Be24IsField(raw, at + 20);
    TopByte(raw[at + 20], raw[at + 21], raw[at + 22]);
  }

  lemma TopByte(a: Byte, b: Byte, c: Byte)
    ensures (a * 0x1_0000 + b * 0x100 + c) / 0x1_0000 == a
  {
  }

  /** The position record: in the fifteenth and the sixteenth line of the sample, 90288 and 96736 bytes
      behind its start. */
  lemma PositionReads(raw: seq<Byte>, i: nat)
    requires SampleLine(raw, i)
    ensures i * 6448 + 103168 <= |raw|
    ensures var s, p, q := SampleAt(raw, i), i * 6448 + 90288, i * 6448 + 96736;
            && s.gpsWeek == Field(raw, p, 2) && s.gpsSeconds == Field(raw, p + 2, 4)
            && s.lla == [Field(raw, p + 6, 4), Field(raw, p + 10, 4), Field(raw, p + 14, 4)]
            && s.velocity == [Field(raw, p + 18, 4), Field(raw, p + 22, 4), Field(raw, p + 26, 4)]
            && s.attitude == [Field(raw, p + 30, 2) * 0x1_0000 + Field(raw, q, 2), Field(raw, q + 2, 4), Field(raw, q + 6, 4)]
  {
    hide Field, ParseSample;
    var at := i * 6448;
    assert at + 103168 <= |raw| && SampleAt(raw, i) == ParseSample(raw[at..]);
    hide SampleLine, SampleAt;
    PositionFields(raw, at);
  }

  lemma PositionFields(raw: seq<Byte>, at: nat)
    requires at + 103168 <= |raw|
    ensures var s, p, q := ParseSample(raw[at..]), at + 90288, at + 96736;
            && s.gpsWeek == Field(raw, p, 2) && s.gpsSeconds == Field(raw, p + 2, 4)
            && s.lla == [Field(raw, p + 6, 4), Field(raw, p + 10, 4), Field(raw, p + 14, 4)]
            && s.velocity == [Field(raw, p + 18, 4), Field(raw, p + 22, 4), Field(raw, p + 26, 4)]
            && s.attitude == [Field(raw, p + 30, 2) * 0x1_0000 + Field(raw, q, 2), Field(raw, q + 2, 4), Field(raw, q + 6, 4)]
  {
    hide Field, ParseSample;
    var d := raw[at..];
    ParsedPosition(d);
    FieldDrop(raw, at, d, 90288, 2);
    FieldDrop(raw, at, d, 90290, 4);
    FieldDrop(raw, at, d, 90294, 4);
    FieldDrop(raw, at, d, 90298, 4);
    FieldDrop(raw, at, d, 90302, 4);
    FieldDrop(raw, at, d, 90306, 4);
    FieldDrop(raw, at, d, 90310, 4);
    FieldDrop(raw, at, d, 90314, 4);
    FieldDrop(raw, at, d, 90318, 2);
    FieldDrop(raw, at, d, 96736, 2);
    FieldDrop(raw, at, d, 96738, 4);
    FieldDrop(raw, at, d, 96742, 4);
  }
}
