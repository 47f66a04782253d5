/** The CDG0.0 window decoder of `cdg00_decode.hpp`. Bytes are numbers; a shift is a division or a
    multiplication by a power of two, a mask is a remainder, and an OR of disjoint bits is a sum. */
module Cdg00 {
  import opened Bytes

  type Pixel10 = p: int | 0 <= p < 1024

  const LINE_SIZE: nat := 6448
  const LINE_HEADER_SIZE: nat := 16
  const LINE_PARAM_SIZE: nat := 32
  const IMAGE_WIDTH: nat := 4096
  const PACKED_LINE_SIZE: nat := 5120
  const MAGIC: seq<Byte> := [0xFA, 0xF3, 0x34, 0x0A, 0x01]

  // ------------------------------------------------------------------ big-endian fields

  /** The number whose big-endian bytes are `d[at..at + width]`. */
  function Field(d: seq<Byte>, at: nat, width: nat): (r: nat)
    requires at + width <= |d|
  {
    if width == 0 then 0 else Field(d, at, width - 1) * 256 + d[at + width - 1]
  }

  function ReadBe16(d: seq<Byte>, at: nat): (r: nat)
    requires at + 2 <= |d|
    ensures r < 0x1_0000
  {
    At(d, at) * 0x100 + At(d, at + 1)
  }

  function ReadBe32(d: seq<Byte>, at: nat): (r: nat)
    requires at + 4 <= |d|
    ensures r < 0x1_0000_0000
  {
    At(d, at) * 0x100_0000 + At(d, at + 1) * 0x1_0000 + At(d, at + 2) * 0x100 + At(d, at + 3)
  }

  lemma Be8IsField(d: seq<Byte>, at: nat)
    requires at < |d|
    ensures Field(d, at, 1) == d[at]
  {
    assert Field(d, at, 1) == Field(d, at, 0) * 256 + d[at];
  }

  lemma Be16IsField(d: seq<Byte>, at: nat)
    requires at + 2 <= |d|
    ensures ReadBe16(d, at) == Field(d, at, 2)
  {
    assert Field(d, at, 1) == Field(d, at, 0) * 256 + At(d, at);
  }

  lemma Be24IsField(d: seq<Byte>, at: nat)
    requires at + 3 <= |d|
    ensures Field(d, at, 3) == At(d, at) * 0x1_0000 + At(d, at + 1) * 0x100 + At(d, at + 2)
  {
    assert Field(d, at, 1) == Field(d, at, 0) * 256 + At(d, at);
    assert Field(d, at, 2) == Field(d, at, 1) * 256 + At(d, at + 1);
  }

  lemma Be32IsField(d: seq<Byte>, at: nat)
    requires at + 4 <= |d|
    ensures ReadBe32(d, at) == Field(d, at, 4)
  {
    Be24IsField(d, at);
  }

  // ------------------------------------------------------------------ samples

  /** Floating-point fields keep their 32 raw bits. */
  datatype Sample = Sample(valid: bool, channelId: nat, stripNumber: nat, rowNumber: nat, cameraMicroseconds: nat,
                           cameraSeconds: nat, timeSyncStatus: nat, exposureTimeNs: nat, gpsWeek: nat,
                           gpsSeconds: nat, lla: seq<nat>, velocity: seq<nat>, attitude: seq<nat>)

  const EMPTY_SAMPLE: Sample := Sample(false, 0, 0, 0, 0, 0, 0, 0, 0, 0, [0, 0, 0], [0, 0, 0], [0, 0, 0])

  /** The sample whose sixteen lines start at `d`. */
  function ParseSample(d: seq<Byte>): Sample
    requires |d| >= 16 * LINE_SIZE
  {
    var line0 := LINE_HEADER_SIZE;
    var line14 := LINE_HEADER_SIZE + 14 * LINE_SIZE;
    var line15 := LINE_HEADER_SIZE + 15 * LINE_SIZE;
    var roll: seq<Byte> := [d[line14 + 30], d[line14 + 31], d[line15], d[line15 + 1]];
    Sample(true, d[5], d[6], ReadBe32(d, 6) % 0x100_0000, ReadBe32(d, 10) / 0x100, ReadBe32(d, line0), d[line0 + 4],
           (ReadBe32(d, line0 + 4) / 0x100 * 25) / 2, ReadBe16(d, line14), ReadBe32(d, line14 + 2),
           [ReadBe32(d, line14 + 6), ReadBe32(d, line14 + 10), ReadBe32(d, line14 + 14)],
           [ReadBe32(d, line14 + 18), ReadBe32(d, line14 + 22), ReadBe32(d, line14 + 26)],
           [ReadBe32(roll, 0), ReadBe32(d, line15 + 2), ReadBe32(d, line15 + 6)])
  }

  /** The masks and shifts cut out three-byte fields: the row number follows the strip number, and the
      microseconds end before byte 13. The exposure ticks of 12.5 ns start at the byte that is also
      the time synchronisation status, so that status is always their top byte. */
  lemma ParsedFields(d: seq<Byte>)
    requires |d| >= 16 * LINE_SIZE
    ensures var s := ParseSample(d);
            && s.valid && s.channelId == Field(d, 5, 1) && s.stripNumber == Field(d, 6, 1) && s.rowNumber == Field(d, 7, 3)
            && s.cameraMicroseconds == Field(d, 10, 3) && s.cameraSeconds == Field(d, 16, 4)
            && 2 * s.exposureTimeNs <= 25 * Field(d, 20, 3) < 2 * s.exposureTimeNs + 2
            && s.timeSyncStatus == Field(d, 20, 3) / 0x1_0000
            && s.exposureTimeNs < 0x1_0000_0000
  {
    hide Field;
    Be8IsField(d, 5);
    Be8IsField(d, 6);
    Be24IsField(d, 7);
    Be24IsField(d, 10);
    Be24IsField(d, 20);
    Be32IsField(d, 16);
    ShiftOut(d, 10);
    ShiftOut(d, 20);
    MaskOut(d, 6);
  }

  /** The position record starts in line 14 and runs over into line 15: the first attitude angle has
      its upper half at the end of the one and its lower half at the start of the other. */
  lemma ParsedPosition(d: seq<Byte>)
    requires |d| >= 16 * LINE_SIZE
    ensures var s, at := ParseSample(d), LINE_HEADER_SIZE + 14 * LINE_SIZE;
            && s.gpsWeek == Field(d, at, 2) && s.gpsSeconds == Field(d, at + 2, 4)
            && s.lla == [Field(d, at + 6, 4), Field(d, at + 10, 4), Field(d, at + 14, 4)]
            && s.velocity == [Field(d, at + 18, 4), Field(d, at + 22, 4), Field(d, at + 26, 4)]
            && s.attitude == [Field(d, at + 30, 2) * 0x1_0000 + Field(d, at + LINE_SIZE, 2),
                              Field(d, at + LINE_SIZE + 2, 4), Field(d, at + LINE_SIZE + 6, 4)]
  {
    hide Field, ReadBe32, ReadBe16;
    var at := LINE_HEADER_SIZE + 14 * LINE_SIZE;
    Be16IsField(d, at);
    Be32IsField(d, at + 2);
    Be32IsField(d, at + 6);
    Be32IsField(d, at + 10);
    Be32IsField(d, at + 14);
    Be32IsField(d, at + 18);
    Be32IsField(d, at + 22);
    Be32IsField(d, at + 26);
    RollIsField(d, at + 30, at + LINE_SIZE);
    Be32IsField(d, at + LINE_SIZE + 2);
    Be32IsField(d, at + LINE_SIZE + 6);
  }

  lemma RollIsField(d: seq<Byte>, i: nat, j: nat)
    requires i + 2 <= |d| && j + 2 <= |d|
    ensures ReadBe32([d[i], d[i + 1], d[j], d[j + 1]], 0) == Field(d, i, 2) * 0x1_0000 + Field(d, j, 2)
  {
    Be16IsField(d, i);
    Be16IsField(d, j);
  }

  lemma ShiftOut(d: seq<Byte>, at: nat)
    requires at + 4 <= |d|
    ensures ReadBe32(d, at) / 0x100 == At(d, at) * 0x1_0000 + At(d, at + 1) * 0x100 + At(d, at + 2)
  {
  }

  lemma MaskOut(d: seq<Byte>, at: nat)
    requires at + 4 <= |d|
    ensures ReadBe32(d, at) % 0x100_0000 == At(d, at + 1) * 0x1_0000 + At(d, at + 2) * 0x100 + At(d, at + 3)
  {
  }

  // ------------------------------------------------------------------ 10-bit symbols

  /** The four 10-bit symbols packed in five bytes, read as one 40-bit big-endian number. */
  function Symbol(input: seq<Byte>, k: nat): (r: nat)
    requires k < |input| / 5 * 4
    ensures r < 1024
  {
    Digit(Field(input, k / 4 * 5, 5), k % 4)
  }

  /** Digit `j` of a four-digit number to the base 1024, the most significant first. */
  function Digit(n: nat, j: nat): (r: nat)
    ensures r < 1024
  {
    if j == 0 then n / 0x4000_0000 % 1024
    else if j == 1 then n / 0x10_0000 % 1024
    else if j == 2 then n / 0x400 % 1024
    else n % 1024
  }

  /** What the loop computes from five bytes with shifts and masks. */
  function Unpacked(b: seq<Byte>): (r: seq<nat>)
    requires |b| == 5
    ensures |r| == 4
  {
    [At(b, 0) * 4 + At(b, 1) / 64, (At(b, 1) % 64) * 16 + At(b, 2) / 16, (At(b, 2) % 16) * 64 + At(b, 3) / 4, (At(b, 3) % 4) * 256 + At(b, 4)]
  }

  function Weigh(p: int, q: int, r: int, s: int): int {
    p * 0x4000_0000 + q * 0x10_0000 + r * 0x400 + s
  }

  lemma FieldOf5(d: seq<Byte>, at: nat)
    requires at + 5 <= |d|
    ensures Field(d, at, 5) == At(d, at) * 0x1_0000_0000 + At(d, at + 1) * 0x100_0000 + At(d, at + 2) * 0x1_0000 + At(d, at + 3) * 0x100 + At(d, at + 4)
  {
    Be32IsField(d, at);
  }

  lemma FourDigits(p: nat, q: nat, r: nat, s: nat)
    requires p < 1024 && q < 1024 && r < 1024 && s < 1024
    ensures Digit(Weigh(p, q, r, s), 0) == p && Digit(Weigh(p, q, r, s), 1) == q
    ensures Digit(Weigh(p, q, r, s), 2) == r && Digit(Weigh(p, q, r, s), 3) == s
  {
    var n := Weigh(p, q, r, s);
    LowDigit(((p * 1024) + q) * 1024 + r, s);
    LowDigit((p * 1024) + q, r);
    LowDigit(p, q);
    LowDigit(0, p);
    assert n / 0x400 == (p * 1024 + q) * 1024 + r;
    assert n / 0x10_0000 == p * 1024 + q;
    assert n / 0x4000_0000 == p;
  }

  lemma LowDigit(high: nat, low: nat)
    requires low < 1024
    ensures (high * 1024 + low) % 1024 == low && (high * 1024 + low) / 1024 == high
  {
  }

  lemma ShiftsAreDigits(input: seq<Byte>, pack: nat, j: nat)
    requires pack < |input| / 5 && j < 4
    ensures Unpacked(input[pack * 5..pack * 5 + 5])[j] == Symbol(input, pack * 4 + j)
  {
    hide Digit, Field;
    var b := input[pack * 5..pack * 5 + 5];
    var u := Unpacked(b);
    FieldOf5(input, pack * 5);
    Regroup(b[0], b[1], b[2], b[3], b[4]);
    FourDigits(u[0], u[1], u[2], u[3]);
    assert (pack * 4 + j) / 4 == pack && (pack * 4 + j) % 4 == j;
  }

  lemma Regroup(a: Byte, b: Byte, c: Byte, d: Byte, e: Byte)
    ensures a * 0x1_0000_0000 + b * 0x100_0000 + c * 0x1_0000 + d * 0x100 + e
            == (a * 4 + b / 64) * 0x4000_0000 + (b % 64 * 16 + c / 16) * 0x10_0000 + (c % 16 * 64 + d / 4) * 0x400 + (d % 4 * 256 + e)
  {
  }

  /** The output of `unpack_10_to_8`: the top eight bits of every symbol. */
  function Top8(input: seq<Byte>): (r: seq<Byte>)
    ensures |r| == |input| / 5 * 4
    ensures forall k :: 0 <= k < |r| ==> r[k] == Symbol(input, k) / 4
  {
    seq(|input| / 5 * 4, k requires 0 <= k < |input| / 5 * 4 => Symbol(input, k) / 4)
  }

  /** The four pixels of one pack, or as many of them as there is room for. */
  method StorePack(input: seq<Byte>, pack: nat, output: array<Byte>, at: nat, room: nat) returns (stored: nat)
    requires pack < |input| / 5 && at + room <= output.Length
    modifies output
    ensures stored == Min(4, room)
    ensures forall k :: at <= k < at + stored ==> output[k] == Symbol(input, pack * 4 + (k - at)) / 4
    ensures forall k :: 0 <= k < at || at + stored <= k < output.Length ==> output[k] == old(output[k])
  {
    hide Symbol, Unpacked;
    var pixels := Unpacked(input[pack * 5..pack * 5 + 5]);
    stored := 0;
    while stored < 4 && stored < room
      invariant stored <= 4 && stored <= room
      invariant forall k :: at <= k < at + stored ==> output[k] == Symbol(input, pack * 4 + (k - at)) / 4
      invariant forall k :: 0 <= k < at || at + stored <= k < output.Length ==> output[k] == old(output[k])
    {
      ShiftsAreDigits(input, pack, stored);
      output[at + stored] := pixels[stored] / 4;
      stored := stored + 1;
    }
  }

  /** Fills the output from `start` on: as many pixels as there are, or as there is room for. */
  method Unpack10To8(input: seq<Byte>, output: array<Byte>, start: nat) returns (written: nat)
    requires start <= output.Length
    modifies output
    ensures written == Min(output.Length - start, |input| / 5 * 4)
    ensures output[..] == old(output[..start]) + Top8(input)[..written] + old(output[start + written..])
  {
    hide Symbol;
    var packCount := |input| / 5;
    var pixelCount := Min(output.Length - start, packCount * 4);
    written := 0;
    var pack := 0;
    while pack < packCount && written < pixelCount
      invariant 0 <= pack <= packCount && written == Min(pixelCount, pack * 4)
      invariant forall k :: start <= k < start + written ==> output[k] == Symbol(input, k - start) / 4
      invariant forall k :: 0 <= k < start || start + written <= k < output.Length ==> output[k] == old(output[k])
    {
      var stored := StorePack(input, pack, output, start + written, pixelCount - written);
      written := written + stored;
      pack := pack + 1;
    }
  }

  /** The packing that the camera uses: 10-bit pixels, most significant bits first. */
  function Pack(px: seq<Pixel10>): (r: seq<Byte>)
    requires |px| % 4 == 0
    ensures |r| == |px| / 4 * 5
  {
    if px == [] then []
    else
      PackGroup(px[0], px[1], px[2], px[3]) + Pack(px[4..])
  }

  function PackGroup(p: Pixel10, q: Pixel10, r: Pixel10, s: Pixel10): (b: seq<Byte>)
    ensures |b| == 5
  {
    [p / 4, p % 4 * 64 + q / 16, q % 16 * 16 + r / 64, r % 64 * 4 + s / 256, s % 256]
  }

  lemma PackGroupNumber(p: Pixel10, q: Pixel10, r: Pixel10, s: Pixel10)
    ensures Field(PackGroup(p, q, r, s), 0, 5) == Weigh(p, q, r, s)
  {
    FieldOf5(PackGroup(p, q, r, s), 0);
  }

  lemma {:induction false} FieldShift(a: seq<Byte>, b: seq<Byte>, at: nat, width: nat)
    requires at + width <= |b|
    ensures Field(a + b, |a| + at, width) == Field(b, at, width)
  {
    if width > 0 {
      FieldShift(a, b, at, width - 1);
    }
  }

  lemma {:induction false} FieldPrefix(a: seq<Byte>, b: seq<Byte>, at: nat, width: nat)
    requires at + width <= |a|
    ensures Field(a + b, at, width) == Field(a, at, width)
  {
    if width > 0 {
      FieldPrefix(a, b, at, width - 1);
    }
  }

  lemma GroupSymbol(p: Pixel10, q: Pixel10, r: Pixel10, s: Pixel10, rest: seq<Byte>, k: nat)
    requires k < 4
    ensures Symbol(PackGroup(p, q, r, s) + rest, k) == [p, q, r, s][k]
  {
    hide Digit, PackGroup, Weigh;
    FieldPrefix(PackGroup(p, q, r, s), rest, 0, 5);
    PackGroupNumber(p, q, r, s);
    FourDigits(p, q, r, s);
    assert k / 4 * 5 == 0 && k % 4 == k;
  }

  lemma SkipGroup(g: seq<Byte>, rest: seq<Byte>, k: nat)
    requires |g| == 5 && k < |rest| / 5 * 4
    ensures Symbol(g + rest, k + 4) == Symbol(rest, k)
  {
    hide Digit, Field;
    assert (k + 4) / 4 * 5 == |g| + k / 4 * 5 && (k + 4) % 4 == k % 4;
    FieldShift(g, rest, k / 4 * 5, 5);
  }

  /** Packing 10-bit pixels and reading the symbols back gives the pixels. */
  lemma {:induction false} SymbolsOfPacked(px: seq<Pixel10>, k: nat)
    requires |px| % 4 == 0 && k < |px|
    ensures Symbol(Pack(px), k) == px[k]
    decreases |px|
  {
    hide Symbol, PackGroup;
    if k < 4 {
      GroupSymbol(px[0], px[1], px[2], px[3], Pack(px[4..]), k);
    } else {
      SymbolsOfPacked(px[4..], k - 4);
      SkipGroup(PackGroup(px[0], px[1], px[2], px[3]), Pack(px[4..]), k - 4);
    }
  }

  /** So unpacking a packed line drops exactly the two low bits of every pixel. */
  lemma UnpackPacked(px: seq<Pixel10>)
    requires |px| % 4 == 0
    ensures |Top8(Pack(px))| == |px| && forall k :: 0 <= k < |px| ==> Top8(Pack(px))[k] == px[k] / 4
  {
    hide Pack, Symbol;
    forall k | 0 <= k < |px| ensures Top8(Pack(px))[k] == px[k] / 4 {
      SymbolsOfPacked(px, k);
    }
  }
}
