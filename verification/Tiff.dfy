/** The one-strip 8-bit TIFF files that `text_sink.cpp` writes for crops, and a reader for them
    (TIFF Revision 6.0, sections 2 and 4). */
module Tiff {
  import opened Basics
  import opened Bytes

  // ------------------------------------------------------------------ little-endian numbers

  function Le16(v: nat): (r: seq<Byte>)
    requires v < 0x1_0000
    ensures |r| == 2
  {
    [v % 0x100, v / 0x100]
  }

  function Le32(v: nat): (r: seq<Byte>)
    requires v < 0x1_0000_0000
    ensures |r| == 4
  {
    Le16(v % 0x1_0000) + Le16(v / 0x1_0000)
  }

  function ReadLe16(f: seq<Byte>, at: nat): nat
    requires at + 2 <= |f|
  {
    At(f, at) + 0x100 * At(f, at + 1)
  }

  function ReadLe32(f: seq<Byte>, at: nat): nat
    requires at + 4 <= |f|
  {
    ReadLe16(f, at) + 0x1_0000 * ReadLe16(f, at + 2)
  }

  lemma Le16ReadBack(pre: seq<Byte>, v: nat, post: seq<Byte>)
    requires v < 0x1_0000
    ensures ReadLe16(pre + Le16(v) + post, |pre|) == v
  {
  }

  lemma Le32ReadBack(pre: seq<Byte>, v: nat, post: seq<Byte>)
    requires v < 0x1_0000_0000
    ensures ReadLe32(pre + Le32(v) + post, |pre|) == v && ReadLe16(pre + Le32(v) + post, |pre|) == v % 0x1_0000
  {
    var low, high := Le16(v % 0x1_0000), Le16(v / 0x1_0000);
    var f := pre + Le32(v) + post;
    assert f == pre + low + (high + post) && f == (pre + low) + high + post;
    Le16ReadBack(pre, v % 0x1_0000, high + post);
    Le16ReadBack(pre + low, v / 0x1_0000, post);
  }

  // ------------------------------------------------------------------ directory entries

  const SHORT: nat := 3
  const LONG: nat := 4

  datatype IfdEntry = IfdEntry(tag: nat, kind: nat, count: nat, value: nat)
  {
    predicate Encodable() {
      tag < 0x1_0000 && kind < 0x1_0000 && count < 0x1_0000_0000 && value < 0x1_0000_0000
    }
  }

  function EntryBytes(e: IfdEntry): (r: seq<Byte>)
    requires e.Encodable()
    ensures |r| == 12
  {
    Le16(e.tag) + Le16(e.kind) + Le32(e.count) + Le32(e.value)
  }

  predicate AllEncodable(es: seq<IfdEntry>) {
    forall i :: 0 <= i < |es| ==> es[i].Encodable()
  }

  function IfdBytes(es: seq<IfdEntry>): (r: seq<Byte>)
    requires AllEncodable(es)
    ensures |r| == 12 * |es|
  {
    if es == [] then [] else EntryBytes(es[0]) + IfdBytes(es[1..])
  }

  /** One entry: a single SHORT takes the first two bytes of the value field only. */
  function ReadEntry(f: seq<Byte>, at: nat): IfdEntry
    requires at + 12 <= |f|
  {
    var kind := ReadLe16(f, at + 2);
    IfdEntry(ReadLe16(f, at), kind, ReadLe32(f, at + 4), if kind == SHORT then ReadLe16(f, at + 8) else ReadLe32(f, at + 8))
  }

  function ReadEntries(f: seq<Byte>, at: nat, n: nat): seq<IfdEntry>
    requires at + 12 * n <= |f|
    decreases n
  {
    if n == 0 then [] else [ReadEntry(f, at)] + ReadEntries(f, at + 12, n - 1)
  }

  predicate Ascending(es: seq<IfdEntry>) {
    forall i, j :: 0 <= i < j < |es| ==> es[i].tag < es[j].tag
  }

  function Lookup(es: seq<IfdEntry>, tag: nat): Option<nat> {
    if es == [] then None
    else if es[0].tag == tag && es[0].count == 1 then Some(es[0].value)
    else Lookup(es[1..], tag)
  }

  /** What a reader takes an entry to say. */
  function AsRead(e: IfdEntry): IfdEntry {
    if e.kind == SHORT then e.(value := e.value % 0x1_0000) else e
  }

  lemma EntryReadBack(pre: seq<Byte>, e: IfdEntry, post: seq<Byte>)
    requires e.Encodable()
    ensures ReadEntry(pre + EntryBytes(e) + post, |pre|) == AsRead(e)
  {
    hide ReadLe16, ReadLe32, Le16, Le32;
    var f := pre + EntryBytes(e) + post;
    var tag, kind, count, value := Le16(e.tag), Le16(e.kind), Le32(e.count), Le32(e.value);
    assert f == pre + tag + (kind + count + value + post);
    Le16ReadBack(pre, e.tag, kind + count + value + post);
    assert f == (pre + tag) + kind + (count + value + post);
    Le16ReadBack(pre + tag, e.kind, count + value + post);
    assert f == (pre + tag + kind) + count + (value + post);
    Le32ReadBack(pre + tag + kind, e.count, value + post);
    assert f == (pre + tag + kind + count) + value + post;
    Le32ReadBack(pre + tag + kind + count, e.value, post);
  }

  function AllAsRead(es: seq<IfdEntry>): (r: seq<IfdEntry>)
    ensures |r| == |es| && forall i :: 0 <= i < |es| ==> r[i] == AsRead(es[i])
  {
    seq(|es|, i requires 0 <= i < |es| => AsRead(es[i]))
  }

  lemma {:induction false} EntriesReadBack(pre: seq<Byte>, es: seq<IfdEntry>, post: seq<Byte>)
    requires AllEncodable(es)
    ensures ReadEntries(pre + IfdBytes(es) + post, |pre|, |es|) == AllAsRead(es)
    decreases es
  {
    hide EntryBytes, ReadEntry, AsRead;
    if es != [] {
      var f := pre + IfdBytes(es) + post;
      assert f == pre + EntryBytes(es[0]) + (IfdBytes(es[1..]) + post);
      EntryReadBack(pre, es[0], IfdBytes(es[1..]) + post);
      assert f == (pre + EntryBytes(es[0])) + IfdBytes(es[1..]) + post;
      EntriesReadBack(pre + EntryBytes(es[0]), es[1..], post);
      assert AllAsRead(es) == [AsRead(es[0])] + AllAsRead(es[1..]);
    }
  }

  lemma {:induction false} LookupAt(es: seq<IfdEntry>, k: nat)
    requires Ascending(es) && k < |es| && es[k].count == 1
    ensures Lookup(es, es[k].tag) == Some(es[k].value)
  {
    if k > 0 {
      LookupAt(es[1..], k - 1);
    }
  }

  // ------------------------------------------------------------------ reading a file

  datatype Image = Image(width: nat, height: nat, pixels: seq<Byte>)

  const MAGIC: seq<Byte> := [73, 73, 42, 0]

  /** A baseline grey image of one uncompressed strip. */
  function ReadTiff(f: seq<Byte>): Option<Image> {
    if |f| < 8 || f[..4] != MAGIC then None
    else
      var ifd := ReadLe32(f, 4);
      if ifd + 2 > |f| then None
      else
        var n := ReadLe16(f, ifd);
        if ifd + 2 + 12 * n + 4 > |f| then None
        else ReadStrip(f, ReadEntries(f, ifd + 2, n))
  }

  function ReadStrip(f: seq<Byte>, es: seq<IfdEntry>): Option<Image> {
    var width, height, offset, length := Lookup(es, 256), Lookup(es, 257), Lookup(es, 273), Lookup(es, 279);
    if && Ascending(es) && width.Some? && height.Some? && offset.Some? && length.Some?
       && Lookup(es, 258) == Some(8) && Lookup(es, 259) == Some(1) && Lookup(es, 262) == Some(1)
       && Lookup(es, 277) == Some(1) && Lookup(es, 278) == height
       && length.value == width.value * height.value && offset.value + length.value <= |f|
    then Some(Image(width.value, height.value, f[offset.value..offset.value + length.value]))
    else None
  }

  // ------------------------------------------------------------------ writing a file

  const STRIP_OFFSET: nat := 122

  function Directory(width: nat, height: nat, imageBytes: nat): seq<IfdEntry> {
    [IfdEntry(256, SHORT, 1, width), IfdEntry(257, SHORT, 1, height), IfdEntry(258, SHORT, 1, 8),
     IfdEntry(259, SHORT, 1, 1), IfdEntry(262, SHORT, 1, 1), IfdEntry(273, LONG, 1, STRIP_OFFSET),
     IfdEntry(277, SHORT, 1, 1), IfdEntry(278, SHORT, 1, height), IfdEntry(279, LONG, 1, imageBytes)]
  }

  function Start(): (r: seq<Byte>)
    ensures |r| == 10
  {
    MAGIC + Le32(8) + Le16(9)
  }

  function Header(width: nat, height: nat, imageBytes: nat): (r: seq<Byte>)
    requires width < 0x1_0000_0000 && height < 0x1_0000_0000 && imageBytes < 0x1_0000_0000
    ensures |r| == STRIP_OFFSET
  {
    Start() + IfdBytes(Directory(width, height, imageBytes)) + Le32(0)
  }

  predicate RowsInside(src: seq<Byte>, start: nat, width: nat, stride: nat, n: nat) {
    forall i: nat :: i < n ==> RowInside(src, start, width, stride, i)
  }

  /** `width` pixels of each of `n` rows, the first at `start`, `stride` apart. */
  function Rows(src: seq<Byte>, start: nat, width: nat, stride: nat, n: nat): (r: seq<Byte>)
    requires RowsInside(src, start, width, stride, n)
    ensures |r| == n * width
  {
    if n == 0 then []
    else
      assert RowInside(src, start, width, stride, n - 1);
      assert n * width == (n - 1) * width + width;
      Rows(src, start, width, stride, n - 1) + src[start + (n - 1) * stride..start + (n - 1) * stride + width]
  }

  predicate RowInside(src: seq<Byte>, start: nat, width: nat, stride: nat, i: nat) {
    start + i * stride + width <= |src|
  }

  method Put16(file: array<Byte>, offset: nat, value: nat)
    requires offset + 2 <= file.Length && value < 0x1_0000
    modifies file
    ensures file[..] == old(file[..offset]) + Le16(value) + old(file[offset + 2..])
  {
    file[offset] := value % 0x100;
    file[offset + 1] := value / 0x100 % 0x100;
  }

  method Put32(file: array<Byte>, offset: nat, value: nat)
    requires offset + 4 <= file.Length && value < 0x1_0000_0000
    modifies file
    ensures file[..] == old(file[..offset]) + Le32(value) + old(file[offset + 4..])
  {
    hide Le16;
    Put16(file, offset, value % 0x1_0000);
    Put16(file, offset + 2, value / 0x1_0000 % 0x1_0000);
  }

  method WriteEntry(file: array<Byte>, cursor: nat, e: IfdEntry) returns (next: nat)
    requires cursor + 12 <= file.Length && e.Encodable()
    modifies file
    ensures next == cursor + 12
    ensures file[..next] == old(file[..cursor]) + EntryBytes(e)
  {
    hide Le16, Le32;
    ghost var before := file[..cursor];
    Put16(file, cursor, e.tag);
    assert file[..cursor + 2] == before + Le16(e.tag);
    Put16(file, cursor + 2, e.kind);
    assert file[..cursor + 4] == before + Le16(e.tag) + Le16(e.kind);
    Put32(file, cursor + 4, e.count);
    assert file[..cursor + 8] == before + Le16(e.tag) + Le16(e.kind) + Le32(e.count);
    Put32(file, cursor + 8, e.value);
    assert file[..cursor + 12] == before + Le16(e.tag) + Le16(e.kind) + Le32(e.count) + Le32(e.value);
    next := cursor + 12;
  }

  /** The entries that describe the pixels ... */
  method WriteFormat(file: array<Byte>, width: nat, height: nat, imageBytes: nat) returns (cursor: nat)
    requires width < 0x1_0000_0000 && height < 0x1_0000_0000 && imageBytes < 0x1_0000_0000
    requires file.Length >= STRIP_OFFSET && file[..10] == Start()
    modifies file
    ensures cursor == 70 && file[..70] == Start() + IfdBytes(Directory(width, height, imageBytes)[..5])
  {
    hide Le16, Le32, EntryBytes, IfdBytes, Start;
    ghost var es := Directory(width, height, imageBytes);
    IfdStart(es);
    cursor := WriteEntry(file, 10, IfdEntry(256, SHORT, 1, width));
    IfdStep(es, 0);
    cursor := WriteEntry(file, cursor, IfdEntry(257, SHORT, 1, height));
    IfdStep(es, 1);
    cursor := WriteEntry(file, cursor, IfdEntry(258, SHORT, 1, 8));
    IfdStep(es, 2);
    cursor := WriteEntry(file, cursor, IfdEntry(259, SHORT, 1, 1));
    IfdStep(es, 3);
    cursor := WriteEntry(file, cursor, IfdEntry(262, SHORT, 1, 1));
    IfdStep(es, 4);
  }

  /** ... and those that describe the strip. */
  method WriteStrip(file: array<Byte>, start: nat, width: nat, height: nat, imageBytes: nat) returns (cursor: nat)
    requires width < 0x1_0000_0000 && height < 0x1_0000_0000 && imageBytes < 0x1_0000_0000
    requires file.Length >= STRIP_OFFSET && start == 70
    requires file[..70] == Start() + IfdBytes(Directory(width, height, imageBytes)[..5])
    modifies file
    ensures cursor == 118 && file[..118] == Start() + IfdBytes(Directory(width, height, imageBytes))
  {
    hide Le16, Le32, EntryBytes, IfdBytes, Start;
    ghost var es := Directory(width, height, imageBytes);
    cursor := WriteEntry(file, start, IfdEntry(273, LONG, 1, STRIP_OFFSET));
    IfdStep(es, 5);
    cursor := WriteEntry(file, cursor, IfdEntry(277, SHORT, 1, 1));
    IfdStep(es, 6);
    cursor := WriteEntry(file, cursor, IfdEntry(278, SHORT, 1, height));
    IfdStep(es, 7);
    cursor := WriteEntry(file, cursor, IfdEntry(279, LONG, 1, imageBytes));
    IfdStep(es, 8);
    assert es[..9] == es;
  }

  method WriteHeader(file: array<Byte>, width: nat, height: nat, imageBytes: nat)
    requires width < 0x1_0000_0000 && height < 0x1_0000_0000 && imageBytes < 0x1_0000_0000
    requires file.Length >= STRIP_OFFSET
    modifies file
    ensures file[..STRIP_OFFSET] == Header(width, height, imageBytes)
  {
    hide Le16, Le32, EntryBytes, IfdBytes;
    file[0], file[1], file[2], file[3] := 73, 73, 42, 0;
    Put32(file, 4, 8);
    Put16(file, 8, 9);
    assert file[..10] == Start();
    var cursor := WriteFormat(file, width, height, imageBytes);
    cursor := WriteStrip(file, cursor, width, height, imageBytes);
    Put32(file, cursor, 0);
  }

  lemma IfdStart(es: seq<IfdEntry>)
    requires AllEncodable(es)
    ensures Start() + IfdBytes(es[..0]) == Start()
  {
  }

  lemma IfdStep(es: seq<IfdEntry>, k: nat)
    requires AllEncodable(es) && k < |es|
    ensures Start() + IfdBytes(es[..k]) + EntryBytes(es[k]) == Start() + IfdBytes(es[..k + 1])
  {
    hide EntryBytes;
    IfdSnoc(es[..k], es[k]);
    assert es[..k] + [es[k]] == es[..k + 1];
  }

  lemma {:induction false} IfdSnoc(es: seq<IfdEntry>, e: IfdEntry)
    requires AllEncodable(es) && e.Encodable()
    ensures IfdBytes(es + [e]) == IfdBytes(es) + EntryBytes(e)
  {
    hide EntryBytes;
    if es == [] {
      assert es + [e] == [e];
      assert IfdBytes([e]) == EntryBytes(e) + IfdBytes([e][1..]);
    } else {
      assert (es + [e])[1..] == es[1..] + [e];
      IfdSnoc(es[1..], e);
    }
  }

  lemma RowFits(row: nat, width: nat, height: nat)
    requires row < height
    ensures row * width + width == (row + 1) * width <= height * width
  {
    var d: nat := height - row - 1;
    assert height * width == row * width + width + d * width;
  }

  /** What a file holds. Its size must fit the 32-bit fields that describe it. */
  function FileOf(src: seq<Byte>, start: nat, width: nat, height: nat, stride: nat): seq<Byte>
    requires RowsInside(src, start, width, stride, height) && STRIP_OFFSET + height * width < 0x1_0000_0000
    requires width < 0x1_0000_0000 && height < 0x1_0000_0000
  {
    Header(width, height, height * width) + Rows(src, start, width, stride, height)
  }

  method WriteGray8Tiff(src: seq<Byte>, start: nat, width: int, height: int, stride: nat) returns (r: Option<seq<Byte>>)
    requires width < 0x8000_0000 && height < 0x8000_0000
    requires width > 0 && height > 0 ==>
               RowsInside(src, start, width, stride, height) && STRIP_OFFSET + height * width < 0x1_0000_0000
    ensures r.Some? <==> width > 0 && height > 0
    ensures r.Some? ==> r.value == FileOf(src, start, width, height, stride)
  {
    hide Header, RowInside;
    if width <= 0 || height <= 0 {
      return None;
    }
    var imageBytes := height * width;
    var file := new Byte[STRIP_OFFSET + imageBytes](_ => 0);
    WriteHeader(file, width, height, imageBytes);
    ghost var header := Header(width, height, imageBytes);
    var row, at := 0, STRIP_OFFSET;
    while row < height
      invariant 0 <= row <= height && file.Length == STRIP_OFFSET + imageBytes
      invariant at == STRIP_OFFSET + row * width && STRIP_OFFSET <= at <= file.Length
      invariant file[..at] == header + Rows(src, start, width, stride, row)
    {
      RowFits(row, width, height);
      RowInBounds(src, start, width, stride, height, row);
      var first: nat := start + row * stride;
      RowsStep(src, start, width, stride, row);
      hide Rows, RowsInside;
      CopyRow(file, at, src, first, width);
      row, at := row + 1, at + width;
    }
    assert file[..at] == file[..];
    r := Some(file[..]);
  }

  lemma RowsStep(src: seq<Byte>, start: nat, width: nat, stride: nat, n: nat)
    requires RowsInside(src, start, width, stride, n + 1) && start + n * stride + width <= |src|
    ensures Rows(src, start, width, stride, n + 1) ==
            Rows(src, start, width, stride, n) + src[start + n * stride..start + n * stride + width]
  {
  }

  lemma RowInBounds(src: seq<Byte>, start: nat, width: nat, stride: nat, n: nat, i: nat)
    requires RowsInside(src, start, width, stride, n) && i < n
    ensures i * stride >= 0 && start + i * stride + width <= |src|
  {
    assert RowInside(src, start, width, stride, i);
  }

  /** `memcpy` of one row. */
  method CopyRow(file: array<Byte>, at: nat, src: seq<Byte>, first: nat, width: nat)
    requires at + width <= file.Length && first + width <= |src|
    modifies file
    ensures file[..at + width] == old(file[..at]) + src[first..first + width]
  {
    forall i | 0 <= i < width {
      file[at + i] := src[first + i];
    }
  }

  // ------------------------------------------------------------------ round trip

  /** A crop file reads back as its size and its pixels exactly when both sides fit a SHORT. */
  lemma TiffRoundTrip(src: seq<Byte>, start: nat, width: nat, height: nat, stride: nat)
    requires 0 < width < 0x8000_0000 && 0 < height < 0x8000_0000
    requires RowsInside(src, start, width, stride, height) && STRIP_OFFSET + height * width < 0x1_0000_0000
    ensures (ReadTiff(FileOf(src, start, width, height, stride)) ==
             Some(Image(width, height, Rows(src, start, width, stride, height))))
            <==> width < 0x1_0000 && height < 0x1_0000
  {
    hide Rows, RowsInside, ReadStrip, Header;
    var rows := Rows(src, start, width, stride, height);
    var f := FileOf(src, start, width, height, stride);
    HeaderReadBack(width, height, height * width, rows);
    StripReadBack(width, height, f, rows);
  }

  lemma HeaderReadBack(width: nat, height: nat, imageBytes: nat, rows: seq<Byte>)
    requires width < 0x1_0000_0000 && height < 0x1_0000_0000 && imageBytes < 0x1_0000_0000
    ensures var f := Header(width, height, imageBytes) + rows;
            ReadTiff(f) == ReadStrip(f, AllAsRead(Directory(width, height, imageBytes)))
  {
    hide ReadStrip, ReadEntries, IfdBytes, Le16, Le32, ReadLe16, ReadLe32, AsRead;
    var es := Directory(width, height, imageBytes);
    var f := Header(width, height, imageBytes) + rows;
    EntriesReadBack(Start(), es, Le32(0) + rows);
    assert f == Start() + IfdBytes(es) + (Le32(0) + rows);
    assert f == MAGIC + Le32(8) + (Le16(9) + IfdBytes(es) + Le32(0) + rows);
    Le32ReadBack(MAGIC, 8, Le16(9) + IfdBytes(es) + Le32(0) + rows);
    assert f == (MAGIC + Le32(8)) + Le16(9) + (IfdBytes(es) + Le32(0) + rows);
    Le16ReadBack(MAGIC + Le32(8), 9, IfdBytes(es) + Le32(0) + rows);
  }

  /** What the reader looks up. */
  lemma Lookups(width: nat, height: nat, imageBytes: nat)
    ensures var es := AllAsRead(Directory(width, height, imageBytes));
            && Ascending(es)
            && Lookup(es, 256) == Some(width % 0x1_0000) && Lookup(es, 257) == Some(height % 0x1_0000)
            && Lookup(es, 258) == Some(8) && Lookup(es, 259) == Some(1) && Lookup(es, 262) == Some(1)
            && Lookup(es, 273) == Some(STRIP_OFFSET) && Lookup(es, 277) == Some(1)
            && Lookup(es, 278) == Some(height % 0x1_0000) && Lookup(es, 279) == Some(imageBytes)
  {
    hide Lookup;
    var es := AllAsRead(Directory(width, height, imageBytes));
    assert Ascending(es);
    LookupAt(es, 0);
    LookupAt(es, 1);
    LookupAt(es, 2);
    LookupAt(es, 3);
    LookupAt(es, 4);
    LookupAt(es, 5);
    LookupAt(es, 6);
    LookupAt(es, 7);
    LookupAt(es, 8);
  }

  lemma StripReadBack(width: nat, height: nat, f: seq<Byte>, rows: seq<Byte>)
    requires 0 < width < 0x8000_0000 && 0 < height < 0x8000_0000 && height * width < 0x1_0000_0000
    requires |rows| == height * width && f == Header(width, height, height * width) + rows
    ensures ReadStrip(f, AllAsRead(Directory(width, height, height * width))) == Some(Image(width, height, rows)) <==>
            width < 0x1_0000 && height < 0x1_0000
  {
    hide Lookup, Header, Directory, AllAsRead, Ascending;
    Lookups(width, height, height * width);
    assert f[STRIP_OFFSET..STRIP_OFFSET + |rows|] == rows;
    if width < 0x1_0000 && height < 0x1_0000 {
      assert width * height == height * width;
    }
  }

  // ------------------------------------------------------------------ crops

  /** A box in filter coordinates, its lower corner before its upper corner and inside the frame: what
      the sink has checked before it crops. */
  predicate BoxInFrame(x0: real, y0: real, x1: real, y1: real, width: nat, height: nat) {
    0.0 <= x0 < x1 <= width as real && 0.0 <= y0 < y1 <= height as real
  }

  function Ceil(x: real): int {
    -((-x).Floor)
  }

  datatype Rect = Rect(x0: int, y0: int, x1: int, y1: int)

  /** The crop rectangle: the box rounded outwards and clamped to the frame. */
  function CropRect(xmin: real, ymin: real, xmax: real, ymax: real, width: nat, height: nat): Rect {
    Rect(if xmin.Floor > 0 then xmin.Floor else 0, if ymin.Floor > 0 then ymin.Floor else 0,
         if Ceil(xmax) < width then Ceil(xmax) else width, if Ceil(ymax) < height then Ceil(ymax) else height)
  }

  /** It is in the frame, and it is the smallest rectangle of whole pixels that contains the box. */
  lemma CropRectContains(xmin: real, ymin: real, xmax: real, ymax: real, width: nat, height: nat)
    requires BoxInFrame(xmin, ymin, xmax, ymax, width, height)
    ensures var r := CropRect(xmin, ymin, xmax, ymax, width, height);
            && 0 <= r.x0 < r.x1 <= width && 0 <= r.y0 < r.y1 <= height
            && r.x0 as real <= xmin < (r.x0 + 1) as real && (r.x1 - 1) as real < xmax <= r.x1 as real
            && r.y0 as real <= ymin < (r.y0 + 1) as real && (r.y1 - 1) as real < ymax <= r.y1 as real
  {
  }

  /** The crop's file size fits the 32-bit fields that describe it. */
  predicate CropFits(c: Rect) {
    c.x0 < c.x1 && c.y0 < c.y1 ==> STRIP_OFFSET + (c.y1 - c.y0) * (c.x1 - c.x0) < 0x1_0000_0000
  }

  /** `write_crop_tiff`: a rectangle without pixels is skipped. */
  method WriteCropTiff(plane: seq<Byte>, width: nat, height: nat, stride: nat, xmin: real, ymin: real, xmax: real, ymax: real)
    returns (r: Option<seq<Byte>>)
    requires width <= stride && width < 0x8000_0000 && height < 0x8000_0000
    requires CropFits(CropRect(xmin, ymin, xmax, ymax, width, height))
    requires RowsInside(plane, 0, width, stride, height)
    ensures var c := CropRect(xmin, ymin, xmax, ymax, width, height);
            if c.x1 <= c.x0 || c.y1 <= c.y0 then r == None
            else
              && IsCrop(plane, width, height, stride, c)
              && r == Some(FileOf(plane, c.y0 * stride + c.x0, c.x1 - c.x0, c.y1 - c.y0, stride))
  {
    var x0 := if xmin.Floor > 0 then xmin.Floor else 0;
    var y0 := if ymin.Floor > 0 then ymin.Floor else 0;
    var x1 := if Ceil(xmax) < width then Ceil(xmax) else width;
    var y1 := if Ceil(ymax) < height then Ceil(ymax) else height;
    if x1 <= x0 || y1 <= y0 {
      return None;
    }
    assert CropRect(xmin, ymin, xmax, ymax, width, height) == Rect(x0, y0, x1, y1);
    CropInside(plane, width, height, stride, Rect(x0, y0, x1, y1));
    r := WriteGray8Tiff(plane, y0 * stride + x0, x1 - x0, y1 - y0, stride);
  }

  predicate IsCrop(plane: seq<Byte>, width: nat, height: nat, stride: nat, c: Rect) {
    && 0 <= c.x0 < c.x1 <= width && 0 <= c.y0 < c.y1 <= height
    && c.y0 * stride >= 0
    && RowsInside(plane, c.y0 * stride + c.x0, c.x1 - c.x0, stride, c.y1 - c.y0)
    && STRIP_OFFSET + (c.y1 - c.y0) * (c.x1 - c.x0) < 0x1_0000_0000
    && c.x1 - c.x0 < 0x1_0000_0000 && c.y1 - c.y0 < 0x1_0000_0000
  }

  lemma CropInside(plane: seq<Byte>, width: nat, height: nat, stride: nat, c: Rect)
    requires width < 0x8000_0000 && height < 0x8000_0000 && CropFits(c)
    requires RowsInside(plane, 0, width, stride, height)
    requires 0 <= c.x0 < c.x1 <= width && 0 <= c.y0 < c.y1 <= height
    ensures IsCrop(plane, width, height, stride, c)
  {
    var n, w, start := c.y1 - c.y0, c.x1 - c.x0, c.y0 * stride + c.x0;
    assert c.y0 * stride >= 0;
    forall i: nat | i < n ensures RowInside(plane, start, w, stride, i) {
      assert RowInside(plane, 0, width, stride, c.y0 + i);
      assert (c.y0 + i) * stride == c.y0 * stride + i * stride;
    }
  }

  lemma {:induction false} RowsAt(src: seq<Byte>, start: nat, width: nat, stride: nat, n: nat, r: nat, c: nat)
    requires RowsInside(src, start, width, stride, n) && r < n && c < width
    ensures RowInside(src, start, width, stride, r)
    ensures 0 <= r * width + c < n * width && Rows(src, start, width, stride, n)[r * width + c] == src[start + r * stride + c]
    decreases n
  {
    RowFits(r, width, n);
    RowInBounds(src, start, width, stride, n, n - 1);
    RowInBounds(src, start, width, stride, n, r);
    RowsStep(src, start, width, stride, n - 1);
    if r < n - 1 {
      RowsAt(src, start, width, stride, n - 1, r, c);
    }
  }

  /** Crop pixel (r, c) is frame pixel (y0 + r, x0 + c). */
  lemma CropPixel(plane: seq<Byte>, width: nat, height: nat, stride: nat, rect: Rect, r: nat, c: nat)
    requires IsCrop(plane, width, height, stride, rect) && r < rect.y1 - rect.y0 && c < rect.x1 - rect.x0
    ensures var w, start := rect.x1 - rect.x0, rect.y0 * stride + rect.x0;
            && 0 <= r * w + c < (rect.y1 - rect.y0) * w
            && 0 <= (rect.y0 + r) * stride + (rect.x0 + c) < |plane|
            && Rows(plane, start, w, stride, rect.y1 - rect.y0)[r * w + c] == plane[(rect.y0 + r) * stride + (rect.x0 + c)]
  {
    hide Rows;
    var start, w, n := rect.y0 * stride + rect.x0, rect.x1 - rect.x0, rect.y1 - rect.y0;
    RowsAt(plane, start, w, stride, n, r, c);
    RowInBounds(plane, start, w, stride, n, r);
    SourceIndex(rect.y0, rect.x0, r, c, stride);
  }

  lemma SourceIndex(y0: nat, x0: nat, r: nat, c: nat, stride: nat)
    ensures (y0 + r) * stride + (x0 + c) == (y0 * stride + x0) + r * stride + c && y0 * stride >= 0 && r * stride >= 0
  {
  }

  // ------------------------------------------------------------------ the bytes of the header

  /** All 122 bytes of the header: little-endian magic, one directory of nine entries, no second one. */
  lemma HeaderBytes(width: nat, height: nat, size: nat)
    requires width < 0x1_0000 && height < 0x1_0000 && size < 0x1_0000_0000
    ensures var w0, w1, h0, h1 := width % 256, width / 256, height % 256, height / 256;
            var s0, s1, s2, s3 := size % 256, size / 256 % 256, size / 0x1_0000 % 256, size / 0x100_0000;
            Header(width, height, size) ==
            [73, 73, 42, 0, 8, 0, 0, 0, 9, 0]
            + [0, 1, 3, 0, 1, 0, 0, 0, w0, w1, 0, 0]
            + [1, 1, 3, 0, 1, 0, 0, 0, h0, h1, 0, 0]
            + [2, 1, 3, 0, 1, 0, 0, 0, 8, 0, 0, 0]
            + [3, 1, 3, 0, 1, 0, 0, 0, 1, 0, 0, 0]
            + [6, 1, 3, 0, 1, 0, 0, 0, 1, 0, 0, 0]
            + [17, 1, 4, 0, 1, 0, 0, 0, 122, 0, 0, 0]
            + [21, 1, 3, 0, 1, 0, 0, 0, 1, 0, 0, 0]
            + [22, 1, 3, 0, 1, 0, 0, 0, h0, h1, 0, 0]
            + [23, 1, 4, 0, 1, 0, 0, 0, s0, s1, s2, s3]
            + [0, 0, 0, 0]
  {
    StartBytes();
    Unrolled(width, height, size);
    ShortEntry(256, 1, 0, width);
    ShortEntry(257, 1, 1, height);
    ShortEntry(258, 1, 2, 8);
    ShortEntry(259, 1, 3, 1);
    ShortEntry(262, 1, 6, 1);
    LongEntry(273, 1, 17, STRIP_OFFSET);
    ShortEntry(277, 1, 21, 1);
    ShortEntry(278, 1, 22, height);
    LongEntry(279, 1, 23, size);
    hide Header, EntryBytes, Le32, Start;
  }

  lemma Unrolled(width: nat, height: nat, size: nat)
    requires width < 0x1_0000 && height < 0x1_0000 && size < 0x1_0000_0000
    ensures Header(width, height, size) ==
            Start() + EntryBytes(IfdEntry(256, SHORT, 1, width)) + EntryBytes(IfdEntry(257, SHORT, 1, height))
            + EntryBytes(IfdEntry(258, SHORT, 1, 8)) + EntryBytes(IfdEntry(259, SHORT, 1, 1)) + EntryBytes(IfdEntry(262, SHORT, 1, 1))
            + EntryBytes(IfdEntry(273, LONG, 1, STRIP_OFFSET)) + EntryBytes(IfdEntry(277, SHORT, 1, 1))
            + EntryBytes(IfdEntry(278, SHORT, 1, height)) + EntryBytes(IfdEntry(279, LONG, 1, size)) + Le32(0)
  {
    hide EntryBytes, Le32, IfdBytes, Start;
    var es := Directory(width, height, size);
    IfdStart(es);
    IfdStep(es, 0);
    IfdStep(es, 1);
    IfdStep(es, 2);
    IfdStep(es, 3);
    IfdStep(es, 4);
    IfdStep(es, 5);
    IfdStep(es, 6);
    IfdStep(es, 7);
    IfdStep(es, 8);
    assert es[..9] == es;
  }

  lemma StartBytes()
    ensures Start() == [73, 73, 42, 0, 8, 0, 0, 0, 9, 0] && Le32(0) == [0, 0, 0, 0]
  {
  }

  lemma ShortEntry(tag: nat, high: Byte, low: Byte, value: nat)
    requires tag == 256 * high + low && value < 0x1_0000
    ensures EntryBytes(IfdEntry(tag, SHORT, 1, value)) == [low, high, 3, 0, 1, 0, 0, 0, value % 256, value / 256, 0, 0]
  {
  }

  lemma LongEntry(tag: nat, high: Byte, low: Byte, value: nat)
    requires tag == 256 * high + low && value < 0x1_0000_0000
    ensures EntryBytes(IfdEntry(tag, LONG, 1, value)) ==
            [low, high, 4, 0, 1, 0, 0, 0, value % 256, value / 256 % 256, value / 0x1_0000 % 256, value / 0x100_0000]
  {
    FourBytes(value);
    assert Le32(1) == [1, 0, 0, 0];
    hide Le32;
  }

  lemma FourBytes(v: nat)
    requires v < 0x1_0000_0000
    ensures Le32(v) == [v % 256, v / 256 % 256, v / 0x1_0000 % 256, v / 0x100_0000]
  {
    var a, b, c, d := v % 256, v / 256 % 256, v / 0x1_0000 % 256, v / 0x100_0000;
    Halves(v);
    Bytes2(v % 0x1_0000);
    Bytes2(v / 0x1_0000);
  }

  lemma Bytes2(v: nat)
    requires v < 0x1_0000
    ensures Le16(v) == [v % 256, v / 256]
  {
  }

  /** The bytes of the two halves of a 32-bit number. */
  lemma Halves(v: nat)
    requires v < 0x1_0000_0000
    ensures v % 0x1_0000 % 256 == v % 256 && v % 0x1_0000 / 256 == v / 256 % 256
    ensures v / 0x1_0000 < 0x1_0000 && v / 0x1_0000 / 256 == v / 0x100_0000
  {
    var q, a := v / 256, v % 256;
    var r, b := q / 256, q % 256;
    var d, c := r / 256, r % 256;
    FromBytes(a, b, c, d, v);
  }

  lemma FromBytes(a: nat, b: nat, c: nat, d: nat, v: nat)
    requires a < 256 && b < 256 && c < 256 && v == a + 256 * b + 0x1_0000 * c + 0x100_0000 * d
    ensures v % 0x1_0000 == a + 256 * b && v / 0x1_0000 == c + 256 * d && v / 0x100_0000 == d
    ensures v % 256 == a && v / 256 % 256 == b && (a + 256 * b) / 256 == b && (a + 256 * b) % 256 == a && (c + 256 * d) / 256 == d
  {
    DivMod(v, c + 256 * d, a + 256 * b, 0x1_0000);
    DivMod(v, d, a + 256 * b + 0x1_0000 * c, 0x100_0000);
    DivMod(v, b + 256 * c + 0x1_0000 * d, a, 256);
    DivMod(b + 256 * c + 0x1_0000 * d, c + 256 * d, b, 256);
    DivMod(a + 256 * b, b, a, 256);
    DivMod(c + 256 * d, d, c, 256);
  }
}
