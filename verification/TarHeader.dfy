/** The ustar member header that `artifact.cpp` fills in, and a reader for it (POSIX.1-2017 `pax`,
    "ustar Interchange Format"). */
module TarHeader {
  import opened Basics
  import opened Bytes
  import opened Digits

  const BLOCK: nat := 512
  const NAME_LIMIT: nat := 100
  const SPACES: seq<Byte> := [32, 32, 32, 32, 32, 32, 32, 32]
  const USTAR: seq<Byte> := [117, 115, 116, 97, 114, 0, 48, 48]

  // ------------------------------------------------------------------ fields of a block

  datatype Field = Field(at: nat, bytes: seq<Byte>)
  {
    function End(): nat {
      at + |bytes|
    }
  }

  function Put(b: seq<Byte>, f: Field): (r: seq<Byte>)
    requires f.End() <= |b|
    ensures |r| == |b|
  {
    b[..f.at] + f.bytes + b[f.End()..]
  }

  /** Fields in ascending order, none overlapping a later one, all inside `size`. */
  predicate Laid(fs: seq<Field>, size: nat) {
    && (forall i :: 0 <= i < |fs| ==> fs[i].End() <= size)
    && (forall i, j :: 0 <= i < j < |fs| ==> fs[i].End() <= fs[j].at)
  }

  function PutAll(b: seq<Byte>, fs: seq<Field>): (r: seq<Byte>)
    requires Laid(fs, |b|)
    ensures |r| == |b|
  {
    if fs == [] then b else Put(PutAll(b, fs[..|fs| - 1]), fs[|fs| - 1])
  }

  lemma LaidPrefix(fs: seq<Field>, size: nat, k: nat)
    requires Laid(fs, size) && k <= |fs|
    ensures Laid(fs[..k], size) && (k < |fs| ==> fs[k].End() <= size)
  {
  }

  lemma PutNext(b: seq<Byte>, fs: seq<Field>, k: nat)
    requires Laid(fs, |b|) && k < |fs|
    ensures Laid(fs[..k], |b|) && Laid(fs[..k + 1], |b|)
    ensures PutAll(b, fs[..k + 1]) == Put(PutAll(b, fs[..k]), fs[k])
  {
    hide Put, Laid;
    LaidPrefix(fs, |b|, k);
    LaidPrefix(fs, |b|, k + 1);
    var g := fs[..k + 1];
    assert g[..|g| - 1] == fs[..k] && g[|g| - 1] == fs[k];
  }

  /** What lies beyond the last field is untouched. */
  lemma {:induction false} Beyond(b: seq<Byte>, fs: seq<Field>, i: nat, j: nat)
    requires Laid(fs, |b|) && i <= j <= |b| && (fs == [] || fs[|fs| - 1].End() <= i)
    ensures PutAll(b, fs)[i..j] == b[i..j]
  {
    if fs != [] {
      var n := |fs| - 1;
      PutNext(b, fs, n);
      assert fs[..n + 1] == fs;
      hide PutAll;
      Beyond(b, fs[..n], i, j);
      KeepsBeyond(PutAll(b, fs[..n]), fs[n], i, j);
    }
  }

  lemma PutReads(b: seq<Byte>, f: Field)
    requires f.End() <= |b|
    ensures Put(b, f)[f.at..f.End()] == f.bytes
  {
  }

  /** Every field reads back, and so does what lies between it and the next one. */
  lemma {:induction false} ReadBack(b: seq<Byte>, fs: seq<Field>, k: nat, i: nat, j: nat)
    requires Laid(fs, |b|) && k < |fs|
    requires fs[k].End() <= i <= j <= |b| && (k + 1 < |fs| ==> j <= fs[k + 1].at)
    ensures PutAll(b, fs)[fs[k].at..fs[k].End()] == fs[k].bytes
    ensures PutAll(b, fs)[i..j] == b[i..j]
  {
    hide PutAll, Put;
    var n := |fs| - 1;
    PutNext(b, fs, n);
    assert fs[..n + 1] == fs;
    if k < n {
      assert fs[k + 1].at <= fs[n].at;
      ReadBack(b, fs[..n], k, i, j);
      Keeps(PutAll(b, fs[..n]), fs[n], fs[k].at, fs[k].End());
      Keeps(PutAll(b, fs[..n]), fs[n], i, j);
    } else {
      PutReads(PutAll(b, fs[..n]), fs[n]);
      Beyond(b, fs[..n], i, j);
      KeepsBeyond(PutAll(b, fs[..n]), fs[n], i, j);
    }
  }

  lemma KeepsBeyond(b: seq<Byte>, f: Field, i: nat, j: nat)
    requires f.End() <= i <= j <= |b|
    ensures Put(b, f)[i..j] == b[i..j]
  {
  }

  lemma Keeps(b: seq<Byte>, f: Field, i: nat, j: nat)
    requires f.End() <= |b| && i <= j <= f.at
    ensures Put(b, f)[i..j] == b[i..j]
  {
  }

  // ------------------------------------------------------------------ the writer

  /** A numeric field: octal digits to the width, then a NUL. */
  function Octal(value: nat, length: nat): (r: seq<Byte>)
    requires length >= 2
    ensures |r| >= length
  {
    Print(8, value, length - 1) + [0]
  }

  function Sum(s: seq<Byte>): nat {
    if s == [] then 0 else Sum(s[..|s| - 1]) + s[|s| - 1]
  }

  /** The fields in the order in which they are stored; the checksum field still holds spaces. */
  function Fields(name: seq<Byte>, size: nat): seq<Field> {
    [Field(0, name), Field(100, Octal(420, 8)), Field(108, Octal(0, 8)), Field(116, Octal(0, 8)),
     Field(124, Octal(size, 12)), Field(136, Octal(0, 12)), Field(148, SPACES), Field(156, [48]), Field(257, USTAR)]
  }

  /** A member that a header can describe: otherwise the writer throws. */
  predicate Fits(name: seq<Byte>, size: nat) {
    |name| <= NAME_LIMIT && size < Pow(8, 11)
  }

  /** Names of up to 100 bytes, sizes below 8^11. */
  lemma FitsIff(name: seq<Byte>, size: nat)
    ensures Fits(name, size) <==> |name| <= 100 && size < 8589934592
  {
    SmallPowers();
    assert Pow(8, 9) == 134217728 && Pow(8, 11) == 8 * (8 * Pow(8, 9));
  }

  lemma FieldsLaid(name: seq<Byte>, size: nat)
    requires Fits(name, size)
    ensures Laid(Fields(name, size), BLOCK)
  {
    hide Print, Pow;
    PrintFits(8, 420, 7);
    PrintFits(8, 0, 7);
    PrintFits(8, 0, 11);
    PrintFits(8, size, 11);
    SmallPowers();
  }

  lemma SmallPowers()
    ensures Pow(8, 6) == 262144 && 420 < Pow(8, 7) && 0 < Pow(8, 11)
  {
    assert Pow(8, 3) == 512;
    assert Pow(8, 5) == 32768;
    assert Pow(8, 7) == 2097152;
    assert Pow(8, 9) == 134217728;
  }

  function Blank(name: seq<Byte>, size: nat): (r: seq<Byte>)
    requires Fits(name, size)
    ensures |r| == BLOCK
  {
    FieldsLaid(name, size);
    PutAll(Zeros(BLOCK), Fields(name, size))
  }

  /** Six digits, a NUL and a space. */
  function Checksum(sum: nat): Field {
    Field(148, Print(8, sum, 6) + [0, 32])
  }

  lemma {:induction false} SumBound(s: seq<Byte>)
    ensures Sum(s) <= 255 * |s|
  {
    if s != [] {
      SumBound(s[..|s| - 1]);
    }
  }

  lemma ChecksumFits(b: seq<Byte>)
    requires |b| == BLOCK
    ensures Sum(b) < Pow(8, 6) && Checksum(Sum(b)).End() == 156
  {
    hide Print, Pow;
    SumBound(b);
    SmallPowers();
    PrintFits(8, Sum(b), 6);
  }

  function Header(name: seq<Byte>, size: nat): (r: seq<Byte>)
    requires Fits(name, size)
    ensures |r| == BLOCK
  {
    ChecksumFits(Blank(name, size));
    Put(Blank(name, size), Checksum(Sum(Blank(name, size))))
  }

  method Store(header: array<Byte>, f: Field)
    requires f.End() <= header.Length
    modifies header
    ensures header[..] == Put(old(header[..]), f)
  {
    forall i | 0 <= i < |f.bytes| {
      header[f.at + i] := f.bytes[i];
    }
  }

  /** `write_octal`: a value that needs more digits than the field has is refused. */
  method WriteOctal(header: array<Byte>, offset: nat, length: nat, value: nat) returns (ok: bool)
    requires 2 <= length && offset + length <= header.Length
    modifies header
    ensures ok <==> value < Pow(8, length - 1)
    ensures ok ==> |Octal(value, length)| == length && header[..] == Put(old(header[..]), Field(offset, Octal(value, length)))
    ensures !ok ==> header[..] == old(header[..])
  {
    var text := Print(8, value, length - 1);
    PrintFits(8, value, length - 1);
    if |text| >= length {
      return false;
    }
    Store(header, Field(offset, text + [0]));
    ok := true;
  }

  method FillFields(header: array<Byte>, name: seq<Byte>, size: nat) returns (ok: bool)
    requires header.Length == BLOCK && header[..] == Zeros(BLOCK) && |name| <= NAME_LIMIT
    modifies header
    ensures ok <==> Fits(name, size)
    ensures ok ==> header[..] == Blank(name, size)
  {
    hide Print, Pow, Octal, PutAll, Put, Laid, Zeros;
    SmallPowers();
    Store(header, Field(0, name));
    ghost var b1 := header[..];
    var _ := WriteOctal(header, 100, 8, 420);
    ghost var b2 := header[..];
    var _ := WriteOctal(header, 108, 8, 0);
    ghost var b3 := header[..];
    var _ := WriteOctal(header, 116, 8, 0);
    ghost var b4 := header[..];
    ok := WriteOctal(header, 124, 12, size);
    if !ok {
      return;
    }
    ghost var b5 := header[..];
    var _ := WriteOctal(header, 136, 12, 0);
    ghost var b6 := header[..];
    Store(header, Field(148, SPACES));
    ghost var b7 := header[..];
    Store(header, Field(156, [48]));
    ghost var b8 := header[..];
    Store(header, Field(257, USTAR));
    FieldsLaid(name, size);
    StoredAll(name, size, b1, b2, b3, b4, b5, b6, b7, b8, header[..]);
  }

  /** `make_tar_header`: the array is filled in field by field and then checksummed. */
  method MakeTarHeader(name: seq<Byte>, size: nat) returns (r: Option<seq<Byte>>)
    ensures r.Some? <==> Fits(name, size)
    ensures r.Some? ==> r.value == Header(name, size)
  {
    hide Print, Put, Sum, Fits, Blank;
    if |name| > NAME_LIMIT {
      TooLong(name, size);
      return None;
    }
    var header := new Byte[BLOCK](_ => 0);
    assert header[..] == Zeros(BLOCK);
    var ok := FillFields(header, name, size);
    if !ok {
      return None;
    }
    var checksum: nat := 0;
    var i := 0;
    SumEmpty();
    while i < header.Length
      invariant 0 <= i <= header.Length && header[..] == Blank(name, size)
      invariant checksum == Sum(header[..i])
    {
      SumStep(header[..], i);
      checksum := checksum + At(header[..], i);
      i := i + 1;
    }
    assert header[..i] == header[..];
    ChecksumFits(header[..]);
    Store(header, Field(148, Print(8, checksum, 6) + [0, 32]));
    r := Some(header[..]);
  }

  lemma TooLong(name: seq<Byte>, size: nat)
    requires |name| > NAME_LIMIT
    ensures !Fits(name, size)
  {
  }

  lemma SumEmpty()
    ensures Sum([]) == 0
  {
  }

  lemma SumStep(s: seq<Byte>, i: nat)
    requires i < |s|
    ensures Sum(s[..i + 1]) == Sum(s[..i]) + s[i]
  {
    assert s[..i + 1][..i] == s[..i];
  }

  lemma StoredAll(name: seq<Byte>, size: nat, b1: seq<Byte>, b2: seq<Byte>, b3: seq<Byte>, b4: seq<Byte>, b5: seq<Byte>,
                  b6: seq<Byte>, b7: seq<Byte>, b8: seq<Byte>, b9: seq<Byte>)
    requires Fits(name, size) && Laid(Fields(name, size), BLOCK)
    requires |b1| == |b2| == |b3| == |b4| == |b5| == |b6| == |b7| == |b8| == BLOCK
    requires var fs := Fields(name, size);
             && b1 == Put(Zeros(BLOCK), fs[0]) && b2 == Put(b1, fs[1]) && b3 == Put(b2, fs[2]) && b4 == Put(b3, fs[3])
             && b5 == Put(b4, fs[4]) && b6 == Put(b5, fs[5]) && b7 == Put(b6, fs[6]) && b8 == Put(b7, fs[7])
             && b9 == Put(b8, fs[8])
    ensures b9 == Blank(name, size)
  {
    hide Put, Octal, Laid, Zeros;
    var fs, z := Fields(name, size), Zeros(BLOCK);
    PutNext(z, fs, 0);
    PutNext(z, fs, 1);
    PutNext(z, fs, 2);
    PutNext(z, fs, 3);
    PutNext(z, fs, 4);
    PutNext(z, fs, 5);
    PutNext(z, fs, 6);
    PutNext(z, fs, 7);
    PutNext(z, fs, 8);
    assert fs[..9] == fs;
  }
}
