/** A reader of ustar archives, written from POSIX.1-2017 `pax`, "ustar Interchange Format", and what
    it makes of the archives that `artifact.cpp` writes. */
module TarReader {
  import opened Basics
  import opened Bytes
  import opened Digits
  import opened SortedEntries
  import opened TarHeader

  type File = Entry<seq<Byte>>

  // ------------------------------------------------------------------ reading a header

  /** How many octal digits a text starts with. */
  function DigitRun(s: seq<Byte>): (k: nat)
    ensures k <= |s| && AllDigits(8, s[..k]) && (k < |s| ==> !IsDigit(8, s[k]))
  {
    if s != [] && IsDigit(8, s[0]) then
      assert forall i :: 0 < i <= DigitRun(s[1..]) ==> s[i] == s[1..][i - 1];
      1 + DigitRun(s[1..])
    else 0
  }

  /** Octal digits ended by a NUL or a space. */
  function ReadOctal(s: seq<Byte>): Option<nat> {
    var k := DigitRun(s);
    if 0 < k < |s| && (s[k] == 0 || s[k] == 32) then Some(Value(8, s[..k])) else None
  }

  function UpToNul(s: seq<Byte>): seq<Byte> {
    if s == [] || s[0] == 0 then [] else [s[0]] + UpToNul(s[1..])
  }

  function FullName(b: seq<Byte>): seq<Byte>
    requires |b| == 512
  {
    var prefix, name := UpToNul(b[345..500]), UpToNul(b[..100]);
    if prefix == [] then name else prefix + [47] + name
  }

  datatype Member = Member(name: seq<Byte>, size: nat, mode: nat, uid: nat, gid: nat, mtime: nat)

  function Total(s: seq<Byte>): nat {
    if s == [] then 0 else s[0] + Total(s[1..])
  }

  /** A regular file whose magic, version and checksum are right. The checksum is the sum of all bytes of the
      header, its own eight counted as spaces. */
  function ReadHeader(b: seq<Byte>): Option<Member>
    requires |b| == 512
  {
    var mode, uid, gid, size, mtime := ReadOctal(b[100..108]), ReadOctal(b[108..116]), ReadOctal(b[116..124]),
                                       ReadOctal(b[124..136]), ReadOctal(b[136..148]);
    if && b[257..265] == Ascii("ustar") + [0] + Ascii("00") && b[156..157] == Ascii("0")
       && mode.Some? && uid.Some? && gid.Some? && size.Some? && mtime.Some?
       && ReadOctal(b[148..156]) == Some(Total(b[..148]) + 8 * 32 + Total(b[156..]))
    then Some(Member(FullName(b), size.value, mode.value, uid.value, gid.value, mtime.value))
    else None
  }

  /** What a member of a size takes up behind its header: whole blocks of 512 bytes. */
  function Occupied(size: nat): (r: nat)
    ensures size <= r < size + 512 && r % 512 == 0
  {
    (size + 511) / 512 * 512
  }

  /** Members up to the two zero blocks that end an archive. */
  function ReadArchive(bytes: seq<Byte>): Option<seq<File>>
    decreases |bytes|
  {
    if |bytes| < 512 then None
    else if bytes[..512] == Zeros(512) then
      if |bytes| >= 1024 && bytes[512..1024] == Zeros(512) then Some([]) else None
    else
      var m := ReadHeader(bytes[..512]);
      if m.None? || 512 + Occupied(m.value.size) > |bytes| then None
      else
        var rest := ReadArchive(bytes[512 + Occupied(m.value.size)..]);
        if rest.None? then None
        else Some([Entry(m.value.name, bytes[512..512 + m.value.size])] + rest.value)
  }

  // ------------------------------------------------------------------ writing

  function Padding(size: nat): nat {
    (BLOCK - size % BLOCK) % BLOCK
  }

  lemma PaddingFills(size: nat)
    ensures size + Padding(size) == Occupied(size)
  {
    var q, r := size / 512, size % 512;
    assert size == 512 * q + r;
    assert Occupied(size) == if r == 0 then 512 * q else 512 * q + 512;
  }

  predicate Writable(e: File) {
    Fits(e.name, |e.data|)
  }

  predicate AllWritable(es: seq<File>) {
    forall i :: 0 <= i < |es| ==> Writable(es[i])
  }

  function EntryBytes(e: File): seq<Byte>
    requires Writable(e)
  {
    Header(e.name, |e.data|) + e.data + Zeros(Padding(|e.data|))
  }

  function Members(es: seq<File>): seq<Byte>
    requires AllWritable(es)
  {
    if es == [] then [] else EntryBytes(es[0]) + Members(es[1..])
  }

  function Archive(es: seq<File>): seq<Byte>
    requires AllWritable(es)
  {
    Members(es) + Zeros(2 * BLOCK)
  }

  // ------------------------------------------------------------------ header round trip

  lemma {:induction false} DigitRunIs(digits: seq<Byte>, rest: seq<Byte>)
    requires AllDigits(8, digits) && (rest == [] || !IsDigit(8, rest[0]))
    ensures DigitRun(digits + rest) == |digits|
  {
    if digits == [] {
      assert digits + rest == rest;
    } else {
      assert (digits + rest)[1..] == digits[1..] + rest;
      DigitRunIs(digits[1..], rest);
    }
  }

  lemma ReadPrinted(value: nat, width: nat, rest: seq<Byte>)
    requires width >= 1 && rest != [] && (rest[0] == 0 || rest[0] == 32)
    ensures ReadOctal(Print(8, value, width) + rest) == Some(value)
  {
    hide Print, Value, DigitRun;
    PrintRoundTrip(8, value, width);
    var digits := Print(8, value, width);
    DigitRunIs(digits, rest);
    assert (digits + rest)[..|digits|] == digits;
  }

  lemma {:induction false} UpToNulPadded(s: seq<Byte>, k: nat)
    ensures UpToNul(s + Zeros(k)) == UpToNul(s)
  {
    if s == [] {
      assert s + Zeros(k) == Zeros(k);
    } else if s[0] != 0 {
      assert (s + Zeros(k))[1..] == s[1..] + Zeros(k);
      UpToNulPadded(s[1..], k);
    }
  }

  /** A name reads back exactly when it holds no NUL. */
  lemma {:induction false} UpToNulWhole(s: seq<Byte>)
    ensures UpToNul(s) == s <==> 0 !in s
  {
    if s != [] {
      UpToNulWhole(s[1..]);
      assert s == [s[0]] + s[1..];
      if s[0] != 0 {
        assert UpToNul(s) == [s[0]] + UpToNul(s[1..]);
        assert UpToNul(s) == s ==> UpToNul(s)[1..] == s[1..];
      }
    }
  }

  /** The fields of a header before its checksum is stored. */
  lemma BlankFields(name: seq<Byte>, size: nat)
    requires Fits(name, size)
    ensures var b := Blank(name, size);
            && b[100..108] == Octal(420, 8) && b[108..116] == Octal(0, 8) && b[116..124] == Octal(0, 8)
            && b[124..136] == Octal(size, 12) && b[136..148] == Octal(0, 12)
            && b[148..156] == SPACES && b[156..157] == [48] && b[257..265] == USTAR
            && b[..NAME_LIMIT] == name + Zeros(NAME_LIMIT - |name|) && b[345..500] == Zeros(155)
  {
    hide PutAll, Octal, Put;
    FieldsLaid(name, size);
    var fs, z := Fields(name, size), Zeros(BLOCK);
    OctalLengths(size);
    ReadBack(z, fs, 0, |name|, NAME_LIMIT);
    ReadBack(z, fs, 1, 108, 108);
    ReadBack(z, fs, 2, 116, 116);
    ReadBack(z, fs, 3, 124, 124);
    ReadBack(z, fs, 4, 136, 136);
    ReadBack(z, fs, 5, 148, 148);
    ReadBack(z, fs, 6, 156, 156);
    ReadBack(z, fs, 7, 157, 157);
    ReadBack(z, fs, 8, 345, 500);
    hide Laid;
    var b := PutAll(z, fs);
    assert b[..NAME_LIMIT] == b[0..|name|] + b[|name|..NAME_LIMIT];
  }

  lemma OctalLengths(size: nat)
    requires size < Pow(8, 11)
    ensures |Octal(size, 12)| == 12 == |Octal(0, 12)| && |Octal(420, 8)| == 8 == |Octal(0, 8)|
  {
    hide Print, Pow;
    SmallPowers();
    PrintFits(8, size, 11);
    PrintFits(8, 0, 11);
    PrintFits(8, 420, 7);
    PrintFits(8, 0, 7);
  }

  lemma {:induction false} SumConcat(a: seq<Byte>, b: seq<Byte>)
    ensures Sum(a + b) == Sum(a) + Sum(b)
  {
    if b == [] {
      assert a + b == a;
    } else {
      var n := |b| - 1;
      SumConcat(a, b[..n]);
      assert (a + b)[..|a + b| - 1] == a + b[..n];
    }
  }

  lemma {:induction false} TotalIsSum(s: seq<Byte>)
    ensures Total(s) == Sum(s)
  {
    if s != [] {
      TotalIsSum(s[1..]);
      SumConcat([s[0]], s[1..]);
      SumOne(s[0]);
      assert s == [s[0]] + s[1..];
    }
  }

  lemma SumOne(x: Byte)
    ensures Sum([x]) == x
  {
    assert [x][..0] == [];
  }

  lemma SumOfSpaces()
    ensures Sum(SPACES) == 256
  {
    SumConcat([32, 32, 32, 32], [32, 32, 32, 32]);
    SumConcat([32, 32], [32, 32]);
    SumConcat([32], [32]);
    SumOne(32);
    assert [32, 32, 32, 32] + [32, 32, 32, 32] == SPACES && [32] + [32] == [32, 32];
    assert [32, 32] + [32, 32] == [32, 32, 32, 32];
  }

  /** Storing the checksum changes nothing else, and it is the sum that the reader forms. */
  lemma ChecksumStored(b: seq<Byte>, i: nat, j: nat)
    requires |b| == BLOCK && Checksum(Sum(b)).End() == 156 && i <= j <= BLOCK && (j <= 148 || 156 <= i)
    ensures var h := Put(b, Checksum(Sum(b)));
            h[148..156] == Print(8, Sum(b), 6) + [0, 32] && h[i..j] == b[i..j]
  {
    hide Print, Sum;
  }

  lemma ChecksumIs(b: seq<Byte>, h: seq<Byte>)
    requires |b| == BLOCK == |h| && b[148..156] == SPACES && h[..148] == b[..148] && h[156..] == b[156..]
    ensures Sum(b) == Total(h[..148]) + 8 * 32 + Total(h[156..])
  {
    hide Sum, Total;
    assert b == b[..148] + SPACES + b[156..];
    SumConcat(b[..148] + SPACES, b[156..]);
    SumConcat(b[..148], SPACES);
    SumOfSpaces();
    TotalIsSum(b[..148]);
    TotalIsSum(b[156..]);
  }

  /** Reading a header gives the size, the name up to its first NUL, mode 644, and zero for owner, group and
      time. */
  lemma HeaderReads(name: seq<Byte>, size: nat)
    requires Fits(name, size)
    ensures ReadHeader(Header(name, size)) == Some(Member(UpToNul(name), size, 6 * 64 + 4 * 8 + 4, 0, 0, 0))
    ensures Header(name, size) != Zeros(BLOCK)
  {
    hide Put, Sum, Total, Blank, Print, ReadOctal, UpToNul, Checksum, Zeros, Octal;
    var b, h := Blank(name, size), Header(name, size);
    BlankFields(name, size);
    ChecksumFits(b);
    ChecksumStored(b, 0, NAME_LIMIT);
    ChecksumStored(b, 0, 148);
    ChecksumStored(b, 156, 512);
    HeaderSlices(b, h);
    ChecksumIs(b, h);
    ReadPrinted(Sum(b), 6, [0, 32]);
    ReadFields(size);
    UpToNulPadded(name, NAME_LIMIT - |name|);
    UpToNulPadded([], 155);
    NoName();
    NotZeros(h);
  }

  lemma ReadFields(size: nat)
    ensures ReadOctal(Octal(size, 12)) == Some(size) && ReadOctal(Octal(0, 12)) == Some(0)
    ensures ReadOctal(Octal(420, 8)) == Some(420) && ReadOctal(Octal(0, 8)) == Some(0)
  {
    hide Print, ReadOctal;
    ReadPrinted(size, 11, [0]);
    ReadPrinted(0, 11, [0]);
    ReadPrinted(420, 7, [0]);
    ReadPrinted(0, 7, [0]);
  }

  /** The fields outside the checksum. */
  lemma HeaderSlices(b: seq<Byte>, h: seq<Byte>)
    requires |b| == BLOCK == |h| && h[0..148] == b[0..148] && h[156..512] == b[156..512]
    ensures h[..100] == b[..100] && h[100..108] == b[100..108] && h[108..116] == b[108..116] && h[116..124] == b[116..124]
    ensures h[124..136] == b[124..136] && h[136..148] == b[136..148] && h[156..157] == b[156..157]
    ensures h[257..265] == b[257..265] && h[345..500] == b[345..500] && h[..148] == b[..148] && h[156..] == b[156..]
  {
    forall i | 0 <= i < 148 ensures h[i] == b[i] {
      assert h[0..148][i] == b[0..148][i];
    }
    forall i | 156 <= i < 512 ensures h[i] == b[i] {
      assert h[156..512][i - 156] == b[156..512][i - 156];
    }
  }

  lemma NoName()
    ensures UpToNul([]) == [] && [] + Zeros(155) == Zeros(155)
  {
  }

  lemma NotZeros(h: seq<Byte>)
    requires |h| == BLOCK && h[156..157] == [48]
    ensures h != Zeros(BLOCK)
  {
    assert h[156] == h[156..157][0];
  }
}
