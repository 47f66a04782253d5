/** Whole product archives of `artifact.cpp`: what is written, in which order, and that it reads back.
    File contents are byte sequences; JSON text is an argument. */
module TarArchive {
  import opened Basics
  import opened Bytes
  import opened SortedEntries
  import Digits
  import opened TarHeader
  import opened TarReader

  // ------------------------------------------------------------------ round trip

  /** What a reader makes of the entries: a name ends at its first NUL. */
  function AsRead(es: seq<File>): (r: seq<File>)
    ensures |r| == |es|
  {
    if es == [] then [] else [Entry(UpToNul(es[0].name), es[0].data)] + AsRead(es[1..])
  }

  lemma EntryFirst(e: File, rest: seq<Byte>)
    requires Writable(e)
    ensures var bytes, n := EntryBytes(e) + rest, |e.data|;
            && 512 + Occupied(n) <= |bytes|
            && bytes[..512] == Header(e.name, n) && bytes[512..512 + n] == e.data
            && bytes[512 + Occupied(n)..] == rest
  {
    PaddingFills(|e.data|);
    hide Fits, Header, Padding, Occupied;
    var header, zeros := Header(e.name, |e.data|), Zeros(Padding(|e.data|));
    Parts(header, e.data, zeros, rest);
  }

  lemma Parts(a: seq<Byte>, b: seq<Byte>, c: seq<Byte>, d: seq<Byte>)
    ensures var s := a + b + c + d;
            s[..|a|] == a && s[|a|..|a| + |b|] == b && s[|a| + (|b| + |c|)..] == d
  {
  }

  /** Reading one member and then the rest. */
  lemma ReadStep(bytes: seq<Byte>, m: Member, rest: seq<File>)
    requires |bytes| >= 512 && bytes[..512] != Zeros(512) && ReadHeader(bytes[..512]) == Some(m)
    requires 512 + Occupied(m.size) <= |bytes| && ReadArchive(bytes[512 + Occupied(m.size)..]) == Some(rest)
    ensures ReadArchive(bytes) == Some([Entry(m.name, bytes[512..512 + m.size])] + rest)
  {
    hide ReadHeader, Occupied, Zeros;
  }

  lemma ReadEnd()
    ensures ReadArchive(Zeros(1024)) == Some([])
  {
    assert Zeros(1024)[..512] == Zeros(512) && Zeros(1024)[512..1024] == Zeros(512);
  }

  lemma {:induction false} ArchiveReads(es: seq<File>)
    requires AllWritable(es)
    ensures ReadArchive(Archive(es)) == Some(AsRead(es))
  {
    hide ReadArchive;
    if es == [] {
      ReadEnd();
      assert Archive(es) == Zeros(1024);
    } else {
      hide EntryBytes, Fits, ReadHeader, Header, Zeros, UpToNul, Occupied;
      var rest, n := Archive(es[1..]), |es[0].data|;
      assert Archive(es) == EntryBytes(es[0]) + rest;
      EntryFirst(es[0], rest);
      FitsOf(es[0]);
      HeaderReads(es[0].name, n);
      ArchiveReads(es[1..]);
      ReadStep(Archive(es), Member(UpToNul(es[0].name), n, 420, 0, 0, 0), AsRead(es[1..]));
    }
  }

  lemma FitsOf(e: File)
    requires Writable(e)
    ensures Fits(e.name, |e.data|)
  {
  }

  predicate NulFree(es: seq<File>) {
    forall i :: 0 <= i < |es| ==> 0 !in es[i].name
  }

  lemma {:induction false} AsReadWhole(es: seq<File>)
    ensures AsRead(es) == es <==> NulFree(es)
  {
    if es != [] {
      AsReadWhole(es[1..]);
      UpToNulWhole(es[0].name);
      assert es == [es[0]] + es[1..];
      assert AsRead(es)[1..] == AsRead(es[1..]);
      assert NulFree(es) <==> 0 !in es[0].name && NulFree(es[1..]) by {
        NulFreeCons(es);
      }
    }
  }

  lemma NulFreeCons(es: seq<File>)
    requires es != []
    ensures NulFree(es) <==> 0 !in es[0].name && NulFree(es[1..])
  {
    if 0 !in es[0].name && NulFree(es[1..]) {
      forall i | 0 <= i < |es| ensures 0 !in es[i].name {
        assert i > 0 ==> es[i] == es[1..][i - 1];
      }
    }
  }

  /** The reader gets back exactly what was written, exactly when no name holds a NUL. */
  lemma ArchiveRoundTrip(es: seq<File>)
    requires AllWritable(es)
    ensures ReadArchive(Archive(es)) == Some(es) <==> NulFree(es)
  {
    ArchiveReads(es);
    AsReadWhole(es);
  }

  // ------------------------------------------------------------------ appending to the output

  class Output {
    var bytes: seq<Byte>

    constructor ()
      ensures bytes == []
    {
      bytes := [];
    }

    method Write(data: seq<Byte>)
      modifies this
      ensures bytes == old(bytes) + data
    {
      bytes := bytes + data;
    }

    /** `append_entry`: nothing is written when the header cannot be made. */
    method AppendEntry(name: seq<Byte>, data: seq<Byte>) returns (ok: bool)
      modifies this
      ensures ok <==> Writable(Entry(name, data))
      ensures bytes == if ok then old(bytes) + EntryBytes(Entry(name, data)) else old(bytes)
    {
      hide Fits, Header;
      var header := MakeTarHeader(name, |data|);
      if header.None? {
        return false;
      }
      Write(header.value);
      Write(data);
      Write(Zeros((BLOCK - |data| % BLOCK) % BLOCK));
      ok := true;
    }
  }

  lemma {:induction false} MembersSnoc(es: seq<File>, e: File)
    requires AllWritable(es) && Writable(e)
    ensures AllWritable(es + [e]) && Members(es + [e]) == Members(es) + EntryBytes(e)
  {
    hide EntryBytes, Fits;
    if es == [] {
      assert es + [e] == [e];
      assert Members([e]) == EntryBytes(e) + Members([e][1..]);
    } else {
      assert (es + [e])[1..] == es[1..] + [e];
      MembersSnoc(es[1..], e);
    }
  }

  // ------------------------------------------------------------------ write_product

  /** "frames/", ".bin", "manifest.json" and "meta/frames.jsonl". */
  const FRAMES: seq<Byte> := [102, 114, 97, 109, 101, 115, 47]
  const BIN: seq<Byte> := [46, 98, 105, 110]
  const MANIFEST: seq<Byte> := [109, 97, 110, 105, 102, 101, 115, 116, 46, 106, 115, 111, 110]
  const FRAMES_JSONL: seq<Byte> := [109, 101, 116, 97, 47, 102, 114, 97, 109, 101, 115, 46, 106, 115, 111, 110, 108]

  datatype Frame = Frame(bytes: seq<Byte>, metadata: seq<Byte>)

  function FrameName(index: nat): seq<Byte> {
    FRAMES + (Digits.Print(10, index, 6) + BIN)
  }

  function FrameEntry(frames: seq<Frame>, i: nat): File
    requires i < |frames|
  {
    Entry(FrameName(i), frames[i].bytes)
  }

  function MetadataText(frames: seq<Frame>): seq<Byte> {
    if frames == [] then [] else MetadataText(frames[..|frames| - 1]) + frames[|frames| - 1].metadata + [10]
  }

  /** The names as texts, and how frames are numbered in them. */
  lemma NamesAre()
    ensures MANIFEST == Ascii("manifest.json") && FRAMES_JSONL == Ascii("meta/frames.jsonl")
    ensures FRAMES == Ascii("frames/") && BIN == Ascii(".bin")
    ensures Digits.Print(10, 0, 6) == Ascii("000000") && Digits.Print(10, 12345, 6) == Ascii("012345")
  {
    PrintedZero();
    Printed12345();
    hide Digits.Print;
  }

  lemma PrintedZero()
    ensures Digits.Print(10, 0, 6) == Ascii("000000")
  {
    assert Digits.Print(10, 0, 1) == Ascii("0");
    assert Digits.Print(10, 0, 2) == Ascii("00");
    assert Digits.Print(10, 0, 3) == Ascii("000");
    assert Digits.Print(10, 0, 4) == Ascii("0000");
    assert Digits.Print(10, 0, 5) == Ascii("00000");
  }

  lemma Printed12345()
    ensures Digits.Print(10, 12345, 6) == Ascii("012345")
  {
    assert Digits.Print(10, 0, 1) == Ascii("0");
    assert Digits.Print(10, 1, 2) == Ascii("01");
    assert Digits.Print(10, 12, 3) == Ascii("012");
    assert Digits.Print(10, 123, 4) == Ascii("0123");
    assert Digits.Print(10, 1234, 5) == Ascii("01234");
  }

  /** The members: the manifest with a newline, and each frame's bytes under its number. */
  lemma EntriesAre(manifest: seq<Byte>, frames: seq<Frame>, i: nat)
    requires i < |frames|
    ensures ManifestEntry(manifest) == Entry(Ascii("manifest.json"), manifest + [10])
    ensures FrameEntry(frames, i).data == frames[i].bytes
    ensures var digits := Digits.Print(10, i, 6);
            && FrameEntry(frames, i).name == Ascii("frames/") + (digits + Ascii(".bin"))
            && |digits| >= 6 && Digits.AllDigits(10, digits) && Digits.Value(10, digits) == i
  {
    hide Digits.Print, Digits.Value;
    NamesAre();
    Digits.PrintRoundTrip(10, i, 6);
  }

  /** The lines of a text: what stands before each newline. */
  function Lines(text: seq<Byte>, line: seq<Byte>): seq<seq<Byte>> {
    if text == [] then []
    else if text[0] == 10 then [line] + Lines(text[1..], [])
    else Lines(text[1..], line + [text[0]])
  }

  lemma {:induction false} LinesOfText(line: seq<Byte>, text: seq<Byte>, rest: seq<Byte>)
    requires 10 !in text
    ensures Lines(text + [10] + rest, line) == [line + text] + Lines(rest, [])
    decreases |text|
  {
    var all := text + [10] + rest;
    if text == [] {
      assert all[0] == 10 && all[1..] == rest && line + [] == line;
    } else {
      LinesOfText(line + [text[0]], text[1..], rest);
      assert all[1..] == text[1..] + [10] + rest;
      assert line + [text[0]] + text[1..] == line + text;
    }
  }

  lemma {:induction false} MetadataFrom(frames: seq<Frame>, rest: seq<Byte>)
    requires forall i :: 0 <= i < |frames| ==> 10 !in frames[i].metadata
    ensures Lines(MetadataText(frames) + rest, []) == seq(|frames|, i requires 0 <= i < |frames| => frames[i].metadata) + Lines(rest, [])
    decreases |frames|
  {
    if frames == [] {
      assert MetadataText(frames) + rest == rest;
    } else {
      var n := |frames| - 1;
      var last := frames[n].metadata;
      assert MetadataText(frames) + rest == MetadataText(frames[..n]) + (last + [10] + rest);
      MetadataFrom(frames[..n], last + [10] + rest);
      LinesOfText([], last, rest);
      assert [] + last == last;
    }
  }

  /** meta/frames.jsonl holds the metadata of the frames, one line each, in their order. */
  lemma MetadataLines(frames: seq<Frame>)
    requires forall i :: 0 <= i < |frames| ==> 10 !in frames[i].metadata
    ensures |Lines(MetadataText(frames), [])| == |frames|
    ensures forall i :: 0 <= i < |frames| ==> Lines(MetadataText(frames), [])[i] == frames[i].metadata
  {
    MetadataFrom(frames, []);
    assert MetadataText(frames) + [] == MetadataText(frames);
  }

  function ManifestEntry(manifest: seq<Byte>): File {
    Entry(MANIFEST, manifest + [10])
  }

  function Collected(manifest: seq<Byte>, frames: seq<Frame>, n: nat): seq<File>
    requires n <= |frames|
  {
    if n == 0 then Emplace([], ManifestEntry(manifest)).0
    else Emplace(Collected(manifest, frames, n - 1), FrameEntry(frames, n - 1)).0
  }

  /** What `make_entries` returns. */
  function ProductEntries(manifest: seq<Byte>, frames: seq<Frame>): seq<File> {
    Emplace(Collected(manifest, frames, |frames|), Entry(FRAMES_JSONL, MetadataText(frames))).0
  }

  method MakeEntries(manifest: seq<Byte>, frames: seq<Frame>) returns (entries: seq<File>)
    ensures entries == ProductEntries(manifest, frames)
  {
    entries := Emplace([], Entry(MANIFEST, manifest + [10])).0;
    var metadata: seq<Byte> := [];
    var index := 0;
    while index < |frames|
      invariant 0 <= index <= |frames|
      invariant entries == Collected(manifest, frames, index)
      invariant metadata == MetadataText(frames[..index])
    {
      entries := Emplace(entries, Entry(FRAMES + (Digits.Print(10, index, 6) + BIN), frames[index].bytes)).0;
      metadata := metadata + frames[index].metadata + [10];
      assert frames[..index + 1][..index] == frames[..index];
      index := index + 1;
    }
    assert frames[..index] == frames;
    entries := Emplace(entries, Entry(FRAMES_JSONL, metadata)).0;
  }

  method AppendEntries(output: Output, entries: seq<File>) returns (ok: bool)
    requires output.bytes == []
    modifies output
    ensures ok <==> AllWritable(entries)
    ensures ok ==> output.bytes == Members(entries)
  {
    hide EntryBytes, Writable, Members, AllWritable;
    var i := 0;
    NoMembers();
    while i < |entries|
      invariant 0 <= i <= |entries|
      invariant AllWritable(entries[..i]) && output.bytes == Members(entries[..i])
    {
      assert entries[i] == Entry(entries[i].name, entries[i].data);
      ok := output.AppendEntry(entries[i].name, entries[i].data);
      if !ok {
        NotAllWritable(entries, i);
        return;
      }
      MembersSnoc(entries[..i], entries[i]);
      assert entries[..i + 1] == entries[..i] + [entries[i]];
      i := i + 1;
    }
    assert entries[..i] == entries;
    ok := true;
  }

  lemma NoMembers()
    ensures AllWritable([]) && Members([]) == []
  {
  }

  lemma NotAllWritable(es: seq<File>, i: nat)
    requires i < |es| && !Writable(es[i])
    ensures !AllWritable(es)
  {
  }

  method WriteProduct(manifest: seq<Byte>, frames: seq<Frame>) returns (r: Option<seq<Byte>>)
    ensures var es := ProductEntries(manifest, frames);
            r == if AllWritable(es) then Some(Archive(es)) else None
  {
    hide ProductEntries, Members, AllWritable;
    var entries := MakeEntries(manifest, frames);
    var output := new Output();
    var ok := AppendEntries(output, entries);
    if !ok {
      return None;
    }
    output.Write(Zeros(1024));
    r := Some(output.bytes);
  }
}
