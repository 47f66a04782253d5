/** The order of the members of a product archive: zero-padded frame names, and the manifest that
    `write_product_from_files` slips in among the sorted members. */
module TarOrder {
  import opened Basics
  import opened Bytes
  import opened SortedEntries
  import Digits
  import opened TarHeader
  import opened TarReader
  import opened TarArchive

  const MILLION: nat := 1000000

  // ------------------------------------------------------------------ frame names

  lemma MillionIsSixDigits()
    ensures Digits.Pow(10, 6) == MILLION
  {
    assert Digits.Pow(10, 3) == 1000;
    assert Digits.Pow(10, 5) == 100000;
  }

  /** Below a million the names are ordered as the indices are. */
  lemma FrameNamesOrdered(i: nat, j: nat)
    requires i < j < MILLION
    ensures Less(FrameName(i), FrameName(j))
  {
    hide Digits.Print, Less, Digits.Pow;
    MillionIsSixDigits();
    Digits.PrintOrdered(10, i, j, 6);
    Digits.PrintFits(10, i, 6);
    Digits.PrintFits(10, j, 6);
    var a, b := Digits.Print(10, i, 6), Digits.Print(10, j, 6);
    LessBefore(a, b, BIN, BIN);
    LessAfter(FRAMES, a + BIN, b + BIN);
  }

  /** Names of different frames differ, however many there are. */
  lemma FrameNamesDistinct(i: nat, j: nat)
    requires FrameName(i) == FrameName(j)
    ensures i == j
  {
    hide Digits.Print, Digits.Value;
    var a, b := Digits.Print(10, i, 6), Digits.Print(10, j, 6);
    assert FrameName(i)[|FRAMES|..] == a + BIN && FrameName(j)[|FRAMES|..] == b + BIN;
    assert |a| == |b|;
    assert (a + BIN)[..|a|] == a && (b + BIN)[..|b|] == b;
    Digits.PrintRoundTrip(10, i, 6);
    Digits.PrintRoundTrip(10, j, 6);
  }

  /** The first index with seven digits comes before the indices from 100001 on. */
  lemma MillionOutOfOrder()
    ensures Less(FrameName(MILLION), FrameName(100001))
  {
    hide Less;
    PrintedMillion();
    Printed100001();
    var a, b: seq<Byte> := [49, 48, 48, 48, 48, 48], [49, 48, 48, 48, 48, 49];
    LessInLastDigit();
    LessBefore(a, b, [48] + BIN, BIN);
    assert Digits.Print(10, MILLION, 6) + BIN == a + ([48] + BIN);
    LessAfter(FRAMES, Digits.Print(10, MILLION, 6) + BIN, Digits.Print(10, 100001, 6) + BIN);
  }

  lemma LessInLastDigit()
    ensures Less([49, 48, 48, 48, 48, 48], [49, 48, 48, 48, 48, 49])
  {
    LessAfter([49, 48, 48, 48, 48], [48], [49]);
    assert [49, 48, 48, 48, 48] + [48] == [49, 48, 48, 48, 48, 48];
    assert [49, 48, 48, 48, 48] + [49] == [49, 48, 48, 48, 48, 49];
  }

  lemma PrintedMillion()
    ensures Digits.Print(10, MILLION, 6) == [49, 48, 48, 48, 48, 48, 48]
  {
    assert Digits.Print(10, 1, 0) == [49];
    assert Digits.Print(10, 10, 1) == [49, 48];
    assert Digits.Print(10, 100, 2) == [49, 48, 48];
    assert Digits.Print(10, 1000, 3) == [49, 48, 48, 48];
    assert Digits.Print(10, 10000, 4) == [49, 48, 48, 48, 48];
    assert Digits.Print(10, 100000, 5) == [49, 48, 48, 48, 48, 48];
  }

  lemma Printed100001()
    ensures Digits.Print(10, 100001, 6) == [49, 48, 48, 48, 48, 49]
  {
    assert Digits.Print(10, 1, 1) == [49];
    assert Digits.Print(10, 10, 2) == [49, 48];
    assert Digits.Print(10, 100, 3) == [49, 48, 48];
    assert Digits.Print(10, 1000, 4) == [49, 48, 48, 48];
    assert Digits.Print(10, 10000, 5) == [49, 48, 48, 48, 48];
  }

  // ------------------------------------------------------------------ the entries of a product

  function FrameEntries(frames: seq<Frame>, n: nat): (r: seq<File>)
    requires n <= |frames|
    ensures |r| == n && forall i :: 0 <= i < n ==> r[i] == FrameEntry(frames, i)
  {
    seq(n, i requires 0 <= i < n => FrameEntry(frames, i))
  }

  /** The members in the order one would expect: frames by index, manifest, metadata. */
  function Expected(manifest: seq<Byte>, frames: seq<Frame>): seq<File> {
    FrameEntries(frames, |frames|) + [ManifestEntry(manifest), Entry(FRAMES_JSONL, MetadataText(frames))]
  }

  lemma OtherNames(i: nat)
    ensures Less(FrameName(i), MANIFEST) && Less(FrameName(i), FRAMES_JSONL) && Less(MANIFEST, FRAMES_JSONL)
  {
    hide Digits.Print;
    assert MANIFEST[0] == FRAMES_JSONL[0] && MANIFEST[1..][0] < FRAMES_JSONL[1..][0];
  }

  lemma FramesGrow(frames: seq<Frame>, n: nat)
    requires n < |frames|
    ensures multiset(FrameEntries(frames, n + 1)) == multiset(FrameEntries(frames, n)) + multiset{FrameEntry(frames, n)}
  {
    hide FrameEntry;
    assert FrameEntries(frames, n + 1) == FrameEntries(frames, n) + [FrameEntry(frames, n)];
  }

  lemma {:induction false} CollectedAre(manifest: seq<Byte>, frames: seq<Frame>, n: nat)
    requires n <= |frames|
    ensures StrictlySorted(Collected(manifest, frames, n))
    ensures multiset(Collected(manifest, frames, n)) == multiset(FrameEntries(frames, n)) + multiset{ManifestEntry(manifest)}
  {
    hide Less, FrameName, Emplace;
    if n == 0 {
      OneEntry(ManifestEntry(manifest));
    } else {
      hide StrictlySorted, Named, FrameEntries;
      CollectedAre(manifest, frames, n - 1);
      var es, e := Collected(manifest, frames, n - 1), FrameEntry(frames, n - 1);
      NewFrame(manifest, frames, n - 1, es);
      EmplaceNew(es, e);
      FramesGrow(frames, n - 1);
    }
  }

  lemma OneEntry(e: File)
    ensures Emplace([], e).0 == [e]
  {
  }

  lemma NewFrame(manifest: seq<Byte>, frames: seq<Frame>, n: nat, es: seq<File>)
    requires n < |frames| && multiset(es) == multiset(FrameEntries(frames, n)) + multiset{ManifestEntry(manifest)}
    ensures !Named(es, FrameName(n))
  {
    hide Less, FrameName;
    forall i | 0 <= i < |es| ensures es[i].name != FrameName(n) {
      assert es[i] in multiset(es);
      if es[i] == ManifestEntry(manifest) {
        OtherNames(n);
        LessIrreflexive(MANIFEST);
      } else {
        assert es[i] in FrameEntries(frames, n);
        var j :| 0 <= j < n && es[i] == FrameEntries(frames, n)[j];
        if FrameName(j) == FrameName(n) {
          FrameNamesDistinct(j, n);
        }
      }
    }
  }

  /** `make_entries` drops nothing: every frame, the manifest and the metadata are there once, in
      strictly increasing name order. */
  lemma ProductEntriesAre(manifest: seq<Byte>, frames: seq<Frame>)
    ensures StrictlySorted(ProductEntries(manifest, frames))
    ensures multiset(ProductEntries(manifest, frames)) == multiset(Expected(manifest, frames))
  {
    hide Less, FrameName, Emplace, Collected;
    var es, e := Collected(manifest, frames, |frames|), Entry(FRAMES_JSONL, MetadataText(frames));
    CollectedAre(manifest, frames, |frames|);
    NewMetadata(manifest, frames, es);
    EmplaceNew(es, e);
    assert Expected(manifest, frames) == FrameEntries(frames, |frames|) + [ManifestEntry(manifest)] + [e];
  }

  lemma NewMetadata(manifest: seq<Byte>, frames: seq<Frame>, es: seq<File>)
    requires multiset(es) == multiset(FrameEntries(frames, |frames|)) + multiset{ManifestEntry(manifest)}
    ensures !Named(es, FRAMES_JSONL)
  {
    hide Less, FrameName;
    LessIrreflexive(FRAMES_JSONL);
    forall i | 0 <= i < |es| ensures es[i].name != FRAMES_JSONL {
      assert es[i] in multiset(es);
      OtherNames(0);
      if es[i] != ManifestEntry(manifest) {
        assert es[i] in FrameEntries(frames, |frames|);
        var j :| 0 <= j < |frames| && es[i] == FrameEntries(frames, |frames|)[j];
        OtherNames(j);
      }
    }
  }

  lemma ExpectedSorted(manifest: seq<Byte>, frames: seq<Frame>)
    ensures StrictlySorted(Expected(manifest, frames)) <==> |frames| <= MILLION
  {
    hide Less, FrameName;
    var x, n := Expected(manifest, frames), |frames|;
    if n <= MILLION {
      forall i, j | 0 <= i < j < |x| ensures Less(x[i].name, x[j].name) {
        if j < n {
          FrameNamesOrdered(i, j);
        } else {
          OtherNames(i);
        }
      }
    } else {
      MillionOutOfOrder();
      assert x[100001].name == FrameName(100001) && x[MILLION].name == FrameName(MILLION);
      if Less(FrameName(100001), FrameName(MILLION)) {
        LessTransitive(FrameName(100001), FrameName(MILLION), FrameName(100001));
        LessIrreflexive(FrameName(100001));
      }
    }
  }

  /** The archive lists the frames by index, then the manifest, then the metadata, exactly when there
      are at most a million frames. */
  lemma InFrameOrder(manifest: seq<Byte>, frames: seq<Frame>)
    ensures ProductEntries(manifest, frames) == Expected(manifest, frames) <==> |frames| <= MILLION
  {
    hide ProductEntries, Expected;
    ProductEntriesAre(manifest, frames);
    ExpectedSorted(manifest, frames);
    if |frames| <= MILLION {
      SortedUnique(ProductEntries(manifest, frames), Expected(manifest, frames));
    }
  }

  lemma FrameNameNulFree(i: nat)
    ensures 0 !in FrameName(i)
  {
    hide Digits.Print, Digits.Value;
    Digits.PrintRoundTrip(10, i, 6);
  }

  lemma NulFreeBag(es: seq<File>, x: seq<File>)
    requires multiset(es) == multiset(x) && NulFree(x)
    ensures NulFree(es)
  {
    forall i | 0 <= i < |es| ensures 0 !in es[i].name {
      assert es[i] in multiset(x);
    }
  }

  lemma ExpectedNulFree(manifest: seq<Byte>, frames: seq<Frame>)
    ensures NulFree(Expected(manifest, frames))
  {
    hide FrameName;
    var x := Expected(manifest, frames);
    forall i | 0 <= i < |x| ensures 0 !in x[i].name {
      if i < |frames| {
        FrameNameNulFree(i);
      }
    }
  }

  /** A product archive reads back as exactly its entries. */
  lemma ProductReadsBack(manifest: seq<Byte>, frames: seq<Frame>)
    requires AllWritable(ProductEntries(manifest, frames))
    ensures ReadArchive(Archive(ProductEntries(manifest, frames))) == Some(ProductEntries(manifest, frames))
  {
    hide ProductEntries, Expected, Writable, NulFree;
    ProductEntriesAre(manifest, frames);
    ExpectedNulFree(manifest, frames);
    NulFreeBag(ProductEntries(manifest, frames), Expected(manifest, frames));
    ArchiveRoundTrip(ProductEntries(manifest, frames));
  }

  // ------------------------------------------------------------------ the manifest among other members

  /** The loop of `write_product_from_files`: before the first member with a greater name, or at the end. */
  function Merge(sorted: seq<File>, m: File): seq<File> {
    if sorted == [] then [m]
    else if Less(m.name, sorted[0].name) then [m] + sorted
    else [sorted[0]] + Merge(sorted[1..], m)
  }

  lemma {:induction false} MergeBag(sorted: seq<File>, m: File)
    ensures multiset(Merge(sorted, m)) == multiset(sorted) + multiset{m}
  {
    hide Less;
    if sorted != [] && !Less(m.name, sorted[0].name) {
      MergeBag(sorted[1..], m);
      assert sorted == [sorted[0]] + sorted[1..];
    }
  }

  lemma {:induction false} MergeIsEmplace(sorted: seq<File>, m: File)
    requires !Named(sorted, m.name)
    ensures Merge(sorted, m) == Emplace(sorted, m).0
  {
    hide Less;
    if sorted != [] && !Less(m.name, sorted[0].name) {
      NamedRest(sorted, m.name);
      MergeIsEmplace(sorted[1..], m);
    }
  }

  lemma RepeatedName(es: seq<File>, e: File, m: File)
    requires e.name == m.name && multiset{e, m} <= multiset(es)
    ensures !StrictlySorted(es)
  {
    hide Less;
    var i, j := TwoPlaces(es, e, m);
    LessIrreflexive(m.name);
    assert i < j ==> !Less(es[i].name, es[j].name);
    assert j < i ==> !Less(es[j].name, es[i].name);
  }

  /** Every member and the manifest are written once each; they come out in strictly increasing name
      order exactly when no member is itself named manifest.json, and then the merge is `emplace`. */
  lemma MergeSortedIff(sorted: seq<File>, m: File)
    requires StrictlySorted(sorted)
    ensures multiset(Merge(sorted, m)) == multiset(sorted) + multiset{m}
    ensures StrictlySorted(Merge(sorted, m)) <==> !Named(sorted, m.name)
    ensures !Named(sorted, m.name) ==> Merge(sorted, m) == Emplace(sorted, m).0
  {
    hide Less, Merge, Emplace;
    MergeBag(sorted, m);
    if Named(sorted, m.name) {
      var i :| 0 <= i < |sorted| && sorted[i].name == m.name;
      assert sorted[i] in multiset(sorted);
      RepeatedName(Merge(sorted, m), sorted[i], m);
    } else {
      MergeIsEmplace(sorted, m);
      EmplaceSorted(sorted, m);
    }
  }

  // ------------------------------------------------------------------ write_product_from_files

  type Path = seq<Byte>

  /** The members sorted by name, unless two have the same name. */
  function SortMembers(members: seq<Entry<Path>>): Option<seq<Entry<Path>>> {
    if members == [] then Some([])
    else
      var before := SortMembers(members[..|members| - 1]);
      if before.None? then None
      else
        var (sorted, inserted) := Emplace(before.value, members[|members| - 1]);
        if inserted then Some(sorted) else None
  }

  ghost predicate DistinctNames(members: seq<Entry<Path>>) {
    forall i, j :: 0 <= i < j < |members| ==> members[i].name != members[j].name
  }

  /** Sorting fails exactly on a duplicate name; otherwise it keeps every member. */
  lemma {:induction false} SortMembersAre(members: seq<Entry<Path>>)
    ensures SortMembers(members).Some? <==> DistinctNames(members)
    ensures SortMembers(members).Some? ==>
              StrictlySorted(SortMembers(members).value) && multiset(SortMembers(members).value) == multiset(members)
  {
    hide Less, Emplace;
    if members != [] {
      var n := |members| - 1;
      SortMembersAre(members[..n]);
      assert members == members[..n] + [members[n]];
      if SortMembers(members[..n]).Some? {
        var before := SortMembers(members[..n]).value;
        EmplaceSorted(before, members[n]);
        EmplaceBag(before, members[n]);
        EmplaceInserts(before, members[n]);
        NamedBag(before, members[..n], members[n].name);
        DistinctLast(members);
      } else {
        DistinctLast(members);
      }
    }
  }

  lemma NamedBag(a: seq<Entry<Path>>, b: seq<Entry<Path>>, name: seq<Byte>)
    requires multiset(a) == multiset(b)
    ensures Named(a, name) <==> Named(b, name)
  {
    if Named(a, name) {
      var i :| 0 <= i < |a| && a[i].name == name;
      assert a[i] in multiset(b);
      var j :| 0 <= j < |b| && b[j] == a[i];
    }
    if Named(b, name) {
      var i :| 0 <= i < |b| && b[i].name == name;
      assert b[i] in multiset(a);
      var j :| 0 <= j < |a| && a[j] == b[i];
    }
  }

  lemma DistinctLast(members: seq<Entry<Path>>)
    requires members != []
    ensures var n := |members| - 1;
            DistinctNames(members) <==> DistinctNames(members[..n]) && !Named(members[..n], members[n].name)
  {
    var n := |members| - 1;
    if DistinctNames(members[..n]) && !Named(members[..n], members[n].name) {
      forall i, j | 0 <= i < j < |members| ensures members[i].name != members[j].name {
        assert members[..n][i] == members[i];
        if j < n {
          assert members[..n][j] == members[j];
        }
      }
    }
  }

  predicate AllPresent(sorted: seq<Entry<Path>>, files: map<Path, seq<Byte>>) {
    forall i :: 0 <= i < |sorted| ==> sorted[i].data in files
  }

  function Contents(sorted: seq<Entry<Path>>, files: map<Path, seq<Byte>>): (r: seq<File>)
    requires AllPresent(sorted, files)
    ensures |r| == |sorted|
    ensures forall i :: 0 <= i < |sorted| ==> r[i] == Entry(sorted[i].name, files[sorted[i].data])
  {
    seq(|sorted|, i requires 0 <= i < |sorted| => Entry(sorted[i].name, files[sorted[i].data]))
  }

  /** The archive, unless a name is repeated, a file cannot be opened, or a header cannot be made. */
  ghost function FilesArchive(manifest: seq<Byte>, members: seq<Entry<Path>>, files: map<Path, seq<Byte>>): Option<seq<Byte>> {
    var sorted := SortMembers(members);
    if sorted.None? || !AllPresent(sorted.value, files) then None
    else
      var es := Merge(Contents(sorted.value, files), ManifestEntry(manifest));
      if AllWritable(es) then Some(Archive(es)) else None
  }

  method SortFiles(members: seq<Entry<Path>>) returns (r: Option<seq<Entry<Path>>>)
    ensures r == SortMembers(members)
  {
    var sorted := [];
    var i := 0;
    while i < |members|
      invariant 0 <= i <= |members| && SortMembers(members[..i]) == Some(sorted)
    {
      assert members[..i + 1][..i] == members[..i];
      var (more, inserted) := Emplace(sorted, members[i]);
      if !inserted {
        FailsOn(members, i + 1);
        return None;
      }
      sorted := more;
      i := i + 1;
    }
    assert members[..i] == members;
    r := Some(sorted);
  }

  lemma {:induction false} FailsOn(members: seq<Entry<Path>>, k: nat)
    requires k <= |members| && SortMembers(members[..k]).None?
    ensures SortMembers(members).None?
    decreases |members|
  {
    if k == |members| {
      assert members[..k] == members;
    } else {
      assert members[..|members| - 1][..k] == members[..k];
      FailsOn(members[..|members| - 1], k);
    }
  }

  /** What is still to be written after the first `i` members. */
  function Rest(es: seq<File>, i: nat, written: bool, m: File): seq<File>
    requires i <= |es|
  {
    if written then es[i..] else Merge(es[i..], m)
  }

  /** The next thing to be written: the manifest, if its place is here, or the next member. */
  lemma RestStep(es: seq<File>, i: nat, written: bool, m: File)
    requires i < |es|
    ensures !written && Less(m.name, es[i].name) ==> Rest(es, i, written, m) == [m] + Rest(es, i, true, m)
    ensures written || !Less(m.name, es[i].name) ==> Rest(es, i, written, m) == [es[i]] + Rest(es, i + 1, written, m)
  {
    hide Less;
    assert es[i..][0] == es[i] && es[i..][1..] == es[i + 1..];
  }

  /** `done` has been written, and with the rest it makes the whole product. */
  ghost predicate Going(sorted: seq<Entry<Path>>, files: map<Path, seq<Byte>>, m: File, i: nat, written: bool, done: seq<File>) {
    && i <= |sorted| && AllWritable(done)
    && (AllPresent(sorted, files) ==> done + Rest(Contents(sorted, files), i, written, m) == Merge(Contents(sorted, files), m))
  }

  ghost predicate CannotFinish(sorted: seq<Entry<Path>>, files: map<Path, seq<Byte>>, m: File) {
    AllPresent(sorted, files) ==> !AllWritable(Merge(Contents(sorted, files), m))
  }

  lemma GoOn(done: seq<File>, e: File, rest: seq<File>, all: seq<File>)
    requires AllWritable(done) && done + ([e] + rest) == all
    ensures (done + [e]) + rest == all
    ensures if Writable(e) then AllWritable(done + [e]) else !AllWritable(all)
  {
    assert all[|done|] == e;
  }

  lemma GoStart(sorted: seq<Entry<Path>>, files: map<Path, seq<Byte>>, m: File)
    ensures Going(sorted, files, m, 0, false, [])
  {
    if AllPresent(sorted, files) {
      assert Contents(sorted, files)[0..] == Contents(sorted, files);
    }
  }

  lemma GoManifest(sorted: seq<Entry<Path>>, files: map<Path, seq<Byte>>, m: File, i: nat, done: seq<File>)
    requires Going(sorted, files, m, i, false, done) && i < |sorted| && Less(m.name, sorted[i].name)
    ensures if Writable(m) then Going(sorted, files, m, i, true, done + [m]) else CannotFinish(sorted, files, m)
  {
    hide Less, Merge, Writable, Rest;
    if AllPresent(sorted, files) {
      var es := Contents(sorted, files);
      RestStep(es, i, false, m);
      GoOn(done, m, Rest(es, i, true, m), Merge(es, m));
    }
  }

  lemma GoMember(sorted: seq<Entry<Path>>, files: map<Path, seq<Byte>>, m: File, i: nat, written: bool, done: seq<File>)
    requires Going(sorted, files, m, i, written, done) && i < |sorted| && (written || !Less(m.name, sorted[i].name))
    requires sorted[i].data in files
    ensures var e := Entry(sorted[i].name, files[sorted[i].data]);
            if Writable(e) then Going(sorted, files, m, i + 1, written, done + [e]) else CannotFinish(sorted, files, m)
  {
    hide Less, Merge, Writable, Rest;
    if AllPresent(sorted, files) {
      var es := Contents(sorted, files);
      RestStep(es, i, written, m);
      GoOn(done, es[i], Rest(es, i + 1, written, m), Merge(es, m));
    }
  }

  lemma GoEnd(sorted: seq<Entry<Path>>, files: map<Path, seq<Byte>>, m: File, written: bool, done: seq<File>)
    requires Going(sorted, files, m, |sorted|, written, done) && AllPresent(sorted, files)
    ensures written ==> done == Merge(Contents(sorted, files), m)
    ensures !written ==> done + [m] == Merge(Contents(sorted, files), m)
    ensures !written && !Writable(m) ==> CannotFinish(sorted, files, m)
  {
    hide Less, Writable;
    assert Contents(sorted, files)[|sorted|..] == [];
    if written {
      assert done + [] == done;
    } else {
      assert (done + [m])[|done|] == m;
    }
  }

  method WriteMembers(output: Output, sorted: seq<Entry<Path>>, m: File, files: map<Path, seq<Byte>>) returns (ok: bool)
    requires output.bytes == []
    modifies output
    ensures ok <==> AllPresent(sorted, files) && AllWritable(Merge(Contents(sorted, files), m))
    ensures ok ==> output.bytes == Members(Merge(Contents(sorted, files), m))
  {
    hide Less, Merge, Writable, EntryBytes, Rest, Members, Contents, Going, AllWritable, AllPresent;
    var written := false;
    ghost var done: seq<File> := [];
    var i := 0;
    GoStart(sorted, files, m);
    NoMembers();
    Present(sorted, files, 0);
    while i < |sorted|
      invariant 0 <= i <= |sorted| && AllPresent(sorted[..i], files)
      invariant Going(sorted, files, m, i, written, done)
      invariant AllWritable(done) && output.bytes == Members(done)
    {
      if !written && Less(m.name, sorted[i].name) {
        GoManifest(sorted, files, m, i, done);
        ok := output.AppendEntry(m.name, m.data);
        if !ok {
          return;
        }
        MembersSnoc(done, m);
        written, done := true, done + [m];
      }
      Present(sorted, files, i);
      if sorted[i].data !in files {
        return false;
      }
      GoMember(sorted, files, m, i, written, done);
      ok := output.AppendEntry(sorted[i].name, files[sorted[i].data]);
      if !ok {
        return;
      }
      MembersSnoc(done, Entry(sorted[i].name, files[sorted[i].data]));
      i, done := i + 1, done + [Entry(sorted[i].name, files[sorted[i].data])];
    }
    assert sorted[..i] == sorted;
    GoEnd(sorted, files, m, written, done);
    ok := true;
    if !written {
      ok := output.AppendEntry(m.name, m.data);
      if ok {
        MembersSnoc(done, m);
      }
    }
  }

  lemma Present(sorted: seq<Entry<Path>>, files: map<Path, seq<Byte>>, i: nat)
    requires i <= |sorted|
    ensures AllPresent(sorted[..0], files)
    ensures i < |sorted| && AllPresent(sorted[..i], files) && sorted[i].data in files ==> AllPresent(sorted[..i + 1], files)
    ensures i < |sorted| && sorted[i].data !in files ==> !AllPresent(sorted, files)
  {
  }

  method WriteProductFromFiles(manifest: seq<Byte>, members: seq<Entry<Path>>, files: map<Path, seq<Byte>>)
    returns (r: Option<seq<Byte>>)
    ensures r == FilesArchive(manifest, members, files)
  {
    hide Merge, Members, SortMembers, AllWritable, AllPresent;
    var sorted := SortFiles(members);
    if sorted.None? {
      return None;
    }
    var output := new Output();
    var ok := WriteMembers(output, sorted.value, ManifestEntry(manifest), files);
    if !ok {
      return None;
    }
    output.Write(Zeros(1024));
    r := Some(output.bytes);
  }

  /** So an archive of distinct members, none of them named manifest.json, whose names hold no NUL,
      reads back as the members and the manifest in strictly increasing name order. */
  lemma FilesReadBack(manifest: seq<Byte>, members: seq<Entry<Path>>, files: map<Path, seq<Byte>>)
    requires FilesArchive(manifest, members, files).Some?
    requires forall i :: 0 <= i < |members| ==> 0 !in members[i].name && members[i].name != MANIFEST
    ensures exists es: seq<File> ::
              ReadArchive(FilesArchive(manifest, members, files).value) == Some(es) && IsProduct(es, manifest, members, files)
  {
    hide Less, Merge, Writable, ReadArchive, Archive;
    SortMembersAre(members);
    var sorted, m := SortMembers(members).value, ManifestEntry(manifest);
    var es := Merge(Contents(sorted, files), m);
    forall i | 0 <= i < |sorted| ensures 0 !in sorted[i].name && sorted[i].name != MANIFEST {
      assert sorted[i] in multiset(members);
    }
    MergeSortedIff(Contents(sorted, files), m);
    MergedNulFree(Contents(sorted, files), m);
    ArchiveRoundTrip(es);
    assert IsProduct(es, manifest, members, files);
  }

  lemma MergedNulFree(es: seq<File>, m: File)
    requires NulFree(es) && m.name == MANIFEST
    ensures NulFree(Merge(es, m))
  {
    MergeBag(es, m);
    forall i | 0 <= i < |Merge(es, m)| ensures 0 !in Merge(es, m)[i].name {
      assert Merge(es, m)[i] in multiset(es) + multiset{m};
    }
  }

  /** In name order: every member with the contents of its file, and the manifest. */
  ghost predicate IsProduct(es: seq<File>, manifest: seq<Byte>, members: seq<Entry<Path>>, files: map<Path, seq<Byte>>) {
    && StrictlySorted(es)
    && SortMembers(members).Some? && AllPresent(SortMembers(members).value, files)
    && multiset(es) == multiset(Contents(SortMembers(members).value, files)) + multiset{ManifestEntry(manifest)}
  }
}
