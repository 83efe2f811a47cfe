// Clone construction as written (CloneDetector.js:109-114 with Clone.js:3-14).
// `#filterCloneCandidates` calls `new Clone(chunk, matchingChunk, file.name,
// compareFile.name)`, but the constructor's parameters are `(sourceName, targetName,
// sourceChunk, targetChunk)`. The window lands in the name field and the file name in
// the chunk field. A character of a string has no `lineNumber`, so such a clone has no
// start or end line, and `isNext` compares `undefined` with `undefined`, which holds:
// expansion then folds every clone of a file into the first one. The rest of the model
// builds the clones the comments of the source describe (`Clones.NewClone`).
module ClonesAsWritten {
  import opened Text
  import opened SourceLines
  import opened Clones
  import opened Matcher
  import opened Consolidator
  import opened Expander

  // `c.lineNumber` for a character `c` of a string: `undefined`.
  function CharLineNumber(c: char): Option<nat> {
    None
  }

  // The target the constructor records as written: `targetName` is the stored window and
  // `targetChunk[0]` the first character of the stored file's name.
  datatype RawTarget = RawTarget(name: Chunk, startLine: Option<nat>)

  // A `Clone` built with the arguments as written; `None` is `undefined`.
  datatype RawClone = RawClone(
    sourceName: Chunk,
    sourceStart: Option<nat>,
    sourceEnd: Option<nat>,
    sourceChunk: string,
    targets: seq<RawTarget>)
  {
    // `equals` (Clone.js:16-20). `==` on two windows is true exactly when they are the
    // same array of `file.chunks`; windows of one file differ in their line numbers, so
    // comparing them by value gives the same verdict.
    predicate Equals(other: RawClone) {
      sourceName == other.sourceName && sourceStart == other.sourceStart && sourceEnd == other.sourceEnd
    }

    // `isNext` (Clone.js:30-33) on the characters of the file name.
    predicate IsNext(other: RawClone)
      requires sourceChunk != [] && |other.sourceChunk| >= 2
    {
      CharLineNumber(sourceChunk[|sourceChunk| - 1]) == CharLineNumber(other.sourceChunk[|other.sourceChunk| - 2])
    }

    // `maybeExpandWith` on success (Clone.js:37-38): the union of the two names'
    // characters, and the end read off its last character.
    function ExpandedWith(other: RawClone): (r: RawClone)
      requires sourceChunk != []
      ensures r.sourceChunk != []
      ensures r.sourceName == sourceName && r.sourceStart == sourceStart && r.targets == targets
    {
      var chunk := Dedup(sourceChunk + other.sourceChunk);
      DedupHead(sourceChunk + other.sourceChunk);
      this.(sourceChunk := chunk, sourceEnd := CharLineNumber(chunk[|chunk| - 1]))
    }
  }

  // `new Clone(chunk, matchingChunk, file.name, compareFile.name)`. The constructor reads
  // `sourceChunk[0]`, here the first character of the file name, so the name must not be
  // empty; `if (targetChunk)` tests the stored file's name, which is truthy exactly when
  // it is not empty.
  function NewCloneAsWritten(chunk: Chunk, matchingChunk: Chunk, fileName: string, compareName: string): (r: RawClone)
    requires fileName != []
    ensures r.sourceName == chunk && r.sourceChunk == fileName
    ensures r.sourceStart.None? && r.sourceEnd.None?
    ensures r.targets == if compareName != [] then [RawTarget(matchingChunk, None)] else []
  {
    RawClone(chunk, CharLineNumber(fileName[0]), CharLineNumber(fileName[|fileName| - 1]), fileName,
             if compareName != [] then [RawTarget(matchingChunk, CharLineNumber(compareName[0]))] else [])
  }

  // The candidates as written, in the order of `Matcher.ClonesOf`, `Matcher.CandidatesFor`
  // and `Matcher.AllCandidates`.
  function RawClonesOf(fileName: string, chunk: Chunk, compareName: string, compareChunks: seq<Chunk>): seq<RawClone>
    requires fileName != []
  {
    if compareChunks == [] then []
    else
      (if ChunksEqual(chunk, compareChunks[0]) then [NewCloneAsWritten(chunk, compareChunks[0], fileName, compareName)] else [])
      + RawClonesOf(fileName, chunk, compareName, compareChunks[1..])
  }

  function RawCandidatesFor(fileName: string, chunks: seq<Chunk>, compare: StoredFile): seq<RawClone>
    requires fileName != []
  {
    if chunks == [] then []
    else RawClonesOf(fileName, chunks[0], compare.name, compare.chunks) + RawCandidatesFor(fileName, chunks[1..], compare)
  }

  function RawAllCandidates(fileName: string, chunks: seq<Chunk>, files: seq<StoredFile>): seq<RawClone>
    requires fileName != []
  {
    if files == [] then []
    else RawAllCandidates(fileName, chunks, files[..|files| - 1]) + RawCandidatesFor(fileName, chunks, files[|files| - 1])
  }

  // What the candidates as written have in common: the file name as their chunk, and one
  // target each when the stored files have names.
  predicate RawShaped(vs: seq<RawClone>, fileName: string) {
    forall t :: 0 <= t < |vs| ==>
      vs[t].sourceChunk == fileName && vs[t].sourceStart.None? && vs[t].targets != []
  }

  lemma {:induction false} RawClonesOfShape(fileName: string, chunk: Chunk, compareName: string, compareChunks: seq<Chunk>)
    requires fileName != [] && compareName != [] && (chunk != [] || [] !in compareChunks)
    ensures RawShaped(RawClonesOf(fileName, chunk, compareName, compareChunks), fileName)
    ensures |RawClonesOf(fileName, chunk, compareName, compareChunks)| == |ClonesOf(fileName, chunk, compareName, compareChunks)|
  {
    if compareChunks != [] {
      RawClonesOfShape(fileName, chunk, compareName, compareChunks[1..]);
    }
  }

  lemma {:induction false} RawCandidatesForShape(fileName: string, chunks: seq<Chunk>, compare: StoredFile)
    requires fileName != [] && compare.name != [] && Constructible(chunks, compare.chunks)
    ensures RawShaped(RawCandidatesFor(fileName, chunks, compare), fileName)
    ensures |RawCandidatesFor(fileName, chunks, compare)| == |CandidatesFor(fileName, chunks, compare)|
  {
    if chunks != [] {
      RawClonesOfShape(fileName, chunks[0], compare.name, compare.chunks);
      RawCandidatesForShape(fileName, chunks[1..], compare);
    }
  }

  // As written, there is one candidate for each candidate of the intended model, each
  // with the file name as its chunk and one target.
  lemma {:induction false} RawAllCandidatesShape(fileName: string, chunks: seq<Chunk>, files: seq<StoredFile>)
    requires fileName != [] && ConstructibleAll(chunks, files)
    requires forall f :: f in files ==> f.name != []
    ensures RawShaped(RawAllCandidates(fileName, chunks, files), fileName)
    ensures |RawAllCandidates(fileName, chunks, files)| == |AllCandidates(fileName, chunks, files)|
  {
    if files != [] {
      var last := files[|files| - 1];
      assert last in files;
      RawAllCandidatesShape(fileName, chunks, files[..|files| - 1]);
      RawCandidatesForShape(fileName, chunks, last);
    }
  }

  // `acc.find((clone) => clone.equals(current))`.
  function RawFindEqual(acc: seq<RawClone>, c: RawClone): Option<nat> {
    if acc == [] then None
    else if acc[0].Equals(c) then Some(0)
    else match RawFindEqual(acc[1..], c) {
      case None => None
      case Some(i) => Some(i + 1)
    }
  }

  // `#consolidateClones` as written: a clone equal to an earlier one is dropped, since
  // `addTarget` appends nothing for the `{ name, startLine }` it receives.
  function RawConsolidated(vs: seq<RawClone>): seq<RawClone> {
    if vs == [] then []
    else
      var acc := RawConsolidated(vs[..|vs| - 1]);
      if RawFindEqual(acc, vs[|vs| - 1]).Some? then acc else acc + [vs[|vs| - 1]]
  }

  // Consolidation as written keeps the shape of the candidates.
  lemma {:induction false} RawConsolidatedShaped(vs: seq<RawClone>, fileName: string)
    requires RawShaped(vs, fileName)
    ensures RawShaped(RawConsolidated(vs), fileName)
    ensures vs != [] ==> RawConsolidated(vs) != [] && RawConsolidated(vs)[0] == vs[0]
  {
    if vs != [] {
      var init := vs[..|vs| - 1];
      assert RawShaped(init, fileName) by {
        assert forall t :: 0 <= t < |init| ==> init[t] == vs[t];
      }
      RawConsolidatedShaped(init, fileName);
      if init == [] {
        assert RawConsolidated(vs) == [vs[0]];
      }
    }
  }

  predicate RawExpandable(vs: seq<RawClone>) {
    (forall t :: 0 <= t < |vs| ==> vs[t].sourceChunk != [])
    && (forall t :: 1 <= t < |vs| ==> |vs[t].sourceChunk| >= 2)
  }

  // Clones whose chunk is a name of two or more characters can be folded.
  lemma ShapedExpandable(vs: seq<RawClone>, fileName: string)
    requires RawShaped(vs, fileName) && |fileName| >= 2
    ensures RawExpandable(vs)
  {
  }

  // The index of the first `true`, where `some` stops.
  function FirstTrue(bs: seq<bool>): (r: Option<nat>)
    ensures r.Some? ==> r.value < |bs| && bs[r.value] && forall t :: 0 <= t < r.value ==> !bs[t]
    ensures r.None? ==> forall t :: 0 <= t < |bs| ==> !bs[t]
  {
    if bs == [] then None
    else if bs[0] then Some(0)
    else match FirstTrue(bs[1..]) {
      case None => None
      case Some(i) => Some(i + 1)
    }
  }

  // `acc.some((existing) => existing.maybeExpandWith(current))`: the first accumulated
  // clone that `c` is next to.
  function RawFirstNext(acc: seq<RawClone>, c: RawClone): (r: Option<nat>)
    requires (forall t :: 0 <= t < |acc| ==> acc[t].sourceChunk != []) && |c.sourceChunk| >= 2
    ensures r.Some? ==> r.value < |acc| && acc[r.value].IsNext(c)
  {
    FirstTrue(seq(|acc|, t requires 0 <= t < |acc| => acc[t].IsNext(c)))
  }

  // `#expandCloneCandidates` as written.
  function RawExpanded(vs: seq<RawClone>): (r: seq<RawClone>)
    requires RawExpandable(vs)
    ensures forall t :: 0 <= t < |r| ==> r[t].sourceChunk != []
  {
    if vs == [] then []
    else
      var acc := RawExpanded(vs[..|vs| - 1]);
      var c := vs[|vs| - 1];
      if acc == [] then [c]
      else match RawFirstNext(acc, c) {
        case None => acc + [c]
        case Some(i) => acc[i := acc[i].ExpandedWith(c)]
      }
  }

  // As written, expansion folds all clones into the first one: the result is that one
  // clone, with its window and targets, and no end line once something was added.
  lemma {:induction false} RawExpandedCollapses(vs: seq<RawClone>)
    requires RawExpandable(vs) && vs != []
    ensures |RawExpanded(vs)| == 1
    ensures var r := RawExpanded(vs)[0];
      r.sourceName == vs[0].sourceName && r.sourceStart == vs[0].sourceStart && r.targets == vs[0].targets
      && (|vs| > 1 ==> r.sourceEnd.None?)
  {
    var init := vs[..|vs| - 1];
    if init != [] {
      assert RawExpandable(init) by {
        assert forall t :: 0 <= t < |init| ==> init[t] == vs[t];
      }
      RawExpandedCollapses(init);
      assert init[0] == vs[0];
      var acc := RawExpanded(init);
      assert acc[0].IsNext(vs[|vs| - 1]);
    }
  }

  // The steps from the candidates to the reported clones as written, for a file named
  // `fileName` against stored files that all have names.
  function RawReported(fileName: string, chunks: seq<Chunk>, files: seq<StoredFile>): seq<RawClone>
    requires |fileName| >= 2 && ConstructibleAll(chunks, files)
    requires forall f :: f in files ==> f.name != []
  {
    var all := RawAllCandidates(fileName, chunks, files);
    RawAllCandidatesShape(fileName, chunks, files);
    var c := RawConsolidated(all);
    RawConsolidatedShaped(all, fileName);
    ShapedExpandable(c, fileName);
    RawExpanded(c)
  }

  // As written, a file gets at most one clone, and gets one exactly when the intended
  // model finds any candidate; that clone has no start line.
  lemma ReportedAsWrittenAtMostOne(fileName: string, chunks: seq<Chunk>, files: seq<StoredFile>)
    requires |fileName| >= 2 && ConstructibleAll(chunks, files)
    requires forall f :: f in files ==> f.name != []
    ensures var r := RawReported(fileName, chunks, files);
      |r| <= 1 && (|r| == 1 <==> AllCandidates(fileName, chunks, files) != [])
      && forall t :: 0 <= t < |r| ==> r[t].sourceStart.None?
  {
    var all := RawAllCandidates(fileName, chunks, files);
    RawAllCandidatesShape(fileName, chunks, files);
    var c := RawConsolidated(all);
    RawConsolidatedShaped(all, fileName);
    ShapedExpandable(c, fileName);
    var r := RawReported(fileName, chunks, files);
    assert r == RawExpanded(c);
    if all != [] {
      RawExpandedCollapses(c);
      assert r[0].sourceStart == all[0].sourceStart;
    } else {
      assert c == [] && r == [];
    }
  }

  // The windows of the example below.
  function Window1(): Chunk { [Line(1, "a"), Line(2, "b")] }
  function Window2(): Chunk { [Line(7, "a"), Line(8, "b")] }
  function StoredB(): seq<StoredFile> { [StoredFile("B.java", [[Line(3, "a"), Line(4, "b")]])] }

  // The intended candidates for the example: one clone per window, each against `B.java`.
  lemma DistantWindowCandidates()
    ensures AllCandidates("A.java", [Window1(), Window2()], StoredB())
         == [NewClone("A.java", "B.java", Window1(), StoredB()[0].chunks[0]),
             NewClone("A.java", "B.java", Window2(), StoredB()[0].chunks[0])]
  {
    var d := StoredB()[0].chunks[0];
    assert StoredB()[..0] == [];
    assert ChunksEqual(Window1(), d) && ChunksEqual(Window2(), d);
    assert ClonesOf("A.java", Window2(), "B.java", [d]) == [NewClone("A.java", "B.java", Window2(), d)];
    assert CandidatesFor("A.java", [Window2()], StoredB()[0]) == [NewClone("A.java", "B.java", Window2(), d)];
  }

  // Two distant windows of `A.java`, lines 1-2 and 7-8, both equal to one window of
  // `B.java`. The intended steps keep them apart: two clones, at lines 1 and 7.
  lemma DistantWindowsIntended()
    ensures var all := AllCandidates("A.java", [Window1(), Window2()], StoredB());
      HasTargets(all) && Expandable(Consolidated(all))
      && |Expanded(Consolidated(all))| == 2
      && Expanded(Consolidated(all))[0].sourceStart == 1 && Expanded(Consolidated(all))[1].sourceStart == 7
  {
    DistantWindowCandidates();
    var d := StoredB()[0].chunks[0];
    var a := NewClone("A.java", "B.java", Window1(), d);
    var b := NewClone("A.java", "B.java", Window2(), d);
    assert [a, b][..1] == [a] && [a][..0] == [];
    assert FindEqual([a], b).None?;
    assert Consolidated([a, b]) == [a, b];
    assert !a.IsNext(b);
    assert Expanded([a, b]) == [a, b];
  }

  // The same example as written: the two candidates are folded into one clone, which
  // has no start line.
  lemma AsWrittenMergesDistantWindows()
    ensures |AllCandidates("A.java", [Window1(), Window2()], StoredB())| == 2
    ensures |RawReported("A.java", [Window1(), Window2()], StoredB())| == 1
    ensures RawReported("A.java", [Window1(), Window2()], StoredB())[0].sourceStart.None?
  {
    DistantWindowCandidates();
    assert forall f :: f in StoredB() ==> f.name != [];
    ReportedAsWrittenAtMostOne("A.java", [Window1(), Window2()], StoredB());
  }
}
