// `#chunkMatch` and the candidates `#filterCloneCandidates` produces
// (CloneDetector.js:69-82, 95-128): every pair of a chunk of the file being processed
// and an equal chunk of a stored file gives one clone, ordered by source chunk and
// then by stored chunk.
module Matcher {
  import opened Text
  import opened SourceLines
  import opened Clones

  // A file already in the store: its name and its chunks.
  datatype StoredFile = StoredFile(name: string, chunks: seq<Chunk>)

  // `#chunkMatch`'s verdict: the same length and equal contents position by position.
  predicate ChunksEqual(a: Chunk, b: Chunk) {
    |a| == |b| && forall i :: 0 <= i < |a| ==> SameContent(a[i], b[i])
  }

  lemma ChunksEqualIsEquivalence(a: Chunk, b: Chunk, c: Chunk)
    ensures ChunksEqual(a, a)
    ensures ChunksEqual(a, b) ==> ChunksEqual(b, a)
    ensures ChunksEqual(a, b) && ChunksEqual(b, c) ==> ChunksEqual(a, c)
  {
  }

  // `#chunkMatch` (CloneDetector.js:69-82): a flag cleared on a length mismatch and on
  // every position whose lines differ.
  method ChunkMatch(first: Chunk, second: Chunk) returns (matched: bool)
    ensures matched <==> ChunksEqual(first, second)
  {
    matched := true;
    if |first| != |second| {
      matched := false;
    }
    var idx := 0;
    while idx < |first|
      invariant idx <= |first|
      invariant matched <==> |first| == |second| && forall t :: 0 <= t < idx ==> SameContent(first[t], second[t])
    {
      if idx >= |second| || !SameContent(first[idx], second[idx]) {
        matched := false;
      }
      idx := idx + 1;
    }
  }

  // The constructor needs non-empty chunks; an empty chunk can only equal an empty one.
  predicate Constructible(chunks: seq<Chunk>, compareChunks: seq<Chunk>) {
    [] in chunks ==> [] !in compareChunks
  }

  // The clones for one source chunk: one per equal chunk of `compareChunks`, in order.
  function ClonesOf(sourceName: string, chunk: Chunk, targetName: string, compareChunks: seq<Chunk>): seq<CloneRecord>
    requires chunk != [] || [] !in compareChunks
  {
    if compareChunks == [] then []
    else
      (if ChunksEqual(chunk, compareChunks[0]) then [NewClone(sourceName, targetName, chunk, compareChunks[0])] else [])
      + ClonesOf(sourceName, chunk, targetName, compareChunks[1..])
  }

  // What `#filterCloneCandidates(file, compareFile)` appends to `file.instances`.
  function CandidatesFor(sourceName: string, chunks: seq<Chunk>, compare: StoredFile): seq<CloneRecord>
    requires Constructible(chunks, compare.chunks)
  {
    if chunks == [] then []
    else ClonesOf(sourceName, chunks[0], compare.name, compare.chunks) + CandidatesFor(sourceName, chunks[1..], compare)
  }

  predicate ConstructibleAll(chunks: seq<Chunk>, files: seq<StoredFile>) {
    forall f :: f in files ==> Constructible(chunks, f.chunks)
  }

  // The candidates `matchDetect` collects, stored file by stored file.
  function AllCandidates(sourceName: string, chunks: seq<Chunk>, files: seq<StoredFile>): seq<CloneRecord>
    requires ConstructibleAll(chunks, files)
  {
    if files == [] then []
    else AllCandidates(sourceName, chunks, files[..|files| - 1]) + CandidatesFor(sourceName, chunks, files[|files| - 1])
  }

  // Every clone for a chunk pairs it with an equal stored chunk, under the stored file's
  // name and that chunk's first line; and every equal stored chunk gives one.
  lemma {:induction false} ClonesOfExact(sourceName: string, chunk: Chunk, targetName: string, compareChunks: seq<Chunk>)
    requires chunk != [] || [] !in compareChunks
    ensures forall c :: c in ClonesOf(sourceName, chunk, targetName, compareChunks) <==>
      exists j :: 0 <= j < |compareChunks| && ChunksEqual(chunk, compareChunks[j])
                  && c == NewClone(sourceName, targetName, chunk, compareChunks[j])
  {
    if compareChunks != [] {
      var rest := compareChunks[1..];
      ClonesOfExact(sourceName, chunk, targetName, rest);
      forall c ensures c in ClonesOf(sourceName, chunk, targetName, compareChunks) <==>
        exists j :: 0 <= j < |compareChunks| && ChunksEqual(chunk, compareChunks[j])
                    && c == NewClone(sourceName, targetName, chunk, compareChunks[j])
      {
        if c in ClonesOf(sourceName, chunk, targetName, rest) {
          var j :| 0 <= j < |rest| && ChunksEqual(chunk, rest[j]) && c == NewClone(sourceName, targetName, chunk, rest[j]);
          assert rest[j] == compareChunks[j + 1];
        }
        if exists j :: 0 <= j < |compareChunks| && ChunksEqual(chunk, compareChunks[j])
                       && c == NewClone(sourceName, targetName, chunk, compareChunks[j]) {
          var j :| 0 <= j < |compareChunks| && ChunksEqual(chunk, compareChunks[j])
                   && c == NewClone(sourceName, targetName, chunk, compareChunks[j]);
          if j > 0 {
            assert compareChunks[j] == rest[j - 1];
          }
        }
      }
    }
  }

  // Soundness and completeness of `#filterCloneCandidates`: the clones are exactly those
  // of the pairs of a source chunk and an equal stored chunk.
  lemma {:induction false} CandidatesForExact(sourceName: string, chunks: seq<Chunk>, compare: StoredFile)
    requires Constructible(chunks, compare.chunks)
    ensures forall c :: c in CandidatesFor(sourceName, chunks, compare) <==>
      exists i, j :: 0 <= i < |chunks| && 0 <= j < |compare.chunks| && ChunksEqual(chunks[i], compare.chunks[j])
                     && c == NewClone(sourceName, compare.name, chunks[i], compare.chunks[j])
  {
    if chunks != [] {
      var rest := chunks[1..];
      ClonesOfExact(sourceName, chunks[0], compare.name, compare.chunks);
      CandidatesForExact(sourceName, rest, compare);
      forall c | c in CandidatesFor(sourceName, rest, compare)
        ensures exists i, j :: 0 <= i < |chunks| && 0 <= j < |compare.chunks| && ChunksEqual(chunks[i], compare.chunks[j])
                               && c == NewClone(sourceName, compare.name, chunks[i], compare.chunks[j])
      {
        var i, j :| 0 <= i < |rest| && 0 <= j < |compare.chunks| && ChunksEqual(rest[i], compare.chunks[j])
                    && c == NewClone(sourceName, compare.name, rest[i], compare.chunks[j]);
        assert rest[i] == chunks[i + 1];
      }
      forall c | exists i, j :: 0 <= i < |chunks| && 0 <= j < |compare.chunks| && ChunksEqual(chunks[i], compare.chunks[j])
                                && c == NewClone(sourceName, compare.name, chunks[i], compare.chunks[j])
        ensures c in CandidatesFor(sourceName, chunks, compare)
      {
        var i, j :| 0 <= i < |chunks| && 0 <= j < |compare.chunks| && ChunksEqual(chunks[i], compare.chunks[j])
                    && c == NewClone(sourceName, compare.name, chunks[i], compare.chunks[j]);
        if i > 0 {
          assert chunks[i] == rest[i - 1];
        }
      }
    }
  }

  // The order of the candidates: those of earlier source chunks come first.
  lemma {:induction false} CandidatesForAppend(sourceName: string, a: seq<Chunk>, b: seq<Chunk>, compare: StoredFile)
    requires Constructible(a + b, compare.chunks)
    ensures Constructible(a, compare.chunks) && Constructible(b, compare.chunks)
    ensures CandidatesFor(sourceName, a + b, compare)
         == CandidatesFor(sourceName, a, compare) + CandidatesFor(sourceName, b, compare)
  {
    if a != [] {
      assert (a + b)[1..] == a[1..] + b;
      CandidatesForAppend(sourceName, a[1..], b, compare);
    } else {
      assert a + b == b;
    }
  }

  // Within one source chunk, the clones follow the order of the stored chunks.
  lemma {:induction false} ClonesOfAppend(sourceName: string, chunk: Chunk, targetName: string, a: seq<Chunk>, b: seq<Chunk>)
    requires chunk != [] || [] !in a + b
    ensures ClonesOf(sourceName, chunk, targetName, a + b)
         == ClonesOf(sourceName, chunk, targetName, a) + ClonesOf(sourceName, chunk, targetName, b)
  {
    if a != [] {
      assert (a + b)[1..] == a[1..] + b;
      ClonesOfAppend(sourceName, chunk, targetName, a[1..], b);
    } else {
      assert a + b == b;
    }
  }

  // A chunk that occurs among the stored chunks gives at least one clone.
  lemma {:induction false} ClonesOfPresent(sourceName: string, chunk: Chunk, targetName: string, compareChunks: seq<Chunk>)
    requires chunk != [] && chunk in compareChunks
    ensures |ClonesOf(sourceName, chunk, targetName, compareChunks)| >= 1
  {
    if compareChunks[0] != chunk {
      ClonesOfPresent(sourceName, chunk, targetName, compareChunks[1..]);
    }
  }

  // Comparing chunks with a file holding all of them (the same file, say) yields at least
  // one candidate per chunk, since `#chunkMatch` is reflexive.
  lemma {:induction false} SelfMatchCount(sourceName: string, chunks: seq<Chunk>, compare: StoredFile)
    requires [] !in chunks
    requires forall c :: c in chunks ==> c in compare.chunks
    ensures |CandidatesFor(sourceName, chunks, compare)| >= |chunks|
  {
    if chunks != [] {
      ClonesOfPresent(sourceName, chunks[0], compare.name, compare.chunks);
      SelfMatchCount(sourceName, chunks[1..], compare);
    }
  }

  // Matching no chunks against any stored files gives no candidate, and is always
  // possible.
  lemma {:induction false} AllCandidatesOfNoChunks(sourceName: string, files: seq<StoredFile>)
    ensures ConstructibleAll([], files) && AllCandidates(sourceName, [], files) == []
  {
    if files != [] {
      AllCandidatesOfNoChunks(sourceName, files[..|files| - 1]);
    }
  }

  // Every candidate is a valid record of the source file.
  lemma {:induction false} CandidatesValid(sourceName: string, chunks: seq<Chunk>, files: seq<StoredFile>)
    requires ConstructibleAll(chunks, files)
    ensures forall c :: c in AllCandidates(sourceName, chunks, files) ==>
      c.Valid() && c.sourceName == sourceName && c.sourceChunk in chunks
  {
    if files != [] {
      var init := files[..|files| - 1];
      CandidatesValid(sourceName, chunks, init);
      CandidatesForExact(sourceName, chunks, files[|files| - 1]);
    }
  }

  // The loop of `#filterCloneCandidates` one source chunk further: the clones of the
  // next chunk follow those of the chunks before it.
  lemma CandidatesForSnoc(sourceName: string, chunks: seq<Chunk>, i: nat, compare: StoredFile)
    requires i < |chunks| && Constructible(chunks, compare.chunks)
    ensures Constructible(chunks[..i], compare.chunks) && Constructible(chunks[..i + 1], compare.chunks)
    ensures CandidatesFor(sourceName, chunks[..i + 1], compare)
         == CandidatesFor(sourceName, chunks[..i], compare) + ClonesOf(sourceName, chunks[i], compare.name, compare.chunks)
  {
    assert chunks[..i + 1] == chunks[..i] + [chunks[i]];
    CandidatesForAppend(sourceName, chunks[..i], [chunks[i]], compare);
    assert [chunks[i]][1..] == [];
  }

  // The loop over the stored chunks one chunk further: a clone is added exactly when the
  // next stored chunk equals the source chunk.
  lemma ClonesOfSnoc(sourceName: string, chunk: Chunk, targetName: string, compareChunks: seq<Chunk>, j: nat)
    requires j < |compareChunks| && (chunk != [] || [] !in compareChunks)
    ensures ClonesOf(sourceName, chunk, targetName, compareChunks[..j + 1])
         == ClonesOf(sourceName, chunk, targetName, compareChunks[..j])
            + (if ChunksEqual(chunk, compareChunks[j]) then [NewClone(sourceName, targetName, chunk, compareChunks[j])] else [])
  {
    assert compareChunks[..j + 1] == compareChunks[..j] + [compareChunks[j]];
    ClonesOfAppend(sourceName, chunk, targetName, compareChunks[..j], [compareChunks[j]]);
    assert [compareChunks[j]][1..] == [];
  }

  // The loop of `matchDetect` one stored file further: the candidates against the next
  // stored file follow those against the files before it.
  lemma AllCandidatesSnoc(sourceName: string, chunks: seq<Chunk>, files: seq<StoredFile>, i: nat)
    requires i < |files| && ConstructibleAll(chunks, files)
    ensures ConstructibleAll(chunks, files[..i]) && ConstructibleAll(chunks, files[..i + 1])
    ensures Constructible(chunks, files[i].chunks)
    ensures AllCandidates(sourceName, chunks, files[..i + 1])
            == AllCandidates(sourceName, chunks, files[..i]) + CandidatesFor(sourceName, chunks, files[i])
  {
    assert files[i] in files;
    assert files[..i + 1][..i] == files[..i];
  }
}


