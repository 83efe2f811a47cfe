// The detector's processing steps (CloneDetector.js:191-257) over the file object they
// pass along, and the two stores they use. The module `Pipeline` below chains them as
// index.js:275-309 does: preprocess, transform, matchDetect (candidates against every
// stored file, then consolidation), expandClones, storeClones and storeFile.
module Detector {
  import opened Text
  import opened SourceLines
  import opened Preprocessor
  import opened Chunker
  import opened Clones
  import opened Matcher
  import opened Consolidator
  import opened Expander

  // `DEFAULT_CHUNKSIZE` (CloneDetector.js:11).
  const DefaultChunkSize: nat := 5

  // Why `preprocess` turns a file away.
  datatype Rejection = NotJava(name: string) | AlreadyProcessed(name: string)
  {
    // The text the promise is rejected with; it starts with the file's name.
    function Message(): (m: string)
      ensures |name| < |m| && m[..|name|] == name
    {
      match this
      case NotJava(n) => n + " is not a java file. Discarding."
      case AlreadyProcessed(n) => n + " has already been processed."
    }
  }

  // The verdict of `preprocess` (CloneDetector.js:195-201) on a file named `name` once
  // the files named in `processed` have been stored: a name without the `.java`
  // extension is rejected first, then a name already processed; any other file passes.
  function Admission(name: string, processed: set<string>): (r: Option<Rejection>)
    ensures r.None? <==> EndsWith(name, ".java") && name !in processed
    ensures r == Some(NotJava(name)) <==> !EndsWith(name, ".java")
    ensures r == Some(AlreadyProcessed(name)) <==> EndsWith(name, ".java") && name in processed
  {
    if !EndsWith(name, ".java") then Some(NotJava(name))
    else if name in processed then Some(AlreadyProcessed(name))
    else None
  }

  // Once a file has been stored, a second file of the same name is turned away.
  lemma ResubmissionRejected(name: string, processed: set<string>)
    requires Admission(name, processed).None?
    ensures Admission(name, processed + {name}) == Some(AlreadyProcessed(name))
  {
  }

  // The names of the stored files.
  function NameSet(files: seq<StoredFile>): (r: set<string>)
    ensures forall i :: 0 <= i < |files| ==> files[i].name in r
  {
    if files == [] then {} else NameSet(files[..|files| - 1]) + {files[|files| - 1].name}
  }

  predicate UniqueNames(files: seq<StoredFile>) {
    forall i, j :: 0 <= i < j < |files| ==> files[i].name != files[j].name
  }

  // A name is among the stored names exactly when some stored file carries it.
  lemma {:induction false} NameSetExact(files: seq<StoredFile>, n: string)
    ensures n in NameSet(files) <==> exists i :: 0 <= i < |files| && files[i].name == n
  {
    if files != [] {
      var init := files[..|files| - 1];
      NameSetExact(init, n);
      if n in NameSet(init) {
        var i :| 0 <= i < |init| && init[i].name == n;
        assert files[i].name == n;
      }
    }
  }

  // With unique names there are as many names as stored files.
  lemma {:induction false} NameSetSize(files: seq<StoredFile>)
    requires UniqueNames(files)
    ensures |NameSet(files)| == |files|
  {
    if files != [] {
      var init := files[..|files| - 1];
      var last := files[|files| - 1];
      NameSetSize(init);
      NameSetExact(init, last.name);
      assert last.name !in NameSet(init);
    }
  }

  // Every candidate has a target, so the clones already found followed by the candidates
  // can be consolidated.
  lemma CandidatesHaveTargets(r0: seq<CloneRecord>, name: string, chunks: seq<Chunk>, files: seq<StoredFile>)
    requires ConstructibleAll(chunks, files) && HasTargets(r0)
    ensures HasTargets(r0 + AllCandidates(name, chunks, files))
  {
    var all := AllCandidates(name, chunks, files);
    CandidatesValid(name, chunks, files);
    forall t | 0 <= t < |r0 + all| ensures (r0 + all)[t].targets != [] {
      if t >= |r0| {
        assert (r0 + all)[t] == all[t - |r0|] && all[t - |r0|] in all;
      }
    }
  }

  // With unique names the stored files are counted by their names.
  lemma StoredCount(files: seq<StoredFile>)
    ensures UniqueNames(files) ==> |files| == |NameSet(files)|
  {
    if UniqueNames(files) {
      NameSetSize(files);
    }
  }

  // The file store, a single instance shared by every detector. FileStorage.js is not
  // part of this model: the store is the set of processed names and the stored files,
  // each with its name and chunks, in the order they were stored.
  class FileStore {
    var names: set<string>
    var files: seq<StoredFile>

    // The names are those of the stored files, and no two stored files share one.
    ghost predicate Valid()
      reads this
    {
      names == NameSet(files) && UniqueNames(files)
    }

    constructor ()
      ensures names == {} && files == [] && Valid()
    {
      names := {};
      files := [];
    }

    // `isFileProcessed`.
    predicate IsFileProcessed(name: string)
      reads this
    {
      name in names
    }

    // `storeFile`: the file is stored after the others and its name recorded; storing a
    // file under a new name keeps the store valid.
    method StoreFile(f: StoredFile)
      modifies this
      ensures names == old(names) + {f.name} && files == old(files) + [f]
      ensures old(Valid()) && f.name !in old(names) ==> Valid()
    {
      if Valid() && f.name !in names {
        forall i | 0 <= i < |files| ensures files[i].name != f.name {
        }
        assert (files + [f])[..|files|] == files;
      }
      names := names + {f.name};
      files := files + [f];
    }
  }

  // The clone store, a single instance as well. CloneStorage.js is not part of this
  // model: the store is the sequence of the clones reported, file after file.
  class CloneStore {
    var clones: seq<CloneRecord>

    constructor ()
      ensures clones == []
    {
      clones := [];
    }

    // `storeClones`: the file's clones are added after those stored before.
    method StoreClones(file: SourceFile)
      modifies this
      ensures clones == old(clones) + Records(file.instances)
    {
      clones := clones + Records(file.instances);
    }
  }

  // The file object `{ name, contents }` the pipeline hands from step to step; the steps
  // add `lines`, `chunks` and `instances` to it. An absent `instances` reads as the empty
  // list (`file.instances || []`), so it starts out empty here.
  class SourceFile {
    const name: string
    const contents: string
    var lines: seq<Line>
    var chunks: seq<Chunk>
    var instances: seq<Clone>

    constructor (name: string, contents: string)
      ensures this.name == name && this.contents == contents
      ensures lines == [] && chunks == [] && instances == []
    {
      this.name := name;
      this.contents := contents;
      lines := [];
      chunks := [];
      instances := [];
    }

    // `file.instances = cs`: the clones are not touched.
    method SetInstances(cs: seq<Clone>)
      modifies this
      ensures instances == cs && lines == old(lines) && chunks == old(chunks)
      ensures Records(cs) == old(Records(cs))
    {
      label before:
      instances := cs;
      RecordsUnchanged@before(cs);
    }
  }

  // `CloneDetector`: the chunk size and the shared file store. The chunk size is the
  // default; `CHUNKSIZE` from the environment is not modelled.
  class CloneDetector {
    const chunkSize: nat
    const store: FileStore

    constructor (store: FileStore)
      ensures this.store == store && chunkSize == DefaultChunkSize
    {
      this.store := store;
      chunkSize := DefaultChunkSize;
    }

    // `preprocess` (CloneDetector.js:193-203): the file passes, unchanged, or is
    // rejected with the reason.
    method Preprocess(file: SourceFile) returns (rejected: Option<Rejection>)
      ensures rejected == Admission(file.name, store.names)
    {
      if !EndsWith(file.name, ".java") {
        rejected := Some(NotJava(file.name));
      } else if store.IsFileProcessed(file.name) {
        rejected := Some(AlreadyProcessed(file.name));
      } else {
        rejected := None;
      }
    }

    // `transform` (CloneDetector.js:205-209): the lines of `#filterLines`, then the
    // chunks of `#chunkify`.
    method Transform(file: SourceFile)
      modifies file
      ensures file.lines == Preprocessed(file.contents)
      ensures file.chunks == Chunks(file.lines, chunkSize)
      ensures file.instances == old(file.instances)
    {
      var lines := FilterLines(file.contents);
      file.lines := lines;
      var chunks := Chunkify(lines, chunkSize);
      file.chunks := chunks;
    }

    // The clones `#filterCloneCandidates` makes for one chunk of the file
    // (CloneDetector.js:97-120): a new clone for every equal chunk of `compare`, in order.
    method MatchingClones(name: string, chunk: Chunk, compare: StoredFile) returns (clones: seq<Clone>)
      requires chunk != [] || [] !in compare.chunks
      ensures Records(clones) == ClonesOf(name, chunk, compare.name, compare.chunks)
      ensures forall t :: 0 <= t < |clones| ==> fresh(clones[t])
      ensures Distinct(clones)
    {
      clones := [];
      var j := 0;
      while j < |compare.chunks|
        invariant 0 <= j <= |compare.chunks|
        invariant Records(clones) == ClonesOf(name, chunk, compare.name, compare.chunks[..j])
        invariant forall t :: 0 <= t < |clones| ==> fresh(clones[t])
        invariant Distinct(clones)
      {
        clones := MatchAt(name, chunk, compare, j, clones);
        j := j + 1;
      }
      assert compare.chunks[..|compare.chunks|] == compare.chunks;
    }

    // One iteration of the inner loop: a new clone is pushed when `chunk` matches the
    // `j`-th chunk of `compare`. The call at CloneDetector.js:109-114 passes its
    // arguments as (chunk, matching chunk, file name, stored file name), which does not
    // fit the constructor's (sourceName, targetName, sourceChunk, targetChunk); the clone
    // built here is the intended one: this file's chunk under this file's name, with the
    // stored file's name and the first line of its equal chunk as the target.
    method MatchAt(name: string, chunk: Chunk, compare: StoredFile, j: nat, clones: seq<Clone>)
      returns (next: seq<Clone>)
      requires chunk != [] || [] !in compare.chunks
      requires j < |compare.chunks|
      requires Records(clones) == ClonesOf(name, chunk, compare.name, compare.chunks[..j])
      requires Distinct(clones)
      ensures Records(next) == ClonesOf(name, chunk, compare.name, compare.chunks[..j + 1])
      ensures Distinct(next)
      ensures |next| == |clones| || |next| == |clones| + 1
      ensures forall t :: 0 <= t < |clones| ==> next[t] == clones[t]
      ensures |next| == |clones| + 1 ==> fresh(next[|clones|])
    {
      ClonesOfSnoc(name, chunk, compare.name, compare.chunks, j);
      var matched := ChunkMatch(chunk, compare.chunks[j]);
      next := clones;
      if matched {
        var c := new Clone(name, compare.name, chunk, compare.chunks[j]);
        RecordsAppend(clones, [c]);
        DistinctAppend(clones, [c]);
        next := clones + [c];
      }
    }

    // The `flatMap` of `#filterCloneCandidates` (CloneDetector.js:96-121): the clones
    // of every chunk of the file, chunk after chunk.
    method CandidateClones(name: string, chunks: seq<Chunk>, compare: StoredFile) returns (clones: seq<Clone>)
      requires Constructible(chunks, compare.chunks)
      ensures Records(clones) == CandidatesFor(name, chunks, compare)
      ensures forall t :: 0 <= t < |clones| ==> fresh(clones[t])
      ensures Distinct(clones)
    {
      clones := [];
      var i := 0;
      while i < |chunks|
        invariant 0 <= i <= |chunks|
        invariant Records(clones) == CandidatesFor(name, chunks[..i], compare)
        invariant forall t :: 0 <= t < |clones| ==> fresh(clones[t])
        invariant Distinct(clones)
      {
        CandidatesForSnoc(name, chunks, i, compare);
        var more := MatchingClones(name, chunks[i], compare);
        RecordsAppend(clones, more);
        DistinctAppend(clones, more);
        clones := clones + more;
        i := i + 1;
      }
      assert chunks[..|chunks|] == chunks;
    }

    // `#filterCloneCandidates` (CloneDetector.js:95-128): the clones already found stay
    // in front, and one new clone follows for every pair of a chunk of the file and an
    // equal chunk of `compare`, by source chunk and then by stored chunk.
    method FilterCloneCandidates(file: SourceFile, compare: StoredFile)
      requires Constructible(file.chunks, compare.chunks)
      requires Distinct(file.instances)
      modifies file
      ensures file.lines == old(file.lines) && file.chunks == old(file.chunks)
      ensures Records(file.instances) == old(Records(file.instances)) + CandidatesFor(file.name, file.chunks, compare)
      ensures |file.instances| >= old(|file.instances|)
      ensures forall t :: 0 <= t < old(|file.instances|) ==> file.instances[t] == old(file.instances[t])
      ensures forall t :: old(|file.instances|) <= t < |file.instances| ==> fresh(file.instances[t])
      ensures Distinct(file.instances)
    {
      var newInstances := CandidateClones(file.name, file.chunks, compare);
      RecordsAppend(file.instances, newInstances);
      DistinctAppend(file.instances, newInstances);
      file.instances := file.instances + newInstances;
    }

    // The loop of `matchDetect` (CloneDetector.js:215-236): the candidates of the file
    // against every stored file, in the order the files were stored, after the clones the
    // file already had. The `sort` and the merge loop after each `#filterCloneCandidates`
    // change nothing: every clone's `endLine` is `undefined` (Clone.js:3-14 sets
    // `sourceEnd`, not `endLine`), so the comparator gives `NaN`, which `sort` treats as
    // "equal", keeping the order, and `undefined > 0` is false, so the merge loop's body
    // never runs.
    method CollectCandidates(file: SourceFile)
      requires ConstructibleAll(file.chunks, store.files)
      requires Distinct(file.instances)
      modifies file
      ensures file.lines == old(file.lines) && file.chunks == old(file.chunks)
      ensures Records(file.instances) == old(Records(file.instances)) + AllCandidates(file.name, file.chunks, store.files)
      ensures Distinct(file.instances)
      ensures forall t :: 0 <= t < |file.instances| ==> file.instances[t] in old(file.instances) || fresh(file.instances[t])
    {
      ghost var before := file.instances;
      ghost var r0 := Records(file.instances);
      var i := 0;
      while i < |store.files|
        invariant 0 <= i <= |store.files|
        invariant file.lines == old(file.lines) && file.chunks == old(file.chunks)
        invariant ConstructibleAll(file.chunks, store.files[..i])
        invariant Records(file.instances) == r0 + AllCandidates(file.name, file.chunks, store.files[..i])
        invariant |file.instances| >= |before| && forall t :: 0 <= t < |before| ==> file.instances[t] == before[t]
        invariant forall t :: |before| <= t < |file.instances| ==> fresh(file.instances[t])
        invariant Distinct(file.instances)
      {
        AllCandidatesSnoc(file.name, file.chunks, store.files, i);
        ghost var found := AllCandidates(file.name, file.chunks, store.files[..i]);
        ghost var more := CandidatesFor(file.name, file.chunks, store.files[i]);
        FilterCloneCandidates(file, store.files[i]);
        AppendAssoc(r0, found, more);
        i := i + 1;
      }
      assert store.files[..|store.files|] == store.files;
    }

    // `matchDetect` (CloneDetector.js:211-239): the candidates against every stored file,
    // consolidated.
    method MatchDetect(file: SourceFile)
      requires ConstructibleAll(file.chunks, store.files)
      requires Distinct(file.instances) && HasTargets(Records(file.instances))
      modifies file, file.instances
      ensures file.lines == old(file.lines) && file.chunks == old(file.chunks)
      ensures HasTargets(old(Records(file.instances)) + AllCandidates(file.name, file.chunks, store.files))
      ensures Records(file.instances)
              == Consolidated(old(Records(file.instances)) + AllCandidates(file.name, file.chunks, store.files))
      ensures Distinct(file.instances)
      ensures forall t :: 0 <= t < |file.instances| ==> file.instances[t] in old(file.instances) || fresh(file.instances[t])
    {
      ghost var before := file.instances;
      CollectCandidates(file);
      ghost var r0: seq<CloneRecord> := old(Records(file.instances));
      ghost var all: seq<CloneRecord> := AllCandidates(file.name, file.chunks, store.files);
      CandidatesHaveTargets(r0, file.name, file.chunks, store.files);
      ghost var mid := file.instances;
      ghost var pos := ConsolidateClones(file);
      forall t | 0 <= t < |file.instances|
        ensures file.instances[t] in before || fresh(file.instances[t])
      {
        assert file.instances[t] == mid[pos[t]];
      }
    }

    // `acc.find((clone) => clone.equals(currentClone))` (CloneDetector.js:178): the
    // position of the first clone in `acc` equal to `current`, if there is one.
    method FindClone(acc: seq<Clone>, current: Clone) returns (found: Option<nat>)
      ensures found == FindEqual(Records(acc), current.Record())
    {
      var j := 0;
      while j < |acc|
        invariant 0 <= j <= |acc|
        invariant forall t :: 0 <= t < j ==> !acc[t].Equals(current)
      {
        if acc[j].Equals(current) {
          return Some(j);
        }
        j := j + 1;
      }
      return None;
    }

    // `existingClone.addTarget(...)` on the clone at position `j` of `acc`; since no
    // object occurs twice in `acc`, every other clone of `acc` keeps its state.
    method AddTargetAt(acc: seq<Clone>, j: nat, t: Target, ghost rest: seq<Clone>)
      requires j < |acc| && Distinct(acc)
      requires forall u :: 0 <= u < |rest| ==> rest[u] != acc[j]
      modifies acc[j]
      ensures Records(acc) == old(Records(acc))[j := old(Records(acc))[j].WithTarget(t)]
      ensures Records(rest) == old(Records(rest))
    {
      ghost var before := Records(acc);
      label add:
      acc[j].AddTarget(t);
      RecordsUnchanged@add(rest);
      assert forall u :: 0 <= u < |acc| && u != j ==> acc[u] != acc[j];
      assert Records(acc) == before[j := before[j].WithTarget(t)];
    }

    // One step of the `reduce` of `#consolidateClones` (CloneDetector.js:178-183): when
    // a clone of `acc` equals `current`, that clone gets `current`'s first target;
    // otherwise `current` is pushed.
    method ConsolidateOne(acc: seq<Clone>, current: Clone, ghost rest: seq<Clone>) returns (next: seq<Clone>)
      requires Distinct(acc) && forall t :: 0 <= t < |acc| ==> acc[t] != current
      requires current.targets != []
      requires forall u :: 0 <= u < |rest| ==> rest[u] !in acc
      modifies acc
      ensures Records(rest) == old(Records(rest))
      ensures Records(next) == ConsolidateStep(old(Records(acc)), old(current.Record()))
      ensures |next| == |acc| ==> next == acc
      ensures |next| != |acc| ==> next == acc + [current]
      ensures Distinct(next)
      ensures current.Record() == old(current.Record())
    {
      var found := FindClone(acc, current);
      match found {
        case Some(j) =>
          AddTargetAt(acc, j, current.targets[0], rest);
          next := acc;
        case None =>
          RecordsAppend(acc, [current]);
          DistinctAppend(acc, [current]);
          next := acc + [current];
      }
    }

    // The step of the `reduce` on the clone at position `i` of `cs`, with what the loop
    // of `UniqueClones` keeps: the accumulator holds the consolidation of the clones before
    // `i`, each of them one of those clones, and the clones from `i` on are untouched.
    method ConsolidateAt(cs: seq<Clone>, i: nat, acc: seq<Clone>, ghost vs: seq<CloneRecord>, ghost pos: seq<int>)
      returns (next: seq<Clone>, ghost pos': seq<int>)
      requires i < |cs| == |vs| && Distinct(cs) && HasTargets(vs)
      requires Records(acc) == Consolidated(vs[..i])
      requires KeepsFrom(cs, vs, i) && DrawnFrom(acc, cs, pos, i) && Distinct(acc)
      modifies acc
      ensures HasTargets(vs[..i + 1]) && Records(next) == Consolidated(vs[..i + 1])
      ensures KeepsFrom(cs, vs, i + 1) && DrawnFrom(next, cs, pos', i + 1) && Distinct(next)
    {
      ConsolidatedSnoc(vs, i);
      DrawnBefore(acc, cs, pos, i);
      DrawnGrows(acc, cs, pos, i);
      KeepsNext(cs, vs, i);
      next := ConsolidateOne(acc, cs[i], cs[i + 1..]);
      pos' := if |next| == |acc| then pos else pos + [i];
    }

    // The `reduce` of `#consolidateClones` (CloneDetector.js:177-185), clone by clone.
    method UniqueClones(cs: seq<Clone>) returns (acc: seq<Clone>, ghost pos: seq<int>)
      requires Distinct(cs) && HasTargets(Records(cs))
      modifies cs
      ensures Records(acc) == Consolidated(old(Records(cs)))
      ensures Distinct(acc) && DrawnFrom(acc, cs, pos, |cs|)
    {
      ghost var vs := Records(cs);
      pos := [];
      assert cs[0..] == cs;
      acc := [];
      var i := 0;
      while i < |cs|
        invariant 0 <= i <= |cs|
        invariant Records(acc) == Consolidated(vs[..i])
        invariant KeepsFrom(cs, vs, i) && DrawnFrom(acc, cs, pos, i) && Distinct(acc)
      {
        acc, pos := ConsolidateAt(cs, i, acc, vs, pos);
        i := i + 1;
      }
      assert vs[..|cs|] == vs;
    }

    // `#consolidateClones` (CloneDetector.js:173-189): `file.instances` becomes the
    // consolidation of its clones.
    method ConsolidateClones(file: SourceFile) returns (ghost pos: seq<int>)
      requires Distinct(file.instances) && HasTargets(Records(file.instances))
      modifies file, file.instances
      ensures file.lines == old(file.lines) && file.chunks == old(file.chunks)
      ensures Records(file.instances) == Consolidated(old(Records(file.instances)))
      ensures Distinct(file.instances)
      ensures DrawnFrom(file.instances, old(file.instances), pos, old(|file.instances|))
    {
      var unique;
      unique, pos := UniqueClones(file.instances);
      file.SetInstances(unique);
    }

    // `existingClone.maybeExpandWith(currentClone)` on the clone at position `j` of
    // `acc`: it absorbs `current` when `current` is next to it, and no other clone of
    // `acc`, of `rest` or `current` itself changes.
    method ExpandAt(acc: seq<Clone>, j: nat, current: Clone, ghost rest: seq<Clone>,
                    ghost before: seq<CloneRecord>, ghost cur: CloneRecord) returns (expanded: bool)
      requires j < |acc| && Distinct(acc) && current !in acc
      requires Records(acc) == before && current.Record() == cur
      requires Offered(before, cur, j, false, before) && |cur.sourceChunk| >= 2
      requires forall u :: 0 <= u < |rest| ==> rest[u] != acc[j]
      modifies acc[j]
      ensures Offered(before, cur, j + 1, expanded, Records(acc))
      ensures Records(rest) == old(Records(rest))
      ensures current.Record() == cur
    {
      label expand:
      expanded := acc[j].MaybeExpandWith(current);
      RecordsUnchanged@expand(rest);
      assert forall u :: 0 <= u < |acc| && u != j ==> acc[u] != acc[j];
      if expanded {
        assert Records(acc) == before[j := before[j].ExpandedWith(cur)];
      } else {
        assert Records(acc) == before;
      }
      OfferNext(before, cur, j, expanded, Records(acc));
    }

    // `acc.some((existingClone) => existingClone.maybeExpandWith(currentClone))`
    // (CloneDetector.js:148-150): the accumulated clones are offered `current` in order
    // until one absorbs it. When one does, the accumulator is the fold's step; when none
    // does, nothing changed and the step is to push `current`.
    method OfferClone(acc: seq<Clone>, current: Clone, ghost rest: seq<Clone>) returns (expanded: bool)
      requires Distinct(acc) && current !in acc
      requires NonEmptyChunks(Records(acc)) && (acc != [] ==> |current.sourceChunk| >= 2)
      requires forall u :: 0 <= u < |rest| ==> rest[u] !in acc
      modifies acc
      ensures expanded ==> Records(acc) == ExpandStep(old(Records(acc)), old(current.Record()))
      ensures !expanded ==> Records(acc) == old(Records(acc))
                            && ExpandStep(old(Records(acc)), old(current.Record())) == old(Records(acc)) + [old(current.Record())]
      ensures current.Record() == old(current.Record())
      ensures Records(rest) == old(Records(rest))
    {
      ghost var before := Records(acc);
      ghost var cur := current.Record();
      expanded := false;
      var j := 0;
      while j < |acc| && !expanded
        invariant 0 <= j <= |acc|
        invariant current.Record() == cur && Records(rest) == old(Records(rest))
        invariant Offered(before, cur, j, expanded, Records(acc))
      {
        expanded := ExpandAt(acc, j, current, rest, before, cur);
        j := j + 1;
      }
      OfferDone(before, cur, j, expanded, Records(acc));
    }

    // One step of the `reduce` of `#expandCloneCandidates` (CloneDetector.js:147-155):
    // `current` is pushed when no accumulated clone absorbed it.
    method ExpandOne(acc: seq<Clone>, current: Clone, ghost rest: seq<Clone>) returns (next: seq<Clone>)
      requires Distinct(acc) && current !in acc
      requires NonEmptyChunks(Records(acc)) && (acc != [] ==> |current.sourceChunk| >= 2)
      requires forall u :: 0 <= u < |rest| ==> rest[u] !in acc
      modifies acc
      ensures Records(next) == ExpandStep(old(Records(acc)), old(current.Record()))
      ensures |next| == |acc| ==> next == acc
      ensures |next| != |acc| ==> next == acc + [current]
      ensures Distinct(next)
      ensures Records(rest) == old(Records(rest))
    {
      var expanded := OfferClone(acc, current, rest);
      if expanded {
        next := acc;
      } else {
        RecordsAppend(acc, [current]);
        DistinctAppend(acc, [current]);
        next := acc + [current];
      }
    }

    // What the loop of `ExpandedClones` keeps after `i` clones: the accumulator holds the
    // fold over the clones before `i`, each of them one of those clones, and the clones
    // from `i` on are untouched.
    ghost predicate ExpandingFrom(cs: seq<Clone>, vs: seq<CloneRecord>, acc: seq<Clone>, pos: seq<int>, i: nat)
      reads cs, acc
    {
      i <= |vs| && Expandable(vs) && Records(acc) == ExpandedUpTo(vs, i)
      && KeepsFrom(cs, vs, i) && DrawnFrom(acc, cs, pos, i) && Distinct(acc)
    }

    // The step of the `reduce` on the clone at position `i` of `cs`.
    method ExpandNext(cs: seq<Clone>, i: nat, acc: seq<Clone>, ghost vs: seq<CloneRecord>, ghost pos: seq<int>)
      returns (next: seq<Clone>, ghost pos': seq<int>)
      requires i < |cs| && Distinct(cs) && ExpandingFrom(cs, vs, acc, pos, i)
      modifies acc
      ensures ExpandingFrom(cs, vs, next, pos', i + 1)
    {
      ExpandedSnoc(vs, i);
      DrawnBefore(acc, cs, pos, i);
      DrawnGrows(acc, cs, pos, i);
      KeepsNext(cs, vs, i);
      next := ExpandOne(acc, cs[i], cs[i + 1..]);
      pos' := if |next| == |acc| then pos else pos + [i];
    }

    // The `reduce` of `#expandCloneCandidates` (CloneDetector.js:147-155), clone by clone.
    method ExpandedClones(cs: seq<Clone>) returns (acc: seq<Clone>, ghost pos: seq<int>)
      requires Distinct(cs) && Expandable(Records(cs))
      modifies cs
      ensures Records(acc) == Expanded(old(Records(cs)))
      ensures Distinct(acc) && DrawnFrom(acc, cs, pos, |cs|)
    {
      ghost var vs := Records(cs);
      pos := [];
      assert cs[0..] == cs;
      acc := [];
      var i := 0;
      while i < |cs|
        invariant i <= |cs| && ExpandingFrom(cs, vs, acc, pos, i)
      {
        acc, pos := ExpandNext(cs, i, acc, vs, pos);
        i := i + 1;
      }
      ExpandedAll(vs);
    }

    // `expandClones`, that is `#expandCloneCandidates` (CloneDetector.js:144-159 and
    // 251-253): `file.instances` becomes the expansion of its clones, each of them one
    // of the clones it held.
    method ExpandClones(file: SourceFile) returns (ghost pos: seq<int>)
      requires Distinct(file.instances) && Expandable(Records(file.instances))
      modifies file, file.instances
      ensures file.lines == old(file.lines) && file.chunks == old(file.chunks)
      ensures Records(file.instances) == Expanded(old(Records(file.instances)))
      ensures Distinct(file.instances)
      ensures DrawnFrom(file.instances, old(file.instances), pos, old(|file.instances|))
    {
      var expanded;
      expanded, pos := ExpandedClones(file.instances);
      file.SetInstances(expanded);
    }

    // `pruneFile` (CloneDetector.js:241-245): the lines and the clones are deleted (an
    // absent list reads as empty); the chunks stay, for the files that come later.
    method PruneFile(file: SourceFile)
      modifies file
      ensures file.lines == [] && file.instances == [] && file.chunks == old(file.chunks)
    {
      file.lines := [];
      file.instances := [];
    }

    // `storeFile` (CloneDetector.js:247-250): the pruned file goes into the store after
    // the files stored before; a file whose name is new keeps the store valid.
    method StoreFile(file: SourceFile)
      modifies file, store
      ensures file.lines == [] && file.instances == [] && file.chunks == old(file.chunks)
      ensures store.files == old(store.files) + [StoredFile(file.name, old(file.chunks))]
      ensures store.names == old(store.names) + {file.name}
      ensures old(store.Valid()) && file.name !in old(store.names) ==> store.Valid()
    {
      PruneFile(file);
      store.StoreFile(StoredFile(file.name, file.chunks));
    }

    // `numberOfProcessedFiles` (CloneDetector.js:255-257): the number of stored files,
    // which in a valid store is the number of names processed.
    function NumberOfProcessedFiles(): (n: nat)
      reads this, store
      ensures store.Valid() ==> n == |store.names|
    {
      StoredCount(store.files);
      |store.files|
    }
  }
}

// The per-file pipeline of index.js: what it reports and stores for one file.
module Pipeline {
  import opened Text
  import opened SourceLines
  import opened Preprocessor
  import opened Chunker
  import opened Clones
  import opened Matcher
  import opened Consolidator
  import opened Expander
  import opened Detector

  // Chunks of `k >= 2` lines meet what every later step asks of its input: the candidates
  // can be built and consolidated, and the consolidated clones, valid and of the file,
  // can be expanded.
  lemma StepsApply(name: string, lines: seq<Line>, files: seq<StoredFile>, k: nat)
    requires k >= 2
    ensures ConstructibleAll(Chunks(lines, k), files)
    ensures HasTargets(AllCandidates(name, Chunks(lines, k), files))
    ensures var r := Consolidated(AllCandidates(name, Chunks(lines, k), files));
      Expandable(r) && forall u :: 0 <= u < |r| ==> r[u].Valid() && r[u].sourceName == name
  {
    var chunks := Chunks(lines, k);
    ChunkSizes(lines, k);
    assert [] !in chunks;
    CandidatesValid(name, chunks, files);
    var all := AllCandidates(name, chunks, files);
    assert forall t :: 0 <= t < |all| ==> all[t] in all;
    ConsolidatedChunkSizes(all, k);
    ConsolidatedValid(all, name);
  }

  // The clones reported for a file named `name` with lines `lines` against the stored
  // files `files`: the candidates, consolidated, then expanded. Every one is a valid
  // clone of the file.
  function Reported(name: string, lines: seq<Line>, files: seq<StoredFile>, k: nat): (r: seq<CloneRecord>)
    requires k >= 2
    ensures forall t :: 0 <= t < |r| ==> r[t].Valid() && r[t].sourceName == name
  {
    StepsApply(name, lines, files, k);
    var c := Consolidated(AllCandidates(name, Chunks(lines, k), files));
    ExpandedValid(c);
    ExpandedOrigins(c);
    Expanded(c)
  }

  // `Reported` is the fold the detector runs, from no clones at all.
  lemma ReportedFromNothing(name: string, lines: seq<Line>, files: seq<StoredFile>, k: nat)
    requires k >= 2
    ensures ConstructibleAll(Chunks(lines, k), files)
    ensures var all := [] + AllCandidates(name, Chunks(lines, k), files);
      HasTargets(all) && Expandable(Consolidated(all))
      && Reported(name, lines, files, k) == Expanded(Consolidated(all))
  {
    StepsApply(name, lines, files, k);
    var all := AllCandidates(name, Chunks(lines, k), files);
    assert [] + all == all;
  }

  // A file with fewer content lines than a chunk has no chunks, hence no candidates, and
  // no clone is reported for it, whatever is stored (index.js:286-292 on a file whose
  // `chunks` is empty).
  lemma ShortFileNoClones(name: string, lines: seq<Line>, files: seq<StoredFile>, k: nat)
    requires k >= 2 && |ContentLines(lines)| < k
    ensures Reported(name, lines, files, k) == []
  {
    NoChunksWhenShort(lines, k);
    AllCandidatesOfNoChunks(name, files);
  }

  // The steps between `preprocess` and `storeClones` (index.js:284-295) on a new file
  // object: its lines and chunks, and the clones reported for it against the stored
  // files.
  method Detect(cd: CloneDetector, file: SourceFile)
    requires cd.chunkSize == DefaultChunkSize && file.instances == []
    modifies file
    ensures file.chunks == Chunks(Preprocessed(file.contents), DefaultChunkSize)
    ensures Records(file.instances) == Reported(file.name, Preprocessed(file.contents), cd.store.files, DefaultChunkSize)
  {
    cd.Transform(file);
    ReportedFromNothing(file.name, file.lines, cd.store.files, DefaultChunkSize);
    assert Records(file.instances) == [];
    cd.MatchDetect(file);
    ghost var pos := cd.ExpandClones(file);
  }

  // The steps after `preprocess` for an admitted file (index.js:286-299): detection,
  // `storeClones`, then `storeFile`. The file is stored with its chunks under its new
  // name, which keeps the store consistent, and its reported clones go into the clone
  // store after those reported before.
  method Admit(cd: CloneDetector, file: SourceFile, cloneStore: CloneStore)
    requires cd.chunkSize == DefaultChunkSize && file.instances == []
    requires cd.store.Valid() && file.name !in cd.store.names
    modifies file, cd.store, cloneStore
    ensures cd.store.Valid()
    ensures cd.store.files == old(cd.store.files) + [StoredFile(file.name, Chunks(Preprocessed(file.contents), DefaultChunkSize))]
    ensures cd.store.names == old(cd.store.names) + {file.name}
    ensures cloneStore.clones
         == old(cloneStore.clones) + Reported(file.name, Preprocessed(file.contents), old(cd.store.files), DefaultChunkSize)
  {
    Detect(cd, file);
    cloneStore.StoreClones(file);
    cd.StoreFile(file);
  }

  // `processFile` (index.js:275-309): a rejected file changes nothing; an accepted one
  // is stored, under its name, with the chunks of its lines, and the clones reported
  // for it go into the clone store after those reported before.
  method ProcessFile(store: FileStore, cloneStore: CloneStore, name: string, contents: string)
    returns (outcome: Option<Rejection>)
    requires store.Valid()
    modifies store, cloneStore
    ensures outcome == Admission(name, old(store.names))
    ensures store.Valid()
    ensures outcome.Some? ==>
      store.files == old(store.files) && store.names == old(store.names) && cloneStore.clones == old(cloneStore.clones)
    ensures outcome.None? ==>
      store.files == old(store.files) + [StoredFile(name, Chunks(Preprocessed(contents), DefaultChunkSize))]
      && store.names == old(store.names) + {name}
      && cloneStore.clones == old(cloneStore.clones) + Reported(name, Preprocessed(contents), old(store.files), DefaultChunkSize)
  {
    var cd := new CloneDetector(store);
    var file := new SourceFile(name, contents);
    outcome := cd.Preprocess(file);
    if outcome.Some? {
      return;
    }
    Admit(cd, file, cloneStore);
  }
}
