// The `Clone` record (Clone.js): a source chunk of the file being processed, under the
// file's name and its first and last line numbers, and the places where the same
// chunk was found. `CloneRecord` is its value, `Clone` the object whose fields the
// methods of Clone.js update in place.
module Clones {
  import opened Text
  import opened SourceLines

  // `{ name, startLine }`: a file in which the source chunk also occurs, and the line
  // at which it starts there.
  datatype Target = Target(name: string, startLine: nat)

  datatype CloneRecord = CloneRecord(
    sourceName: string,
    sourceStart: nat,
    sourceEnd: nat,
    sourceChunk: seq<Line>,
    targets: seq<Target>)
  {
    // What the constructor establishes and every later update keeps: a non-empty chunk
    // spanned by `sourceStart`..`sourceEnd`, and at least one target.
    predicate Valid() {
      sourceChunk != []
      && sourceStart == sourceChunk[0].lineNumber
      && sourceEnd == sourceChunk[|sourceChunk| - 1].lineNumber
      && targets != []
    }

    // `equals` (Clone.js:16-20): the same source name and the same first and last line.
    predicate SameSource(other: CloneRecord) {
      sourceName == other.sourceName && sourceStart == other.sourceStart && sourceEnd == other.sourceEnd
    }

    // `isNext` (Clone.js:30-33): this chunk ends on the line where the other chunk has
    // its next-to-last line. The source reads `other.sourceChunk[length - 2]`, so the
    // other chunk needs two lines and this one needs one.
    predicate IsNext(other: CloneRecord)
      requires sourceChunk != [] && |other.sourceChunk| >= 2
    {
      sourceChunk[|sourceChunk| - 1].lineNumber == other.sourceChunk[|other.sourceChunk| - 2].lineNumber
    }

    // The state `maybeExpandWith` leaves behind when it expands (Clone.js:37-38): the
    // union of the two chunks by `[...new Set(...)]`, and the end line moved to the last
    // line of that union.
    function ExpandedWith(other: CloneRecord): CloneRecord
      requires sourceChunk != []
    {
      var chunk := Dedup(sourceChunk + other.sourceChunk);
      DedupHead(sourceChunk + other.sourceChunk);
      this.(sourceChunk := chunk, sourceEnd := chunk[|chunk| - 1].lineNumber)
    }

    // The state `addTarget` is meant to leave behind: one more target at the end.
    function WithTarget(t: Target): CloneRecord {
      this.(targets := targets + [t])
    }
  }

  // The record `new Clone(sourceName, targetName, sourceChunk, targetChunk)` builds
  // (Clone.js:3-14). The source reads `sourceChunk[0]`, the last element of
  // `sourceChunk` and `targetChunk[0]`, so both chunks must be non-empty (an empty array
  // is truthy, so the `if (targetChunk)` guard does not protect against it).
  function NewClone(sourceName: string, targetName: string, sourceChunk: seq<Line>, targetChunk: seq<Line>): (r: CloneRecord)
    requires sourceChunk != [] && targetChunk != []
    ensures r.Valid()
    ensures r.sourceName == sourceName && r.sourceChunk == sourceChunk
    ensures r.sourceStart == sourceChunk[0].lineNumber
    ensures r.sourceEnd == sourceChunk[|sourceChunk| - 1].lineNumber
    ensures r.targets == [Target(targetName, targetChunk[0].lineNumber)]
  {
    CloneRecord(sourceName, sourceChunk[0].lineNumber, sourceChunk[|sourceChunk| - 1].lineNumber,
                sourceChunk, [Target(targetName, targetChunk[0].lineNumber)])
  }

  // `equals` compares nothing but the three source fields, and is an equivalence.
  lemma SameSourceIsEquivalence(a: CloneRecord, b: CloneRecord, c: CloneRecord)
    ensures a.SameSource(a)
    ensures a.SameSource(b) <==> b.SameSource(a)
    ensures a.SameSource(b) && b.SameSource(c) ==> a.SameSource(c)
    ensures a.SameSource(b) <==> (a.sourceName, a.sourceStart, a.sourceEnd) == (b.sourceName, b.sourceStart, b.sourceEnd)
  {
  }

  // A successful expansion keeps this chunk as a prefix and appends the other chunk's
  // lines that were not already present, with no line twice; the name, the start line
  // and the targets do not change, the end line is the last line of the union, and a
  // valid record stays valid.
  lemma ExpandedWithProperties(a: CloneRecord, b: CloneRecord)
    requires a.sourceChunk != [] && NoDuplicates(a.sourceChunk)
    ensures var r := a.ExpandedWith(b);
      |r.sourceChunk| >= |a.sourceChunk| && r.sourceChunk[..|a.sourceChunk|] == a.sourceChunk
      && (forall l :: l in r.sourceChunk[|a.sourceChunk|..] ==> l in b.sourceChunk && l !in a.sourceChunk)
      && (forall l :: l in b.sourceChunk ==> l in r.sourceChunk)
      && NoDuplicates(r.sourceChunk)
      && r.sourceName == a.sourceName && r.sourceStart == a.sourceStart && r.targets == a.targets
      && r.sourceEnd == r.sourceChunk[|r.sourceChunk| - 1].lineNumber
      && (a.Valid() ==> r.Valid())
  {
    DedupAppend(a.sourceChunk, b.sourceChunk);
    DedupSpec(a.sourceChunk + b.sourceChunk);
  }

  // An expanded chunk holds exactly the lines of the two chunks.
  lemma ExpandedWithLines(a: CloneRecord, b: CloneRecord)
    requires a.sourceChunk != []
    ensures forall l :: l in a.ExpandedWith(b).sourceChunk <==> l in a.sourceChunk || l in b.sourceChunk
  {
    DedupSpec(a.sourceChunk + b.sourceChunk);
  }

  // A valid record stays valid when it expands.
  lemma ExpandedWithValid(a: CloneRecord, b: CloneRecord)
    requires a.Valid()
    ensures a.ExpandedWith(b).Valid()
    ensures a.ExpandedWith(b).sourceChunk[0] == a.sourceChunk[0]
  {
    DedupHead(a.sourceChunk + b.sourceChunk);
  }

  // `addTarget` appends exactly one target and leaves the source fields alone.
  lemma WithTargetProperties(a: CloneRecord, t: Target)
    ensures a.WithTarget(t).targets == a.targets + [t]
    ensures a.WithTarget(t).SameSource(a) && a.WithTarget(t).sourceChunk == a.sourceChunk
    ensures a.Valid() ==> a.WithTarget(t).Valid()
  {
  }

  // Over lines with increasing numbers, a clone spanning `w[p..q]` is followed by the
  // window `w[j..j + k]` (k >= 2) exactly when that window starts `k - 1` lines before
  // the clone's end, so that it overlaps the clone in all but its last line.
  lemma {:induction false} IsNextIffOverlap(w: seq<Line>, a: CloneRecord, b: CloneRecord, p: nat, q: nat, j: nat, k: nat)
    requires Increasing(w)
    requires p < q <= |w| && k >= 2 && j + k <= |w|
    requires a.sourceChunk == w[p..q] && b.sourceChunk == w[j..j + k]
    ensures a.IsNext(b) <==> j + k == q + 1
  {
    assert a.sourceChunk[|a.sourceChunk| - 1] == w[q - 1];
    assert b.sourceChunk[|b.sourceChunk| - 2] == w[j + k - 2];
    if q - 1 != j + k - 2 {
      if q - 1 < j + k - 2 {
        assert w[q - 1].lineNumber < w[j + k - 2].lineNumber;
      } else {
        assert w[j + k - 2].lineNumber < w[q - 1].lineNumber;
      }
    }
  }

  // Expanding a clone over `w[p..q]` with the next sliding window `w[q + 1 - k..q + 1]`
  // gives the clone over `w[p..q + 1]`: exactly one more line.
  lemma ExpandedWindow(w: seq<Line>, a: CloneRecord, b: CloneRecord, p: nat, q: nat, k: nat)
    requires Increasing(w)
    requires k >= 2 && p + k - 1 <= q < |w|
    requires a.sourceChunk == w[p..q] && b.sourceChunk == w[q + 1 - k..q + 1]
    ensures a.IsNext(b)
    ensures a.ExpandedWith(b).sourceChunk == w[p..q + 1]
    ensures a.ExpandedWith(b).sourceEnd == w[q].lineNumber
  {
    IsNextIffOverlap(w, a, b, p, q, q + 1 - k, k);
    var overlap := b.sourceChunk[..k - 1];
    forall l | l in overlap ensures l in a.sourceChunk {
      var m :| 0 <= m < |overlap| && overlap[m] == l;
      assert l == w[q + 1 - k + m] == a.sourceChunk[q + 1 - k + m - p];
    }
    IncreasingSlice(w, p, q);
    DedupOneNew(a.sourceChunk, b.sourceChunk);
    assert w[p..q + 1] == a.sourceChunk + [w[q]];
  }

  // The `Clone` object. `maybeExpandWith` and `addTarget` update its fields in place.
  class Clone {
    var sourceName: string
    var sourceStart: nat
    var sourceEnd: nat
    var sourceChunk: seq<Line>
    var targets: seq<Target>

    function Record(): CloneRecord
      reads this
    {
      CloneRecord(sourceName, sourceStart, sourceEnd, sourceChunk, targets)
    }

    // `constructor(sourceName, targetName, sourceChunk, targetChunk)` (Clone.js:3-14).
    constructor (sourceName: string, targetName: string, sourceChunk: seq<Line>, targetChunk: seq<Line>)
      requires sourceChunk != [] && targetChunk != []
      ensures Record() == NewClone(sourceName, targetName, sourceChunk, targetChunk)
      ensures Record().Valid()
    {
      this.sourceName := sourceName;
      this.sourceStart := sourceChunk[0].lineNumber;
      this.sourceEnd := sourceChunk[|sourceChunk| - 1].lineNumber;
      this.sourceChunk := sourceChunk;
      this.targets := [Target(targetName, targetChunk[0].lineNumber)];
    }

    // `equals` (Clone.js:16-20).
    predicate Equals(other: Clone)
      reads this, other
    {
      Record().SameSource(other.Record())
    }

    // `isNext` (Clone.js:30-33).
    predicate IsNext(other: Clone)
      reads this, other
      requires sourceChunk != [] && |other.sourceChunk| >= 2
    {
      Record().IsNext(other.Record())
    }

    // `addTarget` as CloneDetector.js:161-171 means it: the target is appended and nothing else
    // changes. (As written, Clone.js:22-26 expects a Clone and appends nothing when given
    // a target.)
    method AddTarget(t: Target)
      modifies this
      ensures Record() == old(Record()).WithTarget(t)
    {
      targets := targets + [t];
    }

    // `maybeExpandWith` (Clone.js:35-44): when `other` is next, this clone absorbs its
    // lines and reports true; otherwise it reports false and changes nothing.
    method MaybeExpandWith(other: Clone) returns (expanded: bool)
      requires sourceChunk != [] && |other.sourceChunk| >= 2
      modifies this
      ensures expanded == old(Record().IsNext(other.Record()))
      ensures Record() == if expanded then old(Record().ExpandedWith(other.Record())) else old(Record())
    {
      if IsNext(other) {
        var chunk := Dedup(sourceChunk + other.sourceChunk);
        DedupHead(sourceChunk + other.sourceChunk);
        sourceChunk := chunk;
        sourceEnd := chunk[|chunk| - 1].lineNumber;
        expanded := true;
      } else {
        expanded := false;
      }
    }
  }

  // The values of a sequence of clone objects.
  function Records(cs: seq<Clone>): (r: seq<CloneRecord>)
    reads cs
    ensures |r| == |cs|
    ensures forall i :: 0 <= i < |cs| ==> r[i] == cs[i].Record()
  {
    if cs == [] then [] else Records(cs[..|cs| - 1]) + [cs[|cs| - 1].Record()]
  }

  // No object occurs twice, so updating one element of the sequence touches no other.
  ghost predicate Distinct(cs: seq<Clone>) {
    forall i, j :: 0 <= i < j < |cs| ==> cs[i] != cs[j]
  }

  lemma RecordsAppend(a: seq<Clone>, b: seq<Clone>)
    ensures Records(a + b) == Records(a) + Records(b)
  {
    assert forall i :: 0 <= i < |a + b| ==> Records(a + b)[i] == (Records(a) + Records(b))[i];
  }

  lemma DistinctAppend(a: seq<Clone>, b: seq<Clone>)
    requires Distinct(a) && Distinct(b)
    requires forall t, u :: 0 <= t < |a| && 0 <= u < |b| ==> a[t] != b[u]
    ensures Distinct(a + b)
  {
    forall i, j | 0 <= i < j < |a + b| ensures (a + b)[i] != (a + b)[j] {
      if j < |a| {
      } else if i >= |a| {
        assert (a + b)[i] == b[i - |a|] && (a + b)[j] == b[j - |a|];
      } else {
        assert (a + b)[j] == b[j - |a|];
      }
    }
  }

  // Each clone of `acc` is the clone of `cs` at the matching position of `pos`, and these
  // positions lie before `i`.
  ghost predicate DrawnFrom(acc: seq<Clone>, cs: seq<Clone>, pos: seq<int>, i: int) {
    |pos| == |acc| && forall t :: 0 <= t < |acc| ==> 0 <= pos[t] < i && pos[t] < |cs| && acc[t] == cs[pos[t]]
  }

  // The clones of `cs` from position `i` on still have the records `vs` holds for them.
  ghost predicate KeepsFrom(cs: seq<Clone>, vs: seq<CloneRecord>, i: int)
    reads cs
  {
    |cs| == |vs| && 0 <= i <= |cs| && Records(cs[i..]) == vs[i..]
  }

  // Of the clones kept from `i` on, the one at `i` has its record, and the others are
  // kept from `i + 1` on.
  lemma KeepsNext(cs: seq<Clone>, vs: seq<CloneRecord>, i: int)
    requires KeepsFrom(cs, vs, i) && i < |cs|
    ensures cs[i].Record() == vs[i] && Records(cs[i + 1..]) == vs[i + 1..]
  {
    assert cs[i..] == [cs[i]] + cs[i + 1..];
    RecordsAppend([cs[i]], cs[i + 1..]);
    assert vs[i..] == [vs[i]] + vs[i + 1..];
  }

  // Taking the clone at position `i` extends what was drawn before `i`.
  lemma DrawnGrows(acc: seq<Clone>, cs: seq<Clone>, pos: seq<int>, i: int)
    requires DrawnFrom(acc, cs, pos, i) && 0 <= i < |cs|
    ensures DrawnFrom(acc, cs, pos, i + 1)
    ensures DrawnFrom(acc + [cs[i]], cs, pos + [i], i + 1)
  {
  }

  // When no object occurs twice in `cs`, the clones drawn from before position `i` are
  // none of the clones from `i` on.
  lemma DrawnBefore(acc: seq<Clone>, cs: seq<Clone>, pos: seq<int>, i: int)
    requires Distinct(cs) && DrawnFrom(acc, cs, pos, i)
    ensures forall u :: 0 <= i <= u < |cs| ==> cs[u] !in acc
  {
  }

  // Clones whose fields did not change keep their records.
  twostate lemma RecordsUnchanged(cs: seq<Clone>)
    requires unchanged(cs)
    ensures Records(cs) == old(Records(cs))
  {
  }
}


