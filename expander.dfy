// `#expandCloneCandidates` (CloneDetector.js:144-159): a left-to-right fold in which
// each clone either extends the first accumulated clone it is next to (the first for
// which `maybeExpandWith` succeeds, since `some` stops there) or is appended.
module Expander {
  import opened Text
  import opened SourceLines
  import opened Clones

  // What the fold needs of its input: every clone has lines, and every clone after the
  // first, which `isNext` is asked about, has at least two.
  predicate Expandable(vs: seq<CloneRecord>) {
    (forall t :: 0 <= t < |vs| ==> vs[t].sourceChunk != [])
    && (forall t :: 1 <= t < |vs| ==> |vs[t].sourceChunk| >= 2)
  }

  predicate NonEmptyChunks(acc: seq<CloneRecord>) {
    forall t :: 0 <= t < |acc| ==> acc[t].sourceChunk != []
  }

  // `acc.some((existing) => existing.maybeExpandWith(current))`: the first accumulated
  // clone that `c` is next to.
  function FirstNext(acc: seq<CloneRecord>, c: CloneRecord): (r: Option<nat>)
    requires NonEmptyChunks(acc) && |c.sourceChunk| >= 2
    ensures r.Some? ==> r.value < |acc| && acc[r.value].IsNext(c)
                        && forall t :: 0 <= t < r.value ==> !acc[t].IsNext(c)
    ensures r.None? ==> forall t :: 0 <= t < |acc| ==> !acc[t].IsNext(c)
  {
    if acc == [] then None
    else if acc[0].IsNext(c) then Some(0)
    else match FirstNext(acc[1..], c) {
      case None => None
      case Some(i) => Some(i + 1)
    }
  }

  // One step of the fold (CloneDetector.js:147-155).
  function ExpandStep(acc: seq<CloneRecord>, c: CloneRecord): seq<CloneRecord>
    requires NonEmptyChunks(acc) && (acc != [] ==> |c.sourceChunk| >= 2)
  {
    if acc == [] then [c]
    else match FirstNext(acc, c) {
      case None => acc + [c]
      case Some(i) => acc[i := acc[i].ExpandedWith(c)]
    }
  }

  // What `#expandCloneCandidates` leaves in `file.instances`.
  function Expanded(vs: seq<CloneRecord>): (r: seq<CloneRecord>)
    requires Expandable(vs)
    ensures |r| <= |vs|
    ensures NonEmptyChunks(r)
    ensures vs != [] ==> r != []
  {
    if vs == [] then []
    else
      var acc := Expanded(vs[..|vs| - 1]);
      var r := ExpandStep(acc, vs[|vs| - 1]);
      assert NonEmptyChunks(r) by {
        if acc != [] && FirstNext(acc, vs[|vs| - 1]).Some? {
          var i := FirstNext(acc, vs[|vs| - 1]).value;
          DedupHead(acc[i].sourceChunk + vs[|vs| - 1].sourceChunk);
        }
      }
      r
  }

  // The step in the terms of the source: the clone is appended when no accumulated clone
  // takes it; otherwise exactly one, the first that does, is replaced by its expansion,
  // and every other accumulated clone is left as it was.
  lemma ExpandStepCases(acc: seq<CloneRecord>, c: CloneRecord)
    requires NonEmptyChunks(acc) && |c.sourceChunk| >= 2
    ensures var r := ExpandStep(acc, c);
      ((forall t :: 0 <= t < |acc| ==> !acc[t].IsNext(c)) && r == acc + [c])
      || (exists i :: 0 <= i < |acc| && acc[i].IsNext(c) && (forall t :: 0 <= t < i ==> !acc[t].IsNext(c))
           && |r| == |acc| && r[i] == acc[i].ExpandedWith(c)
           && (forall t :: 0 <= t < |acc| && t != i ==> r[t] == acc[t]))
  {
  }

  // Position by position, the step keeps an accumulated clone, replaces it by its
  // expansion with `c`, or appends `c`; when nothing was appended, some clone expanded.
  lemma StepElements(acc: seq<CloneRecord>, c: CloneRecord)
    requires NonEmptyChunks(acc) && (acc != [] ==> |c.sourceChunk| >= 2)
    ensures var r := ExpandStep(acc, c);
      (|r| == |acc| + 1 && r[|acc|] == c)
      || (|r| == |acc| && exists i :: 0 <= i < |acc| && r[i] == acc[i].ExpandedWith(c))
    ensures var r := ExpandStep(acc, c);
      forall t :: 0 <= t < |r| ==>
        (t < |acc| && (r[t] == acc[t] || r[t] == acc[t].ExpandedWith(c))) || (t == |acc| && r[t] == c)
  {
  }

  // `x` has the name, the start line and the targets of `y`.
  predicate SameOrigin(x: CloneRecord, y: CloneRecord) {
    x.sourceName == y.sourceName && x.sourceStart == y.sourceStart && x.targets == y.targets
  }

  // Every clone of `r` has the origin of some clone of `vs`.
  ghost predicate FromInputs(vs: seq<CloneRecord>, r: seq<CloneRecord>) {
    forall t :: 0 <= t < |r| ==> exists j :: 0 <= j < |vs| && SameOrigin(r[t], vs[j])
  }

  // Every line of every clone of `vs` is in some clone of `r`.
  ghost predicate Covers(vs: seq<CloneRecord>, r: seq<CloneRecord>) {
    forall j, l :: 0 <= j < |vs| && l in vs[j].sourceChunk ==> exists x :: x in r && l in x.sourceChunk
  }

  lemma OriginsStep(init: seq<CloneRecord>, acc: seq<CloneRecord>, c: CloneRecord)
    requires NonEmptyChunks(acc) && (acc != [] ==> |c.sourceChunk| >= 2)
    requires FromInputs(init, acc)
    ensures FromInputs(init + [c], ExpandStep(acc, c))
  {
    var vs := init + [c];
    var r := ExpandStep(acc, c);
    StepElements(acc, c);
    forall t | 0 <= t < |r| ensures exists j :: 0 <= j < |vs| && SameOrigin(r[t], vs[j]) {
      if t == |acc| {
        assert SameOrigin(r[t], vs[|init|]);
      } else {
        var j :| 0 <= j < |init| && SameOrigin(acc[t], init[j]);
        assert SameOrigin(r[t], vs[j]);
      }
    }
  }

  lemma CoversStep(init: seq<CloneRecord>, acc: seq<CloneRecord>, c: CloneRecord)
    requires NonEmptyChunks(acc) && (acc != [] ==> |c.sourceChunk| >= 2)
    requires Covers(init, acc)
    ensures Covers(init + [c], ExpandStep(acc, c))
  {
    var vs := init + [c];
    var r := ExpandStep(acc, c);
    StepElements(acc, c);
    forall j, l | 0 <= j < |vs| && l in vs[j].sourceChunk ensures exists x :: x in r && l in x.sourceChunk {
      if j == |init| {
        if |r| == |acc| + 1 {
          assert r[|acc|] == c;
        } else {
          var i :| 0 <= i < |acc| && r[i] == acc[i].ExpandedWith(c);
          ExpandedWithLines(acc[i], c);
        }
      } else {
        assert vs[j] == init[j];
        var y :| y in acc && l in y.sourceChunk;
        var u :| 0 <= u < |acc| && acc[u] == y;
        ExpandedWithLines(y, c);
        assert r[u] == y || r[u] == y.ExpandedWith(c);
      }
    }
  }

  // Every clone left carries the name, the start line and the targets of an input clone:
  // expansion moves only the end of a clone.
  lemma {:induction false} ExpandedOrigins(vs: seq<CloneRecord>)
    requires Expandable(vs)
    ensures FromInputs(vs, Expanded(vs))
  {
    if vs != [] {
      var init := vs[..|vs| - 1];
      ExpandedOrigins(init);
      assert vs == init + [vs[|vs| - 1]];
      OriginsStep(init, Expanded(init), vs[|vs| - 1]);
    }
  }

  // No line is lost: every line of every input clone is in some clone left.
  lemma {:induction false} ExpandedCovers(vs: seq<CloneRecord>)
    requires Expandable(vs)
    ensures Covers(vs, Expanded(vs))
  {
    if vs != [] {
      var init := vs[..|vs| - 1];
      ExpandedCovers(init);
      assert vs == init + [vs[|vs| - 1]];
      CoversStep(init, Expanded(init), vs[|vs| - 1]);
    }
  }

  // Valid clones stay valid.
  lemma {:induction false} ExpandedValid(vs: seq<CloneRecord>)
    requires Expandable(vs)
    requires forall t :: 0 <= t < |vs| ==> vs[t].Valid()
    ensures forall t :: 0 <= t < |Expanded(vs)| ==> Expanded(vs)[t].Valid()
  {
    if vs != [] {
      var init := vs[..|vs| - 1];
      var last := vs[|vs| - 1];
      ExpandedValid(init);
      var acc := Expanded(init);
      var r := Expanded(vs);
      StepElements(acc, last);
      forall t | 0 <= t < |r| ensures r[t].Valid() {
        if t < |acc| {
          ExpandedWithValid(acc[t], last);
        }
      }
    }
  }

  // `v` stretched over the first `m` lines of `w`.
  function Spanning(v: CloneRecord, w: seq<Line>, m: nat): CloneRecord
    requires 1 <= m <= |w|
  {
    v.(sourceChunk := w[..m], sourceEnd := w[m - 1].lineNumber)
  }

  // A clone over `w[..q]` is followed by the next sliding window `w[q + 1 - k..q + 1]`,
  // and taking it makes the clone span `w[..q + 1]`.
  lemma WindowExtends(w: seq<Line>, v: CloneRecord, c: CloneRecord, q: nat, k: nat)
    requires Increasing(w) && k >= 2 && k - 1 <= q < |w|
    requires c.sourceChunk == w[q + 1 - k..q + 1]
    ensures Spanning(v, w, q).sourceChunk != [] && |c.sourceChunk| >= 2
    ensures Spanning(v, w, q).IsNext(c)
    ensures Spanning(v, w, q).ExpandedWith(c) == Spanning(v, w, q + 1)
  {
    var x := Spanning(v, w, q);
    assert w[..q] == w[0..q] && w[..q + 1] == w[0..q + 1];
    ExpandedWindow(w, x, c, 0, q, k);
  }

  // The windows of a run of lines have `k` lines each, enough for the fold.
  lemma WindowsExpandable(w: seq<Line>, vs: seq<CloneRecord>, k: nat)
    requires k >= 2 && |vs| + k - 1 <= |w|
    requires forall t :: 0 <= t < |vs| ==> vs[t].sourceChunk == w[t..t + k]
    ensures Expandable(vs)
  {
    assert forall t :: 0 <= t < |vs| ==> |vs[t].sourceChunk| == k;
  }

  // The fold starts a run with its first window.
  lemma RunBase(w: seq<Line>, v: CloneRecord, k: nat, m: nat)
    requires 1 <= k <= |w| && m == k && v.Valid() && v.sourceChunk == w[0..0 + k]
    ensures ExpandStep([], v) == [Spanning(v, w, m)]
  {
    assert w[0..0 + k] == w[..m];
  }

  // A clone over `w[..q]` takes the next sliding window of the run, which makes it span
  // `w[..q + 1]`.
  lemma RunStep(w: seq<Line>, v: CloneRecord, c: CloneRecord, p: nat, q: nat, n: nat, k: nat)
    requires Increasing(w) && k >= 2 && n == p + k && q + 1 == n && n <= |w|
    requires c.sourceChunk == w[p..p + k]
    ensures Spanning(v, w, q).sourceChunk != [] && |c.sourceChunk| >= 2
    ensures ExpandStep([Spanning(v, w, q)], c) == [Spanning(v, w, n)]
  {
    assert q + 1 - k == p && q + 1 == p + k;
    WindowExtends(w, v, c, q, k);
    assert FirstNext([Spanning(v, w, q)], c) == Some(0);
  }

  // The window `w[i..i + k]` at position `i > 0` of the fold extends the clone the
  // windows before it built.
  lemma RunNext(w: seq<Line>, vs: seq<CloneRecord>, k: nat, i: nat, m: nat)
    requires Increasing(w) && k >= 2 && 1 <= i < |vs| && m == i + k && m <= |w| && Expandable(vs)
    requires vs[i].sourceChunk == w[i..i + k]
    requires ExpandedUpTo(vs, i) == [Spanning(vs[0], w, m - 1)]
    ensures ExpandedUpTo(vs, i + 1) == [Spanning(vs[0], w, m)]
  {
    ExpandedSnoc(vs, i);
    RunStep(w, vs[0], vs[i], i, m - 1, m, k);
  }

  // The first `i` windows of a run fold into one clone spanning `i + k - 1` lines.
  lemma {:induction false} RunUpTo(w: seq<Line>, vs: seq<CloneRecord>, k: nat, i: nat, m: nat)
    requires Increasing(w) && k >= 2 && |vs| + k - 1 <= |w| && 1 <= i <= |vs| && m == i + k - 1
    requires vs[0].Valid() && Expandable(vs)
    requires forall t :: 0 <= t < |vs| ==> vs[t].sourceChunk == w[t..t + k]
    ensures ExpandedUpTo(vs, i) == [Spanning(vs[0], w, m)]
  {
    if i == 1 {
      ExpandedSnoc(vs, 0);
      RunBase(w, vs[0], k, m);
    } else {
      RunUpTo(w, vs, k, i - 1, m - 1);
      RunNext(w, vs, k, i - 1, m);
    }
  }

  // The consecutive sliding windows `w[t..t + k]` of a run of lines with increasing
  // numbers fold into one clone spanning the `n = |vs| + k - 1` lines of the run, with
  // the first window's name, start and targets.
  lemma ExpandedRun(w: seq<Line>, vs: seq<CloneRecord>, k: nat, n: nat)
    requires Increasing(w) && k >= 2 && vs != [] && n == |vs| + k - 1 && n <= |w|
    requires vs[0].Valid()
    requires forall t :: 0 <= t < |vs| ==> vs[t].sourceChunk == w[t..t + k]
    ensures Expandable(vs)
    ensures Expanded(vs) == [Spanning(vs[0], w, n)]
  {
    WindowsExpandable(w, vs, k);
    RunUpTo(w, vs, k, |vs|, n);
    ExpandedAll(vs);
  }

  // Where `acc.some` stands after offering `c` to the first `j` clones of `acc`: either
  // none of them took it and nothing changed, or the `j`-th was the first next to `c`
  // and absorbed it.
  ghost predicate Offered(acc: seq<CloneRecord>, c: CloneRecord, j: nat, expanded: bool, now: seq<CloneRecord>) {
    NonEmptyChunks(acc) && j <= |acc| &&
    if expanded then
      |c.sourceChunk| >= 2 && 1 <= j && FirstNext(acc, c) == Some(j - 1)
      && now == acc[j - 1 := acc[j - 1].ExpandedWith(c)]
    else
      now == acc && forall t :: 0 <= t < j ==> |c.sourceChunk| >= 2 && !acc[t].IsNext(c)
  }

  // Offering `c` to one more clone.
  lemma OfferNext(acc: seq<CloneRecord>, c: CloneRecord, j: nat, expanded: bool, now: seq<CloneRecord>)
    requires Offered(acc, c, j, false, acc) && j < |acc| && |c.sourceChunk| >= 2
    requires expanded == acc[j].IsNext(c)
    requires now == if expanded then acc[j := acc[j].ExpandedWith(c)] else acc
    ensures Offered(acc, c, j + 1, expanded, now)
  {
  }

  // When a clone took `c`, or all were offered it, the accumulator is the fold's step,
  // or else the step is to push `c`.
  lemma OfferDone(acc: seq<CloneRecord>, c: CloneRecord, j: nat, expanded: bool, now: seq<CloneRecord>)
    requires Offered(acc, c, j, expanded, now) && (expanded || j == |acc|)
    requires acc != [] ==> |c.sourceChunk| >= 2
    ensures expanded ==> now == ExpandStep(acc, c)
    ensures !expanded ==> now == acc && ExpandStep(acc, c) == acc + [c]
  {
  }

  // The fold over the first `i` clones of `vs`.
  function ExpandedUpTo(vs: seq<CloneRecord>, i: nat): (r: seq<CloneRecord>)
    requires Expandable(vs) && i <= |vs|
    ensures NonEmptyChunks(r) && (r == [] <==> i == 0)
  {
    assert Expandable(vs[..i]);
    Expanded(vs[..i])
  }

  // The fold over `i + 1` clones is one more step on the fold over `i`.
  lemma ExpandedSnoc(vs: seq<CloneRecord>, i: nat)
    requires i < |vs| && Expandable(vs)
    ensures ExpandedUpTo(vs, i) != [] ==> |vs[i].sourceChunk| >= 2
    ensures ExpandedUpTo(vs, i + 1) == ExpandStep(ExpandedUpTo(vs, i), vs[i])
  {
    assert vs[..i + 1][..i] == vs[..i];
  }

  // The fold over all the clones.
  lemma ExpandedAll(vs: seq<CloneRecord>)
    requires Expandable(vs)
    ensures ExpandedUpTo(vs, |vs|) == Expanded(vs)
  {
    assert vs[..|vs|] == vs;
  }
}


