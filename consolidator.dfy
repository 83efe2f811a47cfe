// `#consolidateClones` (CloneDetector.js:173-189): a left-to-right fold that keeps the
// first clone of every identity `(sourceName, sourceStart, sourceEnd)` and gives it the
// first target of every later clone with the same identity.
module Consolidator {
  import opened Text
  import opened Clones

  // What `equals` compares.
  type Identity = (string, nat, nat)

  function IdentityOf(c: CloneRecord): Identity {
    (c.sourceName, c.sourceStart, c.sourceEnd)
  }

  function Identities(cs: seq<CloneRecord>): (r: seq<Identity>)
    ensures |r| == |cs|
    ensures forall i :: 0 <= i < |cs| ==> r[i] == IdentityOf(cs[i])
  {
    if cs == [] then [] else Identities(cs[..|cs| - 1]) + [IdentityOf(cs[|cs| - 1])]
  }

  predicate HasTargets(cs: seq<CloneRecord>) {
    forall i :: 0 <= i < |cs| ==> cs[i].targets != []
  }

  // `acc.find((clone) => clone.equals(current))`: the first accumulated clone equal to `c`.
  function FindEqual(acc: seq<CloneRecord>, c: CloneRecord): (r: Option<nat>)
    ensures r.Some? ==> r.value < |acc| && acc[r.value].SameSource(c)
                        && forall t :: 0 <= t < r.value ==> !acc[t].SameSource(c)
    ensures r.None? ==> forall t :: 0 <= t < |acc| ==> !acc[t].SameSource(c)
  {
    if acc == [] then None
    else if acc[0].SameSource(c) then Some(0)
    else match FindEqual(acc[1..], c) {
      case None => None
      case Some(i) => Some(i + 1)
    }
  }

  // One step of the fold, with `addTarget` appending `current.targets[0]`
  // (CloneDetector.js:178-183).
  function ConsolidateStep(acc: seq<CloneRecord>, c: CloneRecord): seq<CloneRecord>
    requires c.targets != []
  {
    match FindEqual(acc, c) {
      case None => acc + [c]
      case Some(i) => acc[i := acc[i].WithTarget(c.targets[0])]
    }
  }

  // What `#consolidateClones` leaves in `file.instances`.
  function Consolidated(vs: seq<CloneRecord>): (r: seq<CloneRecord>)
    requires HasTargets(vs)
    ensures |r| <= |vs|
    ensures HasTargets(r)
  {
    if vs == [] then [] else ConsolidateStep(Consolidated(vs[..|vs| - 1]), vs[|vs| - 1])
  }

  // The fold as written: `addTarget` receives a `{ name, startLine }` object, which has no
  // `sourceChunk`, so it appends nothing (Clone.js:22-26).
  function ConsolidateStepAsWritten(acc: seq<CloneRecord>, c: CloneRecord): seq<CloneRecord> {
    if FindEqual(acc, c).Some? then acc else acc + [c]
  }

  function ConsolidatedAsWritten(vs: seq<CloneRecord>): seq<CloneRecord> {
    if vs == [] then [] else ConsolidateStepAsWritten(ConsolidatedAsWritten(vs[..|vs| - 1]), vs[|vs| - 1])
  }

  // The targets the representative of `id` ends with: all those of the first clone with
  // that identity, then the first target of each later one, in order.
  function Gathered(vs: seq<CloneRecord>, id: Identity): seq<Target>
    requires HasTargets(vs)
  {
    if vs == [] then []
    else
      var init := vs[..|vs| - 1];
      var last := vs[|vs| - 1];
      if IdentityOf(last) != id then Gathered(init, id)
      else if id !in Identities(init) then last.targets
      else Gathered(init, id) + [last.targets[0]]
  }

  // A step adds the identity of the clone exactly when it is new.
  lemma IdentitiesStep(acc: seq<CloneRecord>, last: CloneRecord)
    requires last.targets != []
    ensures Identities(ConsolidateStep(acc, last))
         == if IdentityOf(last) in Identities(acc) then Identities(acc) else Identities(acc) + [IdentityOf(last)]
  {
    match FindEqual(acc, last) {
      case None =>
        assert Identities(acc + [last]) == Identities(acc) + [IdentityOf(last)];
        assert IdentityOf(last) !in Identities(acc);
      case Some(i) =>
        assert Identities(acc[i := acc[i].WithTarget(last.targets[0])]) == Identities(acc);
        assert Identities(acc)[i] == IdentityOf(last);
    }
  }

  // One representative per identity, in first-occurrence order.
  lemma {:induction false} ConsolidatedIdentities(vs: seq<CloneRecord>)
    requires HasTargets(vs)
    ensures Identities(Consolidated(vs)) == Dedup(Identities(vs))
  {
    if vs != [] {
      var init := vs[..|vs| - 1];
      ConsolidatedIdentities(init);
      assert Identities(vs)[..|vs| - 1] == Identities(init);
      DedupSnoc(Identities(vs));
      IdentitiesStep(Consolidated(init), vs[|vs| - 1]);
    }
  }

  // Consequences: the clones left are pairwise not `equals`, every input clone is
  // `equals` to one of them, each of them is `equals` to an input clone, and there are
  // never more of them than input clones.
  lemma ConsolidatedDistinct(vs: seq<CloneRecord>)
    requires HasTargets(vs)
    ensures var r := Consolidated(vs);
      |r| <= |vs|
      && (forall i, j :: 0 <= i < j < |r| ==> !r[i].SameSource(r[j]))
      && (forall j :: 0 <= j < |vs| ==> exists i :: 0 <= i < |r| && r[i].SameSource(vs[j]))
      && (forall i :: 0 <= i < |r| ==> exists j :: 0 <= j < |vs| && r[i].SameSource(vs[j]))
  {
    var r := Consolidated(vs);
    ConsolidatedIdentities(vs);
    DedupSpec(Identities(vs));
    forall i, j | 0 <= i < j < |r| ensures !r[i].SameSource(r[j]) {
      assert Identities(r)[i] != Identities(r)[j];
    }
    forall j | 0 <= j < |vs| ensures exists i :: 0 <= i < |r| && r[i].SameSource(vs[j]) {
      assert Identities(vs)[j] in Identities(r);
    }
    forall i | 0 <= i < |r| ensures exists j :: 0 <= j < |vs| && r[i].SameSource(vs[j]) {
      assert Identities(r)[i] in Identities(vs);
    }
  }

  // A list whose clones are pairwise not `equals` passes through unchanged.
  lemma {:induction false} ConsolidatedOfDistinct(ws: seq<CloneRecord>)
    requires HasTargets(ws) && NoDuplicates(Identities(ws))
    ensures Consolidated(ws) == ws
  {
    if ws != [] {
      var init := ws[..|ws| - 1];
      assert Identities(init) == Identities(ws)[..|ws| - 1];
      ConsolidatedOfDistinct(init);
      forall t | 0 <= t < |init| ensures !init[t].SameSource(ws[|ws| - 1]) {
        assert Identities(ws)[t] != Identities(ws)[|ws| - 1];
      }
      assert init + [ws[|ws| - 1]] == ws;
    }
  }

  // Consolidation is idempotent.
  lemma ConsolidatedIdempotent(vs: seq<CloneRecord>)
    requires HasTargets(vs)
    ensures Consolidated(Consolidated(vs)) == Consolidated(vs)
  {
    ConsolidatedIdentities(vs);
    DedupSpec(Identities(vs));
    ConsolidatedOfDistinct(Consolidated(vs));
  }

  // `x` is the first input clone of its identity, carrying the targets `Gathered` for it.
  predicate IsRepresentative(vs: seq<CloneRecord>, x: CloneRecord)
    requires HasTargets(vs)
  {
    IdentityOf(x) in Identities(vs)
    && x == vs[IndexOf(Identities(vs), IdentityOf(x))].(targets := Gathered(vs, IdentityOf(x)))
  }

  // Every clone of `rs` represents its identity among `vs`.
  predicate AllRepresented(vs: seq<CloneRecord>, rs: seq<CloneRecord>)
    requires HasTargets(vs)
  {
    forall u :: 0 <= u < |rs| ==> IsRepresentative(vs, rs[u])
  }

  // A representative whose identity differs from the new clone's stays one.
  lemma RepresentsKept(vs: seq<CloneRecord>, x: CloneRecord)
    requires HasTargets(vs) && vs != []
    requires IsRepresentative(vs[..|vs| - 1], x) && IdentityOf(x) != IdentityOf(vs[|vs| - 1])
    ensures IsRepresentative(vs, x)
  {
    var init := vs[..|vs| - 1];
    var j := IndexOf(Identities(init), IdentityOf(x));
    assert Identities(vs)[..j] == Identities(init)[..j];
    IndexOfUnique(Identities(vs), IdentityOf(x), j);
  }

  // A representative whose identity is the new clone's gains its first target.
  lemma RepresentsAbsorbs(vs: seq<CloneRecord>, x: CloneRecord)
    requires HasTargets(vs) && vs != []
    requires IsRepresentative(vs[..|vs| - 1], x) && IdentityOf(x) == IdentityOf(vs[|vs| - 1])
    ensures IsRepresentative(vs, x.WithTarget(vs[|vs| - 1].targets[0]))
  {
    var init := vs[..|vs| - 1];
    var j := IndexOf(Identities(init), IdentityOf(x));
    assert Identities(vs)[..j] == Identities(init)[..j];
    IndexOfUnique(Identities(vs), IdentityOf(x), j);
  }

  // A clone whose identity is new represents itself.
  lemma RepresentsNew(vs: seq<CloneRecord>)
    requires HasTargets(vs) && vs != []
    requires IdentityOf(vs[|vs| - 1]) !in Identities(vs[..|vs| - 1])
    ensures IsRepresentative(vs, vs[|vs| - 1])
  {
    assert Identities(vs)[..|vs| - 1] == Identities(vs[..|vs| - 1]);
    IndexOfUnique(Identities(vs), IdentityOf(vs[|vs| - 1]), |vs| - 1);
  }

  // The identities left are distinct and are those of the input.
  lemma ConsolidatedKeys(vs: seq<CloneRecord>)
    requires HasTargets(vs)
    ensures NoDuplicates(Identities(Consolidated(vs)))
    ensures forall x :: x in Identities(Consolidated(vs)) <==> x in Identities(vs)
  {
    ConsolidatedIdentities(vs);
    DedupSpec(Identities(vs));
  }

  // A step that appends keeps every accumulated clone a representative and adds one.
  lemma AppendRepresents(vs: seq<CloneRecord>, init: seq<CloneRecord>)
    requires HasTargets(vs) && vs != [] && init == vs[..|vs| - 1]
    requires AllRepresented(init, Consolidated(init))
    requires forall x :: x in Identities(Consolidated(init)) <==> x in Identities(init)
    requires FindEqual(Consolidated(init), vs[|vs| - 1]).None?
    ensures AllRepresented(vs, Consolidated(vs))
  {
    var last := vs[|vs| - 1];
    var acc := Consolidated(init);
    var r := Consolidated(vs);
    assert r == acc + [last];
    assert IdentityOf(last) !in Identities(acc);
    RepresentsNew(vs);
    forall t | 0 <= t < |acc| ensures IsRepresentative(vs, r[t]) {
      RepresentsKept(vs, acc[t]);
    }
  }

  // A step that adds a target keeps every accumulated clone a representative.
  lemma AbsorbRepresents(vs: seq<CloneRecord>, init: seq<CloneRecord>, i: nat)
    requires HasTargets(vs) && vs != [] && init == vs[..|vs| - 1]
    requires AllRepresented(init, Consolidated(init))
    requires NoDuplicates(Identities(Consolidated(init)))
    requires FindEqual(Consolidated(init), vs[|vs| - 1]) == Some(i)
    ensures AllRepresented(vs, Consolidated(vs))
  {
    var last := vs[|vs| - 1];
    var acc := Consolidated(init);
    var r := Consolidated(vs);
    assert r == acc[i := acc[i].WithTarget(last.targets[0])];
    RepresentsAbsorbs(vs, acc[i]);
    forall t | 0 <= t < |acc| && t != i ensures IsRepresentative(vs, r[t]) {
      assert Identities(acc)[t] != Identities(acc)[i];
      RepresentsKept(vs, acc[t]);
    }
  }

  // Each clone left is the first input clone of its identity, with the targets `Gathered`
  // for that identity.
  lemma {:induction false} ConsolidatedRepresentatives(vs: seq<CloneRecord>)
    requires HasTargets(vs)
    ensures AllRepresented(vs, Consolidated(vs))
  {
    if vs != [] {
      var init := vs[..|vs| - 1];
      ConsolidatedRepresentatives(init);
      ConsolidatedKeys(init);
      match FindEqual(Consolidated(init), vs[|vs| - 1]) {
        case None => AppendRepresents(vs, init);
        case Some(i) => AbsorbRepresents(vs, init, i);
      }
    }
  }

  // Every target any input clone was built with starts the representative's list or
  // follows it: no first target is lost.
  lemma {:induction false} GatheredKeepsFirstTargets(vs: seq<CloneRecord>, id: Identity)
    requires HasTargets(vs)
    ensures forall j :: 0 <= j < |vs| && IdentityOf(vs[j]) == id ==> vs[j].targets[0] in Gathered(vs, id)
  {
    if vs != [] {
      var init := vs[..|vs| - 1];
      GatheredKeepsFirstTargets(init, id);
      forall j | 0 <= j < |vs| && IdentityOf(vs[j]) == id ensures vs[j].targets[0] in Gathered(vs, id) {
        if j < |init| {
          assert init[j] == vs[j];
          assert id in Identities(init);
        }
      }
    }
  }

  // As written, each clone left is an input clone with exactly its own targets.
  lemma {:induction false} ConsolidatedAsWrittenKeepsInputs(vs: seq<CloneRecord>)
    ensures forall x :: x in ConsolidatedAsWritten(vs) ==> x in vs
  {
    if vs != [] {
      ConsolidatedAsWrittenKeepsInputs(vs[..|vs| - 1]);
    }
  }

  // Two matches of the same chunk in two stored files: the intended fold keeps both
  // targets, the fold as written loses the second one.
  lemma AsWrittenLosesTarget()
    ensures var line := SourceLines.Line(1, "int x;");
      var a := NewClone("A.java", "B.java", [line], [line]);
      var b := NewClone("A.java", "C.java", [line], [line]);
      ConsolidatedAsWritten([a, b]) == [a]
      && |Consolidated([a, b])| == 1
      && Consolidated([a, b])[0].targets == [Target("B.java", 1), Target("C.java", 1)]
  {
    var line := SourceLines.Line(1, "int x;");
    var a := NewClone("A.java", "B.java", [line], [line]);
    var b := NewClone("A.java", "C.java", [line], [line]);
    assert [a, b][..1] == [a] && [a][..0] == [];
    assert ConsolidatedAsWritten([a]) == [a];
    assert FindEqual([a], b) == Some(0);
    assert ConsolidatedAsWritten([a, b]) == ConsolidateStepAsWritten([a], b);
  }

  // Consolidation only gathers targets: when every input chunk has `k` lines, so does
  // every output chunk.
  lemma {:induction false} ConsolidatedChunkSizes(vs: seq<CloneRecord>, k: nat)
    requires HasTargets(vs)
    requires forall t :: 0 <= t < |vs| ==> |vs[t].sourceChunk| == k
    ensures forall u :: 0 <= u < |Consolidated(vs)| ==> |Consolidated(vs)[u].sourceChunk| == k
  {
    if vs != [] {
      ConsolidatedChunkSizes(vs[..|vs| - 1], k);
    }
  }

  // Gathering targets keeps valid clones of one file valid, and of that file.
  lemma {:induction false} ConsolidatedValid(vs: seq<CloneRecord>, name: string)
    requires HasTargets(vs)
    requires forall t :: 0 <= t < |vs| ==> vs[t].Valid() && vs[t].sourceName == name
    ensures forall u :: 0 <= u < |Consolidated(vs)| ==>
      Consolidated(vs)[u].Valid() && Consolidated(vs)[u].sourceName == name
  {
    if vs != [] {
      ConsolidatedValid(vs[..|vs| - 1], name);
    }
  }

  // The fold one clone further.
  lemma ConsolidatedSnoc(vs: seq<CloneRecord>, i: nat)
    requires i < |vs| && HasTargets(vs)
    ensures HasTargets(vs[..i]) && HasTargets(vs[..i + 1])
    ensures Consolidated(vs[..i + 1]) == ConsolidateStep(Consolidated(vs[..i]), vs[i])
  {
    assert vs[..i + 1][..i] == vs[..i];
  }
}


