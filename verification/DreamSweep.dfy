/**
 The nightly sweep of one vault: recalled engrams are embedded, clustered, merged and consolidated,
 and whatever was not consolidated is evolved. Each remote call may fail on its own.
 */
module DreamSweep {
  import opened Wrappers
  import opened Similarity
  import opened Clustering

  datatype Summary = Summary(id: string, concept: string, content: string)

  const THRESHOLD: real := 0.82

  /** What the embedding sidecar, the merge model and the vault answer. */
  datatype Answers = Answers(
    embed: Summary -> Option<Vector>,
    merge: seq<Engram> -> bool,
    consolidate: seq<Engram> -> bool)

  /** Failed and empty embeddings drop the engram from clustering. */
  function Embedded(engrams: seq<Summary>, answers: Answers): seq<Engram> {
    if engrams == [] then []
    else
      var e, rest := engrams[0], Embedded(engrams[1..], answers);
      match answers.embed(e)
      case Some(v) => if v == [] then rest else [Engram(e.id, e.concept, e.content, v)] + rest
      case None => rest
  }

  predicate Consolidates(cluster: seq<Engram>, answers: Answers) {
    |cluster| >= 2 && answers.merge(cluster) && answers.consolidate(cluster)
  }

  function Consolidated(clusters: seq<seq<Engram>>, answers: Answers): seq<seq<Engram>> {
    if clusters == [] then []
    else if Consolidates(clusters[0], answers) then [clusters[0]] + Consolidated(clusters[1..], answers)
    else Consolidated(clusters[1..], answers)
  }

  function IdSet(s: seq<Engram>): set<string> {
    set e | e in s :: e.id
  }

  function Without(engrams: seq<Summary>, ids: set<string>): seq<Summary> {
    if engrams == [] then []
    else if engrams[0].id in ids then Without(engrams[1..], ids)
    else [engrams[0]] + Without(engrams[1..], ids)
  }

  /** The clusters whose consolidation succeeds in a sweep. */
  function Sweep(engrams: seq<Summary>, answers: Answers, sqrt: Sqrt): seq<seq<Engram>> {
    Consolidated(LeaderClusters(Reaches(THRESHOLD, sqrt), Embedded(engrams, answers)), answers)
  }

  lemma {:induction false} EmbeddedAppend(a: seq<Summary>, b: seq<Summary>, answers: Answers)
    ensures Embedded(a + b, answers) == Embedded(a, answers) + Embedded(b, answers)
  {
    if a == [] {
      assert a + b == b;
    } else {
      var all := a + b;
      assert all[0] == a[0] && all[1..] == a[1..] + b;
      EmbeddedAppend(a[1..], b, answers);
    }
  }

  lemma {:induction false} ConsolidatedAppend(a: seq<seq<Engram>>, b: seq<seq<Engram>>, answers: Answers)
    ensures Consolidated(a + b, answers) == Consolidated(a, answers) + Consolidated(b, answers)
  {
    if a == [] {
      assert a + b == b;
    } else {
      ConsolidatedAppend(a[1..], b, answers);
      assert (a + b)[1..] == a[1..] + b;
    }
  }

  lemma {:induction false} WithoutAppend(a: seq<Summary>, b: seq<Summary>, ids: set<string>)
    ensures Without(a + b, ids) == Without(a, ids) + Without(b, ids)
  {
    if a == [] {
      assert a + b == b;
    } else {
      var all := a + b;
      assert all[0] == a[0] && all[1..] == a[1..] + b;
      WithoutAppend(a[1..], b, ids);
    }
  }

  lemma {:induction false} FlattenAppend(a: seq<seq<Engram>>, b: seq<Engram>)
    ensures Flatten(a + [b]) == Flatten(a) + b
  {
    if a == [] {
      assert [] + [b] == [b] && Flatten([b][1..]) == [];
    } else {
      FlattenAppend(a[1..], b);
      assert (a + [b])[1..] == a[1..] + [b];
    }
  }

  /** Exactly the engrams with a nonempty embedding are kept, with that embedding. */
  lemma {:induction false} EmbeddedIff(engrams: seq<Summary>, answers: Answers, x: Engram)
    ensures x in Embedded(engrams, answers) <==>
            x.vector != [] && Summary(x.id, x.concept, x.content) in engrams
            && answers.embed(Summary(x.id, x.concept, x.content)) == Some(x.vector)
  {
    if engrams != [] {
      EmbeddedIff(engrams[1..], answers, x);
      assert engrams == [engrams[0]] + engrams[1..];
    }
  }

  method EmbedEngrams(engrams: seq<Summary>, answers: Answers) returns (embedded: seq<Engram>)
    ensures embedded == Embedded(engrams, answers)
  {
    embedded := [];
    for i := 0 to |engrams|
      invariant embedded == Embedded(engrams[..i], answers)
    {
      var e := engrams[i];
      assert engrams[..i + 1] == engrams[..i] + [e];
      EmbeddedAppend(engrams[..i], [e], answers);
      assert Embedded([e][1..], answers) == [];
      var v := answers.embed(e);
      if v.Some? && v.value != [] {
        embedded := embedded + [Engram(e.id, e.concept, e.content, v.value)];
      }
    }
    assert engrams[..|engrams|] == engrams;
  }

  method ConsolidateClusters(clusters: seq<seq<Engram>>, answers: Answers)
    returns (done: seq<seq<Engram>>, ids: set<string>)
    ensures done == Consolidated(clusters, answers) && ids == IdSet(Flatten(done))
  {
    done, ids := [], {};
    for i := 0 to |clusters|
      invariant done == Consolidated(clusters[..i], answers)
      invariant ids == IdSet(Flatten(done))
    {
      var cluster := clusters[i];
      assert clusters[..i + 1] == clusters[..i] + [cluster];
      ConsolidatedAppend(clusters[..i], [cluster], answers);
      assert Consolidated([cluster][1..], answers) == [];
      if |cluster| >= 2 {
        if answers.merge(cluster) && answers.consolidate(cluster) {
          FlattenAppend(done, cluster);
          assert IdSet(Flatten(done) + cluster) == IdSet(Flatten(done)) + IdSet(cluster);
          done := done + [cluster];
          ids := ids + set e | e in cluster :: e.id;
        }
      }
    }
    assert clusters[..|clusters|] == clusters;
  }

  /** `done` lists the successful consolidations; `evolved` the engrams an evolve was attempted for. */
  method SweepVault(engrams: seq<Summary>, answers: Answers, sqrt: Sqrt)
    returns (done: seq<seq<Engram>>, ids: set<string>, evolved: seq<Summary>)
    ensures done == Sweep(engrams, answers, sqrt)
    ensures ids == IdSet(Flatten(done))
    ensures evolved == Without(engrams, ids)
  {
    if engrams == [] {
      return [], {}, [];
    }
    var embedded := EmbedEngrams(engrams, answers);
    if embedded == [] {
      WithoutNothing(engrams);
      return [], {}, engrams;
    }
    var clusters := CosineCluster(embedded, THRESHOLD, sqrt);
    done, ids := ConsolidateClusters(clusters, answers);
    evolved := [];
    for i := 0 to |engrams|
      invariant evolved == Without(engrams[..i], ids)
    {
      assert engrams[..i + 1] == engrams[..i] + [engrams[i]];
      WithoutAppend(engrams[..i], [engrams[i]], ids);
      assert Without([engrams[i]][1..], ids) == [];
      if engrams[i].id !in ids {
        evolved := evolved + [engrams[i]];
      }
    }
    assert engrams[..|engrams|] == engrams;
  }

  lemma {:induction false} WithoutNothing(engrams: seq<Summary>)
    ensures Without(engrams, {}) == engrams
  {
    if engrams != [] {
      WithoutNothing(engrams[1..]);
    }
  }

  // ---------------------------------------------------------------------------------------------
  // Every engram is handled once
  // ---------------------------------------------------------------------------------------------

  ghost predicate DistinctIds(s: seq<Engram>) {
    forall i, j :: 0 <= i < j < |s| ==> s[i].id != s[j].id
  }

  ghost predicate DistinctRecall(s: seq<Summary>) {
    forall i, j :: 0 <= i < j < |s| ==> s[i].id != s[j].id
  }

  lemma PermutationKeepsDistinctIds(s: seq<Engram>, t: seq<Engram>)
    requires multiset(s) == multiset(t) && DistinctIds(s)
    ensures DistinctIds(t)
  {
    forall i, j | 0 <= i < j < |t| ensures t[i].id != t[j].id {
      assert t[i] in multiset(s) && t[j] in multiset(s);
      OccursOnce(s, t[i]);
      RepeatsCount(t, i, j);
    }
  }

  lemma OccursOnce(s: seq<Engram>, x: Engram)
    requires DistinctIds(s) && x in s
    ensures multiset(s)[x] == 1
  {
    var p :| 0 <= p < |s| && s[p] == x;
    assert s == s[..p] + [x] + s[p + 1..];
  }

  lemma RepeatsCount(t: seq<Engram>, i: nat, j: nat)
    requires i < j < |t|
    ensures t[i] == t[j] ==> multiset(t)[t[i]] >= 2
  {
    assert t == t[..i] + [t[i]] + t[i + 1..j] + [t[j]] + t[j + 1..];
  }

  lemma {:induction false} EmbeddedIdsAreRecalled(engrams: seq<Summary>, answers: Answers)
    requires DistinctRecall(engrams)
    ensures DistinctIds(Embedded(engrams, answers))
    ensures forall e :: e in Embedded(engrams, answers) ==> exists s :: s in engrams && s.id == e.id
  {
    if engrams != [] {
      var rest := Embedded(engrams[1..], answers);
      EmbeddedIdsAreRecalled(engrams[1..], answers);
      forall e | e in rest ensures exists s :: s in engrams && s.id == e.id && s != engrams[0] {
        var s :| s in engrams[1..] && s.id == e.id;
        assert s in engrams;
      }
    }
  }

  lemma {:induction false} ConsolidatedStaysDistinct(clusters: seq<seq<Engram>>, answers: Answers)
    requires DistinctIds(Flatten(clusters))
    ensures var done := Flatten(Consolidated(clusters, answers));
      DistinctIds(done) && (forall e :: e in done ==> e in Flatten(clusters))
  {
    if clusters != [] {
      var head, rest := clusters[0], Flatten(clusters[1..]);
      var done := Consolidated(clusters[1..], answers);
      assert Flatten(clusters) == head + rest;
      assert forall i :: 0 <= i < |rest| ==> (head + rest)[|head| + i] == rest[i];
      ConsolidatedStaysDistinct(clusters[1..], answers);
      if Consolidates(head, answers) {
        assert ([head] + done)[1..] == done;
        var all := head + Flatten(done);
        forall i, j | 0 <= i < j < |all| ensures all[i].id != all[j].id {
          if i < |head| <= j {
            assert all[j] in rest;
            var k :| 0 <= k < |rest| && rest[k] == all[j];
            assert (head + rest)[|head| + k] == all[j] && (head + rest)[i] == all[i];
          } else if j < |head| {
            assert (head + rest)[i] == all[i] && (head + rest)[j] == all[j];
          }
        }
      }
    }
  }

  lemma {:induction false} DistinctIdsCount(s: seq<Engram>)
    requires DistinctIds(s)
    ensures |IdSet(s)| == |s|
  {
    if s != [] {
      DistinctIdsCount(s[1..]);
      assert IdSet(s) == {s[0].id} + IdSet(s[1..]);
    }
  }

  lemma {:induction false} WithoutCounts(engrams: seq<Summary>, ids: set<string>)
    requires DistinctRecall(engrams)
    requires forall id :: id in ids ==> exists s :: s in engrams && s.id == id
    ensures |Without(engrams, ids)| + |ids| == |engrams|
    decreases |engrams|
  {
    if engrams == [] {
      assert ids == {};
    } else {
      var rest, ids' := engrams[1..], ids - {engrams[0].id};
      forall id | id in ids' ensures exists s :: s in rest && s.id == id {
        var s :| s in engrams && s.id == id;
        assert s in rest;
      }
      WithoutCounts(rest, ids');
      WithoutIgnoresAbsent(rest, ids, engrams[0].id);
      if engrams[0].id !in ids {
        assert ids' == ids;
      }
    }
  }

  lemma {:induction false} WithoutIgnoresAbsent(engrams: seq<Summary>, ids: set<string>, id: string)
    requires forall s :: s in engrams ==> s.id != id
    ensures Without(engrams, ids) == Without(engrams, ids - {id})
  {
    if engrams != [] {
      WithoutIgnoresAbsent(engrams[1..], ids, id);
    }
  }

  lemma {:induction false} WithoutSelects(engrams: seq<Summary>, ids: set<string>, s: Summary)
    ensures s in Without(engrams, ids) <==> s in engrams && s.id !in ids
  {
    if engrams != [] {
      WithoutSelects(engrams[1..], ids, s);
      assert engrams == [engrams[0]] + engrams[1..];
    }
  }

  lemma {:induction false} ConsolidatedSelects(clusters: seq<seq<Engram>>, answers: Answers, c: seq<Engram>)
    ensures c in Consolidated(clusters, answers) <==> c in clusters && Consolidates(c, answers)
  {
    if clusters != [] {
      ConsolidatedSelects(clusters[1..], answers, c);
      assert clusters == [clusters[0]] + clusters[1..];
    }
  }

  lemma {:induction false} FlattenContains(clusters: seq<seq<Engram>>, e: Engram)
    ensures e in Flatten(clusters) <==> exists c :: c in clusters && e in c
  {
    if clusters != [] {
      FlattenContains(clusters[1..], e);
      assert clusters == [clusters[0]] + clusters[1..];
      if e in Flatten(clusters) && e !in clusters[0] {
        var c :| c in clusters[1..] && e in c;
        assert c in clusters;
      }
    }
  }

  /**
   With distinct ids, whatever fails: no engram is consolidated twice, every recalled engram is
   either consolidated or evolved and never both, and the two counts add up to the total.
   */
  lemma EveryEngramIsHandledOnce(engrams: seq<Summary>, answers: Answers, sqrt: Sqrt)
    requires DistinctRecall(engrams)
    ensures var done := Flatten(Sweep(engrams, answers, sqrt));
      var evolved := Without(engrams, IdSet(done));
      && DistinctIds(done) && |IdSet(done)| == |done|
      && |done| + |evolved| == |engrams|
      && (forall s :: s in engrams ==> (s in evolved <==> s.id !in IdSet(done)))
  {
    var embedded := Embedded(engrams, answers);
    var clusters := LeaderClusters(Reaches(THRESHOLD, sqrt), embedded);
    var done := Flatten(Sweep(engrams, answers, sqrt));
    EmbeddedIdsAreRecalled(engrams, answers);
    ClustersPartition(Reaches(THRESHOLD, sqrt), embedded);
    PermutationKeepsDistinctIds(embedded, Flatten(clusters));
    ConsolidatedStaysDistinct(clusters, answers);
    DistinctIdsCount(done);
    forall id | id in IdSet(done) ensures exists s :: s in engrams && s.id == id {
      var e :| e in done && e.id == id;
      assert e in multiset(Flatten(clusters)) && e in embedded;
    }
    WithoutCounts(engrams, IdSet(done));
    forall s | s in engrams ensures s in Without(engrams, IdSet(done)) <==> s.id !in IdSet(done) {
      WithoutSelects(engrams, IdSet(done), s);
    }
  }

  /** An engram is consolidated exactly when a cluster holding it has two members and both calls succeed. */
  lemma ConsolidatedIff(engrams: seq<Summary>, answers: Answers, sqrt: Sqrt, e: Engram)
    ensures e in Flatten(Sweep(engrams, answers, sqrt))
            <==> exists c :: c in LeaderClusters(Reaches(0.82, sqrt), Embedded(engrams, answers))
                          && e in c && |c| >= 2 && answers.merge(c) && answers.consolidate(c)
  {
    var clusters := LeaderClusters(Reaches(THRESHOLD, sqrt), Embedded(engrams, answers));
    FlattenContains(Sweep(engrams, answers, sqrt), e);
    forall c ensures c in Sweep(engrams, answers, sqrt) <==> c in clusters && Consolidates(c, answers) {
      ConsolidatedSelects(clusters, answers, c);
    }
  }
}
