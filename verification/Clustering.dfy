/**
 Greedy leader clustering of embedded engrams: an in-place loop over an `assigned` array, and the
 recursive clustering it computes.
 */
module Clustering {
  import opened Similarity

  datatype Engram = Engram(id: string, concept: string, content: string, vector: Vector)

  type Close = (Engram, Engram) -> bool

  function Reaches(threshold: real, sqrt: Sqrt): Close {
    (a: Engram, b: Engram) => CosineSimilarity(a.vector, b.vector, sqrt) >= threshold
  }

  /** The elements of `s`, in order, that are (or are not) close to the leader. */
  function Near(close: Close, leader: Engram, s: seq<Engram>, near: bool): (r: seq<Engram>)
    ensures |r| <= |s|
  {
    if s == [] then []
    else if close(leader, s[0]) == near then [s[0]] + Near(close, leader, s[1..], near)
    else Near(close, leader, s[1..], near)
  }

  lemma NearCons(close: Close, leader: Engram, x: Engram, rest: seq<Engram>, near: bool)
    ensures Near(close, leader, [x] + rest, near)
         == if close(leader, x) == near then [x] + Near(close, leader, rest, near) else Near(close, leader, rest, near)
  {
    assert ([x] + rest)[1..] == rest;
  }

  /** The head leads a cluster of everything near it; the rest is clustered the same way. */
  function LeaderClusters(close: Close, s: seq<Engram>): seq<seq<Engram>>
    decreases |s|
  {
    if s == [] then []
    else [[s[0]] + Near(close, s[0], s[1..], true)] + LeaderClusters(close, Near(close, s[0], s[1..], false))
  }

  // ---------------------------------------------------------------------------------------------
  // The loop
  // ---------------------------------------------------------------------------------------------

  /** The engrams from `i` on that have no cluster yet. */
  function Open(engrams: seq<Engram>, taken: seq<bool>, i: nat): seq<Engram>
    requires i <= |engrams| == |taken|
    decreases |engrams| - i
  {
    if i == |engrams| then []
    else if taken[i] then Open(engrams, taken, i + 1)
    else [engrams[i]] + Open(engrams, taken, i + 1)
  }

  lemma {:induction false} OpenDependsOnTheRest(engrams: seq<Engram>, taken: seq<bool>, taken': seq<bool>, i: nat)
    requires i <= |engrams| == |taken| == |taken'|
    requires forall k :: i <= k < |engrams| ==> taken[k] == taken'[k]
    ensures Open(engrams, taken, i) == Open(engrams, taken', i)
    decreases |engrams| - i
  {
    if i < |engrams| {
      OpenDependsOnTheRest(engrams, taken, taken', i + 1);
    }
  }

  /** Taking everything near the leader leaves what is far from it. */
  lemma {:induction false} TakingTheNearLeavesTheFar(
      close: Close, leader: Engram, engrams: seq<Engram>, taken: seq<bool>, taken': seq<bool>, i: nat)
    requires i <= |engrams| == |taken| == |taken'|
    requires forall k :: i <= k < |engrams| ==> (taken'[k] <==> taken[k] || close(leader, engrams[k]))
    ensures Open(engrams, taken', i) == Near(close, leader, Open(engrams, taken, i), false)
    decreases |engrams| - i
  {
    if i < |engrams| {
      TakingTheNearLeavesTheFar(close, leader, engrams, taken, taken', i + 1);
      var rest, rest' := Open(engrams, taken, i + 1), Open(engrams, taken', i + 1);
      if taken[i] {
        assert Open(engrams, taken, i) == rest && Open(engrams, taken', i) == rest';
      } else {
        NearCons(close, leader, engrams[i], rest, false);
        if close(leader, engrams[i]) {
          assert Open(engrams, taken', i) == rest';
        } else {
          assert Open(engrams, taken', i) == [engrams[i]] + rest';
        }
      }
    }
  }

  lemma NearOpen(close: Close, leader: Engram, engrams: seq<Engram>, taken: seq<bool>, j: nat)
    requires j < |engrams| == |taken|
    ensures Near(close, leader, Open(engrams, taken, j), true)
         == var later := Near(close, leader, Open(engrams, taken, j + 1), true);
            if !taken[j] && close(leader, engrams[j]) then [engrams[j]] + later else later
  {
    var rest := Open(engrams, taken, j + 1);
    if taken[j] {
      assert Open(engrams, taken, j) == rest;
    } else {
      NearCons(close, leader, engrams[j], rest, true);
    }
  }

  /** The inner loop: takes every open engram after `i` that is close to engram `i`. */
  method Gather(engrams: seq<Engram>, i: nat, close: Close, taken: array<bool>) returns (cluster: seq<Engram>)
    requires i < |engrams| == taken.Length
    modifies taken
    ensures var rest := Open(engrams, old(taken[..]), i + 1);
      && cluster == [engrams[i]] + Near(close, engrams[i], rest, true)
      && Open(engrams, taken[..], i + 1) == Near(close, engrams[i], rest, false)
  {
    ghost var before, leader := taken[..], engrams[i];
    ghost var more := Near(close, leader, Open(engrams, before, i + 1), true);
    ghost var all := [leader] + more;
    cluster := [engrams[i]];
    taken[i] := true;
    var j := i + 1;
    while j < |engrams|
      invariant i < j <= |engrams|
      invariant forall k :: i < k < j ==> (taken[k] <==> before[k] || close(leader, engrams[k]))
      invariant forall k :: j <= k < |engrams| ==> taken[k] == before[k]
      invariant more == Near(close, leader, Open(engrams, before, j), true)
      invariant all == cluster + more
    {
      NearOpen(close, leader, engrams, before, j);
      if !taken[j] && close(engrams[i], engrams[j]) {
        cluster := cluster + [engrams[j]];
        taken[j] := true;
      }
      more := Near(close, leader, Open(engrams, before, j + 1), true);
      j := j + 1;
    }
    TakingTheNearLeavesTheFar(close, engrams[i], engrams, before, taken[..], i + 1);
  }

  method Cluster(engrams: seq<Engram>, close: Close) returns (clusters: seq<seq<Engram>>)
    ensures clusters == LeaderClusters(close, engrams)
  {
    var taken := new bool[|engrams|](_ => false);
    clusters := [];
    AllOpen(engrams, taken[..], 0);
    assert engrams[0..] == engrams;
    ghost var todo := LeaderClusters(close, engrams);
    var i := 0;
    while i < |engrams|
      invariant 0 <= i <= |engrams|
      invariant todo == LeaderClusters(close, Open(engrams, taken[..], i))
      invariant LeaderClusters(close, engrams) == clusters + todo
    {
      ghost var before := taken[..];
      if !taken[i] {
        var cluster := Gather(engrams, i, close, taken);
        todo := OpenLeads(close, engrams, before, i, clusters, cluster);
        clusters := clusters + [cluster];
      } else {
        assert Open(engrams, before, i) == Open(engrams, before, i + 1);
      }
      i := i + 1;
    }
  }

  method CosineCluster(engrams: seq<Engram>, threshold: real, sqrt: Sqrt) returns (clusters: seq<seq<Engram>>)
    ensures clusters == LeaderClusters(Reaches(threshold, sqrt), engrams)
  {
    clusters := Cluster(engrams, Reaches(threshold, sqrt));
  }

  /** The next open engram leads the next cluster. */
  lemma OpenLeads(
      close: Close, engrams: seq<Engram>, taken: seq<bool>, i: nat, clusters: seq<seq<Engram>>, cluster: seq<Engram>)
    returns (later: seq<seq<Engram>>)
    requires i < |engrams| == |taken| && !taken[i]
    requires cluster == [engrams[i]] + Near(close, engrams[i], Open(engrams, taken, i + 1), true)
    ensures later == LeaderClusters(close, Near(close, engrams[i], Open(engrams, taken, i + 1), false))
    ensures clusters + LeaderClusters(close, Open(engrams, taken, i)) == (clusters + [cluster]) + later
  {
    var rest := Open(engrams, taken, i + 1);
    later := LeaderClusters(close, Near(close, engrams[i], rest, false));
    assert Open(engrams, taken, i) == [engrams[i]] + rest;
    assert ([engrams[i]] + rest)[1..] == rest;
    assert LeaderClusters(close, Open(engrams, taken, i)) == [cluster] + later;
  }

  lemma {:induction false} AllOpen(engrams: seq<Engram>, taken: seq<bool>, i: nat)
    requires i <= |engrams| == |taken| && forall k :: i <= k < |taken| ==> !taken[k]
    ensures Open(engrams, taken, i) == engrams[i..]
    decreases |engrams| - i
  {
    if i < |engrams| {
      AllOpen(engrams, taken, i + 1);
    }
  }

  // ---------------------------------------------------------------------------------------------
  // What the clustering means
  // ---------------------------------------------------------------------------------------------

  function Flatten(clusters: seq<seq<Engram>>): seq<Engram> {
    if clusters == [] then [] else clusters[0] + Flatten(clusters[1..])
  }

  function Leaders(clusters: seq<seq<Engram>>): seq<Engram>
    requires forall i :: 0 <= i < |clusters| ==> clusters[i] != []
  {
    if clusters == [] then [] else [clusters[0][0]] + Leaders(clusters[1..])
  }

  /** `t` is `s` with some elements left out. */
  predicate IsSubsequence(t: seq<Engram>, s: seq<Engram>) {
    if t == [] then true
    else if s == [] then false
    else if t[0] == s[0] then IsSubsequence(t[1..], s[1..])
    else IsSubsequence(t, s[1..])
  }

  lemma {:induction false} NearSplits(close: Close, leader: Engram, s: seq<Engram>)
    ensures multiset(Near(close, leader, s, true)) + multiset(Near(close, leader, s, false)) == multiset(s)
  {
    if s != [] {
      NearSplits(close, leader, s[1..]);
      var near, far := Near(close, leader, s[1..], true), Near(close, leader, s[1..], false);
      assert multiset(s) == multiset{s[0]} + multiset(s[1..]) by {
        assert s == [s[0]] + s[1..];
      }
      if close(leader, s[0]) {
        assert Near(close, leader, s, true) == [s[0]] + near && Near(close, leader, s, false) == far;
      } else {
        assert Near(close, leader, s, true) == near && Near(close, leader, s, false) == [s[0]] + far;
      }
    }
  }

  lemma {:induction false} NearSelects(close: Close, leader: Engram, s: seq<Engram>, near: bool, x: Engram)
    ensures x in Near(close, leader, s, near) <==> x in s && close(leader, x) == near
  {
    if s != [] {
      NearSelects(close, leader, s[1..], near, x);
      assert s == [s[0]] + s[1..];
    }
  }

  /** Every engram is in exactly one cluster, as often as it was given. */
  lemma {:induction false} ClustersPartition(close: Close, s: seq<Engram>)
    ensures multiset(Flatten(LeaderClusters(close, s))) == multiset(s)
    decreases |s|
  {
    if s != [] {
      var near, far := Near(close, s[0], s[1..], true), Near(close, s[0], s[1..], false);
      NearSplits(close, s[0], s[1..]);
      ClustersPartition(close, far);
      var clusters := LeaderClusters(close, s);
      assert clusters[1..] == LeaderClusters(close, far);
      assert Flatten(clusters) == [s[0]] + near + Flatten(clusters[1..]);
      assert s == [s[0]] + s[1..];
    }
  }

  /**
   A cluster holds its leader and what is close to it, and nothing in a later cluster is close to
   an earlier leader; in particular leaders are pairwise apart.
   */
  ghost predicate LedApart(close: Close, clusters: seq<seq<Engram>>) {
    && (forall i :: 0 <= i < |clusters| ==> clusters[i] != [])
    && (forall i, k :: 0 <= i < |clusters| && 1 <= k < |clusters[i]| ==> close(clusters[i][0], clusters[i][k]))
    && (forall i, j, k :: 0 <= i < j < |clusters| && 0 <= k < |clusters[j]| ==>
          !close(clusters[i][0], clusters[j][k]))
  }

  lemma {:induction false} ClusterMembersAreGiven(close: Close, s: seq<Engram>, i: nat, x: Engram)
    requires i < |LeaderClusters(close, s)| && x in LeaderClusters(close, s)[i]
    ensures x in s
    decreases |s|
  {
    var far := Near(close, s[0], s[1..], false);
    if i == 0 {
      NearSelects(close, s[0], s[1..], true, x);
    } else {
      ClusterMembersAreGiven(close, far, i - 1, x);
      NearSelects(close, s[0], s[1..], false, x);
    }
  }

  lemma {:induction false} ClustersAreLedApart(close: Close, s: seq<Engram>)
    ensures LedApart(close, LeaderClusters(close, s))
    decreases |s|
  {
    if s != [] {
      var near, far := Near(close, s[0], s[1..], true), Near(close, s[0], s[1..], false);
      var clusters, rest := LeaderClusters(close, s), LeaderClusters(close, far);
      ClustersAreLedApart(close, far);
      assert forall j :: 1 <= j < |clusters| ==> clusters[j] == rest[j - 1];
      forall k | 1 <= k < |clusters[0]| ensures close(s[0], clusters[0][k]) {
        assert clusters[0][k] == near[k - 1];
        NearSelects(close, s[0], s[1..], true, near[k - 1]);
      }
      forall j, k | 1 <= j < |clusters| && 0 <= k < |clusters[j]| ensures !close(s[0], clusters[j][k]) {
        ClusterMembersAreGiven(close, far, j - 1, clusters[j][k]);
        NearSelects(close, s[0], s[1..], false, clusters[j][k]);
      }
    }
  }

  lemma {:induction false} NearIsSubsequence(close: Close, leader: Engram, s: seq<Engram>, near: bool)
    ensures IsSubsequence(Near(close, leader, s, near), s)
  {
    if s != [] {
      NearIsSubsequence(close, leader, s[1..], near);
      var kept := Near(close, leader, s[1..], near);
      if close(leader, s[0]) == near {
        assert ([s[0]] + kept)[1..] == kept;
      } else {
        assert Near(close, leader, s, near) == kept;
        SkipHead(kept, s);
      }
    }
  }

  lemma {:induction false} SkipHead(t: seq<Engram>, s: seq<Engram>)
    requires s != [] && IsSubsequence(t, s[1..])
    ensures IsSubsequence(t, s)
    decreases |s|, 0
  {
    if t != [] && t[0] == s[0] {
      DropHead(t, s[1..]);
    }
  }

  lemma {:induction false} DropHead(t: seq<Engram>, s: seq<Engram>)
    requires t != [] && IsSubsequence(t, s)
    ensures IsSubsequence(t[1..], s)
    decreases |s|, 1
  {
    if t[0] == s[0] {
      SkipHead(t[1..], s);
    } else {
      DropHead(t, s[1..]);
      SkipHead(t[1..], s);
    }
  }

  lemma {:induction false} SubsequenceTransitive(r: seq<Engram>, t: seq<Engram>, s: seq<Engram>)
    requires IsSubsequence(r, t) && IsSubsequence(t, s)
    ensures IsSubsequence(r, s)
    decreases |s|
  {
    if r != [] {
      if t[0] == s[0] {
        if r[0] == t[0] {
          SubsequenceTransitive(r[1..], t[1..], s[1..]);
        } else {
          SubsequenceTransitive(r, t[1..], s[1..]);
        }
      } else {
        SubsequenceTransitive(r, t, s[1..]);
        SkipHead(r, s);
      }
    }
  }

  /** Each cluster, and the list of leaders, lists engrams in the order they were given. */
  lemma {:induction false} ClustersKeepOrder(close: Close, s: seq<Engram>)
    ensures var clusters := LeaderClusters(close, s);
      && (forall i :: 0 <= i < |clusters| ==> clusters[i] != [] && IsSubsequence(clusters[i], s))
      && IsSubsequence(Leaders(clusters), s)
    decreases |s|
  {
    ClustersAreLedApart(close, s);
    if s != [] {
      var near, far := Near(close, s[0], s[1..], true), Near(close, s[0], s[1..], false);
      var clusters, rest := LeaderClusters(close, s), LeaderClusters(close, far);
      ClustersKeepOrder(close, far);
      NearIsSubsequence(close, s[0], s[1..], true);
      NearIsSubsequence(close, s[0], s[1..], false);
      assert clusters[0][1..] == near && clusters[1..] == rest;
      forall c | c in rest ensures IsSubsequence(c, s) {
        SubsequenceTransitive(c, far, s[1..]);
        SkipHead(c, s);
      }
      SubsequenceTransitive(Leaders(rest), far, s[1..]);
      assert Leaders(clusters)[1..] == Leaders(rest);
    }
  }

  ghost predicate Together(clusters: seq<seq<Engram>>, x: Engram, y: Engram) {
    exists i :: 0 <= i < |clusters| && x in clusters[i] && y in clusters[i]
  }

  /** Engrams no leader can tell apart, and that are close to each other, share a cluster. */
  lemma {:induction false} TwinsShareACluster(close: Close, s: seq<Engram>, x: Engram, y: Engram)
    requires x in s && y in s && close(x, y) && close(y, x)
    requires forall z :: close(z, x) == close(z, y)
    ensures Together(LeaderClusters(close, s), x, y)
    decreases |s|
  {
    var clusters := LeaderClusters(close, s);
    var far := Near(close, s[0], s[1..], false);
    assert s == [s[0]] + s[1..];
    NearSelects(close, s[0], s[1..], true, x);
    NearSelects(close, s[0], s[1..], true, y);
    if s[0] == x || s[0] == y || close(s[0], x) {
      assert x in clusters[0] && y in clusters[0];
    } else {
      NearSelects(close, s[0], s[1..], false, x);
      NearSelects(close, s[0], s[1..], false, y);
      TwinsShareACluster(close, far, x, y);
      var i :| 0 <= i < |LeaderClusters(close, far)|
            && x in LeaderClusters(close, far)[i] && y in LeaderClusters(close, far)[i];
      assert clusters[i + 1] == LeaderClusters(close, far)[i];
    }
  }

  /** Two engrams with the same nonzero vector are clustered together under any threshold up to 1. */
  lemma EqualVectorsShareACluster(s: seq<Engram>, x: Engram, y: Engram, threshold: real, sqrt: Sqrt)
    requires IsSqrt(sqrt) && threshold <= 1.0
    requires x in s && y in s && x.vector == y.vector && Dot(x.vector, x.vector) > 0.0
    ensures Together(LeaderClusters(Reaches(threshold, sqrt), s), x, y)
  {
    SelfSimilarity(x.vector, sqrt);
    TwinsShareACluster(Reaches(threshold, sqrt), s, x, y);
  }

  /**
   Two engrams given alone that share a vector form one cluster exactly when the vector is nonzero
   and the threshold at most 1, or the threshold is not positive.
   */
  lemma TwinsAloneShareAClusterIff(x: Engram, y: Engram, threshold: real, sqrt: Sqrt)
    requires IsSqrt(sqrt) && x != y && x.vector == y.vector
    ensures Together(LeaderClusters(Reaches(threshold, sqrt), [x, y]), x, y)
            <==> (Dot(x.vector, x.vector) > 0.0 && threshold <= 1.0) || threshold <= 0.0
  {
    SelfSimilarity(x.vector, sqrt);
    var close := Reaches(threshold, sqrt);
    PairClusters(close, x, y);
    if close(x, y) {
      assert x in [[x, y]][0] && y in [[x, y]][0];
    }
  }

  /**
   Two engrams given alone whose vectors are opposite share a cluster only under a threshold that every
   pair of such vectors reaches: -1, or 0 for zero vectors.
   */
  lemma OppositesAloneShareAClusterIff(x: Engram, y: Engram, threshold: real, sqrt: Sqrt)
    requires IsSqrt(sqrt) && x != y && x.vector == Scale(-1.0, y.vector)
    ensures Together(LeaderClusters(Reaches(threshold, sqrt), [x, y]), x, y)
            <==> threshold <= if Dot(y.vector, y.vector) > 0.0 then -1.0 else 0.0
  {
    SelfSimilarity(y.vector, sqrt);
    SimilarityFlips(y.vector, y.vector, sqrt);
    var close := Reaches(threshold, sqrt);
    PairClusters(close, x, y);
    if close(x, y) {
      assert x in [[x, y]][0] && y in [[x, y]][0];
    }
  }

  lemma PairClusters(close: Close, x: Engram, y: Engram)
    ensures LeaderClusters(close, [x, y]) == if close(x, y) then [[x, y]] else [[x], [y]]
  {
    assert [x, y][1..] == [y] && [y][1..] == [];
    NearCons(close, x, y, [], true);
    NearCons(close, x, y, [], false);
    assert [y] + [] == [y] && [x] + [] == [x] && [x] + [y] == [x, y];
    assert Near(close, y, [], true) == [] && Near(close, y, [], false) == [];
    assert Near(close, x, [], true) == [] && Near(close, x, [], false) == [];
    assert LeaderClusters(close, []) == [];
    assert LeaderClusters(close, [y]) == [[y]];
  }
}
