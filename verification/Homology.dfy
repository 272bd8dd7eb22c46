// Persistent H0: union-find with path compression and union by rank, driven Kruskal-style.
module Homology {
  import opened Common
  import opened Graphs
  import S = Sorting

  // ----- the forest -----

  ghost function Class(lab: seq<nat>, r: nat): set<nat>
  {
    set x | 0 <= x < |lab| && lab[x] == r
  }

  /** The parent array is a forest whose trees are the classes of `lab`, each labelled by its
      root; ranks strictly grow along parent links. */
  ghost predicate Forest(parent: seq<nat>, rank: seq<nat>, lab: seq<nat>)
  {
    && |parent| == |rank| == |lab|
    && (forall x :: 0 <= x < |lab| ==> lab[x] < |lab| && lab[lab[x]] == lab[x])
    && (forall x {:trigger parent[x]} :: 0 <= x < |lab| ==> parent[x] < |lab| && lab[parent[x]] == lab[x])
    && (forall x {:trigger parent[x]} :: 0 <= x < |lab| ==> (parent[x] == x <==> lab[x] == x))
    && (forall x {:trigger parent[x]} :: 0 <= x < |lab| && parent[x] != x ==> rank[x] < rank[parent[x]])
  }

  /** A root of rank k has at least 2^k nodes under it. */
  ghost predicate Sized(rank: seq<nat>, lab: seq<nat>)
    requires |rank| == |lab|
  {
    forall r :: 0 <= r < |lab| && lab[r] == r ==> Power(rank[r]) <= |Class(lab, r)|
  }

  lemma ClassIn(lab: seq<nat>, r: nat)
    ensures |Class(lab, r)| <= |lab|
  {
    BelowSize(|lab|);
    SubsetSize(Class(lab, r), Below(|lab|));
  }

  ghost function Top(rank: seq<nat>): (t: nat)
    ensures forall x :: 0 <= x < |rank| ==> rank[x] <= t
  {
    if rank == [] then 0
    else var t := Top(rank[..|rank| - 1]); if rank[|rank| - 1] > t then rank[|rank| - 1] else t
  }

  lemma {:induction false} RankBelowRoot(parent: seq<nat>, rank: seq<nat>, lab: seq<nat>, x: nat)
    requires Forest(parent, rank, lab) && x < |lab|
    ensures rank[x] <= rank[lab[x]] && (lab[x] != x ==> rank[x] < rank[lab[x]])
    decreases Top(rank) - rank[x]
  {
    if parent[x] != x {
      RankBelowRoot(parent, rank, lab, parent[x]);
    }
  }

  lemma {:induction false} PowerMonotone(a: nat, b: nat)
    requires a <= b
    ensures Power(a) <= Power(b)
  {
    if a < b {
      PowerMonotone(a, b - 1);
    }
  }

  /** Ranks stay logarithmic in the number of nodes, so the byte that holds one cannot overflow. */
  lemma RankBound(parent: seq<nat>, rank: seq<nat>, lab: seq<nat>, x: nat)
    requires Forest(parent, rank, lab) && Sized(rank, lab) && x < |lab|
    ensures Power(rank[x]) <= |lab|
    ensures |lab| < Power(256) ==> rank[x] < 256
  {
    RankBelowRoot(parent, rank, lab, x);
    PowerMonotone(rank[x], rank[lab[x]]);
    ClassIn(lab, lab[x]);
    if rank[x] >= 256 {
      PowerMonotone(256, rank[x]);
    }
  }

  /** `find`: the root of x's tree. Compressing the path moves no node to another class. */
  method Find(parent: array<nat>, ghost rank: seq<nat>, ghost lab: seq<nat>, x: nat) returns (root: nat)
    requires Forest(parent[..], rank, lab) && x < |lab|
    modifies parent
    ensures Forest(parent[..], rank, lab) && root == lab[x] && parent[x] == root
    decreases Top(rank) - rank[x]
  {
    if parent[x] != x {
      var r := Find(parent, rank, lab, parent[x]);
      RankBelowRoot(parent[..], rank, lab, x);
      parent[x] := r;
    }
    root := parent[x];
  }

  /** The labels after the class of one root joins that of another. */
  function Relabel(lab: seq<nat>, from: nat, to: nat): (r: seq<nat>)
    ensures |r| == |lab|
  {
    seq(|lab|, x requires 0 <= x < |lab| => if lab[x] == from then to else lab[x])
  }

  ghost function Roots(lab: seq<nat>): set<nat>
  {
    set r | 0 <= r < |lab| && lab[r] == r
  }

  lemma RelabelForest(parent: seq<nat>, rank: seq<nat>, lab: seq<nat>, from: nat, to: nat, parent': seq<nat>,
                      rank': seq<nat>)
    requires Forest(parent, rank, lab) && from < |lab| && to < |lab| && lab[from] == from && lab[to] == to && from != to
    requires parent' == parent[from := to] && rank[from] <= rank[to]
    requires rank' == rank[to := if rank[from] == rank[to] then rank[to] + 1 else rank[to]]
    ensures Forest(parent', rank', Relabel(lab, from, to))
  {
  }

  lemma RelabelSized(parent: seq<nat>, rank: seq<nat>, lab: seq<nat>, from: nat, to: nat, rank': seq<nat>)
    requires Forest(parent, rank, lab) && Sized(rank, lab)
    requires from < |lab| && to < |lab| && lab[from] == from && lab[to] == to && from != to && rank[from] <= rank[to]
    requires rank' == rank[to := if rank[from] == rank[to] then rank[to] + 1 else rank[to]]
    ensures Sized(rank', Relabel(lab, from, to))
  {
    var lab' := Relabel(lab, from, to);
    forall r | 0 <= r < |lab'| && lab'[r] == r
      ensures Power(rank'[r]) <= |Class(lab', r)|
    {
      if r == to {
        assert Class(lab', to) == Class(lab, to) + Class(lab, from);
        assert Power(rank[to]) <= |Class(lab, to)| && Power(rank[from]) <= |Class(lab, from)|;
      } else {
        assert Class(lab', r) == Class(lab, r);
      }
    }
  }

  lemma RelabelRoots(lab: seq<nat>, from: nat, to: nat)
    requires from < |lab| && to < |lab| && lab[from] == from && lab[to] == to && from != to
    ensures Roots(Relabel(lab, from, to)) == Roots(lab) - {from}
    ensures |Roots(Relabel(lab, from, to))| == |Roots(lab)| - 1
  {
    var lab' := Relabel(lab, from, to);
    forall r
      ensures r in Roots(lab') <==> r in Roots(lab) - {from}
    {
    }
    assert Roots(lab') == Roots(lab) - {from};
  }

  /** Two classes made one, the others as they were. */
  ghost predicate Merged(lab: seq<nat>, x: nat, y: nat, lab': seq<nat>)
    requires x < |lab| && y < |lab|
  {
    && |lab'| == |lab|
    && forall a, b :: 0 <= a < |lab| && 0 <= b < |lab| ==>
         (lab'[a] == lab'[b] <==>
           lab[a] == lab[b] || (lab[a] == lab[x] && lab[b] == lab[y]) || (lab[a] == lab[y] && lab[b] == lab[x]))
  }

  lemma RelabelMerges(parent: seq<nat>, rank: seq<nat>, lab: seq<nat>, x: nat, y: nat, from: nat, to: nat)
    requires Forest(parent, rank, lab) && x < |lab| && y < |lab|
    requires (from == lab[x] && to == lab[y]) || (from == lab[y] && to == lab[x])
    ensures Merged(lab, x, y, Relabel(lab, from, to))
  {
  }

  /** Hang the tree of one root under another of at least its rank. */
  method Hang(parent: array<nat>, rank: array<nat>, ghost lab: seq<nat>, from: nat, to: nat)
    returns (ghost lab': seq<nat>)
    requires parent != rank && Forest(parent[..], rank[..], lab) && Sized(rank[..], lab)
    requires from < |lab| && to < |lab| && lab[from] == from && lab[to] == to && from != to && rank[from] <= rank[to]
    modifies parent, rank
    ensures lab' == Relabel(lab, from, to)
    ensures Forest(parent[..], rank[..], lab') && Sized(rank[..], lab') && |Roots(lab')| == |Roots(lab)| - 1
  {
    lab' := Relabel(lab, from, to);
    ghost var p, k := parent[..], rank[..];
    parent[from] := to;
    if rank[from] == rank[to] { rank[to] := rank[to] + 1; }
    RelabelForest(p, k, lab, from, to, parent[..], rank[..]);
    RelabelSized(p, k, lab, from, to, rank[..]);
    RelabelRoots(lab, from, to);
  }

  /** The lower root goes under the higher; on a tie the second under the first. */
  method Join(parent: array<nat>, rank: array<nat>, ghost lab: seq<nat>, ghost x: nat, ghost y: nat, xr: nat, yr: nat)
    returns (ghost lab': seq<nat>)
    requires parent != rank && Forest(parent[..], rank[..], lab) && Sized(rank[..], lab)
    requires x < |lab| && y < |lab| && xr == lab[x] && yr == lab[y] && xr != yr
    modifies parent, rank
    ensures Forest(parent[..], rank[..], lab') && Sized(rank[..], lab')
    ensures Merged(lab, x, y, lab') && |Roots(lab')| == |Roots(lab)| - 1
  {
    ghost var p, k := parent[..], rank[..];
    if rank[xr] < rank[yr] {
      lab' := Hang(parent, rank, lab, xr, yr);
      RelabelMerges(p, k, lab, x, y, xr, yr);
    } else {
      lab' := Hang(parent, rank, lab, yr, xr);
      RelabelMerges(p, k, lab, x, y, yr, xr);
    }
  }

  /** `union`, by rank: true exactly when the two were in different trees, which are then one. */
  method Union(parent: array<nat>, rank: array<nat>, ghost lab: seq<nat>, x: nat, y: nat)
    returns (merged: bool, ghost lab': seq<nat>)
    requires parent != rank && Forest(parent[..], rank[..], lab) && Sized(rank[..], lab) && x < |lab| && y < |lab|
    modifies parent, rank
    ensures Forest(parent[..], rank[..], lab') && Sized(rank[..], lab')
    ensures merged <==> lab[x] != lab[y]
    ensures !merged ==> lab' == lab
    ensures Merged(lab, x, y, lab')
    ensures |Roots(lab')| == |Roots(lab)| - if merged then 1 else 0
  {
    var xr := Find(parent, rank[..], lab, x);
    var yr := Find(parent, rank[..], lab, y);
    if xr == yr {
      return false, lab;
    }
    merged := true;
    lab' := Join(parent, rank, lab, x, y, xr, yr);
  }

  // ----- edges by descending similarity -----

  ghost predicate Descending(s: seq<Edge>)
  {
    forall i, j :: 0 <= i < j < |s| ==> s[i].sim >= s[j].sim
  }

  /** The stable sort by descending similarity. */
  function Sorted(edges: seq<Edge>): seq<Edge>
  {
    S.SortBy(edges, (e: Edge) => -e.sim)
  }

  lemma SortedIsSorted(edges: seq<Edge>)
    ensures Descending(Sorted(edges)) && Elems(Sorted(edges)) == Elems(edges)
  {
    var key := (e: Edge) => -e.sim;
    S.SortBySorts(edges, key);
    var s := Sorted(edges);
    forall i, j | 0 <= i < j < |s|
      ensures s[i].sim >= s[j].sim
    {
      assert key(s[i]) <= key(s[j]);
    }
    forall e
      ensures e in Elems(s) <==> e in Elems(edges)
    {
      assert e in multiset(s) <==> e in multiset(edges);
    }
  }

  // ----- counting components -----

  ghost predicate JoinsEarlier(es: set<Edge>, x: nat)
  {
    exists y :: 0 <= y < x && Connected(es, y, x)
  }

  /** Nodes below n that no earlier node is connected to: one for each component. */
  ghost function Components(es: set<Edge>, n: nat): (c: nat)
    ensures c <= n
  {
    if n == 0 then 0
    else Components(es, n - 1) + if JoinsEarlier(es, n - 1) then 0 else 1
  }

  ghost function LabelsBelow(lab: seq<nat>, n: nat): set<nat>
    requires n <= |lab|
  {
    set x | 0 <= x < n :: lab[x]
  }

  lemma {:induction false} LabelsCount(es: set<Edge>, lab: seq<nat>, n: nat)
    requires Graphs.Labels(es, lab) && n <= |lab|
    ensures |LabelsBelow(lab, n)| == Components(es, n)
  {
    if n > 0 {
      LabelsCount(es, lab, n - 1);
      assert LabelsBelow(lab, n) == LabelsBelow(lab, n - 1) + {lab[n - 1]};
      SeenBefore(es, lab, n - 1);
      assert lab[n - 1] in LabelsBelow(lab, n - 1) ==> LabelsBelow(lab, n) == LabelsBelow(lab, n - 1);
    }
  }

  lemma SeenBefore(es: set<Edge>, lab: seq<nat>, x: nat)
    requires Graphs.Labels(es, lab) && x < |lab|
    ensures lab[x] in LabelsBelow(lab, x) <==> JoinsEarlier(es, x)
  {
    forall y | 0 <= y < x
      ensures lab[y] == lab[x] <==> Connected(es, y, x)
    {
    }
  }

  lemma RootsCount(es: set<Edge>, lab: seq<nat>)
    requires Graphs.Labels(es, lab) && forall x :: 0 <= x < |lab| ==> lab[x] < |lab| && lab[lab[x]] == lab[x]
    ensures |Roots(lab)| == Components(es, |lab|)
  {
    LabelsCount(es, lab, |lab|);
    forall r
      ensures r in Roots(lab) <==> r in LabelsBelow(lab, |lab|)
    {
      if r in Roots(lab) { assert lab[r] == r; }
    }
    assert Roots(lab) == LabelsBelow(lab, |lab|);
  }

  // ----- the barcode -----

  datatype Bar = Bar(birth: real, death: Option<real>)

  /** The least similarity a spanning forest needs: edges this similar connect whatever all edges
      connect, more similar ones alone do not. */
  ghost predicate Bottleneck(es: set<Edge>, n: nat, s: real)
  {
    && (forall a, b :: 0 <= a < n && 0 <= b < n ==> (Connected(AtLeast(es, s), a, b) <==> Connected(es, a, b)))
    && (exists a, b :: 0 <= a < n && 0 <= b < n && Connected(es, a, b) && !Connected(Above(es, s), a, b))
  }

  /** The last edge that merged two trees, at position `at` of the sorted edges, is the bottleneck. */
  lemma LastMergeIsBottleneck(sorted: seq<Edge>, n: nat, at: nat, lab: seq<nat>)
    requires Descending(sorted) && InRange(sorted, n) && at < |sorted| && |lab| == n
    requires Graphs.Labels(Elems(sorted), lab) && Graphs.Labels(Elems(sorted[..at + 1]), lab)
    requires !Connected(Elems(sorted[..at]), sorted[at].i, sorted[at].j)
    ensures Bottleneck(Elems(sorted), n, sorted[at].sim)
  {
    var es, e := Elems(sorted), sorted[at];
    assert Elems(sorted[..at + 1]) <= AtLeast(es, e.sim);
    assert AtLeast(es, e.sim) <= es;
    forall a, b | 0 <= a < n && 0 <= b < n
      ensures Connected(AtLeast(es, e.sim), a, b) <==> Connected(es, a, b)
    {
      if Connected(es, a, b) {
        assert lab[a] == lab[b];
        ConnectedMonotone(Elems(sorted[..at + 1]), AtLeast(es, e.sim), a, b);
      }
      if Connected(AtLeast(es, e.sim), a, b) {
        ConnectedMonotone(AtLeast(es, e.sim), es, a, b);
      }
    }
    assert Above(es, e.sim) <= Elems(sorted[..at]);
    if Connected(Above(es, e.sim), e.i, e.j) {
      ConnectedMonotone(Above(es, e.sim), Elems(sorted[..at]), e.i, e.j);
    }
    assert e in es;
    ConnectedLink(es, e.i, e.j);
  }

  /** The barcode of a graph with c components: c infinite bars, then, unless no two nodes are
      connected, one bar that dies at the bottleneck. */
  ghost predicate IsBarcode(es: set<Edge>, n: nat, bars: seq<Bar>)
  {
    var c := Components(es, n);
    && |bars| == Min(c + 1, n)
    && (forall k :: 0 <= k < c ==> bars[k] == Bar(0.0, None))
    && (c < n ==> bars[c].birth == 0.0 && bars[c].death.Some? && Bottleneck(es, n, 1.0 - bars[c].death.value))
  }

  /** The loop's state after k of the sorted edges; `at` is the last one that merged two trees. */
  ghost predicate Progress(sorted: seq<Edge>, k: nat, lab: seq<nat>, components: nat, bars: seq<Bar>, at: nat)
    requires k <= |sorted|
  {
    && Graphs.Labels(Elems(sorted[..k]), lab) && components == |Roots(lab)| <= |lab| == |bars|
    && (forall b :: 0 <= b < components ==> bars[b] == Bar(0.0, None))
    && (components < |lab| ==>
          && at < k && bars[components] == Bar(0.0, Some(1.0 - sorted[at].sim))
          && Graphs.Labels(Elems(sorted[..at + 1]), lab)
          && !Connected(Elems(sorted[..at]), sorted[at].i, sorted[at].j))
  }

  lemma ProgressNext(sorted: seq<Edge>, k: nat, lab: seq<nat>, components: nat, bars: seq<Bar>, at: nat, lab': seq<nat>)
    requires k < |sorted| && InRange(sorted, |lab|) && Progress(sorted, k, lab, components, bars, at)
    requires Merged(lab, sorted[k].i, sorted[k].j, lab')
    requires |Roots(lab')| == |Roots(lab)| - if lab[sorted[k].i] != lab[sorted[k].j] then 1 else 0
    ensures lab[sorted[k].i] == lab[sorted[k].j] && lab' == lab ==> Progress(sorted, k + 1, lab', components, bars, at)
    ensures lab[sorted[k].i] != lab[sorted[k].j] ==>
              components >= 1 &&
                  Progress(sorted, k + 1, lab', components - 1,
                           bars[components - 1 := Bar(0.0, Some(1.0 - sorted[k].sim))], k)
  {
    var e := sorted[k];
    assert sorted[..k + 1] == sorted[..k] + [e];
    assert Elems(sorted[..k + 1]) == Elems(sorted[..k]) + {e};
    assert e in sorted;
    LabelsAfterEdge(Elems(sorted[..k]), e, lab, lab');
  }

  lemma ProgressStart(sorted: seq<Edge>, n: nat, lab: seq<nat>, bars: seq<Bar>)
    requires |lab| == n == |bars| && forall x :: 0 <= x < n ==> lab[x] == x && bars[x] == Bar(0.0, None)
    ensures Progress(sorted, 0, lab, n, bars, 0)
  {
    assert Elems(sorted[..0]) == {};
    forall a, b | 0 <= a < n && 0 <= b < n
      ensures lab[a] == lab[b] <==> Connected(Elems(sorted[..0]), a, b)
    {
      NoEdgesAlone(a, b);
    }
    BelowSize(n);
    assert Roots(lab) == Below(n);
  }

  lemma StartForest(n: nat, parent: seq<nat>, rank: seq<nat>, lab: seq<nat>)
    requires |parent| == |rank| == |lab| == n
    requires forall x :: 0 <= x < n ==> parent[x] == x && rank[x] == 0 && lab[x] == x
    ensures Forest(parent, rank, lab) && Sized(rank, lab)
  {
    forall r | 0 <= r < n
      ensures Power(rank[r]) <= |Class(lab, r)|
    {
      assert Class(lab, r) == {r};
    }
  }

  lemma FinishBarcode(sorted: seq<Edge>, lab: seq<nat>, components: nat, all: seq<Bar>, at: nat, bars: seq<Bar>)
    requires |lab| >= 1 && Descending(sorted) && InRange(sorted, |lab|) &&
        Progress(sorted, |sorted|, lab, components, all, at)
    requires forall x :: 0 <= x < |lab| ==> lab[x] < |lab| && lab[lab[x]] == lab[x]
    requires |bars| == Min(components + 1, |lab|) && forall k :: 0 <= k < |bars| ==> bars[k] == all[k]
    ensures IsBarcode(Elems(sorted), |lab|, bars)
  {
    assert sorted[..|sorted|] == sorted;
    RootsCount(Elems(sorted), lab);
    if components < |lab| {
      LastMergeIsBottleneck(sorted, |lab|, at, lab);
      assert 1.0 - bars[components].death.value == sorted[at].sim;
    }
  }

  /** One turn of the loop: merge along the k-th edge, and record the merge as a death. */
  method MergeEdge(parent: array<nat>, rank: array<nat>, sorted: seq<Edge>, k: nat, components: nat, all: seq<Bar>,
                   ghost lab: seq<nat>, ghost at: nat)
    returns (left: nat, marked: seq<Bar>, ghost lab': seq<nat>, ghost at': nat)
    requires parent != rank && Forest(parent[..], rank[..], lab) && Sized(rank[..], lab)
    requires k < |sorted| && InRange(sorted, |lab|) && Progress(sorted, k, lab, components, all, at)
    modifies parent, rank
    ensures |lab'| == |lab| && Forest(parent[..], rank[..], lab') && Sized(rank[..], lab')
    ensures Progress(sorted, k + 1, lab', left, marked, at')
  {
    var e := sorted[k];
    assert e in sorted;
    var merged: bool;
    merged, lab' := Union(parent, rank, lab, e.i, e.j);
    ProgressNext(sorted, k, lab, components, all, at, lab');
    left, marked, at' := components, all, at;
    if merged {
      left := components - 1;
      marked := all[left := Bar(0.0, Some(1.0 - e.sim))];
      at' := k;
    }
  }

  /** `persistent_h0`. */
  method PersistentH0(n: nat, edges: seq<Edge>) returns (bars: seq<Bar>)
    requires InRange(edges, n)
    ensures IsBarcode(Elems(edges), n, bars)
  {
    if n == 0 {
      return [];
    }
    var parent, rank := new nat[n](i => i), new nat[n](_ => 0);
    var components, all := n, seq(n, _ => Bar(0.0, None));
    var sorted := Sorted(edges);
    SortedIsSorted(edges);
    SortedInRange(edges, n);
    ghost var lab: seq<nat>, at: nat := seq(n, x => x), 0;
    ProgressStart(sorted, n, lab, all);
    StartForest(n, parent[..], rank[..], lab);
    for k := 0 to |sorted|
      invariant |lab| == n && Forest(parent[..], rank[..], lab) && Sized(rank[..], lab)
      invariant Progress(sorted, k, lab, components, all, at)
    {
      components, all, lab, at := MergeEdge(parent, rank, sorted, k, components, all, lab, at);
    }
    bars := all[..Min(components + 1, n)];
    FinishBarcode(sorted, lab, components, all, at, bars);
  }

  lemma SortedInRange(edges: seq<Edge>, n: nat)
    requires InRange(edges, n)
    ensures InRange(Sorted(edges), n)
  {
    SortedIsSorted(edges);
    assert forall e :: e in Sorted(edges) ==> e in Elems(edges);
  }
}
