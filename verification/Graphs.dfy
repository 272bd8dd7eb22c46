// Connectivity of concept graphs: paths over weighted undirected edges.
module Graphs {

  /** An edge of a shape. Similarities are reals: a NaN similarity is not modelled. */
  datatype Edge = Edge(i: nat, j: nat, sim: real)

  function Elems(edges: seq<Edge>): set<Edge>
  {
    set e | e in edges
  }

  function AtLeast(es: set<Edge>, s: real): set<Edge>
  {
    set e | e in es && e.sim >= s
  }

  function Above(es: set<Edge>, s: real): set<Edge>
  {
    set e | e in es && e.sim > s
  }

  ghost predicate InRange(edges: seq<Edge>, n: nat)
  {
    forall e :: e in edges ==> e.i < n && e.j < n
  }

  ghost predicate Linked(es: set<Edge>, u: nat, v: nat)
  {
    exists e :: e in es && ((e.i == u && e.j == v) || (e.i == v && e.j == u))
  }

  ghost predicate Path(es: set<Edge>, p: seq<nat>, a: nat, b: nat)
  {
    && |p| >= 1 && p[0] == a && p[|p| - 1] == b
    && forall k :: 0 <= k < |p| - 1 ==> Linked(es, p[k], p[k + 1])
  }

  ghost predicate Connected(es: set<Edge>, a: nat, b: nat)
  {
    exists p :: Path(es, p, a, b)
  }

  lemma ConnectedSelf(es: set<Edge>, a: nat)
    ensures Connected(es, a, a)
  {
    assert Path(es, [a], a, a);
  }

  lemma ConnectedLink(es: set<Edge>, a: nat, b: nat)
    requires Linked(es, a, b)
    ensures Connected(es, a, b)
  {
    assert Path(es, [a, b], a, b);
  }

  lemma ConnectedSymmetric(es: set<Edge>, a: nat, b: nat)
    requires Connected(es, a, b)
    ensures Connected(es, b, a)
  {
    var p :| Path(es, p, a, b);
    var r := seq(|p|, k requires 0 <= k < |p| => p[|p| - 1 - k]);
    forall k | 0 <= k < |r| - 1
      ensures Linked(es, r[k], r[k + 1])
    {
      assert Linked(es, p[|p| - 2 - k], p[|p| - 2 - k + 1]);
    }
    assert Path(es, r, b, a);
  }

  lemma ConnectedTransitive(es: set<Edge>, a: nat, b: nat, c: nat)
    requires Connected(es, a, b) && Connected(es, b, c)
    ensures Connected(es, a, c)
  {
    var p :| Path(es, p, a, b);
    var q :| Path(es, q, b, c);
    var r := p + q[1..];
    forall k | 0 <= k < |r| - 1
      ensures Linked(es, r[k], r[k + 1])
    {
      if k < |p| - 1 {
        assert Linked(es, p[k], p[k + 1]);
      } else {
        assert Linked(es, q[k - (|p| - 1)], q[k - (|p| - 1) + 1]);
      }
    }
    assert Path(es, r, a, c);
  }

  lemma ConnectedMonotone(es: set<Edge>, more: set<Edge>, a: nat, b: nat)
    requires es <= more && Connected(es, a, b)
    ensures Connected(more, a, b)
  {
    var p :| Path(es, p, a, b);
    forall k | 0 <= k < |p| - 1
      ensures Linked(more, p[k], p[k + 1])
    {
      assert Linked(es, p[k], p[k + 1]);
    }
    assert Path(more, p, a, b);
  }

  /** A new edge joins what its two ends were connected to, and nothing else. */
  lemma ConnectedAfterEdge(es: set<Edge>, e: Edge, a: nat, b: nat)
    ensures Connected(es + {e}, a, b) <==>
              || Connected(es, a, b)
              || (Connected(es, a, e.i) && Connected(es, e.j, b))
              || (Connected(es, a, e.j) && Connected(es, e.i, b))
  {
    if Connected(es + {e}, a, b) {
      var p :| Path(es + {e}, p, a, b);
      PathAfterEdge(es, e, p, a, b);
    }
    if Connected(es, a, b) {
      ConnectedMonotone(es, es + {e}, a, b);
    }
    if Connected(es, a, e.i) && Connected(es, e.j, b) {
      JoinedByEdge(es, e, a, b, e.i, e.j);
    }
    if Connected(es, a, e.j) && Connected(es, e.i, b) {
      JoinedByEdge(es, e, a, b, e.j, e.i);
    }
  }

  lemma JoinedByEdge(es: set<Edge>, e: Edge, a: nat, b: nat, u: nat, v: nat)
    requires (u == e.i && v == e.j) || (u == e.j && v == e.i)
    requires Connected(es, a, u) && Connected(es, v, b)
    ensures Connected(es + {e}, a, b)
  {
    ConnectedMonotone(es, es + {e}, a, u);
    ConnectedMonotone(es, es + {e}, v, b);
    assert e in es + {e};
    ConnectedLink(es + {e}, u, v);
    ConnectedTransitive(es + {e}, a, u, v);
    ConnectedTransitive(es + {e}, a, v, b);
  }

  lemma {:induction false} PathAfterEdge(es: set<Edge>, e: Edge, p: seq<nat>, a: nat, b: nat)
    requires Path(es + {e}, p, a, b)
    ensures || Connected(es, a, b)
            || (Connected(es, a, e.i) && Connected(es, e.j, b))
            || (Connected(es, a, e.j) && Connected(es, e.i, b))
  {
    if |p| == 1 {
      ConnectedSelf(es, a);
    } else {
      var m := p[|p| - 2];
      assert Path(es + {e}, p[..|p| - 1], a, m);
      PathAfterEdge(es, e, p[..|p| - 1], a, m);
      assert Linked(es + {e}, p[|p| - 2], p[|p| - 2 + 1]);
      LinkAfterEdge(es, e, a, m, b);
    }
  }

  lemma LinkAfterEdge(es: set<Edge>, e: Edge, a: nat, m: nat, b: nat)
    requires || Connected(es, a, m)
             || (Connected(es, a, e.i) && Connected(es, e.j, m))
             || (Connected(es, a, e.j) && Connected(es, e.i, m))
    requires Linked(es + {e}, m, b)
    ensures || Connected(es, a, b)
            || (Connected(es, a, e.i) && Connected(es, e.j, b))
            || (Connected(es, a, e.j) && Connected(es, e.i, b))
  {
    ConnectedSelf(es, b);
    if Linked(es, m, b) {
      ConnectedLink(es, m, b);
      if Connected(es, a, m) { ConnectedTransitive(es, a, m, b); }
      if Connected(es, e.j, m) { ConnectedTransitive(es, e.j, m, b); }
      if Connected(es, e.i, m) { ConnectedTransitive(es, e.i, m, b); }
    } else {
      assert (e.i == m && e.j == b) || (e.i == b && e.j == m);
    }
  }

  /** Labels that tell the components apart: equal exactly for connected nodes. */
  ghost predicate Labels(es: set<Edge>, lab: seq<nat>)
  {
    forall a, b :: 0 <= a < |lab| && 0 <= b < |lab| ==> (lab[a] == lab[b] <==> Connected(es, a, b))
  }

  /** After an edge, the classes of its two ends are one class. */
  lemma LabelsAfterEdge(es: set<Edge>, e: Edge, lab: seq<nat>, lab': seq<nat>)
    requires Labels(es, lab) && |lab'| == |lab| && e.i < |lab| && e.j < |lab|
    requires forall a, b :: 0 <= a < |lab| && 0 <= b < |lab| ==>
               (lab'[a] == lab'[b] <==>
                 lab[a] == lab[b] || (lab[a] == lab[e.i] && lab[b] == lab[e.j]) ||
                     (lab[a] == lab[e.j] && lab[b] == lab[e.i]))
    ensures Labels(es + {e}, lab')
  {
    forall a, b | 0 <= a < |lab| && 0 <= b < |lab|
      ensures lab'[a] == lab'[b] <==> Connected(es + {e}, a, b)
    {
      ConnectedAfterEdge(es, e, a, b);
      assert lab[a] == lab[e.i] <==> Connected(es, a, e.i);
      assert lab[a] == lab[e.j] <==> Connected(es, a, e.j);
      assert lab[e.j] == lab[b] <==> Connected(es, e.j, b);
      assert lab[e.i] == lab[b] <==> Connected(es, e.i, b);
    }
  }

  lemma NoEdgesAlone(a: nat, b: nat)
    ensures Connected({}, a, b) <==> a == b
  {
    ConnectedSelf({}, a);
    forall p | Path({}, p, a, b)
      ensures a == b
    {
      assert |p| > 1 ==> Linked({}, p[0], p[0 + 1]);
    }
  }
}
