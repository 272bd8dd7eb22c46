// Splitting a shape into connected components with an explicit-stack search.
module Geo {
  import opened Common
  import opened Graphs

  /** Every neighbour listed is linked by an edge above the threshold, and every link is listed. */
  ghost predicate IsAdjacency(adj: seq<seq<nat>>, es: set<Edge>)
  {
    && (forall u, k {:trigger adj[u][k]} :: 0 <= u < |adj| && 0 <= k < |adj[u]| ==>
          adj[u][k] < |adj| && Graphs.Linked(es, u, adj[u][k]))
    && (forall u: nat, v: nat {:trigger Graphs.Linked(es, u, v)} ::
          u < |adj| && v < |adj| && Graphs.Linked(es, u, v) ==> v in adj[u])
  }

  /** The adjacency lists of the edges above epsilon. */
  method Adjacency(n: nat, edges: seq<Edge>, epsilon: real) returns (adj: seq<seq<nat>>)
    requires InRange(edges, n)
    ensures |adj| == n && IsAdjacency(adj, Above(Elems(edges), epsilon))
  {
    adj := seq(n, _ => []);
    for k := 0 to |edges|
      invariant |adj| == n && IsAdjacency(adj, Above(Elems(edges[..k]), epsilon))
    {
      var e := edges[k];
      assert e in edges;
      assert edges[..k + 1] == edges[..k] + [e];
      ghost var was := adj;
      if e.sim > epsilon {
        assert Above(Elems(edges[..k + 1]), epsilon) == Above(Elems(edges[..k]), epsilon) + {e};
        adj := adj[e.i := adj[e.i] + [e.j]];
        adj := adj[e.j := adj[e.j] + [e.i]];
        AdjacencyNext(was, adj, Above(Elems(edges[..k]), epsilon), e);
      } else {
        assert Above(Elems(edges[..k + 1]), epsilon) == Above(Elems(edges[..k]), epsilon);
      }
    }
    assert edges[..|edges|] == edges;
  }

  lemma AdjacencyNext(was: seq<seq<nat>>, adj: seq<seq<nat>>, es: set<Edge>, e: Edge)
    requires IsAdjacency(was, es) && e.i < |was| && e.j < |was|
    requires
      var once := was[e.i := was[e.i] + [e.j]];
      adj == once[e.j := once[e.j] + [e.i]]
    ensures IsAdjacency(adj, es + {e})
  {
    forall u, k {:trigger adj[u][k]} | 0 <= u < |adj| && 0 <= k < |adj[u]|
      ensures adj[u][k] < |adj| && Graphs.Linked(es + {e}, u, adj[u][k])
    {
      if k < |was[u]| {
        assert adj[u][k] == was[u][k];
        var f :| f in es && ((f.i == u && f.j == was[u][k]) || (f.i == was[u][k] && f.j == u));
        assert f in es + {e};
      } else {
        assert e in es + {e};
      }
    }
    forall u: nat, v: nat {:trigger Graphs.Linked(es + {e}, u, v)} | u < |adj| && v < |adj| &&
        Graphs.Linked(es + {e}, u, v)
      ensures v in adj[u]
    {
      if Graphs.Linked(es, u, v) {
        assert v in was[u];
        assert was[u] <= adj[u];
      } else {
        assert (e.i == u && e.j == v) || (e.i == v && e.j == u);
      }
    }
  }

  // ----- the search -----

  function Unvisited(visited: seq<bool>): nat
  {
    if visited == [] then 0
    else Unvisited(visited[..|visited| - 1]) + if visited[|visited| - 1] then 0 else 1
  }

  lemma {:induction false} UnvisitedLess(visited: seq<bool>, x: nat)
    requires x < |visited| && !visited[x]
    ensures Unvisited(visited[x := true]) == Unvisited(visited) - 1
  {
    var last := |visited| - 1;
    if x == last {
      assert visited[x := true][..last] == visited[..last];
    } else {
      UnvisitedLess(visited[..last], x);
      assert visited[x := true][..last] == visited[..last][x := true];
    }
  }

  /** No link leads from a visited node to one that is neither visited nor waiting. */
  ghost predicate Closed(adj: seq<seq<nat>>, visited: seq<bool>, stack: seq<nat>)
    requires |visited| == |adj|
  {
    forall u, k {:trigger adj[u][k]} :: 0 <= u < |adj| && visited[u] && 0 <= k < |adj[u]| ==>
      (adj[u][k] < |adj| && visited[adj[u][k]]) || adj[u][k] in stack
  }

  /** From a visited node of a closed set, links lead to visited nodes only. */
  lemma {:induction false} ClosedConnected(adj: seq<seq<nat>>, es: set<Edge>, visited: seq<bool>, p: seq<nat>, a: nat,
                                           b: nat)
    requires |visited| == |adj| && IsAdjacency(adj, es) && Closed(adj, visited, []) && a < |adj| && visited[a]
    requires Graphs.Path(es, p, a, b) && forall k :: 0 <= k < |p| ==> p[k] < |adj|
    ensures b < |adj| && visited[b]
  {
    if |p| > 1 {
      var m := p[|p| - 2];
      assert Graphs.Path(es, p[..|p| - 1], a, m);
      ClosedConnected(adj, es, visited, p[..|p| - 1], a, m);
      assert Graphs.Linked(es, p[|p| - 2], p[|p| - 2 + 1]);
      assert b in adj[m];
      var k :| 0 <= k < |adj[m]| && adj[m][k] == b;
    }
  }

  /** Paths between nodes stay among nodes. */
  lemma PathInRange(es: set<Edge>, n: nat, p: seq<nat>, a: nat, b: nat)
    requires a < n && Graphs.Path(es, p, a, b) && forall e :: e in es ==> e.i < n && e.j < n
    ensures forall k :: 0 <= k < |p| ==> p[k] < n
  {
    forall k | 0 <= k < |p|
      ensures p[k] < n
    {
      if k > 0 { assert Graphs.Linked(es, p[k - 1], p[k - 1 + 1]); }
    }
  }

  lemma ReachedIsVisited(adj: seq<seq<nat>>, es: set<Edge>, visited: seq<bool>, a: nat, b: nat)
    requires |visited| == |adj| && IsAdjacency(adj, es) && Closed(adj, visited, []) && a < |adj| && visited[a]
    requires Connected(es, a, b) && forall e :: e in es ==> e.i < |adj| && e.j < |adj|
    ensures b < |adj| && visited[b]
  {
    var p :| Graphs.Path(es, p, a, b);
    PathInRange(es, |adj|, p, a, b);
    ClosedConnected(adj, es, visited, p, a, b);
  }

  /** What one search has found so far: the new visited nodes, all connected to the start. */
  ghost predicate Found(es: set<Edge>, was: seq<bool>, visited: seq<bool>, start: nat, component: seq<nat>,
                        stack: seq<nat>)
    requires |was| == |visited|
  {
    && Distinct(component)
    && (forall x: nat {:trigger x in component} :: x in component <==> x < |visited| && visited[x] && !was[x])
    && (forall x :: 0 <= x < |was| && was[x] ==> visited[x])
    && (forall x :: x in component ==> Connected(es, start, x))
    && (forall x :: x in stack ==> x < |visited| && Connected(es, start, x))
    && (if component == [] then stack == [start] && start < |visited| && !visited[start] else component[0] == start)
  }

  /** The neighbours of a node not yet visited, pushed in order. */
  function Pushed(stack: seq<nat>, next: seq<nat>, visited: seq<bool>, k: nat): seq<nat>
    requires k <= |next| && forall j :: 0 <= j < |next| ==> next[j] < |visited|
  {
    if k == 0 then stack
    else
      var s := Pushed(stack, next, visited, k - 1);
      if visited[next[k - 1]] then s else s + [next[k - 1]]
  }

  lemma {:induction false} PushedMembers(stack: seq<nat>, next: seq<nat>, visited: seq<bool>, k: nat, x: nat)
    requires k <= |next| && forall j :: 0 <= j < |next| ==> next[j] < |visited|
    ensures x in Pushed(stack, next, visited, k)
       <==> x in stack || (x in next[..k] && x < |visited| && !visited[x])
  {
    if k > 0 {
      PushedMembers(stack, next, visited, k - 1, x);
      assert next[..k] == next[..k - 1] + [next[k - 1]];
    }
  }

  /** Visiting the node on top keeps what was found, and the set closed. */
  lemma VisitKeeps(adj: seq<seq<nat>>, es: set<Edge>, was: seq<bool>, visited: seq<bool>, start: nat,
                   component: seq<nat>, rest: seq<nat>, x: nat)
    requires |was| == |visited| == |adj| && IsAdjacency(adj, es) && x < |adj| && !visited[x]
    requires Found(es, was, visited, start, component, rest + [x]) && Closed(adj, visited, rest + [x])
    ensures
      var now := visited[x := true];
      var stack := Pushed(rest, adj[x], now, |adj[x]|);
      Found(es, was, now, start, component + [x], stack) && Closed(adj, now, stack)
  {
    var now := visited[x := true];
    var stack := Pushed(rest, adj[x], now, |adj[x]|);
    assert adj[x][..|adj[x]|] == adj[x];
    assert x in rest + [x] && Connected(es, start, x);
    assert x !in component;
    forall y | y in stack
      ensures y < |now| && Connected(es, start, y)
    {
      PushedMembers(rest, adj[x], now, |adj[x]|, y);
      if y in rest {
        assert y in rest + [x];
      } else {
        var k :| 0 <= k < |adj[x]| && adj[x][k] == y;
        ConnectedLink(es, x, y);
        ConnectedTransitive(es, start, x, y);
      }
    }
    forall u, k {:trigger adj[u][k]} | 0 <= u < |adj| && now[u] && 0 <= k < |adj[u]|
      ensures (adj[u][k] < |adj| && now[adj[u][k]]) || adj[u][k] in stack
    {
      PushedMembers(rest, adj[x], now, |adj[x]|, adj[u][k]);
    }
  }

  /** Dropping a node that is already visited keeps both. */
  lemma PopKeeps(adj: seq<seq<nat>>, es: set<Edge>, was: seq<bool>, visited: seq<bool>, start: nat,
                 component: seq<nat>, rest: seq<nat>, x: nat)
    requires |was| == |visited| == |adj| && x < |adj| && visited[x]
    requires Found(es, was, visited, start, component, rest + [x]) && Closed(adj, visited, rest + [x])
    ensures Found(es, was, visited, start, component, rest) && Closed(adj, visited, rest)
  {
    assert forall y :: y in rest ==> y in rest + [x];
    assert (rest + [x])[|rest|] == x;
  }

  /** One search: exactly the start's component becomes visited, start first. */
  method Search(adj: seq<seq<nat>>, ghost es: set<Edge>, visited: array<bool>, start: nat) returns (component: seq<nat>)
    requires visited.Length == |adj| && IsAdjacency(adj, es) && start < |adj| && !visited[start]
    requires Closed(adj, visited[..], []) && forall e :: e in es ==> e.i < |adj| && e.j < |adj|
    modifies visited
    ensures Closed(adj, visited[..], []) && Found(es, old(visited[..]), visited[..], start, component, [])
    ensures component != [] && component[0] == start
  {
    ghost var was := visited[..];
    component := [];
    var stack := [start];
    ConnectedSelf(es, start);
    while stack != []
      invariant Found(es, was, visited[..], start, component, stack)
      invariant Closed(adj, visited[..], stack)
      decreases Unvisited(visited[..]), |stack|
    {
      var x := stack[|stack| - 1];
      var rest := stack[..|stack| - 1];
      assert stack == rest + [x];
      assert x in stack;
      if visited[x] {
        PopKeeps(adj, es, was, visited[..], start, component, rest, x);
        stack := rest;
      } else {
        UnvisitedLess(visited[..], x);
        VisitKeeps(adj, es, was, visited[..], start, component, rest, x);
        visited[x] := true;
        component := component + [x];
        stack := PushUnvisited(rest, adj[x], visited);
      }
    }
  }

  method PushUnvisited(rest: seq<nat>, next: seq<nat>, visited: array<bool>) returns (stack: seq<nat>)
    requires forall j :: 0 <= j < |next| ==> next[j] < visited.Length
    ensures stack == Pushed(rest, next, visited[..], |next|)
  {
    stack := rest;
    for k := 0 to |next|
      invariant stack == Pushed(rest, next, visited[..], k)
    {
      if !visited[next[k]] {
        stack := stack + [next[k]];
      }
    }
  }

  // ----- the parts -----

  /** A part is the whole component of each of its nodes. */
  ghost predicate IsComponent(es: set<Edge>, n: nat, part: seq<nat>)
  {
    && part != [] && Distinct(part)
    && (forall v: nat, u: nat {:trigger Connected(es, v, u)} :: v in part ==>
        (u in part <==> u < n && Connected(es, v, u)))
    && (forall v :: v in part ==> part[0] <= v < n)
  }

  lemma FoundIsComponent(adj: seq<seq<nat>>, es: set<Edge>, was: seq<bool>, visited: seq<bool>, start: nat,
                         component: seq<nat>)
    requires |was| == |visited| == |adj| && IsAdjacency(adj, es) && start < |adj| && !was[start]
    requires forall e :: e in es ==> e.i < |adj| && e.j < |adj|
    requires Closed(adj, was, []) && Closed(adj, visited, []) && Found(es, was, visited, start, component, [])
    requires forall x :: 0 <= x < start ==> was[x]
    ensures IsComponent(es, |adj|, component)
  {
    forall u: nat
      ensures u in component <==> u < |adj| && Connected(es, start, u)
    {
      if u < |adj| && Connected(es, start, u) {
        assert start in component;
        ReachedIsVisited(adj, es, visited, start, u);
        if was[u] {
          ConnectedSymmetric(es, start, u);
          ReachedIsVisited(adj, es, was, u, start);
        }
      }
    }
    forall v: nat, u: nat {:trigger Connected(es, v, u)} | v in component
      ensures u in component <==> u < |adj| && Connected(es, v, u)
    {
      ConnectedSymmetric(es, start, v);
      if Connected(es, start, u) { ConnectedTransitive(es, v, start, u); }
      if Connected(es, v, u) { ConnectedTransitive(es, start, v, u); }
    }
  }

  ghost predicate Covered(parts: seq<seq<nat>>, v: nat)
  {
    exists p :: 0 <= p < |parts| && v in parts[p]
  }

  ghost predicate Apart(a: seq<nat>, b: seq<nat>)
  {
    a != [] && b != [] && a[0] < b[0] && forall v :: v in a ==> v !in b
  }

  /** The parts are the components of the nodes before `upto`, by their least nodes. */
  ghost predicate PartsUpto(es: set<Edge>, n: nat, parts: seq<seq<nat>>, upto: nat)
  {
    && (forall p :: 0 <= p < |parts| ==> IsComponent(es, n, parts[p]) && parts[p][0] < upto)
    && (forall p, q :: 0 <= p < q < |parts| ==> Apart(parts[p], parts[q]))
    && (forall v :: 0 <= v < upto ==> Covered(parts, v))
  }

  /** `split`: a partition of the nodes in which two share a part exactly when a path of edges
      more similar than epsilon joins them. */
  method Split(n: nat, edges: seq<Edge>, epsilon: real) returns (parts: seq<seq<nat>>)
    requires InRange(edges, n)
    ensures PartsUpto(Above(Elems(edges), epsilon), n, parts, n)
  {
    var adj := Adjacency(n, edges, epsilon);
    ghost var es := Above(Elems(edges), epsilon);
    var visited := new bool[n](_ => false);
    parts := [];
    for start := 0 to n
      invariant Closed(adj, visited[..], []) && PartsUpto(es, n, parts, start)
      invariant forall v :: 0 <= v < n ==> (visited[v] <==> Covered(parts, v))
    {
      if !visited[start] {
        ghost var was := visited[..];
        var component := Search(adj, es, visited, start);
        FoundIsComponent(adj, es, was, visited[..], start, component);
        PartsNext(es, n, parts, start, component, was, visited[..]);
        parts := parts + [component];
      }
    }
  }

  lemma PartsNext(es: set<Edge>, n: nat, parts: seq<seq<nat>>, start: nat, component: seq<nat>, was: seq<bool>,
                  visited: seq<bool>)
    requires |was| == |visited| == n && PartsUpto(es, n, parts, start) && IsComponent(es, n, component)
    requires component[0] == start < n && Found(es, was, visited, start, component, [])
    requires forall v :: 0 <= v < n ==> (was[v] <==> Covered(parts, v))
    ensures PartsUpto(es, n, parts + [component], start + 1)
    ensures forall v :: 0 <= v < n ==> (visited[v] <==> Covered(parts + [component], v))
  {
    var more := parts + [component];
    forall v | 0 <= v < n
      ensures visited[v] <==> Covered(more, v)
    {
      CoveredMore(parts, component, v);
      assert v in component <==> visited[v] && !was[v];
    }
    forall p | 0 <= p < |parts|
      ensures Apart(parts[p], component)
    {
      assert IsComponent(es, n, parts[p]);
      forall v | v in parts[p]
        ensures v !in component
      {
        assert Covered(parts, v);
      }
    }
    assert Covered(more, start) by { assert more[|parts|] == component && component[0] in component; }
    forall v | 0 <= v < start
      ensures Covered(more, v)
    {
      CoveredMore(parts, component, v);
    }
    assert forall p :: 0 <= p < |parts| ==> more[p] == parts[p];
  }

  lemma CoveredMore(parts: seq<seq<nat>>, part: seq<nat>, v: nat)
    ensures Covered(parts + [part], v) <==> Covered(parts, v) || v in part
  {
    var more := parts + [part];
    if Covered(parts, v) {
      var p :| 0 <= p < |parts| && v in parts[p];
      assert v in more[p];
    }
    if v in part {
      assert v in more[|parts|];
    }
  }

  /** Two nodes share a part exactly when they are connected. */
  lemma SamePartIffConnected(es: set<Edge>, n: nat, parts: seq<seq<nat>>, u: nat, v: nat)
    requires PartsUpto(es, n, parts, n) && u < n && v < n
    ensures (exists p :: 0 <= p < |parts| && u in parts[p] && v in parts[p]) <==> Connected(es, u, v)
  {
    assert Covered(parts, u);
    var p :| 0 <= p < |parts| && u in parts[p];
    assert IsComponent(es, n, parts[p]);
  }
}
