/** The in-memory graph store: nodes with labels and properties under
    sequential ids, labelled directed edges kept per source node in
    insertion order, and a depth-first path search. */
module GraphStore {
  import opened Wrappers

  /** A node: its id, its labels and its string properties. */
  datatype Node = Node(id: nat, labels: seq<string>, properties: map<string, string>)

  /** A directed, labelled edge. */
  datatype Edge = Edge(from: nat, to: nat, edgeLabel: string)

  /** The target ids of a list of edges, in list order. */
  function Targets(es: seq<Edge>): seq<nat> {
    seq(|es|, k requires 0 <= k < |es| => es[k].to)
  }

  /** Every edge of `es` leaves `f`, and both its ends are nodes. */
  predicate EdgesPlaced(nodes: map<nat, Node>, f: nat, es: seq<Edge>) {
    forall k :: 0 <= k < |es| ==> es[k].from == f && es[k].from in nodes && es[k].to in nodes
  }

  /** No id occurs twice in `p`. */
  predicate Distinct(p: seq<nat>) {
    forall i, j :: 0 <= i < j < |p| ==> p[i] != p[j]
  }

  /** No id of `p` is in `v`. */
  predicate Avoids(p: seq<nat>, v: set<nat>) {
    forall k :: 0 <= k < |p| ==> p[k] !in v
  }

  class Graph {
    var nodes: map<nat, Node>
    var edges: map<nat, seq<Edge>>
    var nextId: nat

    /** Every node sits under its own id, which is below `nextId`; every
        edge list is non-empty, sits under the id its edges leave, and
        joins existing nodes. */
    ghost predicate Valid()
      reads this
    {
      && (forall id :: id in nodes ==> id < nextId && nodes[id].id == id)
      && (forall f :: f in edges ==> edges[f] != [] && EdgesPlaced(nodes, f, edges[f]))
    }

    /** The edges added from `id` so far, oldest first. */
    function EdgesOf(id: nat): seq<Edge>
      reads this
    {
      if id in edges then edges[id] else []
    }

    /** The ids one edge away from `a`, in insertion order. */
    ghost function Succ(a: nat): seq<nat>
      reads this
    {
      Targets(EdgesOf(a))
    }

    /** `p` walks along stored edges from `a` to `b`. */
    ghost predicate IsPath(p: seq<nat>, a: nat, b: nat)
      reads this
    {
      && p != [] && p[0] == a && p[|p| - 1] == b
      && forall k :: 0 <= k < |p| - 1 ==> p[k + 1] in Succ(p[k])
    }

    /** Some walk along stored edges leads from `a` to `b`. */
    ghost predicate Reachable(a: nat, b: nat)
      reads this
    {
      exists p :: IsPath(p, a, b)
    }

    /** Every id that `v1` has and `v0` lacks has all its successors in `v1`. */
    ghost predicate ClosedBetween(v0: set<nat>, v1: set<nat>)
      reads this
    {
      forall x, y :: x in v1 && x !in v0 && y in Succ(x) ==> y in v1
    }

    /** The search `m_dfs` performs, as a function of the store: whether
        `to` was found from `current`, the visited set afterwards, and the
        walk found. Visited ids are skipped; `current` is visited first,
        then its edges are tried in insertion order and the first success
        wins. */
    ghost function Search(current: nat, to: nat, visited: set<nat>): (r: (bool, set<nat>, seq<nat>))
      requires Valid()
      reads this
      ensures visited <= r.1
      ensures r.0 <==> r.2 != []
      ensures r.0 ==> r.2[0] == current && r.2[|r.2| - 1] == to
      decreases |(nodes.Keys + {current}) - visited|, 0
    {
      if current in visited then (false, visited, [])
      else if current == to then (true, visited + {current}, [current])
      else
        MeasureShrinks(nodes.Keys, current, visited, visited + {current});
        var (f, v, w) := SearchEdges(to, EdgesOf(current), 0, visited + {current});
        if f then (true, v, [current] + w) else (false, v, [])
    }

    /** The search through the edge list `es` from position `k` on. */
    ghost function SearchEdges(to: nat, es: seq<Edge>, k: nat, visited: set<nat>): (r: (bool, set<nat>, seq<nat>))
      requires Valid() && k <= |es|
      requires forall j :: 0 <= j < |es| ==> es[j].to in nodes
      reads this
      ensures visited <= r.1
      ensures r.0 <==> r.2 != []
      ensures r.0 ==> r.2[|r.2| - 1] == to
      decreases |nodes.Keys - visited|, |es| - k + 1
    {
      if k == |es| then (false, visited, [])
      else
        assert nodes.Keys + {es[k].to} == nodes.Keys;
        var (f, v, w) := Search(es[k].to, to, visited);
        if f then (true, v, w)
        else
          SubsetNoLarger(nodes.Keys - v, nodes.Keys - visited);
          SearchEdges(to, es, k + 1, v)
    }

    /** `Graph::new`: no nodes, no edges, ids start at 0. */
    constructor()
      ensures Valid()
      ensures nodes == map[] && edges == map[] && nextId == 0
    {
      nodes := map[];
      edges := map[];
      nextId := 0;
    }

    /** `add_node`: store a node under the next id and return that id. */
    method AddNode(labels: seq<string>, properties: map<string, string>) returns (id: nat)
      requires Valid()
      modifies this
      ensures Valid()
      ensures id == old(nextId) && nextId == id + 1 && id !in old(nodes)
      ensures nodes == old(nodes)[id := Node(id, labels, properties)]
      ensures edges == old(edges)
    {
      id := nextId;
      nextId := nextId + 1;
      nodes := nodes[id := Node(id, labels, properties)];
    }

    /** `add_edge`: refuse when an end is not a node, otherwise append the
        edge to the list of its source. */
    method AddEdge(from: nat, to: nat, edgeLabel: string) returns (r: Result<(), ()>)
      requires Valid()
      modifies this
      ensures Valid()
      ensures r.Ok? <==> from in old(nodes) && to in old(nodes)
      ensures nodes == old(nodes) && nextId == old(nextId)
      ensures r.Err? ==> edges == old(edges)
      ensures r.Ok? ==> edges == old(edges)[from := old(EdgesOf(from)) + [Edge(from, to, edgeLabel)]]
      ensures r.Ok? ==> Succ(from) == old(Succ(from)) + [to]
      ensures forall a :: a != from ==> Succ(a) == old(Succ(a))
    {
      if !(from in nodes && to in nodes) {
        return Err(());
      }
      var list := EdgesOf(from);
      edges := edges[from := list + [Edge(from, to, edgeLabel)]];
      assert Targets(list + [Edge(from, to, edgeLabel)]) == Targets(list) + [to];
      r := Ok(());
    }

    /** `get_node`: the node stored under `id`, if any. */
    function GetNode(id: nat): (r: Option<Node>)
      reads this
      ensures r.Some? <==> id in nodes
      ensures r.Some? ==> r.value == nodes[id]
      ensures Valid() && r.Some? ==> r.value.id == id && id < nextId
    {
      if id in nodes then Some(nodes[id]) else None
    }

    /** `get_neighbors`: the targets of the edges added from `id`, or None
        when no edge was ever added from it. */
    function GetNeighbors(id: nat): (r: Option<seq<nat>>)
      reads this
      ensures r.None? <==> id !in edges
      ensures r.Some? ==> r.value == Succ(id)
    {
      if id in edges then Some(Targets(edges[id])) else None
    }

    /** In a valid store, neighbors are only reported for a node that has
        at least one edge, and they are all nodes. */
    lemma NeighborsAreNodes(id: nat)
      requires Valid()
      ensures GetNeighbors(id).Some? ==> GetNeighbors(id).value != [] && id in nodes
      ensures GetNeighbors(id).Some? ==> forall k :: 0 <= k < |GetNeighbors(id).value| ==> GetNeighbors(id).value[k] in nodes
    {
      if id in edges {
        assert edges[id][0].from == id;
      }
    }

    /** `dfs`: a path from `from` to `to`, or None when there is none. */
    method Dfs(from: nat, to: nat) returns (r: Option<seq<nat>>)
      requires Valid()
      ensures r == if Search(from, to, {}).0 then Some(Search(from, to, {}).2) else None
      ensures r.Some? <==> Reachable(from, to)
      ensures r.Some? ==> IsPath(r.value, from, to) && Distinct(r.value)
      ensures from == to ==> r == Some([from])
    {
      var found, visited, path := MDfs(from, to, {}, []);
      SearchSound(from, to, {});
      if !found {
        ClosedHoldsPaths(visited, from, to);
        return None;
      }
      assert path == Search(from, to, {}).2;
      return Some(path);
    }

    /** `m_dfs`: search from `current` for `to`, skipping the ids in
        `visited`; on success `path` is extended by the walk found, on
        failure it is left as it was. */
    method MDfs(current: nat, to: nat, visited: set<nat>, path: seq<nat>)
      returns (found: bool, visitedOut: set<nat>, pathOut: seq<nat>)
      requires Valid()
      ensures (found, visitedOut) == (Search(current, to, visited).0, Search(current, to, visited).1)
      ensures pathOut == if found then path + Search(current, to, visited).2 else path
      decreases |(nodes.Keys + {current}) - visited|, 1
    {
      if current in visited {
        return false, visited, path;
      }
      if current == to {
        return true, visited + {current}, path + [current];
      }
      SearchUnfold(current, to, visited);
      MeasureShrinks(nodes.Keys, current, visited, visited + {current});
      found, visitedOut, pathOut := TryEdges(current, to, visited + {current}, path + [current]);
      if found {
        assert pathOut == path + ([current] + SearchEdges(to, EdgesOf(current), 0, visited + {current}).2);
      } else {
        pathOut := path;
      }
    }

    /** The `for` loop of `m_dfs`: try the edges of `current` in insertion
        order, stopping at the first successful search. */
    method TryEdges(current: nat, to: nat, visited: set<nat>, path: seq<nat>)
      returns (found: bool, visitedOut: set<nat>, pathOut: seq<nat>)
      requires Valid()
      ensures (found, visitedOut) == (SearchEdges(to, EdgesOf(current), 0, visited).0,
                                      SearchEdges(to, EdgesOf(current), 0, visited).1)
      ensures pathOut == if found then path + SearchEdges(to, EdgesOf(current), 0, visited).2 else path
      decreases |nodes.Keys - visited| + 1, 0
    {
      var es := EdgesOf(current);
      visitedOut := visited;
      pathOut := path;
      var k := 0;
      while k < |es|
        invariant 0 <= k <= |es| && visited <= visitedOut
        invariant pathOut == path
        invariant SearchEdges(to, es, 0, visited) == SearchEdges(to, es, k, visitedOut)
      {
        var next := es[k].to;
        assert nodes.Keys + {next} == nodes.Keys;
        SubsetNoLarger(nodes.Keys - visitedOut, nodes.Keys - visited);
        var f, v, p := MDfs(next, to, visitedOut, pathOut);
        SearchEdgesStep(to, es, k, visitedOut);
        if f {
          return true, v, p;
        }
        visitedOut := v;
        k := k + 1;
      }
      found := false;
    }

    /** One step of the reference search past a visited or target id. */
    lemma SearchUnfold(current: nat, to: nat, visited: set<nat>)
      requires Valid() && current !in visited && current != to
      ensures var (f, v, w) := SearchEdges(to, EdgesOf(current), 0, visited + {current});
              Search(current, to, visited) == if f then (true, v, [current] + w) else (false, v, [])
    {
    }

    /** One step of the reference search along an edge list. */
    lemma SearchEdgesStep(to: nat, es: seq<Edge>, k: nat, visited: set<nat>)
      requires Valid() && k < |es|
      requires forall j :: 0 <= j < |es| ==> es[j].to in nodes
      ensures var (f, v, w) := Search(es[k].to, to, visited);
              SearchEdges(to, es, k, visited) == if f then (true, v, w) else SearchEdges(to, es, k + 1, v)
    {
    }

    /** What the search finds is a simple walk from `current` to `to`
        through unvisited ids. When it finds nothing, every id it newly
        visited has all its successors visited, and `to` is not one of
        them. */
    lemma {:induction false} SearchSound(current: nat, to: nat, visited: set<nat>)
      requires Valid()
      ensures var (f, v, w) := Search(current, to, visited);
              && (f ==> IsPath(w, current, to) && Distinct(w) && Avoids(w, visited))
              && (!f ==> ClosedBetween(visited, v) && (to in v ==> to in visited))
              && (current in v)
      decreases |(nodes.Keys + {current}) - visited|, 0
    {
      if current !in visited && current != to {
        var es := EdgesOf(current);
        MeasureShrinks(nodes.Keys, current, visited, visited + {current});
        SearchEdgesSound(to, current, 0, visited + {current});
        var (f, v, w) := SearchEdges(to, es, 0, visited + {current});
        if f {
          WalkCons(current, to, visited, visited + {current}, w);
        } else {
          SuccessorsVisited(current, v);
          ClosedAtCurrent(visited, current, v);
        }
      }
    }

    /** The search along the edges of `current` from position `k`: a walk
        found starts at a successor of `current`; when nothing is found,
        the remaining targets are all visited. */
    lemma {:induction false} SearchEdgesSound(to: nat, current: nat, k: nat, visited: set<nat>)
      requires Valid() && k <= |EdgesOf(current)|
      ensures var (f, v, w) := SearchEdges(to, EdgesOf(current), k, visited);
              && (f ==> w != [] && w[0] in Succ(current) && IsPath(w, w[0], to)
                        && Distinct(w) && Avoids(w, visited))
              && (!f ==> ClosedBetween(visited, v) && (to in v ==> to in visited))
              && (!f ==> forall j :: k <= j < |EdgesOf(current)| ==> EdgesOf(current)[j].to in v)
      decreases |nodes.Keys - visited|, |EdgesOf(current)| - k + 1
    {
      var es := EdgesOf(current);
      if k < |es| {
        var next := es[k].to;
        assert nodes.Keys + {next} == nodes.Keys;
        SearchSound(next, to, visited);
        var (f1, v1, w1) := Search(next, to, visited);
        if f1 {
          assert Succ(current)[k] == next;
        } else {
          SubsetNoLarger(nodes.Keys - v1, nodes.Keys - visited);
          SearchEdgesSound(to, current, k + 1, v1);
          var (f, v, w) := SearchEdges(to, es, k + 1, v1);
          if !f {
            ClosedTrans(visited, v1, v);
          }
        }
      }
    }

    /** Once every edge of `current` has been tried, all its successors are
        visited. */
    lemma SuccessorsVisited(current: nat, v: set<nat>)
      requires forall j :: 0 <= j < |EdgesOf(current)| ==> EdgesOf(current)[j].to in v
      ensures forall y :: y in Succ(current) ==> y in v
    {
      forall y | y in Succ(current) ensures y in v {
        var j :| 0 <= j < |EdgesOf(current)| && Succ(current)[j] == y;
      }
    }

    /** Adding `current`, whose successors are all visited, keeps closure. */
    lemma ClosedAtCurrent(visited: set<nat>, current: nat, v: set<nat>)
      requires ClosedBetween(visited + {current}, v)
      requires forall y :: y in Succ(current) ==> y in v
      ensures ClosedBetween(visited, v)
    {
    }

    /** Closure composes over two successive stretches of a search. */
    lemma ClosedTrans(a: set<nat>, b: set<nat>, c: set<nat>)
      requires a <= b <= c
      requires ClosedBetween(a, b) && ClosedBetween(b, c)
      ensures ClosedBetween(a, c)
    {
      forall x, y | x in c && x !in a && y in Succ(x) ensures y in c {
        if x in b {
          assert y in b;
        }
      }
    }

    /** A walk from a successor of `current` through ids outside `inner`,
        with `current` put in front, is a walk from `current`. */
    lemma WalkCons(current: nat, to: nat, visited: set<nat>, inner: set<nat>, w: seq<nat>)
      requires current !in visited && visited + {current} <= inner
      requires w != [] && w[0] in Succ(current) && IsPath(w, w[0], to)
      requires Distinct(w) && Avoids(w, inner)
      ensures IsPath([current] + w, current, to)
      ensures Distinct([current] + w) && Avoids([current] + w, visited)
    {
      var walk := [current] + w;
      forall k | 0 <= k < |walk| - 1 ensures walk[k + 1] in Succ(walk[k]) {
        if k > 0 {
          assert walk[k] == w[k - 1] && walk[k + 1] == w[k];
        }
      }
      forall i, j | 0 <= i < j < |walk| ensures walk[i] != walk[j] {
        if i == 0 {
          assert walk[j] == w[j - 1] && walk[j] !in inner;
        } else {
          assert walk[i] == w[i - 1] && walk[j] == w[j - 1];
        }
      }
      forall k | 0 <= k < |walk| ensures walk[k] !in visited {
        if k > 0 {
          assert walk[k] == w[k - 1];
        }
      }
    }

    /** In a set closed under successors, every walk from a member stays
        inside the set. */
    lemma {:induction false} ClosedHoldsWalk(v: set<nat>, p: seq<nat>, k: nat)
      requires ClosedBetween({}, v)
      requires p != [] && p[0] in v && k < |p|
      requires forall j :: 0 <= j < |p| - 1 ==> p[j + 1] in Succ(p[j])
      ensures p[k] in v
    {
      if k > 0 {
        ClosedHoldsWalk(v, p, k - 1);
        assert p[k] in Succ(p[k - 1]);
      }
    }

    /** A set closed under successors that holds `a` but not `b` shows that
        `b` cannot be reached from `a`. */
    lemma ClosedHoldsPaths(v: set<nat>, a: nat, b: nat)
      requires ClosedBetween({}, v) && a in v && b !in v
      ensures !Reachable(a, b)
    {
      forall p | IsPath(p, a, b) ensures false {
        ClosedHoldsWalk(v, p, |p| - 1);
      }
    }
  }

  /** The search measure drops once `current` has been visited. */
  lemma MeasureShrinks(keys: set<nat>, current: nat, visited: set<nat>, inner: set<nat>)
    requires current !in visited && visited + {current} <= inner
    ensures |keys - inner| < |(keys + {current}) - visited|
  {
    assert (keys - inner) < (keys + {current}) - visited by {
      assert current in (keys + {current}) - visited && current !in keys - inner;
    }
    SubsetSmaller(keys - inner, (keys + {current}) - visited);
  }

  /** A proper subset is smaller. */
  lemma SubsetSmaller(a: set<nat>, b: set<nat>)
    requires a < b
    ensures |a| < |b|
  {
    var x :| x in b && x !in a;
    SubsetNoLarger(a, b - {x});
  }

  /** A subset is no larger. */
  lemma {:induction false} SubsetNoLarger(a: set<nat>, b: set<nat>)
    requires a <= b
    ensures |a| <= |b|
    decreases a
  {
    if a != {} {
      var x :| x in a;
      SubsetNoLarger(a - {x}, b - {x});
    }
  }
}
