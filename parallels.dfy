/**
 * The parallel-group graph builder: from the directed `groupParallel` rows of a term
 * to a symmetric adjacency map (`buildGroupParallels` in web/src/app/api/solve/route.ts).
 */
module Parallels {

  /** One stored row: groups `groupAId` and `groupBId` must not share a time slot. */
  datatype Edge = Edge(groupAId: int, groupBId: int)

  ghost predicate Distinct(xs: seq<int>) {
    forall i, j :: 0 <= i < j < |xs| ==> xs[i] != xs[j]
  }

  /** `set.add(x)` on an insertion-ordered JavaScript `Set`, held as a duplicate-free sequence. */
  function SetAdd(xs: seq<int>, x: int): seq<int> {
    if x in xs then xs else xs + [x]
  }

  /** Adding holds `x` and what was there, and keeps the list free of duplicates. */
  lemma SetAddSpec(xs: seq<int>, x: int)
    ensures forall y :: y in SetAdd(xs, x) <==> y in xs || y == x
    ensures Distinct(xs) ==> Distinct(SetAdd(xs, x))
  {
  }

  /** `if (!adj.has(g)) adj.set(g, new Set())`. */
  function EnsureKey(adj: map<int, seq<int>>, g: int): map<int, seq<int>> {
    if g in adj then adj else adj[g := []]
  }

  /** `adj.get(g)!.add(h)`. */
  function Link(adj: map<int, seq<int>>, g: int, h: int): map<int, seq<int>>
    requires g in adj
  {
    adj[g := SetAdd(adj[g], h)]
  }

  /** One pass of the loop body: create both endpoints' sets when missing, then link both ways. */
  function AddEdge(adj: map<int, seq<int>>, e: Edge): map<int, seq<int>> {
    var a1 := EnsureKey(EnsureKey(adj, e.groupAId), e.groupBId);
    Link(Link(a1, e.groupAId, e.groupBId), e.groupBId, e.groupAId)
  }

  /** The adjacency after the rows `edges`, processed in order. */
  function Adjacency(edges: seq<Edge>): map<int, seq<int>> {
    if edges == [] then map[] else AddEdge(Adjacency(edges[..|edges| - 1]), edges[|edges| - 1])
  }

  /** Two maps with the same keys and the same value under each key. */
  ghost predicate SameMap(m: map<int, seq<int>>, m': map<int, seq<int>>) {
    && (forall g :: g in m <==> g in m')
    && (forall g :: g in m && g in m' ==> m[g] == m'[g])
  }

  /** One pass of the first loop of `buildGroupParallels`, on the map and its key order. */
  method AddToSets(adj0: map<int, seq<int>>, order0: seq<int>, e: Edge) returns (adj: map<int, seq<int>>, order: seq<int>)
    requires forall g :: g in order0 <==> g in adj0
    ensures adj == AddEdge(adj0, e)
    ensures forall g :: g in order <==> g in adj
  {
    adj, order := adj0, order0;
    if e.groupAId !in adj {
      adj := adj[e.groupAId := []];
      order := order + [e.groupAId];
    }
    if e.groupBId !in adj {
      adj := adj[e.groupBId := []];
      order := order + [e.groupBId];
    }
    assert adj == EnsureKey(EnsureKey(adj0, e.groupAId), e.groupBId);
    ghost var ensured := adj;
    adj := adj[e.groupAId := SetAdd(adj[e.groupAId], e.groupBId)];
    assert adj == Link(ensured, e.groupAId, e.groupBId);
    adj := adj[e.groupBId := SetAdd(adj[e.groupBId], e.groupAId)];
  }

  /**
   * `buildGroupParallels`: fill the map of sets edge by edge, then copy each set into a
   * list, visiting the groups in the map's insertion order.
   */
  method BuildGroupParallels(edges: seq<Edge>) returns (parallelMap: map<int, seq<int>>)
    ensures SameMap(parallelMap, Adjacency(edges))
  {
    var adj: map<int, seq<int>> := map[];
    var order: seq<int> := [];  // the insertion order of adj's keys
    var i := 0;
    while i < |edges|
      invariant 0 <= i <= |edges|
      invariant adj == Adjacency(edges[..i])
      invariant forall g :: g in order <==> g in adj
    {
      adj, order := AddToSets(adj, order, edges[i]);
      assert edges[..i + 1][..i] == edges[..i];
      i := i + 1;
    }
    assert edges[..i] == edges;

    parallelMap := map[];
    for k := 0 to |order|
      invariant forall g :: g in order <==> g in adj
      invariant forall g :: g in parallelMap <==> g in order[..k]
      invariant forall g :: g in parallelMap ==> g in adj && parallelMap[g] == adj[g]
    {
      var gid := order[k];
      assert gid in order;
      parallelMap := parallelMap[gid := adj[gid]];
      assert order[..k + 1] == order[..k] + [gid];
    }
    assert order[..|order|] == order;
  }

  /** `a` and `b` are linked by a stored row, in either direction. */
  ghost predicate Linked(edges: seq<Edge>, a: int, b: int) {
    Edge(a, b) in edges || Edge(b, a) in edges
  }

  /** `g` is an endpoint of some stored row. */
  ghost predicate Mentioned(edges: seq<Edge>, g: int) {
    exists e :: e in edges && (e.groupAId == g || e.groupBId == g)
  }

  lemma AddEdgeKeys(adj: map<int, seq<int>>, e: Edge)
    ensures forall g :: g in AddEdge(adj, e) <==> g in adj || g == e.groupAId || g == e.groupBId
  {
  }

  lemma AddEdgeDistinct(adj: map<int, seq<int>>, e: Edge)
    requires forall g :: g in adj ==> Distinct(adj[g])
    ensures forall g :: g in AddEdge(adj, e) ==> Distinct(AddEdge(adj, e)[g])
  {
    var a1 := EnsureKey(EnsureKey(adj, e.groupAId), e.groupBId);
    SetAddSpec(a1[e.groupAId], e.groupBId);
    var a2 := Link(a1, e.groupAId, e.groupBId);
    SetAddSpec(a2[e.groupBId], e.groupAId);
  }

  lemma AddEdgeLinks(adj: map<int, seq<int>>, e: Edge)
    ensures forall g, h :: g in AddEdge(adj, e) ==>
        (h in AddEdge(adj, e)[g] <==> (g in adj && h in adj[g]) || (g == e.groupAId && h == e.groupBId)
                                                     || (g == e.groupBId && h == e.groupAId))
  {
    var a1 := EnsureKey(EnsureKey(adj, e.groupAId), e.groupBId);
    SetAddSpec(a1[e.groupAId], e.groupBId);
    var a2 := Link(a1, e.groupAId, e.groupBId);
    SetAddSpec(a2[e.groupBId], e.groupAId);
  }

  /** The keys of the adjacency are exactly the endpoints of the rows. */
  lemma {:induction false} AdjacencyKeys(edges: seq<Edge>)
    ensures forall g :: g in Adjacency(edges) <==> Mentioned(edges, g)
  {
    if edges != [] {
      var n := |edges| - 1;
      var init, e := edges[..n], edges[n];
      assert edges == init + [e];
      AdjacencyKeys(init);
      AddEdgeKeys(Adjacency(init), e);
      forall g
        ensures Mentioned(edges, g) <==> Mentioned(init, g) || g == e.groupAId || g == e.groupBId
      {
        MentionedSnoc(init, e, g);
      }
    }
  }

  /** No neighbour list holds a group twice. */
  lemma {:induction false} AdjacencyDistinct(edges: seq<Edge>)
    ensures forall g :: g in Adjacency(edges) ==> Distinct(Adjacency(edges)[g])
  {
    if edges != [] {
      var n := |edges| - 1;
      AdjacencyDistinct(edges[..n]);
      AddEdgeDistinct(Adjacency(edges[..n]), edges[n]);
    }
  }

  /**
   * `h` is listed under `g` exactly when a row links `g` and `h` in either direction;
   * a self-row lists a group under itself.
   */
  lemma {:induction false} AdjacencyLinks(edges: seq<Edge>)
    ensures forall g, h :: g in Adjacency(edges) ==> (h in Adjacency(edges)[g] <==> Linked(edges, g, h))
  {
    if edges != [] {
      var n := |edges| - 1;
      var init, e := edges[..n], edges[n];
      assert edges == init + [e];
      AdjacencyLinks(init);
      AdjacencyKeys(init);
      AddEdgeLinks(Adjacency(init), e);
      forall g, h
        ensures Linked(edges, g, h) <==> Linked(init, g, h) || e == Edge(g, h) || e == Edge(h, g)
      {
        InSnoc(init, e, Edge(g, h));
        InSnoc(init, e, Edge(h, g));
      }
      forall g, h | Linked(init, g, h)
        ensures g in Adjacency(init)
      {
        LinkedMentioned(init, g, h);
      }
    }
  }

  /** Both ends of a link are endpoints of some row. */
  lemma LinkedMentioned(edges: seq<Edge>, g: int, h: int)
    requires Linked(edges, g, h)
    ensures Mentioned(edges, g) && Mentioned(edges, h)
  {
    var e := if Edge(g, h) in edges then Edge(g, h) else Edge(h, g);
    assert e in edges && (e.groupAId == g || e.groupBId == g) && (e.groupAId == h || e.groupBId == h);
  }

  lemma InSnoc(init: seq<Edge>, e: Edge, x: Edge)
    ensures x in init + [e] <==> x in init || x == e
  {
  }

  lemma MentionedSnoc(init: seq<Edge>, e: Edge, g: int)
    ensures Mentioned(init + [e], g) <==> Mentioned(init, g) || g == e.groupAId || g == e.groupBId
  {
    if Mentioned(init + [e], g) {
      var e' :| e' in init + [e] && (e'.groupAId == g || e'.groupBId == g);
      InSnoc(init, e, e');
    }
    if g == e.groupAId || g == e.groupBId {
      InSnoc(init, e, e);
    }
    if Mentioned(init, g) {
      var e' :| e' in init && (e'.groupAId == g || e'.groupBId == g);
      InSnoc(init, e, e');
    }
  }

  /** The adjacency is symmetric: `h` is listed under `g` exactly when `g` is listed under `h`. */
  lemma AdjacencySymmetric(edges: seq<Edge>, g: int, h: int)
    ensures var adj := Adjacency(edges);
      (g in adj && h in adj[g]) <==> (h in adj && g in adj[h])
  {
    AdjacencyKeys(edges);
    AdjacencyLinks(edges);
    if Linked(edges, g, h) {
      LinkedMentioned(edges, g, h);
    }
  }

  /** A self-row `(g, g)` puts `g` in its own neighbour list. */
  lemma SelfEdgeListed(edges: seq<Edge>, g: int)
    requires Edge(g, g) in edges
    ensures g in Adjacency(edges) && g in Adjacency(edges)[g]
  {
    AdjacencyKeys(edges);
    AdjacencyLinks(edges);
    assert Edge(g, g).groupAId == g;
  }
}
