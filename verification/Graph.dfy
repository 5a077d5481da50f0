/** The dependency graph: its abstract view, and the mutable graph that
    implements it with per-node sets. */
module DependencyGraph {
  import opened Common
  import opened Traces
  import opened Reachability

  datatype EdgeLabel = CREATES | HAPPENS_BEFORE

  datatype Edge = Edge(src: Id, tgt: Id, lbl: EdgeLabel)

  function Pairs(es: set<Edge>): Relation {
    set e | e in es :: (e.src, e.tgt)
  }

  /** What a graph means.  `deps` holds the edges of the `dependents` sets;
      `hist` holds the pairs of the `before` and `after` sets, which no
      operation ever removes. */
  datatype View = View(events: map<Id, Event>, deps: set<Edge>, hist: Relation, attrs: set<(Id, string)>)
  {
    function WithNode(id: Id, obj: Event): View {
      if id in events then this else this.(events := events[id := obj])
    }

    function WithAttr(id: Id, attr: string): View {
      if id in events then this.(attrs := attrs + {(id, attr)}) else this
    }

    /** An edge to a missing node enters `deps` but not `hist`. */
    function WithEdge(e: Edge): View {
      WithEdges({e})
    }

    function WithEdges(es: set<Edge>): View {
      this.(deps := deps + Kept(es),
            hist := hist + set e | e in Kept(es) && e.tgt in events :: (e.src, e.tgt))
    }

    /** The edges that leave an existing node and are not self edges. */
    function Kept(es: set<Edge>): set<Edge> {
      set e | e in es && e.src != e.tgt && e.src in events
    }

    function WithoutEdges(es: set<Edge>): View {
      this.(deps := deps - es)
    }

    function Sinks(): set<Id> {
      set u | u in events && forall e :: e in deps ==> e.src != u
    }

    /** The nodes ordered directly after, and directly before, `id`. */
    function Next(id: Id): set<Id> {
      set e | e in hist && e.0 == id :: e.1
    }

    function Prev(id: Id): set<Id> {
      set e | e in hist && e.1 == id :: e.0
    }

    ghost predicate Valid() {
      && (forall e :: e in hist ==> e.0 in events && e.1 in events && e.0 != e.1)
      && (forall e :: e in deps ==> e.src in events && e.src != e.tgt)
    }

    /** Every edge has an existing target. */
    ghost predicate HasTargets() {
      forall e :: e in deps ==> e.tgt in events
    }

    /** Every edge has been recorded, hence has an existing target. */
    ghost predicate Closed() {
      Valid() && Pairs(deps) <= hist
    }
  }

  const EMPTY_VIEW := View(map[], {}, {}, {})

  datatype NodeInfo = NodeInfo(
    obj: Event,
    dependents: set<(Id, EdgeLabel)>,
    before: set<Id>,
    after: set<Id>,
    attributes: set<string>)
  {
    predicate HasAttribute(attr: string) {
      attr in attributes
    }
  }

  /** The sets of one node hold exactly what the view says about it.  The pairs
      of the history are those of `before` and, the other way round, `after`. */
  ghost predicate NodeAgrees(g: map<Id, NodeInfo>, v: View, u: Id) {
    && (u in g <==> u in v.events)
    && (u in g ==> v.events[u] == g[u].obj)
    && (forall t, l :: Edge(u, t, l) in v.deps <==> u in g && (t, l) in g[u].dependents)
    && (forall t :: (u, t) in v.hist <==> u in g && t in g[u].before)
    && (forall t :: (t, u) in v.hist <==> u in g && t in g[u].after)
    && (forall a :: (u, a) in v.attrs <==> u in g && a in g[u].attributes)
  }

  ghost predicate Represents(g: map<Id, NodeInfo>, v: View) {
    forall u :: NodeAgrees(g, v, u)
  }

  lemma NextPrev(g: map<Id, NodeInfo>, v: View, u: Id)
    requires Represents(g, v) && u in g
    ensures v.Next(u) == g[u].before && v.Prev(u) == g[u].after
  {
    assert NodeAgrees(g, v, u);
    forall w | w in g[u].before ensures w in v.Next(u) {
      assert (u, w) in v.hist && (u, w).1 == w;
    }
    forall w | w in g[u].after ensures w in v.Prev(u) {
      assert (w, u) in v.hist && (w, u).0 == w;
    }
  }

  lemma NodeRepresented(g: map<Id, NodeInfo>, v: View, id: Id, obj: Event)
    requires Represents(g, v) && id !in g
    ensures Represents(g[id := NodeInfo(obj, {}, {}, {}, {})], v.WithNode(id, obj))
  {
    var g', v' := g[id := NodeInfo(obj, {}, {}, {}, {})], v.WithNode(id, obj);
    forall u ensures NodeAgrees(g', v', u) {
      assert NodeAgrees(g, v, u) && NodeAgrees(g, v, id);
    }
  }

  lemma AttrRepresented(g: map<Id, NodeInfo>, v: View, id: Id, attr: string)
    requires Represents(g, v) && id in g
    ensures Represents(g[id := g[id].(attributes := g[id].attributes + {attr})], v.WithAttr(id, attr))
  {
    var g', v' := g[id := g[id].(attributes := g[id].attributes + {attr})], v.WithAttr(id, attr);
    forall u ensures NodeAgrees(g', v', u) {
      assert NodeAgrees(g, v, u) && NodeAgrees(g, v, id);
    }
  }

  lemma RemovalRepresented(g: map<Id, NodeInfo>, v: View, s: Id, t: Id, l: EdgeLabel)
    requires Represents(g, v)
    ensures var g' := if s in g then g[s := g[s].(dependents := g[s].dependents - {(t, l)})] else g;
      Represents(g', v.WithoutEdges({Edge(s, t, l)}))
  {
    var g' := if s in g then g[s := g[s].(dependents := g[s].dependents - {(t, l)})] else g;
    var v' := v.WithoutEdges({Edge(s, t, l)});
    forall u ensures NodeAgrees(g', v', u) {
      assert NodeAgrees(g, v, u) && NodeAgrees(g, v, s);
    }
  }

  /** The graph after an edge has been added, one node set at a time. */
  function EdgeInserted(g: map<Id, NodeInfo>, s: Id, t: Id, l: EdgeLabel): map<Id, NodeInfo> {
    if s == t || s !in g then g
    else
      var g1 := g[s := g[s].(dependents := g[s].dependents + {(t, l)})];
      if t !in g1 then g1
      else
        var g2 := g1[s := g1[s].(before := g1[s].before + {t})];
        g2[t := g2[t].(after := g2[t].after + {s})]
  }

  lemma DependentRepresented(g: map<Id, NodeInfo>, v: View, e: Edge)
    requires Represents(g, v) && e.src in g
    ensures Represents(g[e.src := g[e.src].(dependents := g[e.src].dependents + {(e.tgt, e.lbl)})],
                       v.(deps := v.deps + {e}))
  {
    var g' := g[e.src := g[e.src].(dependents := g[e.src].dependents + {(e.tgt, e.lbl)})];
    forall u ensures NodeAgrees(g', v.(deps := v.deps + {e}), u) {
      assert NodeAgrees(g, v, u) && NodeAgrees(g, v, e.src);
    }
  }

  lemma OrderRepresented(g: map<Id, NodeInfo>, v: View, s: Id, t: Id)
    requires Represents(g, v) && s in g && t in g && s != t
    ensures var g' := g[s := g[s].(before := g[s].before + {t})];
      Represents(g'[t := g'[t].(after := g'[t].after + {s})], v.(hist := v.hist + {(s, t)}))
  {
    var g1 := g[s := g[s].(before := g[s].before + {t})];
    var g' := g1[t := g1[t].(after := g1[t].after + {s})];
    forall u ensures NodeAgrees(g', v.(hist := v.hist + {(s, t)}), u) {
      assert NodeAgrees(g, v, u);
    }
  }

  lemma EdgeRepresented(g: map<Id, NodeInfo>, v: View, s: Id, t: Id, l: EdgeLabel)
    requires Represents(g, v) && v.Valid()
    ensures Represents(EdgeInserted(g, s, t, l), v.WithEdge(Edge(s, t, l))) && v.WithEdge(Edge(s, t, l)).Valid()
  {
    var e := Edge(s, t, l);
    assert NodeAgrees(g, v, s) && NodeAgrees(g, v, t);
    EdgeIntoView(v, e);
    if s != t && s in g {
      DependentRepresented(g, v, e);
      if t in g {
        OrderRepresented(g[s := g[s].(dependents := g[s].dependents + {(t, l)})], v.(deps := v.deps + {e}), s, t);
      }
    }
  }

  lemma EdgeIntoView(v: View, e: Edge)
    ensures v.WithEdge(e) ==
      if e.src == e.tgt || e.src !in v.events then v
      else if e.tgt !in v.events then v.(deps := v.deps + {e})
      else v.(deps := v.deps + {e}, hist := v.hist + {(e.src, e.tgt)})
  {
  }

  // ----- Depth-first search

  /** Every dependent of a node of `from` is in `visited` or waits in `pool`. */
  ghost predicate Explored(g: map<Id, NodeInfo>, from: set<Id>, visited: set<Id>, pool: seq<Id>) {
    forall u, d :: u in from && u in g && d in g[u].dependents ==> d.0 in visited || d.0 in pool
  }

  ghost predicate Pushed(done: set<(Id, EdgeLabel)>, visited: set<Id>, pool: seq<Id>) {
    forall d :: d in done ==> d.0 in visited || d.0 in pool
  }

  ghost predicate AllReached(v: View, source: Id, visited: set<Id>) {
    forall u :: u in visited ==> Reaches(Pairs(v.deps), source, u)
  }

  ghost predicate Pooled(v: View, source: Id, pool: seq<Id>) {
    forall u :: u in pool ==> Reaches(Pairs(v.deps), source, u)
  }

  /** Everything that can be reached is a node. */
  ghost predicate Searchable(v: View, source: Id) {
    forall u :: Reaches(Pairs(v.deps), source, u) ==> u in v.events
  }

  /** Where all edges have existing targets, every node can be searched from. */
  lemma TargetsMakeSearchable(v: View, source: Id)
    requires v.HasTargets() && source in v.events
    ensures Searchable(v, source)
  {
    var r := Pairs(v.deps);
    forall u | Reaches(r, source, u) ensures u in v.events {
      var n: nat :| ReachesIn(r, source, u, n);
      WalkStays(r, v.events.Keys, source, u, n);
    }
  }

  /** One turn of the loop over the dependents of `node`. */
  lemma DependentPushed(g: map<Id, NodeInfo>, v: View, source: Id, seen: set<Id>, visited: set<Id>, pool: seq<Id>,
                        node: Id, rest: set<(Id, EdgeLabel)>, d: (Id, EdgeLabel))
    requires Represents(g, v) && node in g && Reaches(Pairs(v.deps), source, node)
    requires Pooled(v, source, pool) && Explored(g, seen, visited, pool)
    requires d in rest && rest <= g[node].dependents && Pushed(g[node].dependents - rest, visited, pool)
    ensures var pool' := if d.0 !in visited then pool + [d.0] else pool;
      && Pooled(v, source, pool') && Explored(g, seen, visited, pool')
      && Pushed(g[node].dependents - (rest - {d}), visited, pool')
      && forall u :: u in pool ==> u in pool'
  {
    assert NodeAgrees(g, v, node);
    DependentReached(g, v, source, node, d);
  }

  lemma DependentReached(g: map<Id, NodeInfo>, v: View, source: Id, node: Id, d: (Id, EdgeLabel))
    requires Represents(g, v) && node in g && d in g[node].dependents
    requires Reaches(Pairs(v.deps), source, node)
    ensures Reaches(Pairs(v.deps), source, d.0)
  {
    assert NodeAgrees(g, v, node);
    assert Edge(node, d.0, d.1) in v.deps;
    assert (node, d.0) in Pairs(v.deps);
    ReachesEdge(Pairs(v.deps), node, d.0);
    ReachesTrans(Pairs(v.deps), source, node, d.0);
  }

  lemma Finished(g: map<Id, NodeInfo>, seen: set<Id>, node: Id, pool: seq<Id>)
    requires node in g && Explored(g, seen, seen + {node}, pool)
    requires Pushed(g[node].dependents - {}, seen + {node}, pool)
    ensures Explored(g, seen + {node}, seen + {node}, pool)
  {
  }

  lemma Popped(g: map<Id, NodeInfo>, v: View, source: Id, visited: set<Id>, pool: seq<Id>)
    requires pool != [] && AllReached(v, source, visited) && Pooled(v, source, pool)
    requires Explored(g, visited, visited, pool) && (source in visited || source in pool)
    ensures var node := pool[|pool| - 1];
      && Reaches(Pairs(v.deps), source, node)
      && AllReached(v, source, visited + {node}) && Pooled(v, source, pool[..|pool| - 1])
      && Explored(g, visited, visited + {node}, pool[..|pool| - 1])
      && (source in visited + {node} || source in pool[..|pool| - 1])
  {
  }

  lemma ExploredIsAll(g: map<Id, NodeInfo>, v: View, source: Id, visited: set<Id>)
    requires Represents(g, v) && Explored(g, visited, visited, [])
    requires source in visited && AllReached(v, source, visited)
    ensures forall u :: u in visited <==> Reaches(Pairs(v.deps), source, u)
  {
    var r := Pairs(v.deps);
    forall e | e in r && e.0 in visited ensures e.1 in visited {
      var edge :| edge in v.deps && e == (edge.src, edge.tgt);
      assert NodeAgrees(g, v, edge.src) && edge == Edge(edge.src, edge.tgt, edge.lbl);
      assert (edge.tgt, edge.lbl) in g[edge.src].dependents;
    }
    forall u | Reaches(r, source, u) ensures u in visited {
      var n: nat :| ReachesIn(r, source, u, n);
      WalkStays(r, visited, source, u, n);
    }
  }

  lemma AllNodes(g: map<Id, NodeInfo>, v: View, source: Id, visited: set<Id>)
    requires Represents(g, v) && visited <= g.Keys
    requires forall u :: u in visited <==> Reaches(Pairs(v.deps), source, u)
    ensures Searchable(v, source)
  {
    forall u | u in visited ensures u in v.events {
      assert NodeAgrees(g, v, u);
    }
  }

  class Graph {
    var graph: map<Id, NodeInfo>
    ghost var view: View

    ghost predicate Valid()
      reads this
    {
      Represents(graph, view) && view.Valid()
    }

    constructor ()
      ensures Valid() && view == EMPTY_VIEW
    {
      graph := map[];
      view := EMPTY_VIEW;
    }

    method AddNode(nodeId: Id, nodeObj: Event)
      requires Valid()
      modifies this
      ensures Valid() && view == old(view).WithNode(nodeId, nodeObj)
    {
      assert NodeAgrees(graph, view, nodeId);
      if nodeId !in graph {
        NodeRepresented(graph, view, nodeId, nodeObj);
        graph := graph[nodeId := NodeInfo(nodeObj, {}, {}, {}, {})];
        view := view.WithNode(nodeId, nodeObj);
      }
    }

    method AddNodeAttr(nodeId: Id, attr: string)
      requires Valid()
      modifies this
      ensures Valid() && view == old(view).WithAttr(nodeId, attr)
    {
      assert NodeAgrees(graph, view, nodeId);
      if nodeId in graph {
        AttrRepresented(graph, view, nodeId, attr);
        var node := graph[nodeId];
        graph := graph[nodeId := node.(attributes := node.attributes + {attr})];
        view := view.WithAttr(nodeId, attr);
      }
    }

    method GetNodeInfo(nodeId: Id) returns (info: Option<NodeInfo>)
      requires Valid()
      ensures info == if nodeId in graph then Some(graph[nodeId]) else None
      ensures nodeId in graph <==> nodeId in view.events
      ensures nodeId in graph ==>
        && graph[nodeId].obj == view.events[nodeId]
        && graph[nodeId].before == view.Next(nodeId) && graph[nodeId].after == view.Prev(nodeId)
        && forall attr :: attr in graph[nodeId].attributes <==> (nodeId, attr) in view.attrs
    {
      info := if nodeId in graph then Some(graph[nodeId]) else None;
      assert NodeAgrees(graph, view, nodeId);
      if nodeId in graph {
        NextPrev(graph, view, nodeId);
      }
    }

    /** The target is looked up only after the dependent has been inserted. */
    method AddEdge(source: Id, target: Id, lbl: EdgeLabel)
      requires Valid()
      modifies this
      ensures Valid() && view == old(view).WithEdge(Edge(source, target, lbl))
    {
      EdgeRepresented(graph, view, source, target, lbl);
      view := view.WithEdge(Edge(source, target, lbl));
      if source == target {
        return;
      }
      if source in graph {
        var node := graph[source];
        graph := graph[source := node.(dependents := node.dependents + {(target, lbl)})];
        if target !in graph {
          return;
        }
        node := graph[source];
        graph := graph[source := node.(before := node.before + {target})];
        node := graph[target];
        graph := graph[target := node.(after := node.after + {source})];
      }
    }

    /** Only the dependent goes: `before` and `after` keep the pair. */
    method RemoveEdge(source: Id, target: Id, lbl: EdgeLabel)
      requires Valid()
      modifies this
      ensures Valid() && view == old(view).WithoutEdges({Edge(source, target, lbl)})
    {
      RemovalRepresented(graph, view, source, target, lbl);
      if source in graph {
        var node := graph[source];
        graph := graph[source := node.(dependents := node.dependents - {(target, lbl)})];
      }
      view := view.WithoutEdges({Edge(source, target, lbl)});
    }

    /** Depth-first search: exactly the nodes that can be reached.  There is no
        result, and the assertion of the source fails, just when something that
        can be reached is not a node. */
    method DFS(source: Id) returns (result: Option<set<Id>>)
      requires Valid()
      ensures result.Some? <==> Searchable(view, source)
      ensures result.Some? ==> forall v :: v in result.value <==> Reaches(Pairs(view.deps), source, v)
    {
      var visited: set<Id> := {};
      var pool: seq<Id> := [source];
      ReachesSelf(Pairs(view.deps), source);
      while pool != []
        invariant visited <= graph.Keys
        invariant AllReached(view, source, visited) && Pooled(view, source, pool)
        invariant source in visited || source in pool
        invariant Explored(graph, visited, visited, pool)
        decreases graph.Keys - visited, |pool|
      {
        var node := pool[|pool| - 1];
        Popped(graph, view, source, visited, pool);
        assert NodeAgrees(graph, view, node);
        pool := pool[..|pool| - 1];
        if node in visited {
          continue;
        }
        ghost var seen := visited;
        visited := visited + {node};
        if node !in graph {
          return None;
        }
        var dependents := graph[node].dependents;
        while dependents != {}
          invariant dependents <= graph[node].dependents
          invariant Pooled(view, source, pool) && (source in visited || source in pool)
          invariant Explored(graph, seen, visited, pool)
          invariant Pushed(graph[node].dependents - dependents, visited, pool)
        {
          var d :| d in dependents;
          DependentPushed(graph, view, source, seen, visited, pool, node, dependents, d);
          dependents := dependents - {d};
          if d.0 !in visited {
            pool := pool + [d.0];
          }
        }
        Finished(graph, seen, node, pool);
      }
      ExploredIsAll(graph, view, source, visited);
      AllNodes(graph, view, source, visited);
      result := Some(visited);
    }

    method HasPath(source: Id, target: Id) returns (b: Option<bool>)
      requires Valid()
      ensures b.Some? <==> Searchable(view, source)
      ensures b.Some? ==> (b.value <==> Reaches(Pairs(view.deps), source, target))
    {
      var visited := DFS(source);
      b := if visited.Some? then Some(target in visited.value) else None;
    }

    method GetSinks() returns (sinks: set<Id>)
      requires Valid()
      ensures sinks == view.Sinks()
    {
      sinks := {};
      var rest := graph.Keys;
      while rest != {}
        invariant rest <= graph.Keys
        invariant sinks == set u | u in graph && u !in rest && graph[u].dependents == {}
      {
        var u :| u in rest;
        rest := rest - {u};
        if graph[u].dependents == {} {
          sinks := sinks + {u};
        }
      }
      forall u ensures u in view.Sinks() <==> u in graph && graph[u].dependents == {} {
        assert NodeAgrees(graph, view, u);
        if u in graph {
          forall d | d in graph[u].dependents ensures Edge(u, d.0, d.1) in view.deps {}
          forall e | e in view.deps && e.src == u ensures (e.tgt, e.lbl) in graph[u].dependents {
            assert e == Edge(u, e.tgt, e.lbl);
          }
        }
      }
      assert sinks == view.Sinks();
    }
  }
}
