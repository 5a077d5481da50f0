/** Edges to nodes that are missing: which links make them, what happens when
    their targets are created later, and when none is left. */
module LinkTargets {
  import opened Common
  import opened Traces
  import opened Reachability
  import opened DependencyGraph
  import opened DependencyModel
  import opened Pruning

  /** A link that is not skipped, and whose source exists. */
  ghost predicate TakesEffect(s: State, step: Step) {
    && s.phase == Running && step.Do? && step.expr.LinkExpr?
    && var source := ToString(step.expr.sourceEv);
       source != s.current && source != s.context && source in s.g.events
  }

  ghost predicate LinkTargetExists(s: State, step: Step) {
    TakesEffect(s, step) ==> ToString(step.expr.targetEv) in s.g.events
  }

  ghost predicate LinkTargetsExist(steps: seq<Step>) {
    forall k :: 0 <= k < |steps| ==> LinkTargetExists(Run(true, INIT, steps[..k]), steps[k])
  }

  // ----- When all edges are recorded

  ghost predicate TargetsIn(g: View, es: set<Edge>) {
    forall e :: e in es && e.src in g.events ==> e.tgt in g.events
  }

  lemma EdgesAdded(g: View, es: set<Edge>)
    requires g.Closed() && TargetsIn(g, es)
    ensures g.WithEdges(es).Closed()
    ensures g.WithEdges(es).hist == g.hist + Pairs(g.Kept(es))
  {
    PairsAdded(g, es);
    assert g.WithEdges(es).hist == g.hist + Pairs(g.Kept(es));
  }

  lemma InferredTargets(g: View, id: Id, event: Event, olds: set<Id>)
    requires id in g.events
    ensures TargetsIn(g, InferredWith(g, id, event, olds))
  {
  }

  lemma NewEventClosed(s: State, id: Id, event: Event)
    requires s.g.Closed()
    ensures NewEvent(s, id, event).g.Closed()
  {
    var g1 := s.g.WithNode(id, event);
    var pending := Edge(s.pendingEv, id, HAPPENS_BEFORE);
    EdgesAdded(g1, {pending});
    var g2 := if s.pendingEv != "" then g1.WithEdge(pending) else g1;
    EdgesAdded(g2, {Edge(s.current, id, CREATES)});
    var g3 := g2.WithEdge(Edge(s.current, id, CREATES));
    InferredTargets(g3, id, event, Rivals(g3, s.alive, s.current));
    EdgesAdded(g3, InferredWith(g3, id, event, Rivals(g3, s.alive, s.current)));
  }

  lemma NextClosed(s: State, step: Step)
    requires s.g.Closed() && LinkTargetExists(s, step)
    ensures Next(true, s, step).g.Closed()
  {
    match step
    case Begin(id, isMain, isEmpty) =>
      if s.phase == Idle {
        if isMain && !isEmpty {
          var g1 := s.g.WithNode(id, MAIN_EVENT);
          EdgesAdded(g1, SinkEdges(g1.Sinks(), id));
        } else if !isMain && id in s.g.events {
          EdgesAdded(s.g, WEdges(s.g, id, s.alive));
          var g1 := s.g.WithEdges(WEdges(s.g, id, s.alive));
          assert Pairs(g1.deps - Shortcuts(g1, id)) <= Pairs(g1.deps);
        }
      }
    case Do(expr) =>
      if s.phase == Running {
        match expr
        case NewEventExpr(n, event, _) => NewEventClosed(s, ToString(n), event);
        case LinkExpr(m, n) =>
          if ToString(m) != s.current && ToString(m) != s.context {
            EdgesAdded(s.g, {Edge(ToString(m), ToString(n), HAPPENS_BEFORE)});
          }
        case TriggerExpr(_) =>
        case SubmitOp(_, _, _) =>
      }
    case End =>
  }

  /** Of a closed graph, one step makes an open one exactly when it is a link
      whose source exists and whose target does not. */
  lemma ClosedIfTargetExists(s: State, step: Step)
    requires s.g.Closed()
    ensures Next(true, s, step).g.Closed() <==> LinkTargetExists(s, step)
  {
    if LinkTargetExists(s, step) {
      NextClosed(s, step);
    } else {
      var e := Edge(ToString(step.expr.sourceEv), ToString(step.expr.targetEv), HAPPENS_BEFORE);
      EdgeIntoView(s.g, e);
      var g := Next(true, s, step).g;
      assert e in g.deps && (e.src, e.tgt) in Pairs(g.deps) && (e.src, e.tgt) !in g.hist;
    }
  }

  /** Every edge of the graph is recorded in `before` and `after`, and joins two
      distinct nodes of the graph, so no search meets a node that is missing. */
  lemma {:induction false} EdgesHaveNodes(steps: seq<Step>)
    requires LinkTargetsExist(steps)
    ensures Run(true, INIT, steps).g.Closed()
    decreases |steps|
  {
    if steps == [] {
      assert Pairs({}) == {};
    } else {
      var n := |steps| - 1;
      assert forall k :: 0 <= k <= n ==> steps[..n][..k] == steps[..k];
      EdgesHaveNodes(steps[..n]);
      NextClosed(Run(true, INIT, steps[..n]), steps[n]);
    }
  }

  // ----- When all edges have existing targets

  /** The missing nodes to which there are edges. */
  function Missing(g: View): set<Id> {
    set e | e in g.deps && e.tgt !in g.events :: e.tgt
  }

  /** The targets of the links that have taken effect. */
  ghost function LinkedTo(steps: seq<Step>): set<Id> {
    if steps == [] then {}
    else
      var n := |steps| - 1;
      LinkedTo(steps[..n]) + LinkTarget(Run(true, INIT, steps[..n]), steps[n])
  }

  ghost function LinkTarget(s: State, step: Step): set<Id> {
    if TakesEffect(s, step) then {ToString(step.expr.targetEv)} else {}
  }

  lemma EdgesToNodes(g: View, es: set<Edge>)
    requires TargetsIn(g, es)
    ensures Missing(g.WithEdges(es)) == Missing(g)
  {
    assert forall e :: e in g.Kept(es) ==> e.tgt in g.events;
  }

  lemma NewEventMissing(s: State, id: Id, event: Event)
    ensures Missing(NewEvent(s, id, event).g) == Missing(s.g) - {id}
  {
    var g1 := s.g.WithNode(id, event);
    var pending := Edge(s.pendingEv, id, HAPPENS_BEFORE);
    assert Missing(g1) == Missing(s.g) - {id};
    EdgesToNodes(g1, {pending});
    var g2 := if s.pendingEv != "" then g1.WithEdge(pending) else g1;
    EdgesToNodes(g2, {Edge(s.current, id, CREATES)});
    var g3 := g2.WithEdge(Edge(s.current, id, CREATES));
    InferredTargets(g3, id, event, Rivals(g3, s.alive, s.current));
    EdgesToNodes(g3, InferredWith(g3, id, event, Rivals(g3, s.alive, s.current)));
  }

  lemma LinkMissing(s: State, m: nat, n: nat)
    requires s.phase == Running
    ensures var step := Do(LinkExpr(m, n));
      Missing(Next(true, s, step).g) == (Missing(s.g) + LinkTarget(s, step)) - s.g.events.Keys
  {
    var e := Edge(ToString(m), ToString(n), HAPPENS_BEFORE);
    EdgeIntoView(s.g, e);
    if TakesEffect(s, Do(LinkExpr(m, n))) && e.tgt !in s.g.events {
      assert e in s.g.WithEdge(e).deps;
    }
  }

  lemma BeginMissing(s: State, id: Id, isMain: bool, isEmpty: bool)
    requires s.g.Valid() && s.phase == Idle
    ensures var s' := Next(true, s, Begin(id, isMain, isEmpty)); Missing(s'.g) == Missing(s.g) - s'.g.events.Keys
  {
    if isMain && !isEmpty {
      var g1 := s.g.WithNode(id, MAIN_EVENT);
      assert Missing(g1) == Missing(s.g) - {id};
      EdgesToNodes(g1, SinkEdges(g1.Sinks(), id));
    } else if !isMain && id in s.g.events {
      var g1 := s.g.WithEdges(WEdges(s.g, id, s.alive));
      EdgesToNodes(s.g, WEdges(s.g, id, s.alive));
      PairsAdded(s.g, WEdges(s.g, id, s.alive));
      assert forall e :: e in Shortcuts(g1, id) ==> e.tgt in g1.events;
    }
  }

  /** One step: a new node is no longer missing, a link may lead to a missing
      one, and pruning removes no edge to one. */
  lemma MissingStep(s: State, step: Step)
    requires s.g.Valid()
    ensures var g := Next(true, s, step).g; Missing(g) == (Missing(s.g) + LinkTarget(s, step)) - g.events.Keys
  {
    match step
    case Begin(id, isMain, isEmpty) =>
      if s.phase == Idle { BeginMissing(s, id, isMain, isEmpty); }
    case Do(NewEventExpr(n, event, _)) =>
      if s.phase == Running { NewEventMissing(s, ToString(n), event); }
    case Do(LinkExpr(m, n)) =>
      if s.phase == Running { LinkMissing(s, m, n); }
    case _ =>
  }

  lemma {:induction false} RunMissing(steps: seq<Step>)
    ensures var s := Run(true, INIT, steps);
      s.g.Valid() && Missing(s.g) == LinkedTo(steps) - s.g.events.Keys
    decreases |steps|
  {
    if steps != [] {
      var n := |steps| - 1;
      var s := Run(true, INIT, steps[..n]);
      RunMissing(steps[..n]);
      MissingStep(s, steps[n]);
      NextKeepsNodes(s, steps[n]);
    }
  }

  lemma NextKeepsNodes(s: State, step: Step)
    requires s.g.Valid()
    ensures var g := Next(true, s, step).g; g.Valid() && s.g.events.Keys <= g.events.Keys
  {
    match step
    case Begin(id, isMain, isEmpty) =>
      var g1 := s.g.WithNode(id, MAIN_EVENT);
      PairsAdded(g1, SinkEdges(g1.Sinks(), id));
      if id in s.g.events { PairsAdded(s.g, WEdges(s.g, id, s.alive)); }
    case Do(NewEventExpr(n, event, _)) => NewEventKeepsNodes(s, ToString(n), event);
    case Do(LinkExpr(m, n)) => PairsAdded(s.g, {Edge(ToString(m), ToString(n), HAPPENS_BEFORE)});
    case _ =>
  }

  lemma NewEventKeepsNodes(s: State, id: Id, event: Event)
    requires s.g.Valid()
    ensures var g := NewEvent(s, id, event).g; g.Valid() && s.g.events.Keys <= g.events.Keys
  {
    var g1 := s.g.WithNode(id, event);
    PairsAdded(g1, {Edge(s.pendingEv, id, HAPPENS_BEFORE)});
    var g2 := if s.pendingEv != "" then g1.WithEdge(Edge(s.pendingEv, id, HAPPENS_BEFORE)) else g1;
    PairsAdded(g2, {Edge(s.current, id, CREATES)});
    var g3 := g2.WithEdge(Edge(s.current, id, CREATES));
    PairsAdded(g3, InferredWith(g3, id, event, Rivals(g3, s.alive, s.current)));
  }

  /** The edges of the final graph all have existing targets if and only if the
      target of every link that took effect has been created by then, before the
      link or after it. */
  lemma AllTargetsExist(steps: seq<Step>)
    ensures var g := Run(true, INIT, steps).g; g.HasTargets() <==> LinkedTo(steps) <= g.events.Keys
  {
    RunMissing(steps);
    var g := Run(true, INIT, steps).g;
    assert g.HasTargets() <==> Missing(g) == {} by {
      forall e | e in g.deps && e.tgt !in g.events ensures e.tgt in Missing(g) {}
    }
  }

  // ----- Acyclic runs

  ghost predicate AlwaysAcyclic(steps: seq<Step>) {
    forall k :: 0 <= k <= |steps| ==> Acyclic(Run(true, INIT, steps[..k]).g.hist)
  }

  lemma TargetsPrefix(steps: seq<Step>, k: nat)
    requires k <= |steps| && LinkTargetsExist(steps)
    ensures LinkTargetsExist(steps[..k])
  {
    assert forall j :: 0 <= j <= k ==> steps[..k][..j] == steps[..j];
  }

  /** If the history stays acyclic and links have existing targets, every pruning
      is at an event on no cycle, and so loses no ordering. */
  lemma AcyclicRunsPruneSafely(steps: seq<Step>)
    requires LinkTargetsExist(steps) && AlwaysAcyclic(steps)
    ensures AlwaysPrunesOffCycles(steps) && AlwaysPrunesSafely(steps)
  {
    forall k | 0 <= k < |steps| ensures OffCycleAt(steps, k) {
      var s, step := Run(true, INIT, steps[..k]), steps[k];
      assert steps[..k + 1][..k] == steps[..k];
      if Prunes(s, step) {
        TargetsPrefix(steps, k);
        EdgesHaveNodes(steps[..k]);
        var g1 := BeforePruning(s, step);
        EdgesAdded(s.g, WEdges(s.g, step.id, s.alive));
        AcyclicPart(Pairs(g1.deps), Run(true, INIT, steps[..k + 1]).g.hist);
        OnNoCycleIfAcyclic(Pairs(g1.deps), step.id);
      }
    }
    OffCycleRunsAreSafe(steps);
  }

  lemma OnNoCycleIfAcyclic(r: Relation, id: Id)
    requires Acyclic(r)
    ensures OnNoCycle(r, id)
  {
    forall w | Reaches(r, id, w) && Reaches(r, w, id) ensures w == id {
      var m: nat :| ReachesIn(r, id, w, m);
      var n: nat :| ReachesIn(r, w, id, n);
      WalkConcat(r, id, w, id, m, n);
      assert m + n == 0;
    }
  }

  /** Where links have existing targets, what is reached is what is recorded. */
  lemma HistoryIsReached(steps: seq<Step>)
    requires LinkTargetsExist(steps) && AlwaysPrunesSafely(steps)
    ensures var g := Run(true, INIT, steps).g; g.Closed() && SameReach(Pairs(g.deps), g.hist)
  {
    EdgesHaveNodes(steps);
    assert steps[..|steps|] == steps;
    PruningPreservesMeaning(steps, |steps|);
    var g := Run(true, INIT, steps).g;
    ReachesMonotone(Pairs(g.deps), g.hist);
    ReachesEmbeds(g.hist, Pairs(g.deps));
  }
}
