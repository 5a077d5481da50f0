/** What the inferred order guarantees: the queue of waiting events, orderings
    that are never lost, and the barrier that a later MAIN block is. */
module Orderings {
  import opened Common
  import opened Traces
  import opened Reachability
  import opened DependencyGraph
  import opened DependencyModel
  import opened Pruning
  import opened LinkTargets
  import opened HistoryGrowth
  import opened Acyclicity

  /** An event that is alive and whose block is not running. */
  predicate Waiting(s: State, u: Id) {
    u in s.alive && !(s.phase == Running && u == s.current)
  }

  lemma WaitingIsPending(s: State, u: Id)
    requires Ordered(s) && Waiting(s, u)
    ensures u in Pending(s)
  {
  }

  /** Among waiting events the history only leads forward in the queue, and it
      does lead forward wherever the analyzer orders events. */
  lemma HistoryReachIsOrder(s: State, u: Id, v: Id)
    requires Ordered(s) && u in Pending(s) && v in Pending(s) && u != v
    ensures Reaches(s.g.hist, u, v) ==> WaitsBefore(s, u, v)
    ensures WaitsBefore(s, u, v) && Binds(s, u, v) ==> Reaches(s.g.hist, u, v)
  {
    if WaitsBefore(s, u, v) && Binds(s, u, v) {
      assert Before(s, u, v);
      ReachesEdge(s.g.hist, u, v);
    }
    if Reaches(s.g.hist, u, v) {
      var n: nat :| ReachesIn(s.g.hist, u, v, n);
      WalkGoesUp(s.g.hist, (x, y) => Before(s, x, y), u, v, n);
    }
  }

  /** The queue of waiting events, in every state of a consistent trace.  If one
      of two waiting events is S or M, the pruned graph leads from the first to
      the second exactly when the first has the smaller rank, or the smaller
      value among M events, or was created earlier; and exactly one of the two
      comes first.  A W event with a value leads to every EXT event created
      after it; and no path leads backwards. */
  lemma WaitingEventsQueue(blocks: seq<Block>, k: nat, u: Id, v: Id)
    requires Consistent(TraceSteps(blocks)) && k <= |TraceSteps(blocks)|
    requires var s := Run(true, INIT, TraceSteps(blocks)[..k]);
      Waiting(s, u) && Waiting(s, v) && u != v
    ensures var s := Run(true, INIT, TraceSteps(blocks)[..k]);
      && u in s.g.events && v in s.g.events && u in s.ages.born && v in s.ages.born
      && (Urgent(s.g.events[u]) || Urgent(s.g.events[v]) ==>
            && (Reaches(Pairs(s.g.deps), u, v) <==> WaitsBefore(s, u, v))
            && (Reaches(Pairs(s.g.deps), u, v) <==> !Reaches(Pairs(s.g.deps), v, u)))
      && (Valued(s.g.events[u]) && s.g.events[v].eventType == EXT && s.ages.born[u] < s.ages.born[v] ==>
            Reaches(Pairs(s.g.deps), u, v))
      && (Reaches(Pairs(s.g.deps), u, v) ==> WaitsBefore(s, u, v))
  {
    var steps := TraceSteps(blocks);
    var s := Run(true, INIT, steps[..k]);
    TracesAreNamed(blocks);
    ConsistentTracesAreAcyclic(steps);
    AcyclicRunsPruneSafely(steps);
    SafePrefix(steps, k);
    TargetsPrefix(steps, k);
    HistoryIsReached(steps[..k]);
    ConsistentPrefix(steps, k);
    RunKeepsOrder(steps[..k]);
    WaitingIsPending(s, u);
    WaitingIsPending(s, v);
    HistoryReachIsOrder(s, u, v);
    HistoryReachIsOrder(s, v, u);
    assert Reaches(s.g.hist, u, v) <==> Reaches(Pairs(s.g.deps), u, v);
    assert Reaches(s.g.hist, v, u) <==> Reaches(Pairs(s.g.deps), v, u);
  }

  /** Every consistent trace, however it re-runs blocks, keeps the graph acyclic
      in every state, and pruning never changes what the graph reaches. */
  lemma ConsistentTraceTheorem(blocks: seq<Block>, k: nat)
    requires Consistent(TraceSteps(blocks)) && k <= |TraceSteps(blocks)|
    ensures var p, u := Run(true, INIT, TraceSteps(blocks)[..k]), Run(false, INIT, TraceSteps(blocks)[..k]);
      && Acyclic(p.g.hist) && p.g.Closed()
      && SameReach(Pairs(p.g.deps), Pairs(u.g.deps))
      && p == u.(g := u.g.(deps := p.g.deps))
  {
    TracesAreNamed(blocks);
    var steps := TraceSteps(blocks);
    ConsistentTracesAreAcyclic(steps);
    AcyclicRunsPruneSafely(steps);
    PruningPreservesMeaning(steps, k);
    TargetsPrefix(steps, k);
    EdgesHaveNodes(steps[..k]);
  }

  // ----- No ordering is ever lost

  lemma NextKeepsEdges(s: State, step: Step)
    ensures s.g.deps <= Next(false, s, step).g.deps
  {
  }

  lemma LastStepKeepsEdges(steps: seq<Step>, n: nat)
    requires n < |steps|
    ensures Run(false, INIT, steps[..n]).g.deps <= Run(false, INIT, steps[..n + 1]).g.deps
  {
    assert steps[..n + 1][..n] == steps[..n];
    NextKeepsEdges(Run(false, INIT, steps[..n]), steps[n]);
  }

  lemma {:induction false} RunKeepsEdges(steps: seq<Step>, k: nat, j: nat)
    requires k <= j <= |steps|
    ensures Run(false, INIT, steps[..k]).g.deps <= Run(false, INIT, steps[..j]).g.deps
    decreases j
  {
    if k < j {
      var n := j - 1;
      RunKeepsEdges(steps, k, n);
      LastStepKeepsEdges(steps, n);
    }
  }

  /** What the pruned graph orders in one state it orders in every later one. */
  lemma OrderingStays(steps: seq<Step>, k: nat, m: nat, a: Id, b: Id)
    requires AlwaysPrunesSafely(steps) && k <= m <= |steps|
    requires Reaches(Pairs(Run(true, INIT, steps[..k]).g.deps), a, b)
    ensures Reaches(Pairs(Run(true, INIT, steps[..m]).g.deps), a, b)
  {
    PruningPreservesMeaning(steps, k);
    RunKeepsEdges(steps, k, m);
    ReachesMonotone(Pairs(Run(false, INIT, steps[..k]).g.deps), Pairs(Run(false, INIT, steps[..m]).g.deps));
    PruningPreservesMeaning(steps, m);
  }

  /** A pair recorded by a step is ordered in every later state. */
  lemma RecordStays(steps: seq<Step>, k: nat, m: nat, a: Id, b: Id)
    requires AlwaysPrunesSafely(steps) && k < m <= |steps|
    requires (a, b) in Next(true, Run(true, INIT, steps[..k]), steps[k]).g.hist
    ensures Reaches(Pairs(Run(true, INIT, steps[..m]).g.deps), a, b)
  {
    assert steps[..k + 1][..k] == steps[..k];
    PruningPreservesMeaning(steps, k + 1);
    assert Reaches(Pairs(Run(true, INIT, steps[..k + 1]).g.deps), (a, b).0, (a, b).1);
    OrderingStays(steps, k + 1, m, a, b);
  }

  /** W events run in the order observed: once the block of a W event begins
      while another W event of the same value is alive, the first reaches the
      second in the pruned graph of every later state. */
  lemma ObservedOrderStays(steps: seq<Step>, k: nat, m: nat, b: Id, x: Id)
    requires AlwaysPrunesSafely(steps) && k < m <= |steps|
    requires var s := Run(true, INIT, steps[..k]);
      && s.phase == Idle && steps[k].Begin? && steps[k].id == b && !steps[k].isMain
      && b in s.g.events && s.g.events[b].eventType == W
      && x in s.alive && x != b && x in s.g.events && s.g.events[x] == s.g.events[b]
    ensures Reaches(Pairs(Run(true, INIT, steps[..m]).g.deps), b, x)
  {
    var s := Run(true, INIT, steps[..k]);
    RegularGrowth(s, b, steps[k].isEmpty);
    StarEdge(Growth(s, steps[k]), (b, x));
    RecordStays(steps, k, m, b, x);
  }

  /** The creation of an event orders it after its causes: the running block and
      the pending event. */
  lemma CreationOrders(s: State, n: nat, event: Event, tags: seq<string>, cause: Id)
    requires s.phase == Running && (cause == s.current || (s.pendingEv != "" && cause == s.pendingEv))
    requires cause in s.g.events && cause != ToString(n)
    ensures (cause, ToString(n)) in Next(true, s, Do(NewEventExpr(n, event, tags))).g.hist
  {
    NewEventGrowth(s, n, event, tags);
    StarEdge(Growth(s, Do(NewEventExpr(n, event, tags))), (cause, ToString(n)));
  }

  lemma CreationOrderStays(steps: seq<Step>, k: nat, m: nat, n: nat, event: Event, tags: seq<string>, cause: Id)
    requires AlwaysPrunesSafely(steps) && k < m <= |steps|
    requires steps[k] == Do(NewEventExpr(n, event, tags))
    requires var s := Run(true, INIT, steps[..k]);
      && s.phase == Running && (cause == s.current || (s.pendingEv != "" && cause == s.pendingEv))
      && cause in s.g.events && cause != ToString(n)
    ensures Reaches(Pairs(Run(true, INIT, steps[..m]).g.deps), cause, ToString(n))
  {
    CreationOrders(Run(true, INIT, steps[..k]), n, event, tags, cause);
    RecordStays(steps, k, m, cause, ToString(n));
  }

  lemma NextKeepsRecords(s: State, step: Step)
    ensures var s' := Next(true, s, step);
      s.g.attrs <= s'.g.attrs && s.g.events.Keys <= s'.g.events.Keys
  {
  }

  lemma {:induction false} RunKeepsRecords(steps: seq<Step>, k: nat, j: nat)
    requires k <= j <= |steps|
    ensures var s, s' := Run(true, INIT, steps[..k]), Run(true, INIT, steps[..j]);
      s.g.attrs <= s'.g.attrs && s.g.events.Keys <= s'.g.events.Keys
    decreases j
  {
    if k < j {
      assert steps[..j][..j - 1] == steps[..j - 1];
      RunKeepsRecords(steps, k, j - 1);
      NextKeepsRecords(Run(true, INIT, steps[..j - 1]), steps[j - 1]);
    }
  }

  predicate CreatesNothing(step: Step) {
    step.Do? && !step.expr.NewEventExpr?
  }

  lemma {:induction false} PendingStays(steps: seq<Step>, k: nat, j: nat)
    requires k <= j <= |steps| && forall i :: k <= i < j ==> CreatesNothing(steps[i])
    ensures var s, s' := Run(true, INIT, steps[..k]), Run(true, INIT, steps[..j]);
      s'.pendingEv == s.pendingEv && s'.phase == s.phase && s'.current == s.current
    decreases j
  {
    if k < j {
      assert steps[..j][..j - 1] == steps[..j - 1];
      PendingStays(steps, k, j - 1);
    }
  }

  /** A block that has ended leaves the block in between pending when it begins again. */
  lemma RerunLeavesPending(steps: seq<Step>, h: nat, k: nat, id: Id, between: Id)
    requires h < k < |steps|
    requires var s := Run(true, INIT, steps[..h]);
      steps[h] == End && s.phase == Running && s.current == id && id in s.g.events
    requires var s := Run(true, INIT, steps[..k]);
      && steps[k].Begin? && steps[k].id == id && !steps[k].isMain && s.phase == Idle
      && s.current == between && between != ""
    ensures var s' := Run(true, INIT, steps[..k + 1]); s'.pendingEv == between && s'.phase == Running
  {
    assert steps[..h + 1][..h] == steps[..h];
    assert (id, EXECUTED_ATTR) in Run(true, INIT, steps[..h + 1]).g.attrs;
    RunKeepsRecords(steps, h + 1, k);
    RunKeepsRecords(steps, h, k);
    assert steps[..k + 1][..k] == steps[..k];
  }

  /** When a block that has ended begins again, the block that ran in between is
      ordered before the first event that is then created. */
  lemma RerunOrders(steps: seq<Step>, h: nat, k: nat, j: nat, id: Id, between: Id,
                    n: nat, event: Event, tags: seq<string>)
    requires h < k < j < |steps| && steps[j] == Do(NewEventExpr(n, event, tags))
    requires var s := Run(true, INIT, steps[..h]);
      steps[h] == End && s.phase == Running && s.current == id && id in s.g.events
    requires var s := Run(true, INIT, steps[..k]);
      && steps[k].Begin? && steps[k].id == id && !steps[k].isMain && s.phase == Idle
      && s.current == between && between != "" && between in s.g.events && between != ToString(n)
    requires forall i :: k < i < j ==> CreatesNothing(steps[i])
    ensures (between, ToString(n)) in Next(true, Run(true, INIT, steps[..j]), steps[j]).g.hist
  {
    RerunLeavesPending(steps, h, k, id, between);
    PendingStays(steps, k + 1, j);
    RunKeepsRecords(steps, k, j);
    CreationOrders(Run(true, INIT, steps[..j]), n, event, tags, between);
  }

  /** A link that takes effect orders its source before its target, even if the
      target is created only later. */
  lemma LinkOrderStays(steps: seq<Step>, k: nat, m: nat, source: nat, target: nat)
    requires AlwaysPrunesSafely(steps) && k < m <= |steps|
    requires steps[k] == Do(LinkExpr(source, target)) && TakesEffect(Run(true, INIT, steps[..k]), steps[k])
    ensures Reaches(Pairs(Run(true, INIT, steps[..m]).g.deps), ToString(source), ToString(target))
  {
    var s, e := Run(true, INIT, steps[..k]), Edge(ToString(source), ToString(target), HAPPENS_BEFORE);
    assert steps[..k + 1][..k] == steps[..k];
    var r := Pairs(Run(true, INIT, steps[..k + 1]).g.deps);
    EdgeIntoView(s.g, e);
    if e.src == e.tgt {
      ReachesSelf(r, e.src);
    } else {
      assert (e.src, e.tgt) in r;
      ReachesEdge(r, e.src, e.tgt);
    }
    OrderingStays(steps, k + 1, m, ToString(source), ToString(target));
  }

  // ----- A later MAIN block is a barrier

  lemma SinkStar(g: View, id: Id)
    requires g.Valid() && id !in g.events
    ensures var g1 := g.WithNode(id, MAIN_EVENT);
      Pairs(g1.WithEdges(SinkEdges(g1.Sinks(), id)).deps) == Pairs(g.deps) + StarEdges(Star(id, g1.Sinks() - {id}, {}))
  {
    var g1 := g.WithNode(id, MAIN_EVENT);
    var es, x := SinkEdges(g1.Sinks(), id), Star(id, g1.Sinks() - {id}, {});
    PairsAdded(g1, es);
    forall e ensures e in Pairs(g1.Kept(es)) <==> e in StarEdges(x) {
      StarEdge(x, e);
      if e.0 in x.ins && e.1 == id { assert Edge(e.0, id, HAPPENS_BEFORE) in g1.Kept(es); }
    }
  }

  lemma NoWayOut(r: Relation, u: Id, v: Id)
    requires u != v && forall e :: e in r ==> e.0 != u
    ensures !Reaches(r, u, v)
  {
  }

  /** When a later MAIN block with a new identifier begins on an acyclic graph
      whose edges have existing targets, every node reaches it, and the graph
      stays acyclic. */
  lemma MainIsBarrier(s: State, id: Id)
    requires s.phase == Idle && s.prevMain && id !in s.g.events
    requires s.g.Valid() && s.g.HasTargets() && Acyclic(Pairs(s.g.deps))
    ensures var s' := Next(true, s, Begin(id, true, false));
      && s'.phase == Running && s'.current == id
      && (forall u :: u in s.g.events ==> Reaches(Pairs(s'.g.deps), u, id))
      && Acyclic(Pairs(s'.g.deps))
  {
    var g1, r := s.g.WithNode(id, MAIN_EVENT), Pairs(s.g.deps);
    var x := Star(id, g1.Sinks() - {id}, {});
    var r' := r + StarEdges(x);
    SinkStar(s.g, id);
    forall y | y in x.ins ensures !Reaches(r, id, y) {
      NoWayOut(r, id, y);
    }
    StarKeepsAcyclic(r, x);
    ReachesMonotone(r, r');
    forall u | u in s.g.events ensures Reaches(r', u, id) {
      var sink := SomeSink(r, s.g.events.Keys, u, {});
      assert sink in g1.Sinks() by {
        assert forall e :: e in g1.deps ==> (e.src, e.tgt) in r;
      }
      StarEdge(x, (sink, id));
      ReachesEdge(r', sink, id);
      ReachesTrans(r', u, sink, id);
    }
  }

  /** Every node of that moment reaches the MAIN block in all later states too. */
  lemma MainBarrierStays(steps: seq<Step>, k: nat, m: nat, id: Id, u: Id)
    requires AlwaysPrunesSafely(steps) && k < m <= |steps| && steps[k] == Begin(id, true, false)
    requires var s := Run(true, INIT, steps[..k]);
      && s.phase == Idle && s.prevMain && id !in s.g.events && u in s.g.events
      && s.g.HasTargets() && Acyclic(Pairs(s.g.deps))
    ensures Reaches(Pairs(Run(true, INIT, steps[..m]).g.deps), u, id)
  {
    PruningPreservesMeaning(steps, k);
    MainIsBarrier(Run(true, INIT, steps[..k]), id);
    assert steps[..k + 1][..k] == steps[..k];
    OrderingStays(steps, k + 1, m, u, id);
  }
}
