/** Exactly when pruning removes edges but no ordering: for one pruning, and for
    a run, along which the pruned graph then reaches just what the unpruned graph
    reaches and all else is the same.  It is so, in particular, where no event
    lies on a cycle when its block begins. */
module Pruning {
  import opened Common
  import opened Traces
  import opened Reachability
  import opened DependencyGraph
  import opened DependencyModel

  // ----- Premises

  /** The event lies on no cycle. */
  ghost predicate OnNoCycle(r: Relation, id: Id) {
    forall w :: Reaches(r, id, w) && Reaches(r, w, id) ==> w == id
  }

  /** For every shortcut there is a way through `id` that takes no shortcut. */
  ghost predicate Replaceable(g: View, id: Id) {
    var r' := Pairs(g.deps - Shortcuts(g, id));
    forall e :: e in Shortcuts(g, id) ==> Reaches(r', e.src, id) && Reaches(r', id, e.tgt)
  }

  predicate Prunes(s: State, step: Step) {
    s.phase == Idle && step.Begin? && !step.isMain && step.id in s.g.events
  }

  /** The graph that the step prunes. */
  function BeforePruning(s: State, step: Step): View
    requires Prunes(s, step)
  {
    s.g.WithEdges(WEdges(s.g, step.id, s.alive))
  }

  /** If the step prunes the graph, every shortcut can be replaced. */
  ghost predicate PrunesSafely(s: State, step: Step) {
    Prunes(s, step) ==> Replaceable(BeforePruning(s, step), step.id)
  }

  ghost predicate SafeAt(steps: seq<Step>, k: nat)
    requires k < |steps|
  {
    PrunesSafely(Run(true, INIT, steps[..k]), steps[k])
  }

  ghost predicate AlwaysPrunesSafely(steps: seq<Step>) {
    forall k :: 0 <= k < |steps| ==> SafeAt(steps, k)
  }

  /** If the step prunes the graph, it is at an event that lies on no cycle. */
  ghost predicate PrunesOffCycles(s: State, step: Step) {
    Prunes(s, step) ==> OnNoCycle(Pairs(BeforePruning(s, step).deps), step.id)
  }

  ghost predicate OffCycleAt(steps: seq<Step>, k: nat)
    requires k < |steps|
  {
    PrunesOffCycles(Run(true, INIT, steps[..k]), steps[k])
  }

  ghost predicate AlwaysPrunesOffCycles(steps: seq<Step>) {
    forall k :: 0 <= k < |steps| ==> OffCycleAt(steps, k)
  }

  // ----- One pruning

  /** Every recorded pair can be walked. */
  ghost predicate HistoryWalked(g: View) {
    forall e :: e in g.hist ==> Reaches(Pairs(g.deps), e.0, e.1)
  }

  /** Removing the shortcuts past a node loses no path if and only if each of them
      can be replaced. */
  lemma PruningKeepsReach(g: View, id: Id)
    requires g.Valid() && HistoryWalked(g)
    ensures SameReach(Pairs(g.deps - Shortcuts(g, id)), Pairs(g.deps)) <==> Replaceable(g, id)
  {
    var r, r' := Pairs(g.deps), Pairs(g.deps - Shortcuts(g, id));
    if Replaceable(g, id) {
      ReachesMonotone(r', r);
      forall e | e in r ensures Reaches(r', e.0, e.1) {
        var d :| d in g.deps && e == (d.src, d.tgt);
        if d in Shortcuts(g, id) {
          ReachesTrans(r', e.0, id, e.1);
        } else {
          assert (d.src, d.tgt) in r';
          ReachesEdge(r', e.0, e.1);
        }
      }
      ReachesEmbeds(r, r');
    }
    if SameReach(r', r) {
      forall e | e in Shortcuts(g, id) ensures Reaches(r', e.src, id) && Reaches(r', id, e.tgt) {
        assert (e.src, id) in g.hist && (id, e.tgt) in g.hist;
        assert Reaches(r, (e.src, id).0, (e.src, id).1) && Reaches(r, (id, e.tgt).0, (id, e.tgt).1);
      }
    }
  }

  ghost predicate Prunable(g: View, id: Id) {
    g.Valid() && HistoryWalked(g) && OnNoCycle(Pairs(g.deps), id)
  }

  /** A walk into `id` takes no shortcut past `id`. */
  lemma {:induction false} WalkInto(g: View, id: Id, u: Id, n: nat)
    requires Prunable(g, id) && ReachesIn(Pairs(g.deps), u, id, n)
    ensures Reaches(Pairs(g.deps - Shortcuts(g, id)), u, id)
    decreases n
  {
    var r, r' := Pairs(g.deps), Pairs(g.deps - Shortcuts(g, id));
    if n == 0 {
      ReachesSelf(r', u);
    } else {
      var w :| (u, w) in r && ReachesIn(r, w, id, n - 1);
      WalkInto(g, id, w, n - 1);
      assert Reaches(r, w, id);
      assert w in g.Next(id) ==> (id, w) in g.hist;
      EdgeSurvives(g, id, u, w);
      ReachesEdge(r', u, w);
      ReachesTrans(r', u, w, id);
    }
  }

  /** A walk out of `id` takes no shortcut past `id`. */
  lemma {:induction false} WalkOutOf(g: View, id: Id, u: Id, v: Id, n: nat)
    requires Prunable(g, id) && Reaches(Pairs(g.deps), id, u) && ReachesIn(Pairs(g.deps), u, v, n)
    ensures Reaches(Pairs(g.deps - Shortcuts(g, id)), u, v)
    decreases n
  {
    var r, r' := Pairs(g.deps), Pairs(g.deps - Shortcuts(g, id));
    if n == 0 {
      ReachesSelf(r', u);
    } else {
      var w :| (u, w) in r && ReachesIn(r, w, v, n - 1);
      ReachesEdge(r, u, w);
      ReachesTrans(r, id, u, w);
      WalkOutOf(g, id, w, v, n - 1);
      assert u in g.Prev(id) ==> (u, id) in g.hist;
      EdgeSurvives(g, id, u, w);
      ReachesEdge(r', u, w);
      ReachesTrans(r', u, w, v);
    }
  }

  lemma EdgeSurvives(g: View, id: Id, u: Id, w: Id)
    requires (u, w) in Pairs(g.deps)
    requires u !in g.Prev(id) || w !in g.Next(id)
    ensures (u, w) in Pairs(g.deps - Shortcuts(g, id))
  {
    var e :| e in g.deps && (u, w) == (e.src, e.tgt);
    assert e in g.deps - Shortcuts(g, id);
  }

  /** At a node that lies on no cycle every shortcut can be replaced. */
  lemma OffCycleIsReplaceable(g: View, id: Id)
    requires Prunable(g, id)
    ensures Replaceable(g, id)
  {
    var r := Pairs(g.deps);
    ReachesSelf(r, id);
    forall e | e in Shortcuts(g, id)
      ensures var r' := Pairs(g.deps - Shortcuts(g, id)); Reaches(r', e.src, id) && Reaches(r', id, e.tgt)
    {
      assert (e.src, id) in g.hist && (id, e.tgt) in g.hist;
      assert Reaches(r, (e.src, id).0, (e.src, id).1) && Reaches(r, (id, e.tgt).0, (id, e.tgt).1);
      var m: nat :| ReachesIn(r, e.src, id, m);
      WalkInto(g, id, e.src, m);
      var n: nat :| ReachesIn(r, id, e.tgt, n);
      WalkOutOf(g, id, id, e.tgt, n);
    }
  }

  // ----- Adding edges to both graphs

  /** What relates a graph `p` that has been pruned to the one `u` that has not:
      only the edges differ, `u` still has every recorded pair, and both reach
      the same. */
  ghost predicate Agree(p: View, u: View) {
    && p == u.(deps := p.deps)
    && p.Valid() && u.Valid()
    && u.hist <= Pairs(u.deps)
    && SameReach(Pairs(p.deps), Pairs(u.deps))
  }

  lemma AgreeIsWalked(p: View, u: View)
    requires Agree(p, u)
    ensures HistoryWalked(p)
  {
    forall e | e in p.hist ensures Reaches(Pairs(p.deps), e.0, e.1) {
      ReachesEdge(Pairs(u.deps), e.0, e.1);
    }
  }

  lemma PairsAdded(g: View, es: set<Edge>)
    requires g.Valid()
    ensures g.WithEdges(es).Valid()
    ensures Pairs(g.WithEdges(es).deps) == Pairs(g.deps) + Pairs(g.Kept(es))
    ensures g.hist <= g.WithEdges(es).hist <= g.hist + Pairs(g.Kept(es))
  {
  }

  lemma AgreeWithEdges(p: View, u: View, es: set<Edge>)
    requires Agree(p, u)
    ensures Agree(p.WithEdges(es), u.WithEdges(es))
  {
    assert p.Kept(es) == u.Kept(es);
    PairsAdded(p, es);
    PairsAdded(u, es);
    SameReachExtends(Pairs(p.deps), Pairs(u.deps), Pairs(p.Kept(es)));
  }

  lemma AgreeWithEdge(p: View, u: View, e: Edge)
    requires Agree(p, u)
    ensures Agree(p.WithEdge(e), u.WithEdge(e))
  {
    AgreeWithEdges(p, u, {e});
  }

  lemma AgreeWithNode(p: View, u: View, id: Id, event: Event)
    requires Agree(p, u)
    ensures Agree(p.WithNode(id, event), u.WithNode(id, event))
  {
  }

  lemma StepsOut(g: View, h: View, id: Id, e: Edge)
    requires g.Valid() && SameReach(Pairs(g.deps), Pairs(h.deps)) && e in g.deps && e.src == id
    ensures exists d :: d in h.deps && d.src == id
  {
    var r := Pairs(h.deps);
    assert (e.src, e.tgt) in Pairs(g.deps);
    ReachesEdge(Pairs(g.deps), id, e.tgt);
    var n: nat :| ReachesIn(r, id, e.tgt, n);
    var w :| (id, w) in r;
    var d :| d in h.deps && (id, w) == (d.src, d.tgt);
    assert d.src == id;
  }

  /** A node with an outgoing edge in one graph has one in the other. */
  lemma SameSinks(p: View, u: View)
    requires Agree(p, u)
    ensures p.Sinks() == u.Sinks()
  {
    forall id | id in p.events ensures id in p.Sinks() <==> id in u.Sinks() {
      if e :| e in u.deps && e.src == id { StepsOut(u, p, id, e); }
      if e :| e in p.deps && e.src == id { StepsOut(p, u, id, e); }
    }
  }

  // ----- One step

  ghost predicate AgreeStates(p: State, u: State) {
    p == u.(g := p.g) && Agree(p.g, u.g)
  }

  lemma BeginMainAgrees(p: State, u: State, id: Id)
    requires AgreeStates(p, u)
    ensures AgreeStates(BeginMain(p, id), BeginMain(u, id))
  {
    var p1, u1 := p.g.WithNode(id, MAIN_EVENT), u.g.WithNode(id, MAIN_EVENT);
    AgreeWithNode(p.g, u.g, id, MAIN_EVENT);
    SameSinks(p1, u1);
    AgreeWithEdges(p1, u1, SinkEdges(u1.Sinks(), id));
  }

  /** The two graphs still agree after a pruning if and only if it was safe. */
  lemma BeginRegularAgrees(p: State, u: State, id: Id, isEmpty: bool)
    requires AgreeStates(p, u) && p.phase == Idle && id in p.g.events
    ensures PrunesSafely(p, Begin(id, false, isEmpty)) <==>
      SameReach(Pairs(BeginRegular(true, p, id).g.deps), Pairs(BeginRegular(false, u, id).g.deps))
    ensures PrunesSafely(p, Begin(id, false, isEmpty)) ==>
      AgreeStates(BeginRegular(true, p, id), BeginRegular(false, u, id))
  {
    var es := WEdges(p.g, id, p.alive);
    assert es == WEdges(u.g, id, u.alive);
    AgreeWithEdges(p.g, u.g, es);
    AgreeIsWalked(p.g.WithEdges(es), u.g.WithEdges(es));
    PruningKeepsReach(p.g.WithEdges(es), id);
  }

  lemma NewEventAgrees(p: State, u: State, id: Id, event: Event)
    requires AgreeStates(p, u)
    ensures AgreeStates(NewEvent(p, id, event), NewEvent(u, id, event))
  {
    var p1, u1 := p.g.WithNode(id, event), u.g.WithNode(id, event);
    AgreeWithNode(p.g, u.g, id, event);
    var pending := Edge(p.pendingEv, id, HAPPENS_BEFORE);
    AgreeWithEdge(p1, u1, pending);
    var p2 := if p.pendingEv != "" then p1.WithEdge(pending) else p1;
    var u2 := if p.pendingEv != "" then u1.WithEdge(pending) else u1;
    AgreeWithEdge(p2, u2, Edge(p.current, id, CREATES));
    var p3, u3 := p2.WithEdge(Edge(p.current, id, CREATES)), u2.WithEdge(Edge(p.current, id, CREATES));
    var es := InferredWith(u3, id, event, Rivals(u3, u.alive, u.current));
    assert Rivals(p3, p.alive, p.current) == Rivals(u3, u.alive, u.current);
    assert es == InferredWith(p3, id, event, Rivals(p3, p.alive, p.current));
    AgreeWithEdges(p3, u3, es);
  }

  lemma PerformAgrees(p: State, u: State, expr: Expr)
    requires AgreeStates(p, u)
    ensures AgreeStates(Perform(p, expr), Perform(u, expr))
  {
    match expr
    case NewEventExpr(n, event, _) => NewEventAgrees(p, u, ToString(n), event);
    case LinkExpr(m, n) =>
      if !(ToString(m) == p.current || ToString(m) == p.context) {
        AgreeWithEdge(p.g, u.g, Edge(ToString(m), ToString(n), HAPPENS_BEFORE));
      }
    case TriggerExpr(_) =>
    case SubmitOp(_, _, _) =>
  }

  lemma NextAgrees(p: State, u: State, step: Step)
    requires AgreeStates(p, u) && PrunesSafely(p, step)
    ensures AgreeStates(Next(true, p, step), Next(false, u, step))
  {
    match step
    case Begin(id, isMain, isEmpty) =>
      if p.phase == Idle {
        if isMain && !isEmpty {
          BeginMainAgrees(p, u, id);
        } else if !isMain && id in p.g.events {
          BeginRegularAgrees(p, u, id, isEmpty);
        }
      }
    case Do(expr) =>
      if p.phase == Running { PerformAgrees(p, u, expr); }
    case End =>
  }

  // ----- Whole runs

  lemma SafePrefix(steps: seq<Step>, k: nat)
    requires k <= |steps| && AlwaysPrunesSafely(steps)
    ensures AlwaysPrunesSafely(steps[..k])
  {
    forall j | 0 <= j < k ensures SafeAt(steps[..k], j) {
      assert steps[..k][..j] == steps[..j] && SafeAt(steps, j);
    }
  }

  /** The two analyses stay in step: with pruning switched off, the run makes
      the same decisions and only keeps more edges. */
  lemma {:induction false} RunsAgree(steps: seq<Step>)
    requires AlwaysPrunesSafely(steps)
    ensures AgreeStates(Run(true, INIT, steps), Run(false, INIT, steps))
    decreases |steps|
  {
    if steps != [] {
      var n := |steps| - 1;
      SafePrefix(steps, n);
      RunsAgree(steps[..n]);
      assert SafeAt(steps, n);
      NextAgrees(Run(true, INIT, steps[..n]), Run(false, INIT, steps[..n]), steps[n]);
    }
  }

  /** Pruning preserves meaning, in every state of the run: all but the edges is
      the same, both graphs reach the same, which includes every recorded pair,
      and they have the same sinks.  `PruningExactly` shows that the premise is
      the weakest one. */
  lemma PruningPreservesMeaning(steps: seq<Step>, k: nat)
    requires AlwaysPrunesSafely(steps) && k <= |steps|
    ensures var p, u := Run(true, INIT, steps[..k]), Run(false, INIT, steps[..k]);
      && p == u.(g := u.g.(deps := p.g.deps))
      && SameReach(Pairs(p.g.deps), Pairs(u.g.deps))
      && HistoryWalked(p.g) && p.g.Valid()
      && p.g.Sinks() == u.g.Sinks()
  {
    SafePrefix(steps, k);
    RunsAgree(steps[..k]);
    AgreeIsWalked(Run(true, INIT, steps[..k]).g, Run(false, INIT, steps[..k]).g);
    SameSinks(Run(true, INIT, steps[..k]).g, Run(false, INIT, steps[..k]).g);
  }

  /** After `k` steps the pruned graph reaches just what the unpruned one does. */
  ghost predicate LosesNoOrdering(steps: seq<Step>, k: nat)
    requires k <= |steps|
  {
    SameReach(Pairs(Run(true, INIT, steps[..k]).g.deps), Pairs(Run(false, INIT, steps[..k]).g.deps))
  }

  lemma SafeOneMore(steps: seq<Step>, n: nat)
    requires n < |steps| && AlwaysPrunesSafely(steps[..n])
    requires SafeAt(steps, n)
    ensures AlwaysPrunesSafely(steps[..n + 1])
  {
    var front := steps[..n + 1];
    forall j | 0 <= j < |front| ensures SafeAt(front, j) {
      assert front[..j] == steps[..j];
      if j < n { assert steps[..n][..j] == steps[..j] && SafeAt(steps[..n], j); }
    }
  }

  /** A step that loses no ordering, after prunings that were safe, was safe. */
  lemma OrderKeptIsSafe(steps: seq<Step>, n: nat)
    requires n < |steps| && AlwaysPrunesSafely(steps[..n])
    requires LosesNoOrdering(steps, n + 1)
    ensures SafeAt(steps, n)
  {
    RunsAgree(steps[..n]);
    assert steps[..n + 1][..n] == steps[..n];
    var p, step := Run(true, INIT, steps[..n]), steps[n];
    if Prunes(p, step) {
      BeginRegularAgrees(p, Run(false, INIT, steps[..n]), step.id, step.isEmpty);
    }
  }

  /** If pruning loses no ordering in any state so far, every pruning was safe. */
  lemma {:induction false} SafeSoFar(steps: seq<Step>, k: nat)
    requires k <= |steps|
    requires forall j :: 0 <= j <= k ==> LosesNoOrdering(steps, j)
    ensures AlwaysPrunesSafely(steps[..k])
    decreases k
  {
    if k > 0 {
      var n := k - 1;
      SafeSoFar(steps, n);
      OrderKeptIsSafe(steps, n);
      SafeOneMore(steps, n);
    } else {
      assert steps[..k] == [];
    }
  }

  /** The pruned graph reaches what the unpruned one reaches in every state of a
      run if and only if every pruning is at an event whose shortcuts can all be
      replaced; this can be seen on the graph before the pruning. */
  lemma PruningExactly(steps: seq<Step>)
    ensures AlwaysPrunesSafely(steps) <==> forall k :: 0 <= k <= |steps| ==> LosesNoOrdering(steps, k)
  {
    if AlwaysPrunesSafely(steps) {
      forall k | 0 <= k <= |steps| ensures LosesNoOrdering(steps, k) {
        PruningPreservesMeaning(steps, k);
      }
    }
    if forall k :: 0 <= k <= |steps| ==> LosesNoOrdering(steps, k) {
      SafeSoFar(steps, |steps|);
      assert steps[..|steps|] == steps;
    }
  }

  /** Runs in which no event lies on a cycle when its block begins. */
  lemma {:induction false} OffCycleRunsAreSafe(steps: seq<Step>)
    requires AlwaysPrunesOffCycles(steps)
    ensures AlwaysPrunesSafely(steps)
    decreases |steps|
  {
    if steps != [] {
      var n := |steps| - 1;
      forall j | 0 <= j < n ensures OffCycleAt(steps[..n], j) {
        assert steps[..n][..j] == steps[..j] && OffCycleAt(steps, j);
      }
      OffCycleRunsAreSafe(steps[..n]);
      RunsAgree(steps[..n]);
      var p, u, step := Run(true, INIT, steps[..n]), Run(false, INIT, steps[..n]), steps[n];
      assert OffCycleAt(steps, n);
      if Prunes(p, step) {
        AgreeWithEdges(p.g, u.g, WEdges(p.g, step.id, p.alive));
        AgreeIsWalked(BeforePruning(p, step), u.g.WithEdges(WEdges(p.g, step.id, p.alive)));
        OffCycleIsReplaceable(BeforePruning(p, step), step.id);
      }
      SafeOneMore(steps, n);
      assert steps[..n + 1] == steps;
    }
  }

  /** Pruning is thorough: when a block begins, every recorded happens-before edge
      past its event goes, and nothing else does; in particular what creates an
      event stays. */
  lemma PruningIsThorough(s: State, id: Id, e: Edge)
    requires id in s.g.events
    ensures var g, whole := BeginRegular(true, s, id).g, BeginRegular(false, s, id).g;
      e in g.deps <==>
        && e in whole.deps
        && !(e.lbl == HAPPENS_BEFORE && {(e.src, e.tgt), (e.src, id), (id, e.tgt)} <= g.hist)
  {
  }
}
