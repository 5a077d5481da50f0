/** Two traces of the dependency analyzer: one whose history becomes cyclic, and
    one on which pruning loses an ordering. */
module Scenarios {
  import opened Common
  import opened Traces
  import opened Reachability
  import opened DependencyGraph
  import opened DependencyModel
  import opened Pruning
  import opened LinkTargets
  import opened HistoryGrowth
  import opened Orderings

  // ----- Running a block

  /** The expressions of a block, one after the other. */
  function Body(s: State, exprs: seq<Expr>): State
    decreases |exprs|
  {
    if exprs == [] then s else Body(Perform(s, exprs[0]), exprs[1..])
  }

  lemma {:induction false} RunBody(prune: bool, s: State, exprs: seq<Expr>)
    requires s.phase == Running
    ensures Run(prune, s, ExprSteps(exprs)) == Body(s, exprs) && Body(s, exprs).phase == Running
    decreases |exprs|
  {
    if exprs != [] {
      var first := [Do(exprs[0])];
      assert ExprSteps(exprs) == first + ExprSteps(exprs[1..]);
      RunConcat(prune, s, first, ExprSteps(exprs[1..]));
      assert first[..0] == [];
      RunBody(prune, Perform(s, exprs[0]), exprs[1..]);
    }
  }

  lemma RunBlock(prune: bool, s: State, b: Block)
    requires s.phase == Idle && BeginBlock(prune, s, b.GetPrettyBlockId(), b.isMain, b.exprs == []).phase == Running
    ensures Run(prune, s, BlockSteps(b))
         == EndBlock(Body(BeginBlock(prune, s, b.GetPrettyBlockId(), b.isMain, b.exprs == []), b.exprs))
  {
    var begin := Begin(b.GetPrettyBlockId(), b.isMain, b.exprs == []);
    var s1 := Next(prune, s, begin);
    RunConcat(prune, s, [begin] + ExprSteps(b.exprs), [End]);
    RunConcat(prune, s, [begin], ExprSteps(b.exprs));
    assert [begin][..0] == [] && [End][..0] == [];
    RunBody(prune, s1, b.exprs);
  }

  lemma TwoBlocks(prune: bool, a: Block, b: Block)
    ensures TraceSteps([a, b]) == BlockSteps(a) + BlockSteps(b)
    ensures Run(prune, INIT, TraceSteps([a, b])) == Run(prune, Run(prune, INIT, BlockSteps(a)), BlockSteps(b))
  {
    assert [a, b][..1] == [a] && [a][..0] == [];
    assert TraceSteps([a]) == [] + BlockSteps(a) == BlockSteps(a);
    RunConcat(prune, INIT, BlockSteps(a), BlockSteps(b));
  }

  lemma OneExpr(s: State, e: Expr)
    ensures Body(s, [e]) == Perform(s, e)
  {
    assert [e][1..] == [];
  }

  lemma TwoExprs(s: State, e: Expr, f: Expr)
    ensures Body(s, [e, f]) == Perform(Perform(s, e), f)
  {
    assert [e, f][1..] == [f];
    OneExpr(Perform(s, e), f);
  }

  /** Different numbers, and the MAIN block, have different identifiers. */
  lemma Different(m: nat, n: nat)
    requires m < 10 && n < 10 && m != n
    ensures ToString(m) != ToString(n) && ToString(m) != "MAIN_1"
  {
    assert ToString(m)[0] != ToString(n)[0] && |ToString(m)| == 1;
  }

  lemma CreateFresh(s: State, n: nat, event: Event, tags: seq<string>)
    requires s.phase == Running && ToString(n) !in s.g.events
    ensures var s' := Perform(s, NewEventExpr(n, event, tags));
      && s'.g.events == s.g.events[ToString(n) := event] && s'.alive == s.alive + {ToString(n)}
      && s'.phase == Running && s'.current == s.current && s'.pendingEv == "" && s'.g.attrs == s.g.attrs
      && s.g.hist <= s'.g.hist
  {
    NewEventGrowth(s, n, event, tags);
  }

  // ----- A cycle

  const IMMEDIATE := NewEventExpr(4, Event(W, 3), ["setImmediate"])
  const UNLINK := NewEventExpr(7, Event(EXT, 0), ["fs", "node_unlink"])
  const TICK := NewEventExpr(9, Event(S, 0), ["nextTick"])

  /** The shape of tests/node_tests/timers.exp, in which block 7 runs while event 4
      still waits, with an S event created in block 7. */
  const TIMERS := [Block(1, true, [IMMEDIATE, UNLINK]), Block(7, false, [TICK])]

  /** Between the two blocks event 4 waits, and precedes event 7. */
  ghost predicate TimersWait(s: State) {
    && s.phase == Idle && s.current == "MAIN_1" && s.pendingEv == ""
    && ToString(4) in s.g.events && s.g.events[ToString(4)] == Event(W, 3) && ToString(4) in s.alive
    && ToString(7) in s.g.events && s.g.events[ToString(7)] == Event(EXT, 0)
    && ToString(9) !in s.g.events && (ToString(7), EXECUTED_ATTR) !in s.g.attrs
    && (ToString(4), ToString(7)) in s.g.hist
  }

  /** An EXT event created while a W event with a value waits comes after it. */
  lemma AfterWaiting(s: State, n: nat, tags: seq<string>, a: Id)
    requires s.phase == Running && ToString(n) !in s.g.events
    requires a in s.alive && a in s.g.events && a != s.current && s.g.events[a] == Event(W, 3)
    ensures (a, ToString(n)) in Perform(s, NewEventExpr(n, Event(EXT, 0), tags)).g.hist
  {
    var step := Do(NewEventExpr(n, Event(EXT, 0), tags));
    NewEventGrowth(s, n, Event(EXT, 0), tags);
    assert a in Ahead(s, ToString(n), Event(EXT, 0));
    StarEdge(Growth(s, step), (a, ToString(n)));
  }

  /** An S event created while a W event waits comes before it, and after the
      running block. */
  lemma BeforeWaiting(s: State, n: nat, tags: seq<string>, a: Id)
    requires s.phase == Running && ToString(n) !in s.g.events && s.current in s.g.events
    requires a in s.alive && a in s.g.events && a != s.current && s.g.events[a] == Event(W, 3)
    ensures var r := Perform(s, NewEventExpr(n, Event(S, 0), tags)).g.hist;
      (ToString(n), a) in r && (s.current, ToString(n)) in r
  {
    var step := Do(NewEventExpr(n, Event(S, 0), tags));
    NewEventGrowth(s, n, Event(S, 0), tags);
    assert a in Overtaken(s, ToString(n), Event(S, 0));
    StarEdge(Growth(s, step), (ToString(n), a));
    StarEdge(Growth(s, step), (s.current, ToString(n)));
  }

  lemma MainBegins(prune: bool)
    ensures var s := BeginBlock(prune, INIT, "MAIN_1", true, false);
      && s.phase == Running && s.current == "MAIN_1" && s.pendingEv == "" && s.alive == {}
      && s.g == View(map["MAIN_1" := MAIN_EVENT], {}, {}, {}) && s.context == "MAIN_1"
  {
  }

  lemma TimersCreate(s: State)
    requires s.phase == Running && s.current == "MAIN_1" && s.alive == {} && s.g.attrs == {}
    requires s.g.events == map["MAIN_1" := MAIN_EVENT]
    ensures TimersWait(EndBlock(Perform(Perform(s, IMMEDIATE), UNLINK)))
  {
    Different(4, 7);
    Different(7, 9);
    Different(9, 4);
    CreateFresh(s, 4, Event(W, 3), IMMEDIATE.tags);
    var s1 := Perform(s, IMMEDIATE);
    CreateFresh(s1, 7, Event(EXT, 0), UNLINK.tags);
    AfterWaiting(s1, 7, UNLINK.tags, ToString(4));
  }

  lemma TimersFirst()
    ensures TimersWait(Run(true, INIT, BlockSteps(TIMERS[0])))
  {
    assert TIMERS[0].GetPrettyBlockId() == "MAIN_1" by { assert ToString(1) == "1"; }
    MainBegins(true);
    RunBlock(true, INIT, TIMERS[0]);
    var s := BeginBlock(true, INIT, "MAIN_1", true, false);
    TwoExprs(s, IMMEDIATE, UNLINK);
    TimersCreate(s);
  }

  lemma TimersSecond(s: State)
    requires TimersWait(s)
    ensures {(ToString(4), ToString(7)), (ToString(7), ToString(9)), (ToString(9), ToString(4))}
         <= Run(true, s, BlockSteps(TIMERS[1])).g.hist
  {
    Different(4, 7);
    Different(7, 9);
    var s1 := BeginRegular(true, s, ToString(7));
    RunBlock(true, s, TIMERS[1]);
    OneExpr(s1, TICK);
    CreateFresh(s1, 9, Event(S, 0), TICK.tags);
    BeforeWaiting(s1, 9, TICK.tags, ToString(4));
  }

  /** The trace creates every event once and has no links, but block 7 begins
      while event 4, which precedes it, is alive; and the S event created there
      overtakes event 4. */
  lemma TimersCloseCycle()
    ensures !Acyclic(Run(true, INIT, TraceSteps(TIMERS)).g.hist)
  {
    TwoBlocks(true, TIMERS[0], TIMERS[1]);
    assert [TIMERS[0], TIMERS[1]] == TIMERS;
    TimersFirst();
    TimersSecond(Run(true, INIT, BlockSteps(TIMERS[0])));
    var r := Run(true, INIT, TraceSteps(TIMERS)).g.hist;
    ReachesEdge(r, ToString(7), ToString(9));
    ReachesEdge(r, ToString(9), ToString(4));
    ReachesTrans(r, ToString(7), ToString(9), ToString(4));
    if Acyclic(r) { NoWayBack(r, ToString(4), ToString(7)); }
  }

  // ----- A pruning that loses an ordering

  const ONE := NewEventExpr(1, Event(EXT, 0), [])
  const TWO := NewEventExpr(2, Event(EXT, 0), [])
  const THREE := NewEventExpr(3, Event(EXT, 0), [])

  /** Events 2 and 3 are linked both ways, and event 1 to each of them. */
  const KNOT := [
    Block(1, true, [ONE, TWO, THREE] + [LinkExpr(2, 3), LinkExpr(3, 2)] + [LinkExpr(1, 2), LinkExpr(1, 3)]),
    Block(2, false, []),
    Block(3, false, [])
  ]

  const I := ToString(1)
  const II := ToString(2)
  const III := ToString(3)

  /** The edges that leave event 1 are happens-before edges to some of `targets`. */
  ghost predicate LeavesOneTo(g: View, targets: set<Id>) {
    forall e :: e in g.deps && e.src == I ==> e.lbl == HAPPENS_BEFORE && e.tgt in targets
  }

  ghost predicate AllExt(s: State) {
    forall a :: a in s.alive && a in s.g.events ==> s.g.events[a] == Event(EXT, 0)
  }

  /** Among EXT events nothing is inferred. */
  lemma CreateExt(s: State, n: nat)
    requires s.phase == Running && ToString(n) !in s.g.events && s.pendingEv == "" && AllExt(s)
    ensures var s' := Perform(s, NewEventExpr(n, Event(EXT, 0), []));
      AllExt(s') && s'.g.deps <= s.g.deps + {Edge(s.current, ToString(n), CREATES)} && s'.context == s.context
  {
    var g := Created(s, ToString(n), Event(EXT, 0));
    assert InferredWith(g, ToString(n), Event(EXT, 0), Rivals(g, s.alive, s.current)) == {};
    EdgeIntoView(s.g.WithNode(ToString(n), Event(EXT, 0)), Edge(s.current, ToString(n), CREATES));
  }

  /** While the MAIN block runs, with some events created and nothing leaving 1. */
  ghost predicate Untied(s: State, made: set<Id>) {
    && s.phase == Running && s.current == "MAIN_1" == s.context && s.pendingEv == "" && s.g.attrs == {}
    && s.g.events.Keys == {"MAIN_1"} + made && s.alive == made && AllExt(s)
    && LeavesOneTo(s.g, {})
  }

  lemma AddEvent(s: State, made: set<Id>, n: nat)
    requires Untied(s, made) && n < 10 && ToString(n) !in made
    ensures Untied(Perform(s, NewEventExpr(n, Event(EXT, 0), [])), made + {ToString(n)})
  {
    Different(n, if n == 0 then 1 else 0);
    Different(1, 0);
    CreateFresh(s, n, Event(EXT, 0), []);
    CreateExt(s, n);
  }

  lemma KnotEvents(prune: bool)
    ensures var s := BeginBlock(prune, INIT, "MAIN_1", true, false);
      Untied(Perform(Perform(Perform(s, ONE), TWO), THREE), {I, II, III})
  {
    Different(1, 2);
    Different(2, 3);
    Different(3, 1);
    MainBegins(prune);
    var s := BeginBlock(prune, INIT, "MAIN_1", true, false);
    AddEvent(s, {}, 1);
    AddEvent(Perform(s, ONE), {} + {I}, 2);
    AddEvent(Perform(Perform(s, ONE), TWO), {} + {I} + {II}, 3);
    assert {} + {I} + {II} + {III} == {I, II, III};
  }

  /** The MAIN block has ended. */
  ghost predicate Tied(s: State) {
    && s.phase == Idle && (II, EXECUTED_ATTR) !in s.g.attrs && (III, EXECUTED_ATTR) !in s.g.attrs
    && I in s.g.events && II in s.g.events && III in s.g.events
    && s.g.events[II] == Event(EXT, 0) == s.g.events[III]
    && {(I, II), (I, III), (II, III), (III, II)} <= s.g.hist
    && LeavesOneTo(s.g, {II, III}) && Edge(I, II, HAPPENS_BEFORE) in s.g.deps
  }

  lemma LinkStep(s: State, m: nat, n: nat)
    requires s.phase == Running && ToString(m) != s.current && ToString(m) != s.context
    requires ToString(m) in s.g.events && ToString(n) in s.g.events && ToString(m) != ToString(n)
    ensures Perform(s, LinkExpr(m, n)) == s.(g := s.g.(
      deps := s.g.deps + {Edge(ToString(m), ToString(n), HAPPENS_BEFORE)},
      hist := s.g.hist + {(ToString(m), ToString(n))}))
  {
    EdgeIntoView(s.g, Edge(ToString(m), ToString(n), HAPPENS_BEFORE));
  }

  lemma TwoLinks(s: State, m: nat, n: nat, i: nat, j: nat)
    requires s.phase == Running
    requires {ToString(m), ToString(n), ToString(i), ToString(j)} <= s.g.events.Keys
    requires ToString(m) != s.current && ToString(m) != s.context && ToString(m) != ToString(n)
    requires ToString(i) != s.current && ToString(i) != s.context && ToString(i) != ToString(j)
    ensures Body(s, [LinkExpr(m, n), LinkExpr(i, j)]) == s.(g := s.g.(
      deps := s.g.deps + {Edge(ToString(m), ToString(n), HAPPENS_BEFORE)} +
        {Edge(ToString(i), ToString(j), HAPPENS_BEFORE)},
      hist := s.g.hist + {(ToString(m), ToString(n))} + {(ToString(i), ToString(j))}))
  {
    TwoExprs(s, LinkExpr(m, n), LinkExpr(i, j));
    LinkStep(s, m, n);
    LinkStep(Perform(s, LinkExpr(m, n)), i, j);
  }

  lemma KnotTied(s: State, t: State)
    requires Untied(s, {I, II, III}) && I != II && II != III && III != I
    requires t == s.(g := s.g.(deps := t.g.deps, hist := t.g.hist))
    requires t.g.deps == s.g.deps + {Edge(II, III, HAPPENS_BEFORE)} + {Edge(III, II, HAPPENS_BEFORE)}
                                  + {Edge(I, II, HAPPENS_BEFORE)} + {Edge(I, III, HAPPENS_BEFORE)}
    requires t.g.hist == s.g.hist + {(II, III)} + {(III, II)} + {(I, II)} + {(I, III)}
    ensures Tied(EndBlock(t))
  {
    assert II in s.alive && III in s.alive;
  }

  lemma KnotLinks(s: State)
    requires Untied(s, {I, II, III}) && I != II && II != III && III != I
    requires I != "MAIN_1" && II != "MAIN_1" && III != "MAIN_1"
    ensures Tied(EndBlock(Body(Body(s, [LinkExpr(2, 3), LinkExpr(3, 2)]), [LinkExpr(1, 2), LinkExpr(1, 3)])))
  {
    TwoLinks(s, 2, 3, 3, 2);
    var s1 := Body(s, [LinkExpr(2, 3), LinkExpr(3, 2)]);
    TwoLinks(s1, 1, 2, 1, 3);
    KnotTied(s, Body(s1, [LinkExpr(1, 2), LinkExpr(1, 3)]));
  }

  lemma {:induction false} BodyConcat(s: State, a: seq<Expr>, b: seq<Expr>)
    ensures Body(s, a + b) == Body(Body(s, a), b)
    decreases |a|
  {
    if a == [] {
      assert a + b == b;
    } else {
      assert (a + b)[1..] == a[1..] + b;
      BodyConcat(Perform(s, a[0]), a[1..], b);
    }
  }

  lemma KnotBody(s: State)
    ensures Body(s, KNOT[0].exprs) ==
      Body(Body(Perform(Perform(Perform(s, ONE), TWO), THREE), [LinkExpr(2, 3), LinkExpr(3, 2)]),
           [LinkExpr(1, 2), LinkExpr(1, 3)])
  {
    assert [ONE, TWO, THREE] == [ONE, TWO] + [THREE];
    BodyConcat(s, [ONE, TWO, THREE] + [LinkExpr(2, 3), LinkExpr(3, 2)], [LinkExpr(1, 2), LinkExpr(1, 3)]);
    BodyConcat(s, [ONE, TWO, THREE], [LinkExpr(2, 3), LinkExpr(3, 2)]);
    BodyConcat(s, [ONE, TWO], [THREE]);
    TwoExprs(s, ONE, TWO);
    OneExpr(Perform(Perform(s, ONE), TWO), THREE);
  }

  lemma KnotMain(prune: bool)
    ensures Tied(Run(prune, INIT, BlockSteps(KNOT[0])))
  {
    assert KNOT[0].GetPrettyBlockId() == "MAIN_1" by { assert ToString(1) == "1"; }
    MainBegins(prune);
    RunBlock(prune, INIT, KNOT[0]);
    var s := BeginBlock(prune, INIT, "MAIN_1", true, false);
    KnotBody(s);
    KnotEvents(prune);
    Different(1, 2);
    Different(2, 3);
    Different(3, 1);
    KnotLinks(Perform(Perform(Perform(s, ONE), TWO), THREE));
  }

  /** Pruning at an EXT event that both begins after 1 and is linked to another
      one removes the edge from 1 to that other one. */
  lemma KnotPruned(s: State, id: Id, other: Id)
    requires s.phase == Idle && id in s.g.events && s.g.events[id] == Event(EXT, 0)
    requires {(I, id), (I, other), (id, other)} <= s.g.hist && LeavesOneTo(s.g, {id, other})
    ensures var g := BeginRegular(true, s, id).g;
      LeavesOneTo(g, {id}) && g.deps <= s.g.deps && g.hist == s.g.hist && g.events == s.g.events
  {
    assert s.g.WithEdges({}) == s.g;
    assert (I, id).0 == I && (id, other).1 == other;
  }

  lemma EmptyBlock(s: State, n: nat)
    requires s.phase == Idle && ToString(n) in s.g.events
    ensures Run(true, s, BlockSteps(Block(n, false, []))) == EndBlock(BeginRegular(true, s, ToString(n)))
  {
    RunBlock(true, s, Block(n, false, []));
  }

  lemma KnotEnds(s: State)
    requires Tied(s)
    ensures var s1 := Run(true, s, BlockSteps(KNOT[1]));
      LeavesOneTo(Run(true, s1, BlockSteps(KNOT[2])).g, {})
  {
    Different(2, 3);
    EmptyBlock(s, 2);
    KnotPruned(s, II, III);
    var s1 := Run(true, s, BlockSteps(KNOT[1]));
    EmptyBlock(s1, 3);
    KnotPruned(s1, III, II);
  }

  lemma KnotKeeps(steps: seq<Step>)
    requires BlockSteps(KNOT[0]) <= steps
    ensures Edge(I, II, HAPPENS_BEFORE) in Run(false, INIT, steps).g.deps
  {
    var k := |BlockSteps(KNOT[0])|;
    KnotMain(false);
    RunKeepsEdges(steps, k, |steps|);
    assert steps[..k] == BlockSteps(KNOT[0]) && steps[..|steps|] == steps;
  }

  lemma ThreeBlocks(prune: bool, a: Block, b: Block, c: Block)
    ensures TraceSteps([a, b, c]) == BlockSteps(a) + (BlockSteps(b) + BlockSteps(c))
    ensures Run(prune, INIT, TraceSteps([a, b, c]))
         == Run(prune, Run(prune, Run(prune, INIT, BlockSteps(a)), BlockSteps(b)), BlockSteps(c))
  {
    assert [a, b, c][..2] == [a, b] && [a, b][..1] == [a];
    TwoBlocks(prune, a, b);
    RunConcat(prune, INIT, TraceSteps([a, b]), BlockSteps(c));
    Regroup(BlockSteps(a), BlockSteps(b), BlockSteps(c));
  }

  lemma Regroup(x: seq<Step>, y: seq<Step>, z: seq<Step>)
    ensures (x + y) + z == x + (y + z)
  {
  }

  /** On this trace events 2 and 3 lie on a cycle when their blocks begin: the
      second pruning removes an edge that nothing replaces, and event 1 is cut off
      from both. */
  lemma PruningLosesOrdering()
    ensures var steps := TraceSteps(KNOT);
      && Reaches(Pairs(Run(false, INIT, steps).g.deps), I, II)
      && !Reaches(Pairs(Run(true, INIT, steps).g.deps), I, II)
      && !AlwaysPrunesSafely(steps)
  {
    var steps := TraceSteps(KNOT);
    assert [KNOT[0], KNOT[1], KNOT[2]] == KNOT;
    ThreeBlocks(true, KNOT[0], KNOT[1], KNOT[2]);
    KnotMain(true);
    KnotEnds(Run(true, INIT, BlockSteps(KNOT[0])));
    Different(1, 2);
    var r, u := Pairs(Run(true, INIT, steps).g.deps), Pairs(Run(false, INIT, steps).g.deps);
    NoWayOut(r, I, II);
    KnotKeeps(steps);
    assert (I, II) in u;
    ReachesEdge(u, I, II);
    assert steps[..|steps|] == steps;
    if AlwaysPrunesSafely(steps) { PruningPreservesMeaning(steps, |steps|); }
  }
}
