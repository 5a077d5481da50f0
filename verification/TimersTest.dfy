/** The repository's own test tests/node_tests/timers.exp: the trace in it, and
    what the test expects the analysis to print for it.  Left out is what the test
    fills in around it, the reading of the script itself. */
module TimersTest {
  import opened Common
  import opened Traces
  import opened Reachability
  import opened DependencyGraph
  import opened DependencyModel
  import opened LinkTargets
  import opened EdgeRules
  import opened Scenarios

  const SET_IMMEDIATE := NewEventExpr(4, Event(W, 3), ["setImmediate"])
  const SET_TIMEOUT := NewEventExpr(5, Event(W, 1), ["setTimeout"])
  const TIMER_WRAP := NewEventExpr(6, Event(W, 0), ["timerWrap"])
  const NODE_UNLINK := NewEventExpr(7, Event(EXT, 0), ["fs", "node_unlink"])
  const NODE_ACCESS := NewEventExpr(8, Event(EXT, 0), ["fs", "node_access"])

  const SUBMIT_OPEN := SubmitOp("sync_12", None, ["node_open"])
  const SUBMIT_CLOSE := SubmitOp("sync_13", None, ["node_close"])
  const SUBMIT_UNLINK := SubmitOp("async_7", Some(7), ["node_unlink"])
  const SUBMIT_ACCESS := SubmitOp("async_8", Some(8), ["node_access"])

  const MAIN_BLOCK := Block(1, true, [SUBMIT_OPEN, SUBMIT_CLOSE] + [SET_IMMEDIATE, SET_TIMEOUT] + [TIMER_WRAP])
  const BLOCK_6 := Block(6, false, [TriggerExpr(5), NODE_UNLINK] + [LinkExpr(5, 7), SUBMIT_UNLINK])
  const BLOCK_7 := Block(7, false, [])
  const BLOCK_4 := Block(4, false, [NODE_ACCESS] + [LinkExpr(4, 8), SUBMIT_ACCESS])
  const BLOCK_8 := Block(8, false, [])

  const BLOCKS := [MAIN_BLOCK, BLOCK_6, BLOCK_7, BLOCK_4, BLOCK_8]

  // ----- Steps that add what can be foreseen

  /** A stage of the analysis: every edge is recorded, and nothing was pruned. */
  ghost predicate Stage(
    s: State, phase: Phase, alive: set<Id>, events: map<Id, Event>, deps: set<Edge>, done: set<Id>)
  {
    && s.phase == phase && s.alive == alive && s.pendingEv == ""
    && s.g.events == events && s.g.deps == deps && s.g.hist == Pairs(deps)
    && (forall e :: e in deps ==> e.src in events && e.tgt in events && e.src != e.tgt)
    && (forall id :: (id, EXECUTED_ATTR) in s.g.attrs <==> id in done)
  }

  function Before(olds: set<Id>, id: Id): set<Edge> {
    set a | a in olds :: Edge(a, id, HAPPENS_BEFORE)
  }

  lemma StillRecorded(s: State, step: Step, events: map<Id, Event>)
    requires s.g.events == events && s.g.hist == Pairs(s.g.deps) && LinkTargetExists(s, step)
    requires forall e :: e in s.g.deps ==> e.src in events && e.tgt in events && e.src != e.tgt
    ensures s.g.deps <= Next(true, s, step).g.deps ==> Next(true, s, step).g.hist == Pairs(Next(true, s, step).g.deps)
  {
    RecordsWhatItAdds(s, step);
  }

  lemma WeakEdge(s: State, n: nat, event: Event, tags: seq<string>, olds: set<Id>, e: Edge)
    requires s.phase == Running && s.pendingEv == "" && s.current in s.g.events
    requires ToString(n) !in s.g.events && s.alive <= s.g.events.Keys
    requires event.eventType == W || event.eventType == EXT
    requires forall a :: a in s.alive ==> s.g.events[a].eventType == W || s.g.events[a].eventType == EXT
    requires forall a :: a in olds <==>
      && a in s.alive && a != s.current && event.eventType == EXT
      && s.g.events[a].eventType == W && s.g.events[a].eventValue != 0
    ensures e in Next(true, s, Do(NewEventExpr(n, event, tags))).g.deps <==>
      e in s.g.deps + {Edge(s.current, ToString(n), CREATES)} + Before(olds, ToString(n))
  {
    CreationAdds(s, n, event, tags, e);
  }

  /** Creating a W or EXT event while only W and EXT events are alive. */
  lemma WeakCreation(s: State, n: nat, event: Event, tags: seq<string>, olds: set<Id>, done: set<Id>)
    requires Stage(s, Running, s.alive, s.g.events, s.g.deps, done) && s.current in s.g.events
    requires ToString(n) !in s.g.events && s.alive <= s.g.events.Keys
    requires event.eventType == W || event.eventType == EXT
    requires forall a :: a in s.alive ==> s.g.events[a].eventType == W || s.g.events[a].eventType == EXT
    requires forall a :: a in olds <==>
      && a in s.alive && a != s.current && event.eventType == EXT
      && s.g.events[a].eventType == W && s.g.events[a].eventValue != 0
    ensures var s' := Perform(s, NewEventExpr(n, event, tags));
      && Stage(s', Running, s.alive + {ToString(n)}, s.g.events[ToString(n) := event],
               s.g.deps + {Edge(s.current, ToString(n), CREATES)} + Before(olds, ToString(n)), done)
      && s'.current == s.current && s'.context == s.context
  {
    var id, step := ToString(n), Do(NewEventExpr(n, event, tags));
    StillRecorded(s, step, s.g.events);
    forall e ensures e in Next(true, s, step).g.deps <==>
      e in s.g.deps + {Edge(s.current, id, CREATES)} + Before(olds, id)
    {
      WeakEdge(s, n, event, tags, olds, e);
    }
  }

  /** Starting a block with no W event of the same value and nothing to prune. */
  lemma PlainStart(s: State, id: Id, isEmpty: bool, done: set<Id>)
    requires Stage(s, Idle, s.alive, s.g.events, s.g.deps, done) && id in s.g.events && id !in done
    requires forall a :: a in s.alive && a in s.g.events && a != id ==> s.g.events[a] != s.g.events[id]
    requires forall u, v :: (u, id) in s.g.hist && (id, v) in s.g.hist ==> (u, v) !in s.g.hist
    ensures var s' := Next(true, s, Begin(id, false, isEmpty));
      && Stage(s', Running, s.alive, s.g.events, s.g.deps, done)
      && s'.current == id && s'.context == id && s'.g.attrs == s.g.attrs
  {
    var step := Begin(id, false, isEmpty);
    var s' := Next(true, s, step);
    RecordsWhatItAdds(s, step);
    forall e ensures e in s'.g.deps <==> e in s.g.deps {
      StartChanges(s, id, isEmpty, e);
    }
  }

  // ----- The stages between the blocks

  const MAIN_1 := "MAIN_1"
  const EVENTS_1 := map[MAIN_1 := MAIN_EVENT]
  const EVENTS_2 := EVENTS_1["4" := Event(W, 3)]["5" := Event(W, 1)]["6" := Event(W, 0)]
  const EVENTS_3 := EVENTS_2["7" := Event(EXT, 0)]
  const EVENTS_4 := EVENTS_3["8" := Event(EXT, 0)]

  const DEPS_1: set<Edge> := {}
  const DEPS_2 := DEPS_1 + {Edge(MAIN_1, "4", CREATES)} + {Edge(MAIN_1, "5", CREATES)} + {Edge(MAIN_1, "6", CREATES)}
  const DEPS_3 := DEPS_2 + {Edge("6", "7", CREATES)} + Before({"4", "5"}, "7")
  const DEPS_4 := DEPS_3 + {Edge("4", "8", CREATES)} + Before({"5"}, "8")

  lemma Digits()
    ensures ToString(1) == "1" && ToString(4) == "4" && ToString(5) == "5" && ToString(6) == "6"
    ensures ToString(7) == "7" && ToString(8) == "8"
  {
  }

  /** The alive events, and the blocks that have ended, from stage to stage. */
  lemma Sets()
    ensures {"4", "5", "6"} + {"7"} - {"6"} == {"4", "5", "7"} && {MAIN_1} + {"6"} == {MAIN_1, "6"}
    ensures {"4", "5", "7"} - {"7"} == {"4", "5"} && {MAIN_1, "6"} + {"7"} == {MAIN_1, "6", "7"}
    ensures {"4", "5"} + {"8"} - {"4"} == {"5", "8"} && {MAIN_1, "6", "7"} + {"4"} == {MAIN_1, "6", "7", "4"}
    ensures {"5", "8"} - {"8"} == {"5"} && {MAIN_1, "6", "7", "4"} + {"8"} == {MAIN_1, "6", "7", "4", "8"}
  {
  }

  lemma NoneBefore(id: Id)
    ensures Before({}, id) == {}
  {
  }

  /** Submissions do not touch the graph. */
  lemma SubmitStep(s: State, e: Expr)
    requires e.SubmitOp?
    ensures Perform(s, e) == s
  {
  }

  /** The first timers: nothing comes before them but the MAIN block. */
  lemma TimerCreated(s: State, e: Expr, alive: set<Id>, events: map<Id, Event>, deps: set<Edge>)
    requires Stage(s, Running, alive, events, deps, {}) && s.current == MAIN_1 && MAIN_1 in events
    requires e.NewEventExpr? && e.event.eventType == W && ToString(e.eventId) !in events && alive <= events.Keys
    requires forall a :: a in alive ==> events[a].eventType == W
    ensures var s', id := Perform(s, e), ToString(e.eventId);
      && Stage(s', Running, alive + {id}, events[id := e.event], deps + {Edge(MAIN_1, id, CREATES)}, {})
      && s'.current == MAIN_1
  {
    WeakCreation(s, e.eventId, e.event, e.tags, {}, {});
    NoneBefore(ToString(e.eventId));
    var new_ := deps + {Edge(MAIN_1, ToString(e.eventId), CREATES)};
    assert new_ + {} == new_;
  }

  lemma MainCreates(s: State)
    requires Stage(s, Running, {}, EVENTS_1, DEPS_1, {}) && s.current == MAIN_1
    ensures var s' := Perform(Perform(Perform(s, SET_IMMEDIATE), SET_TIMEOUT), TIMER_WRAP);
      Stage(s', Running, {} + {"4"} + {"5"} + {"6"}, EVENTS_2, DEPS_2, {}) && s'.current == MAIN_1
  {
    Digits();
    TimerCreated(s, SET_IMMEDIATE, {}, EVENTS_1, DEPS_1);
    TimerCreated(Perform(s, SET_IMMEDIATE), SET_TIMEOUT, {} + {"4"}, EVENTS_1["4" := Event(W, 3)],
                 DEPS_1 + {Edge(MAIN_1, "4", CREATES)});
    TimerCreated(Perform(Perform(s, SET_IMMEDIATE), SET_TIMEOUT), TIMER_WRAP, {} + {"4"} + {"5"},
                 EVENTS_1["4" := Event(W, 3)]["5" := Event(W, 1)],
                 DEPS_1 + {Edge(MAIN_1, "4", CREATES)} + {Edge(MAIN_1, "5", CREATES)});
  }

  lemma FiveExprs(s: State, a: Expr, b: Expr, c: Expr, d: Expr, e: Expr)
    ensures Body(s, [a, b] + [c, d] + [e]) == Perform(Perform(Perform(Perform(Perform(s, a), b), c), d), e)
  {
    BodyConcat(s, [a, b] + [c, d], [e]);
    BodyConcat(s, [a, b], [c, d]);
    TwoExprs(s, a, b);
    TwoExprs(Perform(Perform(s, a), b), c, d);
    OneExpr(Perform(Perform(Perform(Perform(s, a), b), c), d), e);
  }

  lemma MainBody(s: State)
    ensures Body(s, MAIN_BLOCK.exprs) == Perform(Perform(Perform(s, SET_IMMEDIATE), SET_TIMEOUT), TIMER_WRAP)
  {
    FiveExprs(s, SUBMIT_OPEN, SUBMIT_CLOSE, SET_IMMEDIATE, SET_TIMEOUT, TIMER_WRAP);
    SubmitStep(s, SUBMIT_OPEN);
    SubmitStep(s, SUBMIT_CLOSE);
  }

  lemma EndStage(s: State, alive: set<Id>, events: map<Id, Event>, deps: set<Edge>, done: set<Id>)
    requires Stage(s, Running, alive, events, deps, done) && s.current in events
    ensures Stage(EndBlock(s), Idle, alive - {s.current}, events, deps, done + {s.current})
  {
  }

  lemma MainStage()
    ensures var s := BeginBlock(true, INIT, MAIN_1, true, false);
      Stage(s, Running, {}, EVENTS_1, DEPS_1, {}) && s.current == MAIN_1
  {
    MainBegins(true);
    assert Pairs({}) == {};
  }

  /** A whole block, from the stage at the end of its expressions. */
  lemma BlockStage(s: State, b: Block, begun: State, t: State,
                   alive: set<Id>, events: map<Id, Event>, deps: set<Edge>, done: set<Id>)
    requires s.phase == Idle && begun == BeginBlock(true, s, b.GetPrettyBlockId(), b.isMain, b.exprs == [])
    requires begun.phase == Running && t == Body(begun, b.exprs)
    requires Stage(t, Running, alive, events, deps, done) && t.current in events
    ensures Stage(Run(true, s, BlockSteps(b)), Idle, alive - {t.current}, events, deps, done + {t.current})
  {
    RunBlock(true, s, b);
    EndStage(t, alive, events, deps, done);
  }

  lemma MainEnds(s: State)
    requires Stage(s, Running, {}, EVENTS_1, DEPS_1, {}) && s.current == MAIN_1
    ensures var t := Body(s, MAIN_BLOCK.exprs);
      Stage(t, Running, {} + {"4"} + {"5"} + {"6"}, EVENTS_2, DEPS_2, {}) && t.current == MAIN_1
  {
    MainBody(s);
    MainCreates(s);
  }

  lemma AfterMain()
    ensures Stage(Run(true, INIT, BlockSteps(MAIN_BLOCK)), Idle, {"4", "5", "6"}, EVENTS_2, DEPS_2, {MAIN_1})
  {
    Digits();
    assert MAIN_BLOCK.GetPrettyBlockId() == MAIN_1;
    MainStage();
    var s := BeginBlock(true, INIT, MAIN_1, true, false);
    MainEnds(s);
    BlockStage(INIT, MAIN_BLOCK, s, Body(s, MAIN_BLOCK.exprs), {} + {"4"} + {"5"} + {"6"}, EVENTS_2, DEPS_2, {});
    assert {} + {"4"} + {"5"} + {"6"} - {MAIN_1} == {"4", "5", "6"} && {} + {MAIN_1} == {MAIN_1};
  }

  lemma Body6(s: State)
    ensures Body(s, BLOCK_6.exprs) == Perform(Perform(Perform(s, TriggerExpr(5)), NODE_UNLINK), LinkExpr(5, 7))
  {
    BodyConcat(s, [TriggerExpr(5), NODE_UNLINK], [LinkExpr(5, 7), SUBMIT_UNLINK]);
    TwoExprs(s, TriggerExpr(5), NODE_UNLINK);
    TwoExprs(Perform(Perform(s, TriggerExpr(5)), NODE_UNLINK), LinkExpr(5, 7), SUBMIT_UNLINK);
  }

  lemma SameLink(s: State, m: nat, n: nat)
    requires ToString(m) == s.current || Edge(ToString(m), ToString(n), HAPPENS_BEFORE) in s.g.deps
    requires s.g.Closed()
    ensures Perform(s, LinkExpr(m, n)) == s
  {
    EdgeIntoView(s.g, Edge(ToString(m), ToString(n), HAPPENS_BEFORE));
    if Edge(ToString(m), ToString(n), HAPPENS_BEFORE) in s.g.deps {
      assert (ToString(m), ToString(n)) in Pairs(s.g.deps);
    }
  }

  lemma Start6(s: State)
    requires Stage(s, Idle, {"4", "5", "6"}, EVENTS_2, DEPS_2, {MAIN_1})
    ensures var s' := Next(true, s, Begin("6", false, false));
      Stage(s', Running, {"4", "5", "6"}, EVENTS_2, DEPS_2, {MAIN_1}) && s'.current == "6"
  {
    assert forall v :: ("6", v) !in Pairs(DEPS_2);
    PlainStart(s, "6", false, {MAIN_1});
  }

  lemma Create7(s: State)
    requires Stage(s, Running, {"4", "5", "6"}, EVENTS_2, DEPS_2, {MAIN_1}) && s.current == "6"
    ensures var s' := Perform(s, NODE_UNLINK);
      Stage(s', Running, {"4", "5", "6"} + {"7"}, EVENTS_3, DEPS_3, {MAIN_1}) && s'.current == "6"
  {
    Digits();
    WeakCreation(s, 7, Event(EXT, 0), NODE_UNLINK.tags, {"4", "5"}, {MAIN_1});
  }

  lemma Ends6(s: State)
    requires Stage(s, Running, {"4", "5", "6"}, EVENTS_2, DEPS_2, {MAIN_1}) && s.current == "6"
    ensures var t := Body(s, BLOCK_6.exprs);
      Stage(t, Running, {"4", "5", "6"} + {"7"}, EVENTS_3, DEPS_3, {MAIN_1}) && t.current == "6"
  {
    Digits();
    Body6(s);
    var s1 := Perform(s, TriggerExpr(5));
    Create7(s1);
    assert Edge("5", "7", HAPPENS_BEFORE) in Before({"4", "5"}, "7");
    SameLink(Perform(s1, NODE_UNLINK), 5, 7);
  }

  lemma After6(s: State)
    requires Stage(s, Idle, {"4", "5", "6"}, EVENTS_2, DEPS_2, {MAIN_1})
    ensures Stage(Run(true, s, BlockSteps(BLOCK_6)), Idle, {"4", "5", "7"}, EVENTS_3, DEPS_3, {MAIN_1, "6"})
  {
    Digits();
    Start6(s);
    var s0 := BeginBlock(true, s, "6", false, false);
    Ends6(s0);
    BlockStage(s, BLOCK_6, s0, Body(s0, BLOCK_6.exprs), {"4", "5", "6"} + {"7"}, EVENTS_3, DEPS_3, {MAIN_1});
    Sets();
  }

  lemma Empty(s: State, b: Block, alive: set<Id>, events: map<Id, Event>, deps: set<Edge>, done: set<Id>)
    requires Stage(s, Idle, alive, events, deps, done) && !b.isMain && b.exprs == []
    requires var id := b.GetPrettyBlockId();
      && id in events && id !in done && events[id].eventType == EXT
      && (forall a :: a in alive && a in events && a != id ==> events[a] != events[id])
      && (forall v :: (id, v) !in Pairs(deps))
    ensures var id := b.GetPrettyBlockId();
      Stage(Run(true, s, BlockSteps(b)), Idle, alive - {id}, events, deps, done + {id})
  {
    var id := b.GetPrettyBlockId();
    PlainStart(s, id, true, done);
    var s0 := BeginBlock(true, s, id, false, true);
    BlockStage(s, b, s0, Body(s0, []), alive, events, deps, done);
  }

  lemma NothingAfter78()
    ensures forall v :: ("7", v) !in Pairs(DEPS_3)
    ensures forall v :: ("8", v) !in Pairs(DEPS_4)
  {
  }

  lemma EmptyBlockIds()
    ensures BLOCK_7.GetPrettyBlockId() == "7" && BLOCK_8.GetPrettyBlockId() == "8"
  {
    Digits();
  }

  lemma Only78()
    ensures "7" in EVENTS_3 && EVENTS_3["7"].eventType == EXT && "8" in EVENTS_4 && EVENTS_4["8"].eventType == EXT
    ensures forall a :: a in {"4", "5", "7"} && a in EVENTS_3 && a != "7" ==> EVENTS_3[a] != EVENTS_3["7"]
    ensures forall a :: a in {"5", "8"} && a in EVENTS_4 && a != "8" ==> EVENTS_4[a] != EVENTS_4["8"]
  {
  }

  lemma After7(s: State)
    requires Stage(s, Idle, {"4", "5", "7"}, EVENTS_3, DEPS_3, {MAIN_1, "6"})
    ensures Stage(Run(true, s, BlockSteps(BLOCK_7)), Idle, {"4", "5"}, EVENTS_3, DEPS_3, {MAIN_1, "6", "7"})
  {
    EmptyBlockIds();
    NothingAfter78();
    Only78();
    Empty(s, BLOCK_7, {"4", "5", "7"}, EVENTS_3, DEPS_3, {MAIN_1, "6"});
    Sets();
  }

  lemma Start4(s: State)
    requires Stage(s, Idle, {"4", "5"}, EVENTS_3, DEPS_3, {MAIN_1, "6", "7"})
    ensures var s' := Next(true, s, Begin("4", false, false));
      Stage(s', Running, {"4", "5"}, EVENTS_3, DEPS_3, {MAIN_1, "6", "7"}) && s'.current == "4"
  {
    forall u, v | (u, "4") in Pairs(DEPS_3) && ("4", v) in Pairs(DEPS_3) ensures (u, v) !in Pairs(DEPS_3) {
      assert u == MAIN_1 && v == "7";
    }
    PlainStart(s, "4", false, {MAIN_1, "6", "7"});
  }

  lemma Create8(s: State)
    requires Stage(s, Running, {"4", "5"}, EVENTS_3, DEPS_3, {MAIN_1, "6", "7"}) && s.current == "4"
    ensures var s' := Perform(s, NODE_ACCESS);
      Stage(s', Running, {"4", "5"} + {"8"}, EVENTS_4, DEPS_4, {MAIN_1, "6", "7"}) && s'.current == "4"
  {
    Digits();
    WeakCreation(s, 8, Event(EXT, 0), NODE_ACCESS.tags, {"5"}, {MAIN_1, "6", "7"});
  }

  lemma Ends4(s: State)
    requires Stage(s, Running, {"4", "5"}, EVENTS_3, DEPS_3, {MAIN_1, "6", "7"}) && s.current == "4"
    ensures var t := Body(s, BLOCK_4.exprs);
      Stage(t, Running, {"4", "5"} + {"8"}, EVENTS_4, DEPS_4, {MAIN_1, "6", "7"}) && t.current == "4"
  {
    Digits();
    BodyConcat(s, [NODE_ACCESS], [LinkExpr(4, 8), SUBMIT_ACCESS]);
    OneExpr(s, NODE_ACCESS);
    TwoExprs(Perform(s, NODE_ACCESS), LinkExpr(4, 8), SUBMIT_ACCESS);
    Create8(s);
    SameLink(Perform(s, NODE_ACCESS), 4, 8);
  }

  lemma After4(s: State)
    requires Stage(s, Idle, {"4", "5"}, EVENTS_3, DEPS_3, {MAIN_1, "6", "7"})
    ensures Stage(Run(true, s, BlockSteps(BLOCK_4)), Idle, {"5", "8"}, EVENTS_4, DEPS_4, {MAIN_1, "6", "7", "4"})
  {
    Digits();
    Start4(s);
    var s0 := BeginBlock(true, s, "4", false, false);
    Ends4(s0);
    BlockStage(s, BLOCK_4, s0, Body(s0, BLOCK_4.exprs), {"4", "5"} + {"8"}, EVENTS_4, DEPS_4, {MAIN_1, "6", "7"});
    Sets();
  }

  lemma After8(s: State)
    requires Stage(s, Idle, {"5", "8"}, EVENTS_4, DEPS_4, {MAIN_1, "6", "7", "4"})
    ensures Stage(Run(true, s, BlockSteps(BLOCK_8)), Idle, {"5"}, EVENTS_4, DEPS_4, {MAIN_1, "6", "7", "4", "8"})
  {
    EmptyBlockIds();
    NothingAfter78();
    Only78();
    Empty(s, BLOCK_8, {"5", "8"}, EVENTS_4, DEPS_4, {MAIN_1, "6", "7", "4"});
    Sets();
  }

  lemma RunOneMore(blocks: seq<Block>, b: Block)
    ensures Run(true, INIT, TraceSteps(blocks + [b])) == Run(true, Run(true, INIT, TraceSteps(blocks)), BlockSteps(b))
  {
    assert (blocks + [b])[..|blocks|] == blocks;
    RunConcat(true, INIT, TraceSteps(blocks), BlockSteps(b));
  }

  lemma AfterAll()
    ensures Stage(Run(true, INIT, TraceSteps(BLOCKS)), Idle, {"5"}, EVENTS_4, DEPS_4, {MAIN_1, "6", "7", "4", "8"})
  {
    assert BLOCKS == [] + [MAIN_BLOCK] + [BLOCK_6] + [BLOCK_7] + [BLOCK_4] + [BLOCK_8];
    RunOneMore([], MAIN_BLOCK);
    AfterMain();
    RunOneMore([] + [MAIN_BLOCK], BLOCK_6);
    After6(Run(true, INIT, TraceSteps([] + [MAIN_BLOCK])));
    RunOneMore([] + [MAIN_BLOCK] + [BLOCK_6], BLOCK_7);
    After7(Run(true, INIT, TraceSteps([] + [MAIN_BLOCK] + [BLOCK_6])));
    RunOneMore([] + [MAIN_BLOCK] + [BLOCK_6] + [BLOCK_7], BLOCK_4);
    After4(Run(true, INIT, TraceSteps([] + [MAIN_BLOCK] + [BLOCK_6] + [BLOCK_7])));
    RunOneMore([] + [MAIN_BLOCK] + [BLOCK_6] + [BLOCK_7] + [BLOCK_4], BLOCK_8);
    After8(Run(true, INIT, TraceSteps([] + [MAIN_BLOCK] + [BLOCK_6] + [BLOCK_7] + [BLOCK_4])));
  }

  // ----- The edges the test expects

  /** The printer leaves out edges of events whose block has not been analysed. */
  function Printed(g: View): set<Edge> {
    set e | e in g.deps && (e.src, EXECUTED_ATTR) in g.attrs && (e.tgt, EXECUTED_ATTR) in g.attrs
  }

  lemma PrintedOf(g: View, done: set<Id>, e: Edge)
    requires forall id :: (id, EXECUTED_ATTR) in g.attrs <==> id in done
    ensures e in Printed(g) <==> e in g.deps && e.src in done && e.tgt in done
  {
  }

  const EXPECTED := {
    Edge("4", "7", HAPPENS_BEFORE), Edge("4", "8", CREATES), Edge("6", "7", CREATES),
    Edge("MAIN_1", "4", CREATES), Edge("MAIN_1", "6", CREATES)}

  lemma ExpectedDeps(e: Edge)
    ensures e in EXPECTED <==>
      e in DEPS_4 && e.src in {MAIN_1, "6", "7", "4", "8"} && e.tgt in {MAIN_1, "6", "7", "4", "8"}
  {
    assert Before({"4", "5"}, "7") == {Edge("4", "7", HAPPENS_BEFORE), Edge("5", "7", HAPPENS_BEFORE)};
    assert Before({"5"}, "8") == {Edge("5", "8", HAPPENS_BEFORE)};
  }

  lemma PrintedIsExpected(g: View)
    requires g.deps == DEPS_4
    requires forall id :: (id, EXECUTED_ATTR) in g.attrs <==> id in {MAIN_1, "6", "7", "4", "8"}
    ensures Printed(g) == EXPECTED
  {
    forall e ensures e in Printed(g) <==> e in EXPECTED {
      PrintedOf(g, {MAIN_1, "6", "7", "4", "8"}, e);
      ExpectedDeps(e);
    }
  }

  /** The graph of the test: just the edges it expects. */
  lemma ExpectedEdges()
    ensures Printed(Run(true, INIT, TraceSteps(BLOCKS)).g) == EXPECTED
  {
    AfterAll();
    PrintedIsExpected(Run(true, INIT, TraceSteps(BLOCKS)).g);
  }
}
