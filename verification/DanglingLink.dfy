/** A trace on which detection fails: a link orders an event before one that is
    never created, and the search from it meets the missing node. */
module DanglingLinks {
  import opened Common
  import opened Traces
  import opened Reachability
  import opened DependencyGraph
  import opened DependencyModel
  import opened Scenarios
  import opened FileAccess
  import opened InodeModel
  import opened FsModel
  import opened FsNames
  import opened RaceDetectors
  import opened FaultReport
  import opened Fsracer

  const PRODUCE := Operation(Hpath(AT_FDCWD, "/x", PRODUCED), "open", false)
  const CONSUME := Operation(Hpath(AT_FDCWD, "/x", CONSUMED), "open", false)
  const GROUPS := [ExecOp("async_1", [PRODUCE]), ExecOp("async_2", [CONSUME])]

  const CREATE := [ONE, TWO]
  const DANGLING := [LinkExpr(1, 3)]
  const SUBMIT := [SubmitOp("async_1", Some(1), []), SubmitOp("async_2", Some(2), [])]
  const MAIN_BLOCK := Block(1, true, CREATE + DANGLING + SUBMIT)

  /** Event 3 is never created; events 1 and 2 access one path. */
  const DANGLING_TRACE := Trace(0, "/", GROUPS, [MAIN_BLOCK])

  // ----- The graph

  lemma DanglingBody(s: State)
    ensures Body(s, MAIN_BLOCK.exprs) == Perform(Perform(Perform(s, ONE), TWO), LinkExpr(1, 3))
  {
    BodyConcat(s, CREATE + DANGLING, SUBMIT);
    BodyConcat(s, CREATE, DANGLING);
    TwoExprs(s, ONE, TWO);
    OneExpr(Perform(Perform(s, ONE), TWO), LinkExpr(1, 3));
    TwoExprs(Body(s, CREATE + DANGLING), SUBMIT[0], SUBMIT[1]);
  }

  lemma DanglingRun()
    ensures var s := BeginBlock(true, INIT, "MAIN_1", true, false);
      FinalGraph(true, DANGLING_TRACE) == EndBlock(Perform(Perform(Perform(s, ONE), TWO), LinkExpr(1, 3))).g
  {
    assert MAIN_BLOCK.GetPrettyBlockId() == "MAIN_1" by { assert ToString(1) == "1"; }
    var s := BeginBlock(true, INIT, "MAIN_1", true, false);
    MainBegins(true);
    RunBlock(true, INIT, MAIN_BLOCK);
    assert [MAIN_BLOCK][..0] == [];
    assert TraceSteps([MAIN_BLOCK]) == [] + BlockSteps(MAIN_BLOCK) == BlockSteps(MAIN_BLOCK);
    DanglingBody(s);
  }

  lemma TwoCreated(s: State)
    requires s == BeginBlock(true, INIT, "MAIN_1", true, false)
    ensures var t := Perform(Perform(s, ONE), TWO);
      && t.g.events == map["MAIN_1" := MAIN_EVENT, I := Event(EXT, 0), II := Event(EXT, 0)]
      && t.current == "MAIN_1" && Untied(t, {I, II})
  {
    Different(1, 2);
    Different(2, 1);
    MainBegins(true);
    AddEvent(s, {}, 1);
    CreateFresh(s, 1, Event(EXT, 0), []);
    AddEvent(Perform(s, ONE), {} + {I}, 2);
    CreateFresh(Perform(s, ONE), 2, Event(EXT, 0), []);
    assert {} + {I} + {II} == {I, II};
  }

  /** The graph keeps an edge to event 3, which is no node. */
  lemma DanglingGraph()
    ensures var g := FinalGraph(true, DANGLING_TRACE);
      && g.events == map["MAIN_1" := MAIN_EVENT, I := Event(EXT, 0), II := Event(EXT, 0)]
      && Edge(I, III, HAPPENS_BEFORE) in g.deps && III !in g.events
  {
    Different(3, 1);
    Different(3, 2);
    Different(1, 3);
    DanglingRun();
    var s := BeginBlock(true, INIT, "MAIN_1", true, false);
    TwoCreated(s);
    EdgeIntoView(Perform(Perform(s, ONE), TWO).g, Edge(I, III, HAPPENS_BEFORE));
  }

  // ----- The accesses

  lemma Submitted(op: string, rest: string)
    requires op == "async_" + rest
    ensures RightOf(op, '_') == rest
  {
    assert op[5] == '_' && op[6..] == rest;
    assert RightFrom(op, '_', 4) == rest;
    assert RightFrom(op, '_', 2) == rest;
    assert RightFrom(op, '_', 0) == rest;
  }

  lemma OneMoreExpr(id: Id, es: seq<Expr>, e: Expr, ops: OpTable, events: Events)
    ensures ExprsItems(id, es + [e], ops, events)
         == ExprsItems(id, es, ops, events) + ExprItems(id, e, ops, ExprsEvents(es, events))
    ensures ExprsEvents(es + [e], events) == ExprEvents(e, ExprsEvents(es, events))
  {
    assert (es + [e])[..|es|] == es;
  }

  /** An asynchronous group with one operation, for an event that was created. */
  lemma SubmittedItem(id: Id, e: Expr, ops: OpTable, events: Events, event: Id, op: Operation)
    requires e.SubmitOp? && e.submitted.Some? && e.opId == "async_" + event
    requires e.opId in ops && ops[e.opId].operations == [op] && event in events && |event| == 1
    ensures ExprItems(id, e, ops, events) == [Item(Context(event, Some(events[event])), op)]
  {
    Submitted(e.opId, event);
  }

  lemma CreatedEvents(ops: OpTable)
    ensures ExprsItems("MAIN_1", CREATE + DANGLING, ops, map[]) == []
    ensures ExprsEvents(CREATE + DANGLING, map[]) == map[I := [], II := []]
  {
    assert CREATE == [] + [ONE] + [TWO] && DANGLING == [LinkExpr(1, 3)];
    OneMoreExpr("MAIN_1", [], ONE, ops, map[]);
    OneMoreExpr("MAIN_1", [] + [ONE], TWO, ops, map[]);
    OneMoreExpr("MAIN_1", CREATE, LinkExpr(1, 3), ops, map[]);
  }

  lemma DanglingGroups()
    ensures var ops := OpTableOf(GROUPS);
      && "async_1" in ops && ops["async_1"].operations == [PRODUCE]
      && "async_2" in ops && ops["async_2"].operations == [CONSUME]
  {
    assert GROUPS[..1] == [GROUPS[0]] && GROUPS[..1][..0] == [];
  }

  const FIRST := Item(Context("1", Some([])), PRODUCE)
  const SECOND := Item(Context("2", Some([])), CONSUME)

  lemma DanglingExprs()
    ensures TraceItems(DANGLING_TRACE) == ExprsItems("MAIN_1", MAIN_BLOCK.exprs, OpTableOf(GROUPS), map[])
  {
    assert MAIN_BLOCK.GetPrettyBlockId() == "MAIN_1" by { assert ToString(1) == "1"; }
    assert [MAIN_BLOCK][..0] == [];
    assert BlocksItems([], OpTableOf(GROUPS), map[]) == [];
  }

  lemma DanglingItems()
    ensures TraceItems(DANGLING_TRACE) == [FIRST, SECOND]
  {
    var ops := OpTableOf(GROUPS);
    DanglingGroups();
    CreatedEvents(ops);
    assert I == "1" && II == "2";
    var events := ExprsEvents(CREATE + DANGLING, map[]);
    var es := CREATE + DANGLING;
    assert MAIN_BLOCK.exprs == es + [SUBMIT[0]] + [SUBMIT[1]];
    OneMoreExpr("MAIN_1", es, SUBMIT[0], ops, map[]);
    OneMoreExpr("MAIN_1", es + [SUBMIT[0]], SUBMIT[1], ops, map[]);
    assert "async_1" == "async_" + "1" && "async_2" == "async_" + "2";
    SubmittedItem("MAIN_1", SUBMIT[0], ops, events, "1", PRODUCE);
    SubmittedItem("MAIN_1", SUBMIT[1], ops, events, "2", CONSUME);
    DanglingExprs();
  }

  const TARGET: Path := ["x"]

  /** An effect on `/x` that is no expunge, while there are no symbolic links. */
  lemma PlainEffect(s: Fs, item: Item)
    requires item.op.primitive.Hpath? && item.op.primitive.path == "/x" && item.op.primitive.effect != EXPUNGED
    requires item.context.debugInfo.Some? && s.symlinks == map[]
    ensures Defined(s, item)
    ensures var s' := Handle(s, item);
      && s'.symlinks == map[]
      && s'.accesses == AddPathEffect(s.accesses, Absolute(TARGET),
                                      AccessOf(item.context, item.op.primitive.effect, item.op.actualName))
  {
    assert Native(TARGET) == "/x" by { assert TARGET[1..] == []; }
    PathReadsBack(TARGET);
  }

  lemma TwoItems(s: Fs, a: Item, b: Item)
    ensures HandleAll(s, [a, b]) == Handle(Handle(s, a), b)
    ensures AllDefined(s, [a, b]) <==> Defined(s, a) && Defined(Handle(s, a), b)
  {
    var items := [a, b];
    assert items[..0] == [] && items[..1] == [a] && [a][..0] == [];
    assert HandleAll(s, items[..0]) == s && HandleAll(s, items[..1]) == Handle(s, a);
    assert DefinedAt(s, items, 0) <==> Defined(s, a);
    assert DefinedAt(s, items, 1) <==> Defined(Handle(s, a), b);
  }

  lemma TwoEffects(s: Fs)
    requires s.symlinks == map[] && s.accesses == map[]
    ensures AllDefined(s, [FIRST, SECOND])
    ensures HandleAll(s, [FIRST, SECOND]).accesses == map[
      (Absolute(TARGET), "1") := AccessOf(FIRST.context, PRODUCED, "open"),
      (Absolute(TARGET), "2") := AccessOf(SECOND.context, CONSUMED, "open")]
  {
    TwoItems(s, FIRST, SECOND);
    PlainEffect(s, FIRST);
    PlainEffect(Handle(s, FIRST), SECOND);
  }

  lemma DanglingAccesses()
    ensures Analyzable(DANGLING_TRACE)
    ensures NetAccesses(DANGLING_TRACE) == map[
      (Absolute(TARGET), "1") := AccessOf(FIRST.context, PRODUCED, "open"),
      (Absolute(TARGET), "2") := AccessOf(SECOND.context, CONSUMED, "open")]
  {
    DanglingItems();
    assert ToRaw("/") == Absolute([]) by { assert "/"[1..] == ""; }
    TwoEffects(Start([]));
  }

  // ----- The failure

  lemma MeetsMissing(g: View, b: BlockAccesses)
    requires g.events == map["MAIN_1" := MAIN_EVENT, I := Event(EXT, 0), II := Event(EXT, 0)]
    requires Edge(I, III, HAPPENS_BEFORE) in g.deps && III !in g.events
    requires (Absolute(TARGET), I) in b && b[(Absolute(TARGET), I)].eventId == I
    requires (Absolute(TARGET), II) in b && b[(Absolute(TARGET), II)].eventId == II
    requires b[(Absolute(TARGET), I)].effectType == PRODUCED
    ensures DetectionFails(b, g)
  {
    assert I == "1" && II == "2";
    assert (I, III) in Pairs(g.deps);
    ReachesEdge(Pairs(g.deps), I, III);
    assert QueryFails(g, I, II);
    assert Candidate(b, I, II, Absolute(TARGET));
  }

  /** Deciding whether event 1, which produces a path, comes before event 2, which
      consumes it, searches from event 1 and meets event 3. */
  lemma DanglingLinkFails()
    ensures Analyzable(DANGLING_TRACE)
    ensures DetectionFails(NetAccesses(DANGLING_TRACE), FinalGraph(true, DANGLING_TRACE))
  {
    DanglingAccesses();
    DanglingGraph();
    assert I == "1" && II == "2";
    MeetsMissing(FinalGraph(true, DANGLING_TRACE), NetAccesses(DANGLING_TRACE));
  }
}
