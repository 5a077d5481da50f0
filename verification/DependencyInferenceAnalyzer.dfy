/** The analyzer that builds the dependency graph, updating its fields in place.
    Its state after a trace is the state of the model after the trace's steps. */
module DependencyAnalyzers {
  import opened Common
  import opened Traces
  import opened DependencyGraph
  import opened DependencyModel

  class DependencyInferenceAnalyzer {
    const depGraph: Graph
    var aliveEvents: set<Id>
    var currentBlock: Option<Block>
    var prevMainBlock: Option<Block>
    var pendingEv: Id
    var currentContext: string
    /** The state of the model that the fields stand for. */
    ghost var st: State

    ghost predicate Valid()
      reads this, depGraph
    {
      && depGraph.Valid()
      && st.g == depGraph.view
      && st.alive == aliveEvents
      && st.current == Pretty(currentBlock)
      && st.prevMain == prevMainBlock.Some?
      && st.pendingEv == pendingEv
      && st.context == currentContext
      && (st.phase == Running ==> currentBlock.Some?)
    }

    constructor ()
      ensures Valid() && st == INIT && fresh(depGraph)
    {
      depGraph := new Graph();
      aliveEvents := {};
      currentBlock := None;
      prevMainBlock := None;
      pendingEv := "";
      currentContext := "MAIN_1";
      st := INIT;
    }

    method AnalyzeTrace(trace: Trace)
      requires Valid() && st == INIT
      modifies this, depGraph
      ensures Valid() && st == Run(true, INIT, TraceSteps(trace.blocks))
    {
      for i := 0 to |trace.blocks|
        invariant Valid() && st == Run(true, INIT, TraceSteps(trace.blocks[..i])) && st.phase == Idle
      {
        assert trace.blocks[..i + 1][..i] == trace.blocks[..i];
        RunConcat(true, INIT, TraceSteps(trace.blocks[..i]), BlockSteps(trace.blocks[i]));
        AnalyzeBlock(trace.blocks[i]);
      }
      assert trace.blocks[..|trace.blocks|] == trace.blocks;
    }

    method AnalyzeBlock(block: Block)
      requires Valid() && st.phase == Idle
      modifies this, depGraph
      ensures Valid() && st == Run(true, old(st), BlockSteps(block)) && st.phase == Idle
    {
      BlockRun(st, block);
      var entered := EnterBlock(block);
      ghost var begun := st;
      if !entered {
        st := st.(phase := Idle);
        return;
      }
      for i := 0 to |block.exprs|
        invariant Valid() && st == Run(true, begun, ExprSteps(block.exprs[..i])) && st.phase == Running
        invariant st.current == begun.current
      {
        NextExpr(begun, block.exprs, i);
        AnalyzeExpr(block.exprs[i]);
      }
      assert block.exprs[..|block.exprs|] == block.exprs;
      RemoveAliveEvent(block.GetPrettyBlockId());
      depGraph.AddNodeAttr(block.GetPrettyBlockId(), EXECUTED_ATTR);
      st := EndBlock(st);
    }

    /** What happens before the expressions of a block are analysed, if they are. */
    method EnterBlock(block: Block) returns (entered: bool)
      requires Valid() && st.phase == Idle
      modifies this, depGraph
      ensures Valid()
      ensures st == Next(true, old(st), Begin(block.GetPrettyBlockId(), block.isMain, block.exprs == []))
      ensures if entered then st.phase == Running && st.current == block.GetPrettyBlockId() else st.phase == Skipping
    {
      var blockId := block.GetPrettyBlockId();
      ghost var begun := Next(true, st, Begin(blockId, block.isMain, block.exprs == []));
      if block.exprs == [] && block.isMain {
        st := begun;
        return false;
      }
      currentContext := blockId;
      if !block.isMain {
        var eventInfo := depGraph.GetNodeInfo(blockId);
        if eventInfo.None? {
          st := begun;
          return false;
        }
        ConnectWithWEvents(blockId, eventInfo.value);
        PruneEdges(blockId);
        if eventInfo.value.HasAttribute(EXECUTED_ATTR) {
          if currentBlock.Some? {
            pendingEv := currentBlock.value.GetPrettyBlockId();
          }
        }
      }
      if block.isMain {
        depGraph.AddNode(blockId, Event(MAIN, 0));
        if prevMainBlock.Some? {
          ConnectSinks(blockId);
        }
        prevMainBlock := Some(block);
      }
      currentBlock := Some(block);
      st := begun;
      return true;
    }

    method AnalyzeExpr(expr: Expr)
      requires Valid() && st.phase == Running
      modifies depGraph, `aliveEvents, `pendingEv, `currentContext, `st
      ensures Valid() && st == Perform(old(st), expr)
      ensures st.phase == Running && st.current == old(st).current
    {
      match expr
      case NewEventExpr(_, _, _) => AnalyzeNewEvent(expr);
      case LinkExpr(_, _) => AnalyzeLink(expr);
      case TriggerExpr(_) => AnalyzeTrigger(expr);
      case SubmitOp(_, _, _) =>
    }

    method AnalyzeNewEvent(newEvent: Expr)
      requires Valid() && st.phase == Running && newEvent.NewEventExpr?
      modifies depGraph, `aliveEvents, `pendingEv, `st
      ensures Valid() && st == NewEvent(old(st), ToString(newEvent.eventId), newEvent.event)
    {
      var eventId := ToString(newEvent.eventId);
      AddCreated(eventId, newEvent.event);
      AddDependencies(eventId, newEvent.event);
      AddAliveEvent(eventId);
      st := NewEvent(st, eventId, newEvent.event);
    }

    /** The node, after the pending event and the current block. */
    method AddCreated(eventId: Id, event: Event)
      requires Valid() && st.phase == Running
      modifies depGraph, `pendingEv
      ensures depGraph.Valid() && depGraph.view == Created(st, eventId, event) && pendingEv == ""
    {
      var blockId := currentBlock.value.GetPrettyBlockId();
      depGraph.AddNode(eventId, event);
      if pendingEv != "" {
        depGraph.AddEdge(pendingEv, eventId, HAPPENS_BEFORE);
        pendingEv := "";
      }
      depGraph.AddEdge(blockId, eventId, CREATES);
    }

    method AnalyzeLink(linkExpr: Expr)
      requires Valid() && st.phase == Running && linkExpr.LinkExpr?
      modifies depGraph, `st
      ensures Valid() && st == Perform(old(st), linkExpr)
    {
      var sourceEv := ToString(linkExpr.sourceEv);
      if sourceEv == currentBlock.value.GetPrettyBlockId() || sourceEv == currentContext {
        return;
      }
      var targetEv := ToString(linkExpr.targetEv);
      depGraph.AddEdge(sourceEv, targetEv, HAPPENS_BEFORE);
      st := Perform(st, linkExpr);
    }

    method AnalyzeTrigger(triggerExpr: Expr)
      requires Valid() && triggerExpr.TriggerExpr?
      modifies `currentContext, `st
      ensures Valid() && st == Perform(old(st), triggerExpr)
    {
      currentContext := [(triggerExpr.triggered % 256) as char];
      st := Perform(st, triggerExpr);
    }

    method AddAliveEvent(eventId: Id)
      modifies `aliveEvents
      ensures aliveEvents == old(aliveEvents) + {eventId}
    {
      aliveEvents := aliveEvents + {eventId};
    }

    method RemoveAliveEvent(eventId: Id)
      modifies `aliveEvents
      ensures aliveEvents == old(aliveEvents) - {eventId}
    {
      if eventId in aliveEvents {
        aliveEvents := aliveEvents - {eventId};
      }
    }

    method ProceedSEvent(newId: Id, oldId: Id)
      requires depGraph.Valid()
      modifies depGraph
      ensures depGraph.Valid() && depGraph.view == old(depGraph.view).WithEdge(Edge(oldId, newId, HAPPENS_BEFORE))
    {
      depGraph.AddEdge(oldId, newId, HAPPENS_BEFORE);
    }

    method ProceedMEvent(newId: Id, newObj: Event, oldId: Id, oldObj: Event)
      requires depGraph.Valid() && oldObj.eventType == M
      modifies depGraph
      ensures depGraph.Valid() && depGraph.view == old(depGraph.view).WithEdges(Inferred(newId, newObj, oldId, oldObj))
    {
      InferredEdge(depGraph.view, newId, newObj, oldId, oldObj);
      match newObj.eventType
      case S =>
        depGraph.AddEdge(newId, oldId, HAPPENS_BEFORE);
      case MAIN =>
        depGraph.AddEdge(newId, oldId, HAPPENS_BEFORE);
      case M =>
        if newObj.eventValue < oldObj.eventValue {
          depGraph.AddEdge(newId, oldId, HAPPENS_BEFORE);
        } else {
          depGraph.AddEdge(oldId, newId, HAPPENS_BEFORE);
        }
      case W =>
        depGraph.AddEdge(oldId, newId, HAPPENS_BEFORE);
      case EXT =>
        depGraph.AddEdge(oldId, newId, HAPPENS_BEFORE);
    }

    method ProceedWEvent(newId: Id, newObj: Event, oldId: Id, oldObj: Event)
      requires depGraph.Valid() && oldObj.eventType == W
      modifies depGraph
      ensures depGraph.Valid() && depGraph.view == old(depGraph.view).WithEdges(Inferred(newId, newObj, oldId, oldObj))
    {
      InferredEdge(depGraph.view, newId, newObj, oldId, oldObj);
      match newObj.eventType
      case S =>
        depGraph.AddEdge(newId, oldId, HAPPENS_BEFORE);
      case MAIN =>
        depGraph.AddEdge(newId, oldId, HAPPENS_BEFORE);
      case M =>
        depGraph.AddEdge(newId, oldId, HAPPENS_BEFORE);
      case EXT =>
        if oldObj.eventValue != 0 {
          depGraph.AddEdge(oldId, newId, HAPPENS_BEFORE);
        }
      case W =>
    }

    method ProceedEXTEvent(newId: Id, newObj: Event, oldId: Id, oldObj: Event)
      requires depGraph.Valid() && oldObj.eventType == EXT
      modifies depGraph
      ensures depGraph.Valid() && depGraph.view == old(depGraph.view).WithEdges(Inferred(newId, newObj, oldId, oldObj))
    {
      InferredEdge(depGraph.view, newId, newObj, oldId, oldObj);
      match newObj.eventType
      case S =>
        depGraph.AddEdge(newId, oldId, HAPPENS_BEFORE);
      case MAIN =>
        depGraph.AddEdge(newId, oldId, HAPPENS_BEFORE);
      case M =>
        depGraph.AddEdge(newId, oldId, HAPPENS_BEFORE);
      case _ =>
    }

    method AddDependencies(eventId: Id, event: Event)
      requires depGraph.Valid() && currentBlock.Some?
      modifies depGraph
      ensures depGraph.Valid()
      ensures depGraph.view ==
        old(depGraph.view).WithEdges(InferredWith(old(depGraph.view), eventId, event,
          Rivals(old(depGraph.view), aliveEvents, currentBlock.value.GetPrettyBlockId())))
    {
      ghost var g0 := depGraph.view;
      ghost var rivals := Rivals(g0, aliveEvents, currentBlock.value.GetPrettyBlockId());
      ghost var seen: set<Id> := {};
      var rest := aliveEvents;
      NoEdges(g0);
      assert InferredWith(g0, eventId, event, {}) == {};
      while rest != {}
        invariant rest <= aliveEvents && depGraph.Valid()
        invariant Visited(seen, rivals, rest)
        invariant depGraph.view == g0.WithEdges(InferredWith(g0, eventId, event, seen))
      {
        var aliveEvId :| aliveEvId in rest;
        rest := rest - {aliveEvId};
        var eventInfo := depGraph.GetNodeInfo(aliveEvId);
        if eventInfo.None? || currentBlock.value.GetPrettyBlockId() == aliveEvId {
          continue;
        }
        var oldObj := eventInfo.value.obj;
        OneMore(g0, eventId, event, seen, aliveEvId);
        match oldObj.eventType {
          case S => ProceedSEvent(eventId, aliveEvId);
          case MAIN => ProceedSEvent(eventId, aliveEvId);
          case M => ProceedMEvent(eventId, event, aliveEvId, oldObj);
          case W => ProceedWEvent(eventId, event, aliveEvId, oldObj);
          case EXT => ProceedEXTEvent(eventId, event, aliveEvId, oldObj);
        }
        seen := seen + {aliveEvId};
      }
      assert seen == rivals;
    }

    method ConnectWithWEvents(nodeId: Id, eventInfo: NodeInfo)
      requires depGraph.Valid() && nodeId in depGraph.view.events && depGraph.view.events[nodeId] == eventInfo.obj
      modifies depGraph
      ensures depGraph.Valid()
      ensures depGraph.view == old(depGraph.view).WithEdges(WEdges(old(depGraph.view), nodeId, aliveEvents))
    {
      ghost var g0 := depGraph.view;
      NoEdges(g0);
      if eventInfo.obj.eventType != W {
        return;
      }
      ghost var seen: set<Id> := {};
      var rest := aliveEvents;
      assert WEdges(g0, nodeId, {}) == {};
      while rest != {}
        invariant rest <= aliveEvents && depGraph.Valid()
        invariant Visited(seen, aliveEvents, rest)
        invariant depGraph.view == g0.WithEdges(WEdges(g0, nodeId, seen))
      {
        var aliveEvId :| aliveEvId in rest;
        rest := rest - {aliveEvId};
        var nodeInfo := depGraph.GetNodeInfo(aliveEvId);
        OneMoreW(g0, nodeId, seen, aliveEvId);
        seen := seen + {aliveEvId};
        if nodeInfo.None? {
          continue;
        }
        var ei := nodeInfo.value.obj;
        if ei.eventType == W {
          if ei.eventValue == eventInfo.obj.eventValue {
            depGraph.AddEdge(nodeId, aliveEvId, HAPPENS_BEFORE);
          }
        }
      }
      assert seen == aliveEvents;
    }

    /** Two nested loops over the neighbours of the event. */
    method PruneEdges(eventId: Id)
      requires depGraph.Valid()
      modifies depGraph
      ensures depGraph.Valid()
      ensures depGraph.view ==
        if eventId in old(depGraph.view).events
        then old(depGraph.view).WithoutEdges(Shortcuts(old(depGraph.view), eventId)) else old(depGraph.view)
    {
      ghost var g0 := depGraph.view;
      var eventInfo := depGraph.GetNodeInfo(eventId);
      if eventInfo.None? {
        return;
      }
      var after := eventInfo.value.after;
      ghost var seen: set<Id> := {};
      var nexts := eventInfo.value.before;
      assert g0.WithoutEdges(ShortcutsTo(g0, after, seen)) == g0;
      while nexts != {}
        invariant Visited(seen, g0.Next(eventId), nexts)
        invariant depGraph.Valid() && depGraph.view == g0.WithoutEdges(ShortcutsTo(g0, after, seen))
        decreases nexts
      {
        var next :| next in nexts;
        nexts := nexts - {next};
        var nextInfo := depGraph.GetNodeInfo(next);
        if nextInfo.None? {
          NothingTo(g0, after, seen, next);
          seen := seen + {next};
          continue;
        }
        ghost var done: set<Id> := {};
        var prevs := after;
        ghost var g1 := depGraph.view;
        assert g1.WithoutEdges(ShortcutsFrom(g0, done, next)) == g1;
        while prevs != {}
          invariant Visited(done, after, prevs) && prevs <= after
          invariant depGraph.Valid() && depGraph.view == g1.WithoutEdges(ShortcutsFrom(g0, done, next))
        {
          var prev :| prev in prevs;
          prevs := prevs - {prev};
          OneMoreShortcut(g0, g1, done, prev, next);
          done := done + {prev};
          if prev in nextInfo.value.after {
            depGraph.RemoveEdge(prev, next, HAPPENS_BEFORE);
          }
        }
        assert done == after;
        MoreShortcuts(g0, after, seen, next);
        seen := seen + {next};
      }
      assert seen == g0.Next(eventId);
      AllShortcuts(g0, eventId);
    }

    /** The sinks of the graph are ordered before a later MAIN block. */
    method ConnectSinks(blockId: Id)
      requires depGraph.Valid()
      modifies depGraph
      ensures depGraph.Valid()
      ensures depGraph.view == old(depGraph.view).WithEdges(SinkEdges(old(depGraph.view).Sinks(), blockId))
    {
      ghost var g1 := depGraph.view;
      var sinks := depGraph.GetSinks();
      ghost var all, seen: set<Id> := sinks, {};
      NoEdges(g1);
      assert SinkEdges(seen, blockId) == {};
      while sinks != {}
        invariant sinks <= all && Visited(seen, all, sinks) && depGraph.Valid()
        invariant depGraph.view == g1.WithEdges(SinkEdges(seen, blockId))
      {
        var sink :| sink in sinks;
        sinks := sinks - {sink};
        OneMoreSink(g1, seen, sink, blockId);
        depGraph.AddEdge(sink, blockId, HAPPENS_BEFORE);
        seen := seen + {sink};
      }
      assert seen == all;
    }
  }

  function Pretty(block: Option<Block>): Id {
    if block.Some? then block.value.GetPrettyBlockId() else ""
  }

  lemma NextExpr(s: State, exprs: seq<Expr>, i: nat)
    requires i < |exprs|
    ensures Run(true, s, ExprSteps(exprs[..i + 1])) == Next(true, Run(true, s, ExprSteps(exprs[..i])), Do(exprs[i]))
  {
    assert ExprSteps(exprs[..i + 1]) == ExprSteps(exprs[..i]) + [Do(exprs[i])];
    RunSnoc(true, s, ExprSteps(exprs[..i]), Do(exprs[i]));
  }

  // ----- Loops over sets, one element at a time

  /** The elements of `all` that are no longer waiting in `rest`. */
  ghost predicate Visited(seen: set<Id>, all: set<Id>, rest: set<Id>) {
    forall a :: a in seen <==> a in all && a !in rest
  }

  lemma NoEdges(g: View)
    ensures g.WithEdges({}) == g
  {
  }

  /** At most one edge is inferred from a pair of events. */
  lemma InferredEdge(g: View, newId: Id, new_: Event, oldId: Id, old_: Event)
    ensures g.WithEdges(Inferred(newId, new_, oldId, old_)) ==
      if OldFirst(old_, new_) then g.WithEdge(Edge(oldId, newId, HAPPENS_BEFORE))
      else if NewFirst(old_, new_) then g.WithEdge(Edge(newId, oldId, HAPPENS_BEFORE))
      else g
  {
  }

  lemma EdgesOneByOne(g: View, es: set<Edge>, more: set<Edge>)
    ensures g.WithEdges(es).WithEdges(more) == g.WithEdges(es + more)
  {
  }

  lemma OneMore(g: View, id: Id, event: Event, seen: set<Id>, a: Id)
    requires a in g.events
    ensures g.WithEdges(InferredWith(g, id, event, seen)).WithEdges(Inferred(id, event, a, g.events[a]))
         == g.WithEdges(InferredWith(g, id, event, seen + {a}))
    ensures g.events[a].eventType in {S, MAIN} ==> Inferred(id, event, a, g.events[a]) == {Edge(a, id, HAPPENS_BEFORE)}
  {
    EdgesOneByOne(g, InferredWith(g, id, event, seen), Inferred(id, event, a, g.events[a]));
    assert InferredWith(g, id, event, seen + {a})
      == InferredWith(g, id, event, seen) + Inferred(id, event, a, g.events[a]);
  }

  lemma OneMoreW(g: View, id: Id, seen: set<Id>, a: Id)
    requires id in g.events && g.events[id].eventType == W
    ensures g.WithEdges(WEdges(g, id, seen + {a})) ==
      if a in g.events && g.events[a] == g.events[id]
      then g.WithEdges(WEdges(g, id, seen)).WithEdge(Edge(id, a, HAPPENS_BEFORE))
      else g.WithEdges(WEdges(g, id, seen))
  {
    EdgesOneByOne(g, WEdges(g, id, seen), {Edge(id, a, HAPPENS_BEFORE)});
    if a in g.events && g.events[a] == g.events[id] {
      assert WEdges(g, id, seen + {a}) == WEdges(g, id, seen) + {Edge(id, a, HAPPENS_BEFORE)};
    } else {
      assert WEdges(g, id, seen + {a}) == WEdges(g, id, seen);
    }
  }

  lemma OneMoreSink(g: View, seen: set<Id>, sink: Id, id: Id)
    ensures g.WithEdges(SinkEdges(seen + {sink}, id))
         == g.WithEdges(SinkEdges(seen, id)).WithEdge(Edge(sink, id, HAPPENS_BEFORE))
  {
  }

  function ShortcutsTo(g: View, prevs: set<Id>, nexts: set<Id>): set<Edge> {
    set e | e in g.deps && e.lbl == HAPPENS_BEFORE && e.tgt in nexts && e.src in prevs && (e.src, e.tgt) in g.hist
  }

  function ShortcutsFrom(g: View, prevs: set<Id>, next: Id): set<Edge> {
    ShortcutsTo(g, prevs, {next})
  }

  lemma OneMoreShortcut(g: View, g1: View, done: set<Id>, prev: Id, next: Id)
    requires g1.deps <= g.deps
    ensures g1.WithoutEdges(ShortcutsFrom(g, done + {prev}, next)) ==
      if prev in g.Prev(next)
      then g1.WithoutEdges(ShortcutsFrom(g, done, next)).WithoutEdges({Edge(prev, next, HAPPENS_BEFORE)})
      else g1.WithoutEdges(ShortcutsFrom(g, done, next))
  {
  }

  lemma MoreShortcuts(g: View, prevs: set<Id>, seen: set<Id>, next: Id)
    ensures g.WithoutEdges(ShortcutsTo(g, prevs, seen)).WithoutEdges(ShortcutsFrom(g, prevs, next))
         == g.WithoutEdges(ShortcutsTo(g, prevs, seen + {next}))
  {
  }

  lemma NothingTo(g: View, prevs: set<Id>, seen: set<Id>, next: Id)
    requires g.Valid() && next !in g.events
    ensures ShortcutsTo(g, prevs, seen + {next}) == ShortcutsTo(g, prevs, seen)
  {
  }

  lemma AllShortcuts(g: View, id: Id)
    ensures ShortcutsTo(g, g.Prev(id), g.Next(id)) == Shortcuts(g, id)
  {
  }

  /** The run of a block, as the analyzer performs it. */
  lemma BlockRun(s: State, b: Block)
    requires s.phase == Idle
    ensures var begun := Next(true, s, Begin(b.GetPrettyBlockId(), b.isMain, b.exprs == []));
      && (begun.phase == Skipping ==> Run(true, s, BlockSteps(b)) == begun.(phase := Idle))
      && (begun.phase == Running ==>
            Run(true, s, BlockSteps(b)) == Next(true, Run(true, begun, ExprSteps(b.exprs)), End))
  {
    var begin := Begin(b.GetPrettyBlockId(), b.isMain, b.exprs == []);
    var begun := Next(true, s, begin);
    assert Run(true, s, [begin]) == begun by {
      assert [begin][..0] == [];
    }
    RunConcat(true, s, [begin], ExprSteps(b.exprs));
    RunSnoc(true, s, [begin] + ExprSteps(b.exprs), End);
    if begun.phase == Skipping {
      SkippedExprs(true, begun, b.exprs);
    }
  }
}
