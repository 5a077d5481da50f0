/** What each step does to the graph, edge by edge, read off the types and values
    of the events, the labels, and the fields of the state. */
module EdgeRules {
  import opened Common
  import opened Traces
  import opened Reachability
  import opened DependencyGraph
  import opened DependencyModel
  import opened LinkTargets
  import opened HistoryGrowth

  // ----- A creation

  lemma InferredEdges(g: View, id: Id, event: Event, olds: set<Id>, e: Edge)
    requires id in g.events && olds <= g.events.Keys && id !in olds
    ensures e in g.WithEdges(InferredWith(g, id, event, olds)).deps <==>
      || e in g.deps
      || (e.lbl == HAPPENS_BEFORE && e.tgt == id && e.src in olds && OldFirst(g.events[e.src], event))
      || (e.lbl == HAPPENS_BEFORE && e.src == id && e.tgt in olds && NewFirst(g.events[e.tgt], event))
  {
    var es := InferredWith(g, id, event, olds);
    if e.lbl == HAPPENS_BEFORE && e.tgt == id && e.src in olds && OldFirst(g.events[e.src], event) {
      assert e in Inferred(id, event, e.src, g.events[e.src]);
      assert e in g.Kept(es);
    }
    if e.lbl == HAPPENS_BEFORE && e.src == id && e.tgt in olds && NewFirst(g.events[e.tgt], event) {
      assert e in Inferred(id, event, e.tgt, g.events[e.tgt]);
      assert e in g.Kept(es);
    }
  }

  lemma CausingEdges(s: State, id: Id, event: Event, e: Edge)
    requires id !in s.g.events
    ensures e in Created(s, id, event).deps <==>
      || e in s.g.deps
      || (e.tgt == id && e.src in s.g.events
          && ((e.src == s.current && e.lbl == CREATES)
              || (s.pendingEv != "" && e.src == s.pendingEv && e.lbl == HAPPENS_BEFORE)))
  {
    var g1 := s.g.WithNode(id, event);
    EdgeIntoView(g1, Edge(s.pendingEv, id, HAPPENS_BEFORE));
    var g2 := if s.pendingEv != "" then g1.WithEdge(Edge(s.pendingEv, id, HAPPENS_BEFORE)) else g1;
    EdgeIntoView(g2, Edge(s.current, id, CREATES));
  }

  /** Which older events come first, by their type. */
  lemma OlderFirst(old_: Event, event: Event)
    ensures OldFirst(old_, event) <==>
      match old_.eventType
      case S => true
      case MAIN => true
      case M => event.eventType == W || event.eventType == EXT ||
                (event.eventType == M && old_.eventValue <= event.eventValue)
      case W => event.eventType == EXT && old_.eventValue != 0
      case EXT => false
  {
  }

  /** Which older events a new one overtakes, by its type. */
  lemma NewerFirst(old_: Event, event: Event)
    ensures NewFirst(old_, event) <==>
      match event.eventType
      case S => old_.eventType == M || old_.eventType == W || old_.eventType == EXT
      case MAIN => old_.eventType == M || old_.eventType == W || old_.eventType == EXT
      case M => old_.eventType == W || old_.eventType == EXT ||
                (old_.eventType == M && event.eventValue < old_.eventValue)
      case W => false
      case EXT => false
  {
  }

  lemma CreationAddsRanked(s: State, n: nat, event: Event, tags: seq<string>, e: Edge)
    requires s.phase == Running && ToString(n) !in s.g.events && ToString(n) !in s.alive
    ensures var id, s' := ToString(n), Next(true, s, Do(NewEventExpr(n, event, tags)));
      e in s'.g.deps <==>
        || e in s.g.deps
        || (e.tgt == id && e.src in s.g.events
            && ((e.lbl == CREATES && e.src == s.current)
                || (e.lbl == HAPPENS_BEFORE && s.pendingEv != "" && e.src == s.pendingEv)))
        || (e.lbl == HAPPENS_BEFORE && e.tgt == id && e.src in s.g.events && e.src in s.alive && e.src != s.current
            && OldFirst(s.g.events[e.src], event))
        || (e.lbl == HAPPENS_BEFORE && e.src == id && e.tgt in s.g.events && e.tgt in s.alive && e.tgt != s.current
            && NewFirst(s.g.events[e.tgt], event))
  {
    var id := ToString(n);
    var g := Created(s, id, event);
    assert g.events == s.g.events[id := event];
    CausingEdges(s, id, event, e);
    InferredEdges(g, id, event, Rivals(g, s.alive, s.current), e);
  }

  /** The edges a creation adds.  The running block creates the event; the pending
      event happens before it.  Of the other alive events, S and MAIN events come
      before it; so do M events, if it is W or EXT, or M with no smaller value;
      and W events with a value, if it is EXT.  It comes before the other alive
      events, except S and MAIN events, if it is S or MAIN; before W and EXT
      events, and M events with a greater value, if it is M.  There are no others:
      none between W events, none between EXT events, and none from a W event
      with value 0. */
  lemma CreationAdds(s: State, n: nat, event: Event, tags: seq<string>, e: Edge)
    requires s.phase == Running && ToString(n) !in s.g.events && ToString(n) !in s.alive
    ensures var id, s' := ToString(n), Next(true, s, Do(NewEventExpr(n, event, tags)));
      e in s'.g.deps <==>
        || e in s.g.deps
        || (e.tgt == id && e.src in s.g.events &&
            var old_ := s.g.events[e.src];
            || (e.lbl == CREATES && e.src == s.current)
            || (e.lbl == HAPPENS_BEFORE && s.pendingEv != "" && e.src == s.pendingEv)
            || (e.lbl == HAPPENS_BEFORE && e.src in s.alive && e.src != s.current &&
                match old_.eventType
                case S => true
                case MAIN => true
                case M => event.eventType == W || event.eventType == EXT ||
                          (event.eventType == M && old_.eventValue <= event.eventValue)
                case W => event.eventType == EXT && old_.eventValue != 0
                case EXT => false))
        || (e.src == id && e.tgt in s.g.events && e.lbl == HAPPENS_BEFORE && e.tgt in s.alive && e.tgt != s.current &&
            var old_ := s.g.events[e.tgt];
            match event.eventType
            case S => old_.eventType == M || old_.eventType == W || old_.eventType == EXT
            case MAIN => old_.eventType == M || old_.eventType == W || old_.eventType == EXT
            case M => old_.eventType == W || old_.eventType == EXT ||
                      (old_.eventType == M && event.eventValue < old_.eventValue)
            case W => false
            case EXT => false)
  {
    CreationAddsRanked(s, n, event, tags, e);
    if e.src in s.g.events { OlderFirst(s.g.events[e.src], event); }
    if e.tgt in s.g.events { NewerFirst(s.g.events[e.tgt], event); }
  }

  // ----- The start of a block

  /** The start of an event's block adds edges only from a W event, to the other
      alive W events of the same value, and then removes exactly the recorded
      happens-before edges from an event before it to one after it. */
  lemma StartChanges(s: State, id: Id, isEmpty: bool, e: Edge)
    requires s.phase == Idle && id in s.g.events
    ensures var s' := Next(true, s, Begin(id, false, isEmpty));
      e in s'.g.deps <==>
        && (|| e in s.g.deps
            || (e == Edge(id, e.tgt, HAPPENS_BEFORE) && e.tgt != id && e.tgt in s.alive && e.tgt in s.g.events
                && s.g.events[id].eventType == W && s.g.events[e.tgt].eventType == W
                && s.g.events[id].eventValue == s.g.events[e.tgt].eventValue))
        && !(e.lbl == HAPPENS_BEFORE && {(e.src, e.tgt), (e.src, id), (id, e.tgt)} <= s'.g.hist)
  {
    if e == Edge(id, e.tgt, HAPPENS_BEFORE) && e.tgt != id && e.tgt in s.alive && e.tgt in s.g.events
      && s.g.events[id].eventType == W && s.g.events[id] == s.g.events[e.tgt]
    {
      assert e in s.g.Kept(WEdges(s.g, id, s.alive));
    }
  }

  /** A MAIN block comes after the nodes from which no edge leaves, if an earlier
      MAIN block has run; the first one comes after nothing. */
  lemma MainAdds(s: State, id: Id, e: Edge)
    requires s.phase == Idle
    ensures var s' := Next(true, s, Begin(id, true, false));
      e in s'.g.deps <==>
        || e in s.g.deps
        || (s.prevMain && e.lbl == HAPPENS_BEFORE && e.tgt == id && e.src != id && e.src in s.g.events
            && forall d :: d in s.g.deps ==> d.src != e.src)
  {
    var g1 := s.g.WithNode(id, MAIN_EVENT);
    if e == Edge(e.src, id, HAPPENS_BEFORE) && e.src != id && e.src in g1.Sinks() {
      assert e in g1.Kept(SinkEdges(g1.Sinks(), id));
    }
  }

  // ----- Links, and what they depend on

  /** A link adds its edge, unless it leads from the running block, the context,
      an unknown event, or to its own source. */
  lemma LinkAdds(s: State, m: nat, n: nat, e: Edge)
    requires s.phase == Running
    ensures e in Next(true, s, Do(LinkExpr(m, n))).g.deps <==>
      || e in s.g.deps
      || (e == Edge(ToString(m), ToString(n), HAPPENS_BEFORE) && m != n && ToString(m) in s.g.events
          && ToString(m) != s.current && ToString(m) != s.context)
  {
    EdgeIntoView(s.g, Edge(ToString(m), ToString(n), HAPPENS_BEFORE));
    if m != n { ToStringInjective(m, n); }
  }

  /** Different numbers have different texts. */
  lemma {:induction false} ToStringInjective(m: nat, n: nat)
    requires m != n
    ensures ToString(m) != ToString(n)
    decreases m
  {
    if m >= 10 && n >= 10 && m / 10 != n / 10 {
      ToStringInjective(m / 10, n / 10);
      assert ToString(m)[..|ToString(m)| - 1] == ToString(m / 10);
      assert ToString(n)[..|ToString(n)| - 1] == ToString(n / 10);
    } else if m >= 10 && n >= 10 {
      assert ToString(m)[|ToString(m)| - 1] == Digit(m % 10);
      assert ToString(n)[|ToString(n)| - 1] == Digit(n % 10);
    } else {
      assert m >= 10 ==> |ToString(m)| >= 2;
      assert n >= 10 ==> |ToString(n)| >= 2;
    }
  }

  /** A trigger stores its number as one character, so afterwards a link from the
      triggered event takes effect as any other: only a link from the running
      block is skipped, or one from a digit that happens to be that character. */
  lemma LinksAfterTrigger(s: State, i: nat, m: nat, n: nat)
    requires s.phase == Running && ToString(m) in s.g.events
    ensures TakesEffect(Next(true, s, Do(TriggerExpr(i))), Do(LinkExpr(m, n))) <==>
      ToString(m) != s.current && !(m < 10 && i % 256 == 48 + m)
  {
    var c := (i % 256) as char;
    if m < 10 {
      assert ToString(m) == [Digit(m)] && Digit(m) == (48 + m) as char;
    } else {
      assert |ToString(m)| >= 2;
    }
  }

  // ----- What adds no edge, and what is kept

  /** Triggers, submitted operations, ends of blocks and skipped blocks. */
  lemma OthersAddNone(s: State, step: Step)
    requires step == End || (step.Do? && (step.expr.TriggerExpr? || step.expr.SubmitOp?)) ||
             (step.Begin? && (if step.isMain then step.isEmpty else step.id !in s.g.events))
    ensures Next(true, s, step).g.deps == s.g.deps && Next(true, s, step).g.events == s.g.events
  {
  }

  /** What is recorded after `g` and is no edge of `g'` was recorded in `g`. */
  ghost predicate RecordsEdges(g: View, g': View) {
    g.deps <= g'.deps && g'.hist <= g.hist + Pairs(g'.deps)
  }

  lemma EdgesRecorded(g: View, es: set<Edge>)
    ensures RecordsEdges(g, g.WithEdges(es))
  {
    forall e | e in g.WithEdges(es).hist && e !in g.hist ensures e in Pairs(g.WithEdges(es).deps) {
      var d :| d in g.Kept(es) && e == (d.src, d.tgt);
      assert d in g.WithEdges(es).deps;
    }
  }

  lemma CreationRecorded(s: State, id: Id, event: Event)
    ensures RecordsEdges(s.g, NewEvent(s, id, event).g)
  {
    var g1 := s.g.WithNode(id, event);
    var pending := Edge(s.pendingEv, id, HAPPENS_BEFORE);
    EdgesRecorded(g1, {pending});
    var g2 := if s.pendingEv != "" then g1.WithEdge(pending) else g1;
    EdgesRecorded(g2, {Edge(s.current, id, CREATES)});
    var g3 := g2.WithEdge(Edge(s.current, id, CREATES));
    EdgesRecorded(g3, InferredWith(g3, id, event, Rivals(g3, s.alive, s.current)));
  }

  /** A W edge is no shortcut past the node it leaves. */
  lemma StartRecorded(s: State, id: Id, e: (Id, Id))
    requires s.g.Closed() && id in s.g.events
    requires e in BeginRegular(true, s, id).g.hist && e !in s.g.hist
    ensures e in Pairs(BeginRegular(true, s, id).g.deps)
  {
    var es := WEdges(s.g, id, s.alive);
    var g1 := s.g.WithEdges(es);
    var d :| d in s.g.Kept(es) && e == (d.src, d.tgt);
    EdgesAdded(s.g, es);
    assert (id, id) !in g1.hist by {
      assert g1.Valid();
      assert (id, id) in g1.hist ==> (id, id).0 != (id, id).1;
    }
    assert d in g1.deps && d !in Shortcuts(g1, id);
  }

  lemma NewRecordIsEdge(s: State, step: Step, e: (Id, Id))
    requires s.g.Closed() && e !in s.g.hist && e in Next(true, s, step).g.hist
    ensures e in Pairs(Next(true, s, step).g.deps)
  {
    match step
    case Begin(id, isMain, isEmpty) =>
      var g1 := s.g.WithNode(id, MAIN_EVENT);
      EdgesRecorded(g1, SinkEdges(g1.Sinks(), id));
      if !isMain { StartRecorded(s, id, e); }
    case Do(NewEventExpr(n, event, _)) => CreationRecorded(s, ToString(n), event);
    case Do(LinkExpr(m, n)) => EdgesRecorded(s.g, {Edge(ToString(m), ToString(n), HAPPENS_BEFORE)});
    case _ =>
  }

  /** Where all edges are recorded, a step records just the edges it adds. */
  lemma RecordsWhatItAdds(s: State, step: Step)
    requires s.g.Closed() && LinkTargetExists(s, step)
    ensures var g := Next(true, s, step).g; g.hist == s.g.hist + Pairs(g.deps - s.g.deps)
  {
    NextClosed(s, step);
    HistoryGrows(s, step);
    var g := Next(true, s, step).g;
    forall e | e in g.hist && e !in s.g.hist ensures e in Pairs(g.deps - s.g.deps) {
      NewRecordIsEdge(s, step, e);
      var d :| d in g.deps && e == (d.src, d.tgt);
      assert d in s.g.deps ==> (d.src, d.tgt) in Pairs(s.g.deps);
    }
    forall e | e in Pairs(g.deps - s.g.deps) ensures e in g.hist {
      assert e in Pairs(g.deps);
    }
  }

  // ----- What stays for good

  /** The edges from a block to the events it created are never removed, and an
      event keeps the type and value of its first creation. */
  ghost predicate KeepsCreations(s: State, s': State) {
    && (forall e :: e in s.g.deps && e.lbl == CREATES ==> e in s'.g.deps)
    && (forall id :: id in s.g.events ==> id in s'.g.events && s'.g.events[id] == s.g.events[id])
  }

  lemma StartKeepsCreations(s: State, id: Id)
    requires id in s.g.events
    ensures KeepsCreations(s, BeginRegular(true, s, id))
  {
  }

  lemma NewEventKeepsCreations(s: State, id: Id, event: Event)
    ensures KeepsCreations(s, NewEvent(s, id, event))
  {
  }

  lemma NextKeepsCreations(s: State, step: Step)
    ensures KeepsCreations(s, Next(true, s, step))
  {
    match step
    case Begin(id, isMain, _) => if !isMain && id in s.g.events { StartKeepsCreations(s, id); }
    case Do(NewEventExpr(n, event, _)) => NewEventKeepsCreations(s, ToString(n), event);
    case _ =>
  }

  lemma LastStep(steps: seq<Step>, n: nat)
    requires n < |steps|
    ensures Run(true, INIT, steps[..n + 1]) == Next(true, Run(true, INIT, steps[..n]), steps[n])
  {
    assert steps[..n + 1][..n] == steps[..n];
  }

  lemma {:induction false} RunKeepsCreations(steps: seq<Step>, k: nat, m: nat)
    requires k <= m <= |steps|
    ensures KeepsCreations(Run(true, INIT, steps[..k]), Run(true, INIT, steps[..m]))
    decreases m
  {
    if k < m {
      var n := m - 1;
      RunKeepsCreations(steps, k, n);
      LastStep(steps, n);
      NextKeepsCreations(Run(true, INIT, steps[..n]), steps[n]);
    }
  }

  /** From its creation on, an event is a node of the type and value it was given,
      with an edge that says which block created it; no pruning removes that. */
  lemma CreationStays(steps: seq<Step>, k: nat, m: nat, n: nat, event: Event, tags: seq<string>)
    requires k < m <= |steps| && steps[k] == Do(NewEventExpr(n, event, tags))
    requires var s := Run(true, INIT, steps[..k]);
      s.phase == Running && s.current in s.g.events && ToString(n) !in s.g.events && ToString(n) !in s.alive
    ensures var s, g := Run(true, INIT, steps[..k]), Run(true, INIT, steps[..m]).g;
      && ToString(n) in g.events && g.events[ToString(n)] == event
      && Edge(s.current, ToString(n), CREATES) in g.deps
  {
    var s := Run(true, INIT, steps[..k]);
    LastStep(steps, k);
    CreationAdds(s, n, event, tags, Edge(s.current, ToString(n), CREATES));
    RunKeepsCreations(steps, k + 1, m);
  }
}
