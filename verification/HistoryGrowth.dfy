/** How each step changes the history: it adds edges into and out of one node. */
module HistoryGrowth {
  import opened Common
  import opened Traces
  import opened Reachability
  import opened DependencyGraph
  import opened DependencyModel
  import opened LinkTargets

  // ----- What a creation orders

  /** The running block and, if there is one, the pending event. */
  function Causes(s: State): set<Id> {
    {s.current} + (if s.pendingEv != "" then {s.pendingEv} else {})
  }

  /** The waiting events that come before the new one. */
  function Ahead(s: State, id: Id, event: Event): set<Id> {
    var g := s.g.WithNode(id, event);
    set a | a in Rivals(g, s.alive, s.current) && OldFirst(g.events[a], event)
  }

  /** The waiting events that the new one overtakes. */
  function Overtaken(s: State, id: Id, event: Event): set<Id> {
    var g := s.g.WithNode(id, event);
    set a | a in Rivals(g, s.alive, s.current) && NewFirst(g.events[a], event)
  }

  /** The other alive W events of the same value, which a W event precedes when
      its block begins. */
  function Followers(s: State, id: Id): set<Id>
    requires id in s.g.events
  {
    if s.g.events[id].eventType != W then {}
    else set a | a in s.alive && a in s.g.events && a != id && s.g.events[a] == s.g.events[id]
  }

  /** The edges a step adds to the history. */
  ghost function Growth(s: State, step: Step): (x: Star)
    ensures WellPlaced(x)
  {
    match step
    case Begin(id, isMain, isEmpty) =>
      if s.phase != Idle then Star("", {}, {})
      else if isMain then
        (if isEmpty || !s.prevMain then Star(id, {}, {})
         else Star(id, s.g.WithNode(id, MAIN_EVENT).Sinks() - {id}, {}))
      else if id in s.g.events then Star(id, {}, Followers(s, id))
      else Star(id, {}, {})
    case Do(NewEventExpr(n, event, _)) =>
      if s.phase != Running then Star("", {}, {})
      else
        var id := ToString(n);
        Star(id, (Causes(s) * s.g.events.Keys + Ahead(s, id, event)) - {id}, Overtaken(s, id, event) - {id})
    case Do(LinkExpr(m, n)) =>
      var source, target := ToString(m), ToString(n);
      if TakesEffect(s, step) && target in s.g.events then Star(target, {source} - {target}, {})
      else Star(target, {}, {})
    case _ => Star("", {}, {})
  }

  lemma MainGrowth(s: State, id: Id, isEmpty: bool)
    requires s.phase == Idle
    ensures var step := Begin(id, true, isEmpty);
      Next(true, s, step).g.hist == s.g.hist + StarEdges(Growth(s, step))
  {
    var step := Begin(id, true, isEmpty);
    var g1 := s.g.WithNode(id, MAIN_EVENT);
    var es := SinkEdges(g1.Sinks(), id);
    forall e ensures e in Next(true, s, step).g.hist <==> e in s.g.hist + StarEdges(Growth(s, step)) {
      StarEdge(Growth(s, step), e);
      if !isEmpty && s.prevMain && e.0 in g1.Sinks() && e.0 != id && e.1 == id {
        assert Edge(e.0, id, HAPPENS_BEFORE) in g1.Kept(es);
      }
    }
  }

  lemma RegularGrowth(s: State, id: Id, isEmpty: bool)
    requires s.phase == Idle && id in s.g.events
    ensures var step := Begin(id, false, isEmpty);
      Next(true, s, step).g.hist == s.g.hist + StarEdges(Growth(s, step))
  {
    var step := Begin(id, false, isEmpty);
    var es := WEdges(s.g, id, s.alive);
    forall e ensures e in Next(true, s, step).g.hist <==> e in s.g.hist + StarEdges(Growth(s, step)) {
      StarEdge(Growth(s, step), e);
      if e.0 == id && e.1 in Followers(s, id) {
        assert Edge(id, e.1, HAPPENS_BEFORE) in s.g.Kept(es);
      }
    }
  }

  lemma InferredGrowth(g: View, id: Id, event: Event, olds: set<Id>, e: (Id, Id))
    requires id in g.events && olds <= g.events.Keys
    ensures e in g.WithEdges(InferredWith(g, id, event, olds)).hist <==>
      || e in g.hist
      || (e.1 == id && e.0 in olds && e.0 != id && OldFirst(g.events[e.0], event))
      || (e.0 == id && e.1 in olds && e.1 != id && NewFirst(g.events[e.1], event))
  {
    var es := InferredWith(g, id, event, olds);
    if e.1 == id && e.0 in olds && e.0 != id && OldFirst(g.events[e.0], event) {
      var d := Edge(e.0, id, HAPPENS_BEFORE);
      assert d in Inferred(id, event, e.0, g.events[e.0]);
      assert d in g.Kept(es);
    }
    if e.0 == id && e.1 in olds && e.1 != id && NewFirst(g.events[e.1], event) {
      var d := Edge(id, e.1, HAPPENS_BEFORE);
      assert d in Inferred(id, event, e.1, g.events[e.1]);
      assert d in g.Kept(es);
    }
  }

  lemma CreatedGrowth(s: State, id: Id, event: Event, e: (Id, Id))
    ensures e in Created(s, id, event).hist <==>
      e in s.g.hist || (e.1 == id && e.0 != id && e.0 in Causes(s) * s.g.events.Keys)
  {
    var g1 := s.g.WithNode(id, event);
    EdgeIntoView(g1, Edge(s.pendingEv, id, HAPPENS_BEFORE));
    var g2 := if s.pendingEv != "" then g1.WithEdge(Edge(s.pendingEv, id, HAPPENS_BEFORE)) else g1;
    EdgeIntoView(g2, Edge(s.current, id, CREATES));
  }

  lemma NewEventGrowth(s: State, n: nat, event: Event, tags: seq<string>)
    requires s.phase == Running
    ensures var step := Do(NewEventExpr(n, event, tags));
      Next(true, s, step).g.hist == s.g.hist + StarEdges(Growth(s, step))
  {
    var step, id := Do(NewEventExpr(n, event, tags)), ToString(n);
    var g := Created(s, id, event);
    assert g.events == s.g.WithNode(id, event).events;
    forall e ensures e in Next(true, s, step).g.hist <==> e in s.g.hist + StarEdges(Growth(s, step)) {
      CreatedGrowth(s, id, event, e);
      InferredGrowth(g, id, event, Rivals(g, s.alive, s.current), e);
      StarEdge(Growth(s, step), e);
    }
  }

  lemma LinkGrowth(s: State, m: nat, n: nat)
    requires s.phase == Running
    ensures var step := Do(LinkExpr(m, n));
      Next(true, s, step).g.hist == s.g.hist + StarEdges(Growth(s, step))
  {
    var step := Do(LinkExpr(m, n));
    EdgeIntoView(s.g, Edge(ToString(m), ToString(n), HAPPENS_BEFORE));
    forall e ensures e in Next(true, s, step).g.hist <==> e in s.g.hist + StarEdges(Growth(s, step)) {
      StarEdge(Growth(s, step), e);
    }
  }

  /** Every step adds exactly the star to the history. */
  lemma HistoryGrows(s: State, step: Step)
    ensures Next(true, s, step).g.hist == s.g.hist + StarEdges(Growth(s, step))
  {
    match step
    case Begin(id, isMain, isEmpty) =>
      if s.phase == Idle && isMain {
        MainGrowth(s, id, isEmpty);
      } else if s.phase == Idle && id in s.g.events {
        RegularGrowth(s, id, isEmpty);
      }
    case Do(NewEventExpr(n, event, tags)) =>
      if s.phase == Running { NewEventGrowth(s, n, event, tags); }
    case Do(LinkExpr(m, n)) =>
      if s.phase == Running { LinkGrowth(s, m, n); }
    case _ =>
  }
}
