/** Consistent traces keep the history acyclic, and their waiting events form a
    priority queue. */
module Acyclicity {
  import opened Common
  import opened Traces
  import opened Reachability
  import opened DependencyGraph
  import opened DependencyModel
  import opened Pruning
  import opened LinkTargets
  import opened HistoryGrowth

  /** Events whose block has not begun yet. */
  function Pending(s: State): set<Id> {
    s.g.events.Keys - s.ages.begun.Keys
  }

  /** What a trace has to respect at one step, seen from the state before it:
      events are created once; a MAIN block is new, and no event is alive when it
      begins; no other alive event is ordered before an event whose block begins;
      a link that takes effect goes from an older event to an EXT event that waits. */
  ghost predicate StepConsistent(s: State, step: Step) {
    match step
    case Begin(id, isMain, isEmpty) =>
      s.phase == Idle ==>
        && (isMain && !isEmpty ==> id !in s.g.events && s.alive == {})
        && (!isMain && id in s.g.events ==>
              forall a :: a in s.alive && a != id ==> !Reaches(s.g.hist, a, id))
    case Do(NewEventExpr(n, _, _)) => s.phase == Running ==> ToString(n) !in s.g.events
    case Do(LinkExpr(m, n)) =>
      TakesEffect(s, step) ==>
        var source, target := ToString(m), ToString(n);
        && target in Pending(s) && s.g.events[target].eventType == EXT
        && source in s.ages.born && target in s.ages.born && s.ages.born[source] < s.ages.born[target]
    case _ => true
  }

  ghost predicate Consistent(steps: seq<Step>) {
    forall k :: 0 <= k < |steps| ==> StepConsistent(Run(true, INIT, steps[..k]), steps[k])
  }

  // ----- The order of events

  /** Events wait in the order of rank, then of value among M events, then of age. */
  predicate WaitsBefore(s: State, u: Id, v: Id)
    requires u in s.g.events && v in s.g.events && u in s.ages.born && v in s.ages.born
  {
    var eu, ev := s.g.events[u], s.g.events[v];
    || Rank(eu) < Rank(ev)
    || (Rank(eu) == Rank(ev) == 1 && eu.eventValue < ev.eventValue)
    || (Rank(eu) == Rank(ev) && (Rank(eu) == 1 ==> eu.eventValue == ev.eventValue) && s.ages.born[u] < s.ages.born[v])
  }

  /** Begun events come in the order they began, before all that wait. */
  predicate Before(s: State, u: Id, v: Id) {
    && u in s.g.events && v in s.g.events && u in s.ages.born && v in s.ages.born
    && (if v in s.ages.begun then u in s.ages.begun && s.ages.begun[u] < s.ages.begun[v]
        else u in s.ages.begun || WaitsBefore(s, u, v))
  }

  predicate Urgent(e: Event) {
    Rank(e) <= 1
  }

  predicate Valued(e: Event) {
    e.eventType == W && e.eventValue != 0
  }

  ghost predicate WellAged(s: State) {
    && s.ages.born.Keys == s.g.events.Keys
    && s.ages.begun.Keys <= s.g.events.Keys
    && (forall u :: u in s.ages.born ==> s.ages.born[u] < s.ages.clock)
    && (forall u :: u in s.ages.begun ==> s.ages.begun[u] < s.ages.clock)
    && (forall u, v :: u in s.ages.born && v in s.ages.born && u != v ==> s.ages.born[u] != s.ages.born[v])
  }

  ghost predicate Lifecycle(s: State) {
    && Pending(s) <= s.alive
    && s.alive <= s.g.events.Keys
    && (forall u :: u in s.alive && u in s.ages.begun ==> s.phase == Running && u == s.current)
    && (s.current != "" ==> s.current in s.ages.begun)
    && (s.phase == Running ==> s.current != "")
    && (s.pendingEv != "" ==> s.pendingEv in s.ages.begun)
    && (s.current == "" ==> s.g.events == map[])
  }

  ghost predicate HistoryOrdered(s: State) {
    forall e :: e in s.g.hist ==> Before(s, e.0, e.1)
  }

  /** The analyzer orders an urgent event before all that wait behind it, and a
      W event with a value before the EXT events created after it. */
  predicate Binds(s: State, u: Id, v: Id)
    requires u in s.g.events && v in s.g.events && u in s.ages.born && v in s.ages.born
  {
    var eu, ev := s.g.events[u], s.g.events[v];
    Urgent(eu) || (Valued(eu) && ev.eventType == EXT && s.ages.born[u] < s.ages.born[v])
  }

  /** Those orderings are edges of the history. */
  ghost predicate Linked(s: State) {
    forall u, v | u in Pending(s) && v in Pending(s) && Before(s, u, v) ::
      Binds(s, u, v) ==> (u, v) in s.g.hist
  }

  ghost predicate Ordered(s: State) {
    WellAged(s) && Lifecycle(s) && HistoryOrdered(s) && Linked(s)
  }

  lemma OrderedAcyclic(s: State)
    requires HistoryOrdered(s)
    ensures Acyclic(s.g.hist)
  {
    OrderedIsAcyclic(s.g.hist, (u, v) => Before(s, u, v));
  }

  // ----- Each step keeps the order

  lemma MainKeepsHistory(s: State, id: Id)
    requires Ordered(s) && s.phase == Idle && s.alive == {} && id !in s.g.events
    ensures HistoryOrdered(BeginMain(s, id))
  {
    var s' := BeginMain(s, id);
    assert Pending(s) == {};
    MainGrowth(s, id, false);
    forall e | e in s'.g.hist ensures Before(s', e.0, e.1) {
      if e in s.g.hist {
        assert Before(s, e.0, e.1);
      } else {
        StarEdge(Growth(s, Begin(id, true, false)), e);
        assert e.1 == id && e.0 in s.g.events && e.0 in s.ages.begun;
      }
    }
  }

  lemma MainKeepsOrder(s: State, id: Id)
    requires Ordered(s) && s.phase == Idle && s.alive == {} && id !in s.g.events && id != ""
    ensures Ordered(BeginMain(s, id))
  {
    MainKeepsHistory(s, id);
    assert Pending(s) == {} && Pending(BeginMain(s, id)) == {};
  }

  lemma RegularKeepsHistory(s: State, id: Id)
    requires Ordered(s) && s.phase == Idle && id in s.g.events
    requires forall a :: a in s.alive && a != id ==> !Reaches(s.g.hist, a, id)
    ensures HistoryOrdered(BeginRegular(true, s, id))
  {
    var s' := BeginRegular(true, s, id);
    forall e | e in s'.g.hist ensures Before(s', e.0, e.1) {
      if e in s.g.hist {
        assert Before(s, e.0, e.1);
        if e.1 == id && e.0 !in s.ages.begun {
          ReachesEdge(s.g.hist, e.0, id);
          assert false;
        }
      } else {
        assert e.0 == id && e.1 in s.alive;
      }
    }
  }

  lemma RegularKeepsOrder(s: State, id: Id)
    requires Ordered(s) && s.phase == Idle && id in s.g.events && id != ""
    requires forall a :: a in s.alive && a != id ==> !Reaches(s.g.hist, a, id)
    ensures Ordered(BeginRegular(true, s, id))
  {
    RegularKeepsHistory(s, id);
    var s' := BeginRegular(true, s, id);
    assert Pending(s') <= Pending(s);
    forall u, v | u in Pending(s') && v in Pending(s') && Before(s', u, v)
      ensures Binds(s', u, v) ==> (u, v) in s'.g.hist
    {
      assert Before(s, u, v);
    }
  }

  /** The table of priorities agrees with the order in which events wait. */
  lemma PrioritiesOrder(s: State, newId: Id, oldId: Id)
    requires newId in s.g.events && oldId in s.g.events && newId in s.ages.born && oldId in s.ages.born
    requires s.ages.born[oldId] < s.ages.born[newId]
    ensures OldFirst(s.g.events[oldId], s.g.events[newId]) ==> WaitsBefore(s, oldId, newId)
    ensures NewFirst(s.g.events[oldId], s.g.events[newId]) ==> WaitsBefore(s, newId, oldId)
    ensures WaitsBefore(s, oldId, newId) && Binds(s, oldId, newId) ==> OldFirst(s.g.events[oldId], s.g.events[newId])
    ensures WaitsBefore(s, newId, oldId) && Binds(s, newId, oldId) ==> NewFirst(s.g.events[oldId], s.g.events[newId])
  {
  }

  ghost predicate AddedByCreation(s: State, id: Id, event: Event, e: (Id, Id)) {
    || (e.1 == id && (e.0 == s.current || (s.pendingEv != "" && e.0 == s.pendingEv)))
    || (e.1 == id && e.0 in Rivals(s.g, s.alive, s.current) && OldFirst(s.g.events[e.0], event))
    || (e.0 == id && e.1 in Rivals(s.g, s.alive, s.current) && NewFirst(s.g.events[e.1], event))
  }

  lemma NewEventEdge(s: State, id: Id, event: Event, e: (Id, Id))
    requires id !in s.g.events && id !in s.alive && Causes(s) <= s.g.events.Keys
    ensures e in NewEvent(s, id, event).g.hist <==> e in s.g.hist || AddedByCreation(s, id, event, e)
  {
    var g := Created(s, id, event);
    assert g.events == s.g.events[id := event];
    assert Rivals(g, s.alive, s.current) == Rivals(s.g, s.alive, s.current);
    CreatedGrowth(s, id, event, e);
    InferredGrowth(g, id, event, Rivals(g, s.alive, s.current), e);
  }

  /** The history after the creation of an event, edge by edge. */
  lemma NewEventHistory(s: State, id: Id, event: Event)
    requires Ordered(s) && s.phase == Running && id !in s.g.events
    ensures var s' := NewEvent(s, id, event);
      && s'.g.events == s.g.events[id := event]
      && (forall e :: e in s'.g.hist <==> e in s.g.hist || AddedByCreation(s, id, event, e))
  {
    forall e ensures e in NewEvent(s, id, event).g.hist <==> e in s.g.hist || AddedByCreation(s, id, event, e) {
      NewEventEdge(s, id, event, e);
    }
  }

  lemma RivalsArePending(s: State)
    requires Ordered(s) && s.phase == Running
    ensures Rivals(s.g, s.alive, s.current) == Pending(s)
  {
  }

  lemma NewEventKeepsHistory(s: State, id: Id, event: Event)
    requires Ordered(s) && s.phase == Running && id !in s.g.events
    ensures HistoryOrdered(NewEvent(s, id, event))
  {
    var s' := NewEvent(s, id, event);
    NewEventHistory(s, id, event);
    RivalsArePending(s);
    forall e | e in s'.g.hist ensures Before(s', e.0, e.1) {
      if e in s.g.hist {
        assert Before(s, e.0, e.1);
      } else if e.0 in Pending(s) {
        PrioritiesOrder(s', id, e.0);
      } else if e.1 in Pending(s) {
        PrioritiesOrder(s', id, e.1);
      }
    }
  }

  lemma NewEventKeepsLinks(s: State, id: Id, event: Event)
    requires Ordered(s) && s.phase == Running && id !in s.g.events
    ensures Linked(NewEvent(s, id, event))
  {
    var s' := NewEvent(s, id, event);
    NewEventHistory(s, id, event);
    RivalsArePending(s);
    assert Pending(s') == Pending(s) + {id};
    forall u, v | u in Pending(s') && v in Pending(s') && Before(s', u, v)
      ensures Binds(s', u, v) ==> (u, v) in s'.g.hist
    {
      if u == id {
        PrioritiesOrder(s', id, v);
      } else if v == id {
        PrioritiesOrder(s', id, u);
      } else {
        assert Before(s, u, v);
      }
    }
  }

  lemma NewEventKeepsOrder(s: State, id: Id, event: Event)
    requires Ordered(s) && s.phase == Running && id !in s.g.events
    ensures Ordered(NewEvent(s, id, event))
  {
    NewEventHistory(s, id, event);
    NewEventKeepsHistory(s, id, event);
    NewEventKeepsLinks(s, id, event);
  }

  lemma LinkKeepsHistory(s: State, m: nat, n: nat)
    requires Ordered(s) && s.phase == Running && StepConsistent(s, Do(LinkExpr(m, n)))
    ensures HistoryOrdered(Perform(s, LinkExpr(m, n)))
  {
    var s', source, target := Perform(s, LinkExpr(m, n)), ToString(m), ToString(n);
    EdgeIntoView(s.g, Edge(source, target, HAPPENS_BEFORE));
    forall e | e in s'.g.hist ensures Before(s', e.0, e.1) {
      if e in s.g.hist {
        assert Before(s, e.0, e.1);
      } else {
        assert e == (source, target) && TakesEffect(s, Do(LinkExpr(m, n)));
        assert Before(s, source, target);
      }
    }
  }

  lemma LinkKeepsOrder(s: State, m: nat, n: nat)
    requires Ordered(s) && s.phase == Running && StepConsistent(s, Do(LinkExpr(m, n)))
    ensures Ordered(Perform(s, LinkExpr(m, n)))
  {
    var s' := Perform(s, LinkExpr(m, n));
    LinkKeepsHistory(s, m, n);
    assert s.g.hist <= s'.g.hist;
    forall u, v | u in Pending(s') && v in Pending(s') && Before(s', u, v)
      ensures Binds(s', u, v) ==> (u, v) in s'.g.hist
    {
      assert Before(s, u, v);
    }
  }

  /** A state that differs in no event, age or edge of the history. */
  lemma SameOrder(s: State, s': State)
    requires Ordered(s) && s'.g.events == s.g.events && s'.g.hist == s.g.hist && s'.ages == s.ages
    ensures HistoryOrdered(s') && Linked(s') && WellAged(s')
  {
    forall e | e in s'.g.hist ensures Before(s', e.0, e.1) {
      assert Before(s, e.0, e.1);
    }
    forall u, v | u in Pending(s') && v in Pending(s') && Before(s', u, v)
      ensures Binds(s', u, v) ==> (u, v) in s'.g.hist
    {
      assert Before(s, u, v);
    }
  }

  ghost predicate Named(step: Step) {
    step.Begin? ==> step.id != ""
  }

  lemma NextKeepsOrder(s: State, step: Step)
    requires Ordered(s) && StepConsistent(s, step) && Named(step)
    ensures Ordered(Next(true, s, step))
  {
    match step
    case Begin(id, isMain, isEmpty) =>
      if s.phase == Idle {
        if isMain && !isEmpty {
          MainKeepsOrder(s, id);
        } else if !isMain && id in s.g.events {
          RegularKeepsOrder(s, id);
        } else {
          SameOrder(s, Next(true, s, step));
        }
      }
    case Do(NewEventExpr(n, event, _)) =>
      if s.phase == Running { NewEventKeepsOrder(s, ToString(n), event); }
    case Do(LinkExpr(m, n)) =>
      if s.phase == Running { LinkKeepsOrder(s, m, n); }
    case _ =>
      SameOrder(s, Next(true, s, step));
  }

  // ----- Whole runs

  ghost predicate AllNamed(steps: seq<Step>) {
    forall k :: 0 <= k < |steps| ==> Named(steps[k])
  }

  lemma {:induction false} RunKeepsOrder(steps: seq<Step>)
    requires Consistent(steps) && AllNamed(steps)
    ensures Ordered(Run(true, INIT, steps))
    decreases |steps|
  {
    if steps != [] {
      var n := |steps| - 1;
      ConsistentPrefix(steps, n);
      RunKeepsOrder(steps[..n]);
      NextKeepsOrder(Run(true, INIT, steps[..n]), steps[n]);
    }
  }

  lemma ConsistentPrefix(steps: seq<Step>, k: nat)
    requires k <= |steps| && Consistent(steps) && AllNamed(steps)
    ensures Consistent(steps[..k]) && AllNamed(steps[..k])
  {
    assert forall j :: 0 <= j <= k ==> steps[..k][..j] == steps[..j];
  }

  /** A consistent trace meets both premises of pruning: its history is acyclic
      in every state, and its links have existing targets. */
  lemma ConsistentTracesAreAcyclic(steps: seq<Step>)
    requires Consistent(steps) && AllNamed(steps)
    ensures AlwaysAcyclic(steps) && LinkTargetsExist(steps)
  {
    forall k | 0 <= k <= |steps| ensures Acyclic(Run(true, INIT, steps[..k]).g.hist) {
      ConsistentPrefix(steps, k);
      RunKeepsOrder(steps[..k]);
      OrderedAcyclic(Run(true, INIT, steps[..k]));
    }
    forall k | 0 <= k < |steps| ensures LinkTargetExists(Run(true, INIT, steps[..k]), steps[k]) {
      assert StepConsistent(Run(true, INIT, steps[..k]), steps[k]);
    }
  }

  lemma {:induction false} TracesAreNamed(blocks: seq<Block>)
    ensures AllNamed(TraceSteps(blocks))
    decreases |blocks|
  {
    if blocks != [] {
      TracesAreNamed(blocks[..|blocks| - 1]);
      var b := blocks[|blocks| - 1];
      assert b.GetPrettyBlockId() != "";
      assert AllNamed(BlockSteps(b));
    }
  }
}
