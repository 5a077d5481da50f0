/** Everything the graph says about two waiting events of a consistent trace: the
    orderings of the queue, the links made, and nothing else. */
module WaitingOrder {
  import opened Common
  import opened Traces
  import opened Reachability
  import opened DependencyGraph
  import opened DependencyModel
  import opened Pruning
  import opened LinkTargets
  import opened HistoryGrowth
  import opened Acyclicity
  import opened Orderings

  // ----- Where the recorded pairs come from

  ghost function LinkMade(s: State, step: Step): Relation {
    if TakesEffect(s, step) then {(ToString(step.expr.sourceEv), ToString(step.expr.targetEv))} else {}
  }

  /** The pairs joined by the links that have taken effect. */
  ghost function LinksMade(steps: seq<Step>): Relation {
    if steps == [] then {}
    else
      var n := |steps| - 1;
      LinksMade(steps[..n]) + LinkMade(Run(true, INIT, steps[..n]), steps[n])
  }

  /** A recorded pair of waiting events is an ordering of the queue or a link. */
  ghost predicate Explained(s: State, links: Relation) {
    forall u, v | u in Pending(s) && v in Pending(s) && (u, v) in s.g.hist ::
      u in s.ages.born && v in s.ages.born && (Binds(s, u, v) || (u, v) in links)
  }

  /** What an event is compared by does not change. */
  ghost predicate SameAges(s: State, s': State) {
    && Pending(s') * s.g.events.Keys <= Pending(s)
    && (forall u :: u in s.g.events ==> u in s'.g.events && s'.g.events[u] == s.g.events[u])
    && (forall u :: u in s.ages.born ==> u in s'.ages.born && s'.ages.born[u] == s.ages.born[u])
  }

  lemma StaysExplained(s: State, s': State, links: Relation, links': Relation)
    requires Explained(s, links) && SameAges(s, s') && links <= links'
    requires forall u, v | u in Pending(s') && v in Pending(s') && (u, v) in s'.g.hist && (u, v) !in s.g.hist ::
      u in s'.ages.born && v in s'.ages.born && (Binds(s', u, v) || (u, v) in links')
    requires s.g.Valid()
    ensures Explained(s', links')
  {
    forall u, v | u in Pending(s') && v in Pending(s') && (u, v) in s'.g.hist
      ensures u in s'.ages.born && v in s'.ages.born && (Binds(s', u, v) || (u, v) in links')
    {
      if (u, v) in s.g.hist {
        assert (u, v).0 in s.g.events && (u, v).1 in s.g.events;
        assert u in Pending(s) && v in Pending(s);
      }
    }
  }

  lemma MainExplained(s: State, id: Id, links: Relation)
    requires Explained(s, links) && s.g.Valid() && s.phase == Idle && id !in s.g.events
    ensures Explained(BeginMain(s, id), links)
  {
    var s' := BeginMain(s, id);
    MainGrowth(s, id, false);
    assert SameAges(s, s');
    forall u, v | u in Pending(s') && v in Pending(s') && (u, v) in s'.g.hist ensures (u, v) in s.g.hist {
      StarEdge(Growth(s, Begin(id, true, false)), (u, v));
    }
    StaysExplained(s, s', links, links);
  }

  lemma RegularExplained(s: State, id: Id, links: Relation)
    requires Explained(s, links) && s.g.Valid() && s.phase == Idle && id in s.g.events
    ensures Explained(BeginRegular(true, s, id), links)
  {
    var s' := BeginRegular(true, s, id);
    assert SameAges(s, s');
    forall u, v | u in Pending(s') && v in Pending(s') && (u, v) in s'.g.hist ensures (u, v) in s.g.hist {
      assert u != id;
    }
    StaysExplained(s, s', links, links);
  }

  lemma PrioritiesBind(s: State, newId: Id, oldId: Id)
    requires newId in s.g.events && oldId in s.g.events && newId in s.ages.born && oldId in s.ages.born
    requires s.ages.born[oldId] < s.ages.born[newId]
    ensures OldFirst(s.g.events[oldId], s.g.events[newId]) ==> Binds(s, oldId, newId)
    ensures NewFirst(s.g.events[oldId], s.g.events[newId]) ==> Binds(s, newId, oldId)
  {
  }

  lemma CreationBinds(s: State, id: Id, event: Event, u: Id, v: Id)
    requires Ordered(s) && s.phase == Running && id !in s.g.events && AddedByCreation(s, id, event, (u, v))
    requires var s' := NewEvent(s, id, event); u in Pending(s') && v in Pending(s')
    ensures var s' := NewEvent(s, id, event); u in s'.ages.born && v in s'.ages.born && Binds(s', u, v)
  {
    var s' := NewEvent(s, id, event);
    RivalsArePending(s);
    if v == id {
      assert u in Pending(s) && OldFirst(s.g.events[u], event);
      PrioritiesBind(s', id, u);
    } else {
      assert v in Pending(s) && NewFirst(s.g.events[v], event);
      PrioritiesBind(s', id, v);
    }
  }

  lemma NewEventExplained(s: State, id: Id, event: Event, links: Relation)
    requires Ordered(s) && Explained(s, links) && s.g.Valid() && s.phase == Running && id !in s.g.events
    ensures Explained(NewEvent(s, id, event), links)
  {
    var s' := NewEvent(s, id, event);
    NewEventHistory(s, id, event);
    assert SameAges(s, s');
    forall u, v | u in Pending(s') && v in Pending(s') && (u, v) in s'.g.hist && (u, v) !in s.g.hist
      ensures u in s'.ages.born && v in s'.ages.born && Binds(s', u, v)
    {
      CreationBinds(s, id, event, u, v);
    }
    StaysExplained(s, s', links, links);
  }

  lemma LinkExplained(s: State, m: nat, n: nat, links: Relation)
    requires Ordered(s) && Explained(s, links) && s.g.Valid() && s.phase == Running
    ensures Explained(Perform(s, LinkExpr(m, n)), links + LinkMade(s, Do(LinkExpr(m, n))))
  {
    var s' := Perform(s, LinkExpr(m, n));
    EdgeIntoView(s.g, Edge(ToString(m), ToString(n), HAPPENS_BEFORE));
    StaysExplained(s, s', links, links + LinkMade(s, Do(LinkExpr(m, n))));
  }

  lemma NextExplained(s: State, step: Step, links: Relation)
    requires Ordered(s) && Explained(s, links) && s.g.Valid() && StepConsistent(s, step)
    ensures Explained(Next(true, s, step), links + LinkMade(s, step))
  {
    match step
    case Begin(id, isMain, isEmpty) =>
      if s.phase == Idle && isMain && !isEmpty { MainExplained(s, id, links); }
      if s.phase == Idle && !isMain && id in s.g.events { RegularExplained(s, id, links); }
      assert LinkMade(s, step) == {};
    case Do(NewEventExpr(n, event, _)) =>
      if s.phase == Running { NewEventExplained(s, ToString(n), event, links); }
      assert LinkMade(s, step) == {};
    case Do(LinkExpr(m, n)) =>
      if s.phase == Running { LinkExplained(s, m, n, links); }
    case _ =>
      StaysExplained(s, Next(true, s, step), links, links + LinkMade(s, step));
  }

  /** The links that were made are recorded. */
  lemma LinkIsRecorded(s: State, step: Step, links: Relation)
    requires links <= s.g.hist && StepConsistent(s, step)
    ensures links + LinkMade(s, step) <= Next(true, s, step).g.hist
  {
    HistoryGrows(s, step);
    if TakesEffect(s, step) {
      var e := Edge(ToString(step.expr.sourceEv), ToString(step.expr.targetEv), HAPPENS_BEFORE);
      EdgeIntoView(s.g, e);
    }
  }

  lemma {:induction false} RunExplained(steps: seq<Step>)
    requires Consistent(steps) && AllNamed(steps)
    ensures var s := Run(true, INIT, steps);
      Ordered(s) && s.g.Valid() && Explained(s, LinksMade(steps)) && LinksMade(steps) <= s.g.hist
    decreases |steps|
  {
    RunKeepsOrder(steps);
    RunIsValid(steps);
    if steps != [] {
      var n := |steps| - 1;
      ConsistentPrefix(steps, n);
      RunExplained(steps[..n]);
      var s := Run(true, INIT, steps[..n]);
      NextExplained(s, steps[n], LinksMade(steps[..n]));
      LinkIsRecorded(s, steps[n], LinksMade(steps[..n]));
    }
  }

  lemma RunIsValid(steps: seq<Step>)
    requires Consistent(steps) && AllNamed(steps)
    ensures Run(true, INIT, steps).g.Valid()
  {
    ConsistentTracesAreAcyclic(steps);
    EdgesHaveNodes(steps);
  }

  // ----- Paths between waiting events

  /** The queue, by type, value and age.  S and MAIN events come in the order of
      age, before all others; M events by value, then age, before W and EXT events;
      a W event with a value comes before younger EXT events; no W event comes
      before a W event, and no EXT event before any. */
  predicate Precedes(eu: Event, ev: Event, older: bool) {
    match eu.eventType
    case S => ev.eventType == M || ev.eventType == W || ev.eventType == EXT || older
    case MAIN => ev.eventType == M || ev.eventType == W || ev.eventType == EXT || older
    case M =>
      || ev.eventType == W || ev.eventType == EXT
      || (ev.eventType == M && (eu.eventValue < ev.eventValue || (eu.eventValue == ev.eventValue && older)))
    case W => ev.eventType == EXT && eu.eventValue != 0 && older
    case EXT => false
  }

  ghost predicate Known(s: State) {
    s.g.events.Keys <= s.ages.born.Keys
  }

  /** The queue and the links, among the events that wait. */
  ghost function QueueAndLinks(s: State, links: Relation): Relation
    requires Known(s)
  {
    set u, v | u in Pending(s) && v in Pending(s) &&
      ((u != v && Precedes(s.g.events[u], s.g.events[v], s.ages.born[u] < s.ages.born[v])) || (u, v) in links) :: (u, v)
  }

  /** The table, the order of waiting and what the analyzer orders agree. */
  lemma PrecedesIsOrder(s: State, u: Id, v: Id)
    requires Ordered(s) && u in Pending(s) && v in Pending(s) && u != v
    ensures Precedes(s.g.events[u], s.g.events[v], s.ages.born[u] < s.ages.born[v])
        <==> WaitsBefore(s, u, v) && Binds(s, u, v)
  {
  }

  /** Between two waiting events that is all that is recorded. */
  lemma WaitingRecords(s: State, links: Relation, u: Id, v: Id)
    requires Ordered(s) && Explained(s, links) && links <= s.g.hist && u in Pending(s) && v in Pending(s)
    ensures (u, v) in s.g.hist <==> (u, v) in QueueAndLinks(s, links)
  {
    if (u, v) in s.g.hist { assert Before(s, (u, v).0, (u, v).1); }
    if u != v {
      PrecedesIsOrder(s, u, v);
      assert WaitsBefore(s, u, v) ==> Before(s, u, v);
    }
  }

  lemma WaitingStep(s: State, links: Relation, u: Id, v: Id)
    requires Ordered(s) && Explained(s, links) && links <= s.g.hist && u in Pending(s) && (u, v) in s.g.hist
    ensures v in Pending(s) && (u, v) in QueueAndLinks(s, links)
  {
    assert Before(s, (u, v).0, (u, v).1);
    WaitingRecords(s, links, u, v);
  }

  /** A walk from a set that no pair of `r` leaves, and in which `r` is `q`. */
  lemma {:induction false} WalkWithin(r: Relation, q: Relation, nodes: set<Id>, u: Id, v: Id, n: nat)
    requires forall x, y :: x in nodes && (x, y) in r ==> y in nodes && (x, y) in q
    requires u in nodes && ReachesIn(r, u, v, n)
    ensures ReachesIn(q, u, v, n)
    decreases n
  {
    if n > 0 {
      var w :| (u, w) in r && ReachesIn(r, w, v, n - 1);
      WalkWithin(r, q, nodes, w, v, n - 1);
    }
  }

  lemma QueueReach(s: State, links: Relation, u: Id, v: Id)
    requires Ordered(s) && Explained(s, links) && links <= s.g.hist && u in Pending(s)
    ensures Reaches(s.g.hist, u, v) <==> Reaches(QueueAndLinks(s, links), u, v)
  {
    var q := QueueAndLinks(s, links);
    if Reaches(s.g.hist, u, v) {
      var n: nat :| ReachesIn(s.g.hist, u, v, n);
      forall x, y | x in Pending(s) && (x, y) in s.g.hist ensures y in Pending(s) && (x, y) in q {
        WaitingStep(s, links, x, y);
      }
      WalkWithin(s.g.hist, q, Pending(s), u, v, n);
    }
    forall e | e in q ensures e in s.g.hist {
      WaitingRecords(s, links, e.0, e.1);
    }
    ReachesMonotone(q, s.g.hist);
  }

  /** In every state of a consistent trace, one waiting event reaches another in
      the pruned graph if and only if it does by steps of the queue and links
      made between waiting events. */
  lemma WaitingEventsExactly(blocks: seq<Block>, k: nat, u: Id, v: Id)
    requires Consistent(TraceSteps(blocks)) && k <= |TraceSteps(blocks)|
    requires Waiting(Run(true, INIT, TraceSteps(blocks)[..k]), u)
    ensures var s := Run(true, INIT, TraceSteps(blocks)[..k]);
      && Known(s) && u in s.g.events
      && (Reaches(Pairs(s.g.deps), u, v) <==>
            Reaches(QueueAndLinks(s, LinksMade(TraceSteps(blocks)[..k])), u, v))
  {
    var steps := TraceSteps(blocks);
    var s := Run(true, INIT, steps[..k]);
    TracesAreNamed(blocks);
    ConsistentTracesAreAcyclic(steps);
    AcyclicRunsPruneSafely(steps);
    SafePrefix(steps, k);
    TargetsPrefix(steps, k);
    HistoryIsReached(steps[..k]);
    ConsistentPrefix(steps, k);
    RunExplained(steps[..k]);
    WaitingIsPending(s, u);
    QueueReach(s, LinksMade(steps[..k]), u, v);
    assert Reaches(s.g.hist, u, v) <==> Reaches(Pairs(s.g.deps), u, v);
  }

  /** Where no walk takes two steps, one step is all it takes. */
  lemma OneStepReach(r: Relation, u: Id, v: Id)
    requires u != v && Reaches(r, u, v)
    requires forall w, x :: (u, w) in r ==> (w, x) !in r
    ensures (u, v) in r
  {
    var n: nat :| ReachesIn(r, u, v, n);
    var w :| (u, w) in r && ReachesIn(r, w, v, n - 1);
    assert n - 1 == 0;
  }

  lemma QueueMember(s: State, links: Relation, u: Id, v: Id)
    requires Ordered(s) && (forall e :: e in links ==> e.0 !in Pending(s) || e.1 !in Pending(s))
    ensures (u, v) in QueueAndLinks(s, links) <==>
      && u in Pending(s) && v in Pending(s) && u != v
      && Precedes(s.g.events[u], s.g.events[v], s.ages.born[u] < s.ages.born[v])
  {
    assert (u, v) in links ==> (u, v).0 !in Pending(s) || (u, v).1 !in Pending(s);
  }

  /** Of the events that are neither S, MAIN nor M, only W events lead on, and
      only to EXT events. */
  lemma WeakStopsAtOnce(s: State, links: Relation, u: Id, v: Id)
    requires Ordered(s) && u in Pending(s) && !Urgent(s.g.events[u]) && u != v
    requires forall e :: e in links ==> e.0 !in Pending(s) || e.1 !in Pending(s)
    requires Reaches(QueueAndLinks(s, links), u, v)
    ensures (u, v) in QueueAndLinks(s, links)
  {
    var q := QueueAndLinks(s, links);
    forall w, x | (u, w) in q ensures (w, x) !in q {
      QueueMember(s, links, u, w);
      QueueMember(s, links, w, x);
    }
    OneStepReach(q, u, v);
  }

  lemma UrgentIsAhead(s: State, links: Relation, u: Id, v: Id)
    requires Ordered(s) && Explained(s, links) && links <= s.g.hist
    requires u in Pending(s) && v in Pending(s) && u != v && Urgent(s.g.events[u])
    requires Reaches(QueueAndLinks(s, links), u, v)
    ensures Precedes(s.g.events[u], s.g.events[v], s.ages.born[u] < s.ages.born[v])
  {
    QueueReach(s, links, u, v);
    HistoryReachIsOrder(s, u, v);
    PrecedesIsOrder(s, u, v);
  }

  /** Without links the queue needs one step. */
  lemma QueueIsDirect(s: State, links: Relation, u: Id, v: Id)
    requires Ordered(s) && Explained(s, links) && links <= s.g.hist
    requires u in Pending(s) && v in Pending(s) && u != v
    requires forall e :: e in links ==> e.0 !in Pending(s) || e.1 !in Pending(s)
    ensures Reaches(QueueAndLinks(s, links), u, v)
        <==> Precedes(s.g.events[u], s.g.events[v], s.ages.born[u] < s.ages.born[v])
  {
    var q := QueueAndLinks(s, links);
    QueueMember(s, links, u, v);
    if (u, v) in q {
      ReachesEdge(q, u, v);
    } else if Reaches(q, u, v) {
      if Urgent(s.g.events[u]) { UrgentIsAhead(s, links, u, v); } else { WeakStopsAtOnce(s, links, u, v); }
    }
  }

  /** In every state of a consistent trace in which no link joins two events that
      still wait, one waiting event comes before another if and only if the queue
      says so: by type, value and age, with no ordering between W events, nor
      between EXT events, nor from a W event with value 0 to an EXT event. */
  lemma WaitingOrderIsExact(blocks: seq<Block>, k: nat, u: Id, v: Id)
    requires Consistent(TraceSteps(blocks)) && k <= |TraceSteps(blocks)| && u != v
    requires var s := Run(true, INIT, TraceSteps(blocks)[..k]);
      && Waiting(s, u) && Waiting(s, v)
      && forall e :: e in LinksMade(TraceSteps(blocks)[..k]) ==> !Waiting(s, e.0) || !Waiting(s, e.1)
    ensures var s := Run(true, INIT, TraceSteps(blocks)[..k]);
      && Known(s) && u in s.g.events && v in s.g.events
      && var eu, ev, older := s.g.events[u], s.g.events[v], s.ages.born[u] < s.ages.born[v];
         Reaches(Pairs(s.g.deps), u, v) <==>
           match eu.eventType
           case S => ev.eventType == M || ev.eventType == W || ev.eventType == EXT || older
           case MAIN => ev.eventType == M || ev.eventType == W || ev.eventType == EXT || older
           case M =>
             || ev.eventType == W || ev.eventType == EXT
             || (ev.eventType == M && (eu.eventValue < ev.eventValue || (eu.eventValue == ev.eventValue && older)))
           case W => ev.eventType == EXT && eu.eventValue != 0 && older
           case EXT => false
  {
    var s, links := Run(true, INIT, TraceSteps(blocks)[..k]), LinksMade(TraceSteps(blocks)[..k]);
    WaitingEventsExactly(blocks, k, u, v);
    TracesAreNamed(blocks);
    ConsistentPrefix(TraceSteps(blocks), k);
    RunExplained(TraceSteps(blocks)[..k]);
    WaitingIsPending(s, u);
    WaitingIsPending(s, v);
    assert forall e :: e in links && e.0 in Pending(s) ==> Waiting(s, e.0);
    QueueIsDirect(s, links, u, v);
  }
}
