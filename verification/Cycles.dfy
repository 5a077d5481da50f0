/** Exactly when a step closes a cycle of the history, and so exactly when a run
    stays acyclic. */
module Cycles {
  import opened Common
  import opened Traces
  import opened Reachability
  import opened DependencyGraph
  import opened DependencyModel
  import opened Pruning
  import opened LinkTargets
  import opened HistoryGrowth

  /** Nothing the step puts after a node reaches anything it puts before it.
      Only the state before the step is looked at. */
  ghost predicate ClosesNoCycle(s: State, step: Step) {
    NoDetour(s.g.hist, Growth(s, step))
  }

  lemma StepKeepsAcyclic(s: State, step: Step)
    ensures Acyclic(Next(true, s, step).g.hist) <==> Acyclic(s.g.hist) && ClosesNoCycle(s, step)
  {
    HistoryGrows(s, step);
    StarKeepsAcyclic(s.g.hist, Growth(s, step));
  }

  lemma {:induction false} AcyclicUpTo(steps: seq<Step>, k: nat)
    requires k <= |steps|
    requires forall j :: 0 <= j < k ==> ClosesNoCycle(Run(true, INIT, steps[..j]), steps[j])
    ensures Acyclic(Run(true, INIT, steps[..k]).g.hist)
    decreases k
  {
    if k > 0 {
      AcyclicUpTo(steps, k - 1);
      assert steps[..k][..k - 1] == steps[..k - 1];
      StepKeepsAcyclic(Run(true, INIT, steps[..k - 1]), steps[k - 1]);
    }
  }

  /** A run, of any trace, is acyclic in every state if and only if none of its
      steps closes a cycle. */
  lemma AcyclicExactly(steps: seq<Step>)
    ensures AlwaysAcyclic(steps) <==>
      forall k :: 0 <= k < |steps| ==> ClosesNoCycle(Run(true, INIT, steps[..k]), steps[k])
  {
    if AlwaysAcyclic(steps) {
      forall k | 0 <= k < |steps| ensures ClosesNoCycle(Run(true, INIT, steps[..k]), steps[k]) {
        assert steps[..k + 1][..k] == steps[..k];
        StepKeepsAcyclic(Run(true, INIT, steps[..k]), steps[k]);
      }
    }
    if forall k :: 0 <= k < |steps| ==> ClosesNoCycle(Run(true, INIT, steps[..k]), steps[k]) {
      forall k | 0 <= k <= |steps| ensures Acyclic(Run(true, INIT, steps[..k]).g.hist) {
        AcyclicUpTo(steps, k);
      }
    }
  }

  // ----- The condition, step by step

  lemma {:induction false} NeverArrives(r: Relation, u: Id, v: Id, n: nat)
    requires u != v && forall e :: e in r ==> e.1 != v
    ensures !ReachesIn(r, u, v, n)
    decreases n
  {
    if n > 0 {
      forall w | (u, w) in r ensures !ReachesIn(r, w, v, n - 1) {
        assert (u, w).1 != v;
        NeverArrives(r, w, v, n - 1);
      }
    }
  }

  /** A node that is new is reached by nothing and reaches nothing. */
  lemma NewNodeApart(g: View, id: Id, u: Id)
    requires g.Valid() && id !in g.events && u != id
    ensures !Reaches(g.hist, id, u) && !Reaches(g.hist, u, id)
  {
    forall n: nat ensures !ReachesIn(g.hist, id, u, n) && !ReachesIn(g.hist, u, id, n) {
      NeverArrives(g.hist, u, id, n);
      assert forall w :: (id, w) in g.hist ==> (id, w).0 in g.events;
    }
  }

  /** Around a new node, only its two sides matter. */
  lemma NewNodeHasNoDetour(s: State, x: Star)
    requires s.g.Valid() && x.mid !in s.g.events && WellPlaced(x)
    ensures NoDetour(s.g.hist, x) <==> forall z, y :: z in x.outs && y in x.ins ==> !Reaches(s.g.hist, z, y)
  {
    forall z, y | (z == x.mid || y == x.mid) && (z != x.mid || y != x.mid) ensures !Reaches(s.g.hist, z, y) {
      NewNodeApart(s.g, x.mid, if z == x.mid then y else z);
    }
  }

  /** A creation closes no cycle if and only if nothing the new event overtakes
      reaches the running block, the pending event, or an event ahead of it. */
  lemma CreationClosesNoCycle(s: State, n: nat, event: Event, tags: seq<string>)
    requires s.g.Valid() && s.phase == Running && ToString(n) !in s.g.events
    ensures ClosesNoCycle(s, Do(NewEventExpr(n, event, tags))) <==>
      var id := ToString(n);
      forall z, y ::
        (z in Overtaken(s, id, event) - {id} && y in Causes(s) * s.g.events.Keys + Ahead(s, id, event) - {id}) ==>
        !Reaches(s.g.hist, z, y)
  {
    NewNodeHasNoDetour(s, Growth(s, Do(NewEventExpr(n, event, tags))));
  }

  /** The start of a block closes no cycle if and only if its event is reached by
      no alive W event of the same value. */
  lemma StartClosesNoCycle(s: State, id: Id, isEmpty: bool)
    requires s.phase == Idle && id in s.g.events
    ensures ClosesNoCycle(s, Begin(id, false, isEmpty)) <==>
      forall a :: a in Followers(s, id) ==> !Reaches(s.g.hist, a, id)
  {
  }

  /** A link closes no cycle if and only if its target does not reach its source. */
  lemma LinkClosesNoCycle(s: State, m: nat, n: nat)
    requires TakesEffect(s, Do(LinkExpr(m, n))) && ToString(n) in s.g.events && ToString(m) != ToString(n)
    ensures ClosesNoCycle(s, Do(LinkExpr(m, n))) <==> !Reaches(s.g.hist, ToString(n), ToString(m))
  {
  }

  /** A MAIN block with a new identifier closes none. */
  lemma MainClosesNoCycle(s: State, id: Id, isEmpty: bool)
    requires s.g.Valid() && s.phase == Idle && id !in s.g.events
    ensures ClosesNoCycle(s, Begin(id, true, isEmpty))
  {
    forall y | y != id ensures !Reaches(s.g.hist, id, y) {
      NewNodeApart(s.g, id, y);
    }
  }

  /** All other steps leave the history alone. */
  lemma OtherStepsCloseNone(s: State, step: Step)
    requires step == End || (step.Do? && (step.expr.TriggerExpr? || step.expr.SubmitOp?)) || s.phase == Skipping
    ensures ClosesNoCycle(s, step)
  {
  }

  /** The waiting events other than S and MAIN events, or those alone. */
  function WaitingWith(s: State, strong: bool): set<Id> {
    set a | a in Rivals(s.g, s.alive, s.current) && (Rank(s.g.events[a]) == 0) == strong
  }

  lemma StrongGrowth(s: State, n: nat, event: Event, tags: seq<string>)
    requires s.phase == Running && ToString(n) !in s.g.events && event.eventType == S
    ensures Growth(s, Do(NewEventExpr(n, event, tags)))
         == Star(ToString(n), Causes(s) * s.g.events.Keys + WaitingWith(s, true), WaitingWith(s, false))
  {
    var id := ToString(n);
    assert Overtaken(s, id, event) - {id} == WaitingWith(s, false);
    assert Ahead(s, id, event) - {id} == WaitingWith(s, true);
    assert (Causes(s) * s.g.events.Keys + Ahead(s, id, event)) - {id}
        == Causes(s) * s.g.events.Keys + (Ahead(s, id, event) - {id});
  }

  /** An S event overtakes all that waits but S and MAIN events: its creation
      closes a cycle if and only if one of those it overtakes is ordered before
      the running block, the pending event, or a waiting S or MAIN event. */
  lemma StrongEventClosesCycle(s: State, n: nat, event: Event, tags: seq<string>)
    requires s.g.Valid() && s.phase == Running && ToString(n) !in s.g.events && event.eventType == S
    requires Acyclic(s.g.hist)
    ensures !Acyclic(Next(true, s, Do(NewEventExpr(n, event, tags))).g.hist) <==>
      exists z, y :: z in WaitingWith(s, false) && y in Causes(s) * s.g.events.Keys + WaitingWith(s, true)
        && Reaches(s.g.hist, z, y)
  {
    var step := Do(NewEventExpr(n, event, tags));
    StepKeepsAcyclic(s, step);
    StrongGrowth(s, n, event, tags);
    NewNodeHasNoDetour(s, Growth(s, step));
  }
}
