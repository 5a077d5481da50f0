/** What a run remembers of the blocks it has analysed: which have ended, whether
    one was a MAIN block, and which block is pending when one begins again. */
module Reruns {
  import opened Common
  import opened Traces
  import opened Reachability
  import opened DependencyGraph
  import opened DependencyModel
  import opened Pruning
  import opened LinkTargets
  import opened HistoryGrowth
  import opened Acyclicity
  import opened Orderings
  import opened EdgeRules

  // ----- Blocks that have ended

  /** Step `h` ends the block of `id`. */
  ghost predicate Ends(steps: seq<Step>, h: nat, id: Id)
    requires h < |steps|
  {
    steps[h] == End && Run(true, INIT, steps[..h]).phase == Running && Run(true, INIT, steps[..h]).current == id
  }

  ghost predicate EndedBefore(steps: seq<Step>, k: nat, id: Id)
    requires k <= |steps|
  {
    exists h :: 0 <= h < k && Ends(steps, h, id)
  }

  /** Step `k` begins the block of the event `id`. */
  ghost predicate Starts(steps: seq<Step>, k: nat, id: Id)
    requires k < |steps|
  {
    && steps[k].Begin? && !steps[k].isMain && steps[k].id == id
    && Run(true, INIT, steps[..k]).phase == Idle && id in Run(true, INIT, steps[..k]).g.events
  }

  lemma NextStaysOnNode(s: State, step: Step)
    requires s.phase == Running ==> s.current in s.g.events
    ensures var s' := Next(true, s, step); s'.phase == Running ==> s'.current in s'.g.events
  {
  }

  lemma {:induction false} RunningIsNode(steps: seq<Step>, k: nat)
    requires k <= |steps|
    ensures var s := Run(true, INIT, steps[..k]); s.phase == Running ==> s.current in s.g.events
    decreases k
  {
    if k > 0 {
      var n := k - 1;
      RunningIsNode(steps, n);
      LastStep(steps, n);
      NextStaysOnNode(Run(true, INIT, steps[..n]), steps[n]);
    } else {
      assert steps[..k] == [];
    }
  }

  lemma NextExecutes(s: State, step: Step, id: Id)
    requires s.phase == Running ==> s.current in s.g.events
    ensures (id, EXECUTED_ATTR) in Next(true, s, step).g.attrs <==>
      (id, EXECUTED_ATTR) in s.g.attrs || (step == End && s.phase == Running && s.current == id)
  {
  }

  /** An event has the attribute exactly when a step so far has ended its block. */
  lemma {:induction false} ExecutedExactly(steps: seq<Step>, k: nat, id: Id)
    requires k <= |steps|
    ensures (id, EXECUTED_ATTR) in Run(true, INIT, steps[..k]).g.attrs <==> EndedBefore(steps, k, id)
    decreases k
  {
    if k > 0 {
      var n := k - 1;
      ExecutedExactly(steps, n, id);
      RunningIsNode(steps, n);
      LastStep(steps, n);
      NextExecutes(Run(true, INIT, steps[..n]), steps[n], id);
      assert EndedBefore(steps, k, id) <==> EndedBefore(steps, n, id) || Ends(steps, n, id);
    } else {
      assert steps[..k] == [];
    }
  }

  // ----- The pending event

  /** A block leaves the one before it pending if and only if it has ended before;
      a block that begins for the first time changes nothing about that. */
  lemma BeginPending(steps: seq<Step>, k: nat, id: Id)
    requires k < |steps| && Starts(steps, k, id)
    ensures var s, s' := Run(true, INIT, steps[..k]), Run(true, INIT, steps[..k + 1]);
      s'.pendingEv == if EndedBefore(steps, k, id) && s.current != "" then s.current else s.pendingEv
  {
    LastStep(steps, k);
    ExecutedExactly(steps, k, id);
  }

  /** No block begins again after it has ended. */
  ghost predicate NoRerun(steps: seq<Step>) {
    forall k, id :: 0 <= k < |steps| && Starts(steps, k, id) ==> !EndedBefore(steps, k, id)
  }

  lemma {:induction false} NothingPending(steps: seq<Step>, k: nat)
    requires NoRerun(steps) && k <= |steps|
    ensures Run(true, INIT, steps[..k]).pendingEv == ""
    decreases k
  {
    if k > 0 {
      var n := k - 1;
      NothingPending(steps, n);
      LastStep(steps, n);
      if steps[n].Begin? && Starts(steps, n, steps[n].id) { BeginPending(steps, n, steps[n].id); }
    } else {
      assert steps[..k] == [];
    }
  }

  lemma NextKeepsNamed(s: State, step: Step)
    requires Named(step)
    ensures s.current != "" ==> Next(true, s, step).current != ""
    ensures (s.phase == Running ==> s.current != "") ==>
      (Next(true, s, step).phase == Running ==> Next(true, s, step).current != "")
  {
  }

  lemma {:induction false} RunningIsNamed(steps: seq<Step>, k: nat)
    requires AllNamed(steps) && k <= |steps|
    ensures var s := Run(true, INIT, steps[..k]); s.phase == Running ==> s.current != ""
    decreases k
  {
    if k > 0 {
      var n := k - 1;
      RunningIsNamed(steps, n);
      LastStep(steps, n);
      NextKeepsNamed(Run(true, INIT, steps[..n]), steps[n]);
    } else {
      assert steps[..k] == [];
    }
  }

  lemma {:induction false} CurrentStaysNamed(steps: seq<Step>, h: nat, k: nat)
    requires AllNamed(steps) && h <= k <= |steps| && Run(true, INIT, steps[..h]).current != ""
    ensures Run(true, INIT, steps[..k]).current != ""
    decreases k
  {
    if h < k {
      var n := k - 1;
      CurrentStaysNamed(steps, h, n);
      LastStep(steps, n);
      NextKeepsNamed(Run(true, INIT, steps[..n]), steps[n]);
    }
  }

  lemma EndedLeavesCurrent(steps: seq<Step>, k: nat, id: Id)
    requires AllNamed(steps) && k <= |steps| && EndedBefore(steps, k, id)
    ensures Run(true, INIT, steps[..k]).current != ""
  {
    var h :| 0 <= h < k && Ends(steps, h, id);
    RunningIsNamed(steps, h);
    CurrentStaysNamed(steps, h, k);
  }

  /** In no state is an event pending, if and only if no block begins again. */
  lemma PendingExactly(steps: seq<Step>)
    requires AllNamed(steps)
    ensures NoRerun(steps) <==> forall k :: 0 <= k <= |steps| ==> Run(true, INIT, steps[..k]).pendingEv == ""
  {
    if NoRerun(steps) {
      forall k | 0 <= k <= |steps| ensures Run(true, INIT, steps[..k]).pendingEv == "" {
        NothingPending(steps, k);
      }
    } else {
      var k, id :| 0 <= k < |steps| && Starts(steps, k, id) && EndedBefore(steps, k, id);
      BeginPending(steps, k, id);
      EndedLeavesCurrent(steps, k, id);
    }
  }

  /** While no block begins again, an event that is created comes directly after no
      begun event other than the block that creates it. */
  lemma CreatedAfterItsBlockOnly(steps: seq<Step>, k: nat, n: nat, event: Event, tags: seq<string>,
                                 u: Id, lbl: EdgeLabel)
    requires Consistent(steps) && AllNamed(steps) && NoRerun(steps) && k < |steps|
    requires steps[k] == Do(NewEventExpr(n, event, tags))
    requires var s := Run(true, INIT, steps[..k]); s.phase == Running && u in s.ages.begun && u != s.current
    ensures Edge(u, ToString(n), lbl) !in Run(true, INIT, steps[..k + 1]).g.deps
  {
    var s := Run(true, INIT, steps[..k]);
    NothingPending(steps, k);
    ConsistentPrefix(steps, k);
    RunKeepsOrder(steps[..k]);
    assert StepConsistent(s, steps[k]);
    LastStep(steps, k);
    CreationAdds(s, n, event, tags, Edge(u, ToString(n), lbl));
    ConsistentTracesAreAcyclic(steps[..k]);
    EdgesHaveNodes(steps[..k]);
    assert Edge(u, ToString(n), lbl) in s.g.deps ==> (u, ToString(n)) in Pairs(s.g.deps);
  }

  // ----- MAIN blocks

  ghost predicate StartsMain(steps: seq<Step>, h: nat)
    requires h < |steps|
  {
    steps[h].Begin? && steps[h].isMain && !steps[h].isEmpty && Run(true, INIT, steps[..h]).phase == Idle
  }

  /** The analyzer knows of an earlier MAIN block exactly when one has begun. */
  lemma {:induction false} PrevMainExactly(steps: seq<Step>, k: nat)
    requires k <= |steps|
    ensures Run(true, INIT, steps[..k]).prevMain <==> exists h :: 0 <= h < k && StartsMain(steps, h)
    decreases k
  {
    if k > 0 {
      var n := k - 1;
      PrevMainExactly(steps, n);
      LastStep(steps, n);
      assert StartsMain(steps, n) ==> Run(true, INIT, steps[..k]).prevMain;
    } else {
      assert steps[..k] == [];
    }
  }

  /** In a consistent trace every MAIN block but the first is a barrier: every node
      there is when it begins reaches it from then on. */
  lemma LaterMainIsBarrier(blocks: seq<Block>, h: nat, k: nat, m: nat, u: Id)
    requires Consistent(TraceSteps(blocks)) && h < k < m <= |TraceSteps(blocks)|
    requires StartsMain(TraceSteps(blocks), h) && StartsMain(TraceSteps(blocks), k)
    requires u in Run(true, INIT, TraceSteps(blocks)[..k]).g.events
    ensures Reaches(Pairs(Run(true, INIT, TraceSteps(blocks)[..m]).g.deps), u, TraceSteps(blocks)[k].id)
  {
    var steps := TraceSteps(blocks);
    var s := Run(true, INIT, steps[..k]);
    TracesAreNamed(blocks);
    ConsistentTracesAreAcyclic(steps);
    AcyclicRunsPruneSafely(steps);
    PrevMainExactly(steps, k);
    assert StepConsistent(s, steps[k]);
    TargetsPrefix(steps, k);
    EdgesHaveNodes(steps[..k]);
    AcyclicPart(Pairs(s.g.deps), s.g.hist);
    assert s.g.HasTargets() by { assert forall e :: e in s.g.deps ==> (e.src, e.tgt) in Pairs(s.g.deps); }
    MainBarrierStays(steps, k, m, steps[k].id, u);
  }

  // ----- Blocks that are not analysed

  /** An empty MAIN block leaves no trace in the analysis. */
  lemma EmptyMainIsNothing(prune: bool, s: State, b: Block)
    requires s.phase == Idle && b.isMain && b.exprs == []
    ensures Run(prune, s, BlockSteps(b)) == s
  {
    SkippedBlock(prune, s, b);
  }

  /** A block of an unknown event leaves its identifier as the context. */
  lemma UnknownBlockIsSkipped(prune: bool, s: State, b: Block)
    requires s.phase == Idle && !b.isMain && b.GetPrettyBlockId() !in s.g.events
    ensures Run(prune, s, BlockSteps(b)) == s.(context := b.GetPrettyBlockId())
  {
    SkippedBlock(prune, s, b);
  }

  lemma SkippedBlock(prune: bool, s: State, b: Block)
    requires s.phase == Idle && Next(prune, s, Begin(b.GetPrettyBlockId(), b.isMain, b.exprs == [])).phase == Skipping
    ensures var s1 := Next(prune, s, Begin(b.GetPrettyBlockId(), b.isMain, b.exprs == []));
      Run(prune, s, BlockSteps(b)) == s1.(phase := Idle)
  {
    var begin := Begin(b.GetPrettyBlockId(), b.isMain, b.exprs == []);
    RunConcat(prune, s, [begin] + ExprSteps(b.exprs), [End]);
    RunConcat(prune, s, [begin], ExprSteps(b.exprs));
    assert [begin][..0] == [] && [End][..0] == [];
    SkippedExprs(prune, Next(prune, s, begin), b.exprs);
  }
}
