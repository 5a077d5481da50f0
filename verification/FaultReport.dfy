/** The report of the whole tool: which races it lists, and that pruning the
    dependency graph does not change it. */
module FaultReport {
  import opened Common
  import opened Traces
  import opened Reachability
  import opened DependencyGraph
  import opened DependencyModel
  import opened Pruning
  import opened LinkTargets
  import opened Acyclicity
  import opened FileAccess
  import opened RaceDetectors

  /** Two events with net accesses to a path, not both of which consume. */
  predicate Candidate(b: BlockAccesses, first: Id, second: Id, p: RawPath) {
    && Less(first, second)
    && (p, first) in b && (p, second) in b
    && !(b[(p, first)].effectType == CONSUMED && b[(p, second)].effectType == CONSUMED)
  }

  /** Both are nodes, and there is a path or both are MAIN. */
  ghost predicate ComesBefore(g: View, x: Id, y: Id) {
    && x in g.events && y in g.events
    && ((g.events[x].eventType == MAIN && g.events[y].eventType == MAIN) || Reaches(Pairs(g.deps), x, y))
  }

  /** What a race is, read off the net accesses and the graph. */
  ghost predicate Race(b: BlockAccesses, g: View, first: Id, second: Id, p: RawPath) {
    && Candidate(b, first, second, p)
    && !ComesBefore(g, first, second) && !ComesBefore(g, second, first)
  }

  /** Both are nodes, not both MAIN, and from the first one a path leads to a
      missing node. */
  ghost predicate SearchFails(g: View, x: Id, y: Id) {
    && x in g.events && y in g.events
    && !(g.events[x].eventType == MAIN && g.events[y].eventType == MAIN)
    && exists u :: Reaches(Pairs(g.deps), x, u) && u !in g.events
  }

  /** Deciding about some candidate meets an edge to a missing node: searching
      from the first event, or from the second if the first does not come first. */
  ghost predicate DetectionFails(b: BlockAccesses, g: View) {
    exists first, second, p :: Candidate(b, first, second, p)
      && (SearchFails(g, first, second) || (!ComesBefore(g, first, second) && SearchFails(g, second, first)))
  }

  lemma CandidateFails(b: BlockAccesses, g: View, first: Id, second: Id, p: RawPath)
    requires Keyed(b) && Candidate(b, first, second, p)
    ensures CheckFails(g, b[(p, first)], b[(p, second)]) <==>
      SearchFails(g, first, second) || (!ComesBefore(g, first, second) && SearchFails(g, second, first))
  {
    assert b[(p, first)].eventId == (p, first).1 && b[(p, second)].eventId == (p, second).1;
    LessAsymmetric(first, second);
  }

  lemma ComparedIsCandidate(b: BlockAccesses, table: map<RawPath, seq<FSAccess>>, h: (RawPath, FSAccess, FSAccess))
    requires Grouped(b, table) && Compared(table, h) && Conflicting(h.1, h.2)
    ensures Candidate(b, h.1.eventId, h.2.eventId, h.0)
    ensures h.1 == b[(h.0, h.1.eventId)] && h.2 == b[(h.0, h.2.eventId)]
  {
    var s := table[h.0];
    InCombinations(s, (h.1, h.2));
    var i, j :| 0 <= i <= j < |s| && (h.1, h.2) == (s[i], s[j]);
    assert (h.1, h.2).0 == s[i] && (h.1, h.2).1 == s[j];
    assert i != j;
    assert h.1 in s && h.2 in s;
  }

  lemma CandidateIsCompared(b: BlockAccesses, table: map<RawPath, seq<FSAccess>>, first: Id, second: Id, p: RawPath)
    requires Grouped(b, table) && Keyed(b) && Candidate(b, first, second, p)
    ensures Compared(table, (p, b[(p, first)], b[(p, second)])) && Conflicting(b[(p, first)], b[(p, second)])
    ensures b[(p, first)].eventId == first && b[(p, second)].eventId == second
  {
    var x, y := b[(p, first)], b[(p, second)];
    assert x.eventId == first && y.eventId == second by {
      assert (p, first) in b && (p, first).1 == first;
      assert (p, second) in b && (p, second).1 == second;
    }
    LessAsymmetric(first, second);
    var s := table[p];
    assert x in s && y in s;
    var i :| 0 <= i < |s| && s[i] == x;
    var j :| 0 <= j < |s| && s[j] == y;
    assert i < j;
    InCombinations(s, (x, y));
    assert 0 <= i <= j < |s| && (x, y) == (s[i], s[j]);
  }

  /** The comparisons fail on the table just when they do on the net accesses. */
  lemma FailureIsExact(b: BlockAccesses, table: map<RawPath, seq<FSAccess>>, g: View)
    requires Keyed(b) && Grouped(b, table)
    ensures SomeCheckFails(g, table) <==> DetectionFails(b, g)
  {
    if SomeCheckFails(g, table) {
      var h :| Compared(table, h) && CheckFails(g, h.1, h.2);
      ComparedIsCandidate(b, table, h);
      CandidateFails(b, g, h.1.eventId, h.2.eventId, h.0);
    }
    if DetectionFails(b, g) {
      var first, second, p :| Candidate(b, first, second, p)
        && (SearchFails(g, first, second) || (!ComesBefore(g, first, second) && SearchFails(g, second, first)));
      CandidateFails(b, g, first, second, p);
      CandidateIsCompared(b, table, first, second, p);
      var h := (p, b[(p, first)], b[(p, second)]);
      assert Compared(table, h) && CheckFails(g, h.1, h.2);
    }
  }

  /** The report is exact: a pair of events is listed with a path if and only if
      it is a race, the listed descriptions carry the two net accesses, and no
      pair is listed in both orders. */
  lemma ReportIsExact(b: BlockAccesses, table: map<RawPath, seq<FSAccess>>, g: View, faults: Faults)
    requires Keyed(b) && Grouped(b, table) && Reports(faults, g, table)
    ensures forall first, second, p :: Reported(faults, first, second, p) <==> Race(b, g, first, second, p)
    ensures forall k, d :: k in faults && d in faults[k] ==>
      (d.p, k.0) in b && (d.p, k.1) in b && d == FaultDesc(d.p, b[(d.p, k.0)], b[(d.p, k.1)])
    ensures forall k :: k in faults ==> (k.1, k.0) !in faults
  {
    forall k, d | k in faults && d in faults[k]
      ensures Race(b, g, k.0, k.1, d.p) && d == FaultDesc(d.p, b[(d.p, k.0)], b[(d.p, k.1)])
    {
      ComparedIsCandidate(b, table, (d.p, d.access1, d.access2));
    }
    forall first, second, p ensures Reported(faults, first, second, p) <==> Race(b, g, first, second, p) {
      if Reported(faults, first, second, p) {
        var d :| d in faults[(first, second)] && d.p == p;
        assert Race(b, g, (first, second).0, (first, second).1, d.p);
      }
      if Race(b, g, first, second, p) {
        CandidateIsCompared(b, table, first, second, p);
        var h := (p, b[(p, first)], b[(p, second)]);
        assert Found(g, table, h);
        assert Reported(faults, h.1.eventId, h.2.eventId, h.0);
      }
    }
    forall k | k in faults ensures Less(k.0, k.1) {
      var d :| d in faults[k];
    }
    forall k | k in faults ensures (k.1, k.0) !in faults {
      LessAsymmetric(k.0, k.1);
      assert (k.1, k.0) in faults ==> Less((k.1, k.0).0, (k.1, k.0).1);
    }
  }

  /** With pruning switched off the tool reports the same races, for every run
      whose prunings lose no ordering. */
  lemma PruningKeepsTheReport(steps: seq<Step>, b: BlockAccesses)
    requires AlwaysPrunesSafely(steps)
    ensures var pruned, unpruned := Run(true, INIT, steps).g, Run(false, INIT, steps).g;
      forall first, second, p :: Race(b, pruned, first, second, p) <==> Race(b, unpruned, first, second, p)
  {
    assert steps[..|steps|] == steps;
    PruningPreservesMeaning(steps, |steps|);
    var pruned, unpruned := Run(true, INIT, steps).g, Run(false, INIT, steps).g;
    forall x, y ensures HappensBefore(pruned, x, y) <==> HappensBefore(unpruned, x, y) {
      assert Reaches(Pairs(pruned.deps), x, y) <==> Reaches(Pairs(unpruned.deps), x, y);
    }
  }

  /** For consistent traces no premise is left. */
  lemma ConsistentReport(blocks: seq<Block>, b: BlockAccesses)
    requires Consistent(TraceSteps(blocks))
    ensures var pruned, unpruned := Run(true, INIT, TraceSteps(blocks)).g, Run(false, INIT, TraceSteps(blocks)).g;
      forall first, second, p :: Race(b, pruned, first, second, p) <==> Race(b, unpruned, first, second, p)
  {
    TracesAreNamed(blocks);
    ConsistentTracesAreAcyclic(TraceSteps(blocks));
    AcyclicRunsPruneSafely(TraceSteps(blocks));
    PruningKeepsTheReport(TraceSteps(blocks), b);
  }

  /** Where all edges have existing targets, detection does not fail. */
  lemma TargetsMakeDetectable(b: BlockAccesses, g: View)
    requires g.HasTargets()
    ensures !DetectionFails(b, g)
  {
    forall x, y ensures !SearchFails(g, x, y) {
      if x in g.events { TargetsMakeSearchable(g, x); }
    }
  }
}
