/** The whole tool on one trace: both analyzers, then the race detector. */
module Fsracer {
  import opened Common
  import opened Traces
  import opened DependencyGraph
  import opened DependencyModel
  import opened Pruning
  import opened LinkTargets
  import opened Acyclicity
  import opened FileAccess
  import opened FsModel
  import opened RaceDetectors
  import opened FaultReport
  import opened DependencyAnalyzers
  import opened FsAnalyzers

  /** The file operations of the trace raise no error in the analyzer. */
  ghost predicate Analyzable(trace: Trace) {
    && ToRaw(trace.cwd).Absolute?
    && AllDefined(Start(ToRaw(trace.cwd).names), TraceItems(trace))
  }

  /** The net access of every event to every path. */
  ghost function NetAccesses(trace: Trace): BlockAccesses
    requires ToRaw(trace.cwd).Absolute?
  {
    HandleAll(Start(ToRaw(trace.cwd).names), TraceItems(trace)).accesses
  }

  /** The graph after the trace, with or without pruning. */
  ghost function FinalGraph(prune: bool, trace: Trace): View {
    Run(prune, INIT, TraceSteps(trace.blocks)).g
  }

  /** The report lists exactly the races of the trace. */
  ghost predicate ReportsRaces(faults: Faults, b: BlockAccesses, g: View) {
    && (forall first, second, p :: Reported(faults, first, second, p) <==> Race(b, g, first, second, p))
    && (forall k, d :: k in faults && d in faults[k] ==>
          (d.p, k.0) in b && (d.p, k.1) in b && d == FaultDesc(d.p, b[(d.p, k.0)], b[(d.p, k.1)]))
    && (forall k :: k in faults ==> (k.1, k.0) !in faults)
  }

  /** No report, that is a failed assertion in the search, just when deciding
      about some pair of events meets an edge to a missing node; otherwise the
      report is exact.  Nothing is asked of the events for that.  If the prunings
      lose no ordering, the report is exact on the graph without pruning too. */
  method DetectRaces(trace: Trace) returns (faults: Option<Faults>)
    requires Analyzable(trace)
    ensures faults.None? <==> DetectionFails(NetAccesses(trace), FinalGraph(true, trace))
    ensures faults.Some? ==> ReportsRaces(faults.value, NetAccesses(trace), FinalGraph(true, trace))
    ensures faults.Some? && AlwaysPrunesSafely(TraceSteps(trace.blocks)) ==>
      ReportsRaces(faults.value, NetAccesses(trace), FinalGraph(false, trace))
  {
    var dependencies := new DependencyInferenceAnalyzer();
    dependencies.AnalyzeTrace(trace);
    var files := new FSAnalyzer();
    files.Analyze(trace);
    var detector := new RaceDetector(files.effectTable, dependencies.depGraph);
    faults := detector.GetFaults();
    ghost var b := NetAccesses(trace);
    FailureIsExact(b, files.effectTable, FinalGraph(true, trace));
    if faults.Some? {
      ReportIsExact(b, files.effectTable, FinalGraph(true, trace), faults.value);
      if AlwaysPrunesSafely(TraceSteps(trace.blocks)) {
        PruningKeepsTheReport(TraceSteps(trace.blocks), b);
      }
    }
  }

  /** There is a report whenever the target of every link that took effect was
      created, before the link or after it. */
  lemma CreatedTargetsAreReported(trace: Trace)
    requires Analyzable(trace)
    requires LinkedTo(TraceSteps(trace.blocks)) <= FinalGraph(true, trace).events.Keys
    ensures !DetectionFails(NetAccesses(trace), FinalGraph(true, trace))
  {
    AllTargetsExist(TraceSteps(trace.blocks));
    TargetsMakeDetectable(NetAccesses(trace), FinalGraph(true, trace));
  }

  /** For consistent traces both premises hold. */
  lemma ConsistentTracesQualify(trace: Trace)
    requires Consistent(TraceSteps(trace.blocks))
    ensures AlwaysPrunesSafely(TraceSteps(trace.blocks))
    ensures LinkedTo(TraceSteps(trace.blocks)) <= FinalGraph(true, trace).events.Keys
  {
    var steps := TraceSteps(trace.blocks);
    TracesAreNamed(trace.blocks);
    ConsistentTracesAreAcyclic(steps);
    AcyclicRunsPruneSafely(steps);
    EdgesHaveNodes(steps);
    var g := FinalGraph(true, trace);
    assert g.HasTargets() by {
      forall e | e in g.deps ensures e.tgt in g.events {
        assert (e.src, e.tgt) in Pairs(g.deps);
      }
    }
    AllTargetsExist(steps);
  }
}
