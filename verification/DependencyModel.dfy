/** Happens-before inference as a state machine: one step for the start of a
    block, one for each expression in it, one for its end. */
module DependencyModel {
  import opened Common
  import opened Traces
  import opened Reachability
  import opened DependencyGraph

  const EXECUTED_ATTR := "EXECUTED"
  const MAIN_EVENT := Event(MAIN, 0)

  /** Between blocks, in a block that is analysed, or in one that is not. */
  datatype Phase = Idle | Running | Skipping

  /** When each event was created and when its block first began, on a common
      clock.  No decision of the analyzer reads it. */
  datatype Ages = Ages(clock: nat, born: map<Id, nat>, begun: map<Id, nat>)
  {
    function Born(id: Id): Ages {
      if id in born then this else Ages(clock + 1, born[id := clock], begun)
    }

    function Begun(id: Id): Ages {
      if id in begun then this else Ages(clock + 1, born, begun[id := clock])
    }
  }

  /** `current` and `pendingEv` are empty when there is no such block or event. */
  datatype State = State(
    g: View,
    alive: set<Id>,
    current: Id,
    prevMain: bool,
    pendingEv: Id,
    context: string,
    phase: Phase,
    ages: Ages)

  const INIT := State(EMPTY_VIEW, {}, "", false, "", "MAIN_1", Idle, Ages(0, map[], map[]))

  datatype Step = Begin(id: Id, isMain: bool, isEmpty: bool) | Do(expr: Expr) | End

  // ----- Priorities

  /** S (and MAIN) before M, M before W, W before EXT. */
  function Rank(e: Event): nat {
    match e.eventType
    case S => 0
    case MAIN => 0
    case M => 1
    case W => 2
    case EXT => 3
  }

  /** A pending event is ordered before one that is created later. */
  predicate OldFirst(old_: Event, new_: Event) {
    || Rank(old_) == 0
    || (Rank(old_) == 1 && Rank(new_) > 1)
    || (Rank(old_) == 1 && Rank(new_) == 1 && old_.eventValue <= new_.eventValue)
    || (Rank(old_) == 2 && Rank(new_) == 3 && old_.eventValue != 0)
  }

  /** An event is ordered before one that was created earlier and still waits. */
  predicate NewFirst(old_: Event, new_: Event) {
    || (Rank(new_) == 0 && Rank(old_) > 0)
    || (Rank(new_) == 1 && Rank(old_) > 1)
    || (Rank(new_) == 1 && Rank(old_) == 1 && new_.eventValue < old_.eventValue)
  }

  function Inferred(newId: Id, new_: Event, oldId: Id, old_: Event): set<Edge> {
    (if OldFirst(old_, new_) then {Edge(oldId, newId, HAPPENS_BEFORE)} else {}) +
    (if NewFirst(old_, new_) then {Edge(newId, oldId, HAPPENS_BEFORE)} else {})
  }

  // ----- Edges of one step

  /** The alive events a new event is compared with. */
  function Rivals(g: View, alive: set<Id>, current: Id): set<Id> {
    set a | a in alive && a in g.events && a != current
  }

  function InferredWith(g: View, newId: Id, new_: Event, olds: set<Id>): set<Edge> {
    set a, e | a in olds && a in g.events && e in Inferred(newId, new_, a, g.events[a]) :: e
  }

  /** From a starting W event to every alive W event of the same value. */
  function WEdges(g: View, id: Id, alive: set<Id>): set<Edge>
    requires id in g.events
  {
    if g.events[id].eventType != W then {}
    else set a | a in alive && a in g.events && g.events[a] == g.events[id] :: Edge(id, a, HAPPENS_BEFORE)
  }

  function SinkEdges(sinks: set<Id>, id: Id): set<Edge> {
    set u | u in sinks :: Edge(u, id, HAPPENS_BEFORE)
  }

  /** Shortcuts past `id`: from something before it to something after it. */
  function Shortcuts(g: View, id: Id): set<Edge> {
    set e | e in g.deps && e.lbl == HAPPENS_BEFORE && e.tgt in g.Next(id) && e.src in g.Prev(id)
                        && (e.src, e.tgt) in g.hist
  }

  // ----- Steps

  function BeginMain(s: State, id: Id): State {
    var g1 := s.g.WithNode(id, MAIN_EVENT);
    s.(g := if s.prevMain then g1.WithEdges(SinkEdges(g1.Sinks(), id)) else g1,
       prevMain := true, current := id, context := id, phase := Running,
       ages := s.ages.Born(id).Begun(id))
  }

  /** `prune` switches the removal of shortcuts on or off. */
  function BeginRegular(prune: bool, s: State, id: Id): State
    requires id in s.g.events
  {
    var g1 := s.g.WithEdges(WEdges(s.g, id, s.alive));
    s.(g := if prune then g1.WithoutEdges(Shortcuts(g1, id)) else g1,
       pendingEv := if (id, EXECUTED_ATTR) in s.g.attrs && s.current != "" then s.current else s.pendingEv,
       current := id, context := id, phase := Running,
       ages := s.ages.Begun(id))
  }

  function BeginBlock(prune: bool, s: State, id: Id, isMain: bool, isEmpty: bool): State {
    if isMain && isEmpty then s.(phase := Skipping)
    else if isMain then BeginMain(s, id)
    else if id !in s.g.events then s.(context := id, phase := Skipping)
    else BeginRegular(prune, s, id)
  }

  /** The graph once the new event is a node, after whatever created it. */
  function Created(s: State, id: Id, event: Event): View {
    var g1 := s.g.WithNode(id, event);
    var g2 := if s.pendingEv != "" then g1.WithEdge(Edge(s.pendingEv, id, HAPPENS_BEFORE)) else g1;
    g2.WithEdge(Edge(s.current, id, CREATES))
  }

  function NewEvent(s: State, id: Id, event: Event): State {
    var g := Created(s, id, event);
    s.(g := g.WithEdges(InferredWith(g, id, event, Rivals(g, s.alive, s.current))),
       pendingEv := "", alive := s.alive + {id}, ages := s.ages.Born(id))
  }

  /** The number of the triggered event is stored as one character. */
  function ContextOf(n: nat): string {
    [(n % 256) as char]
  }

  function Perform(s: State, expr: Expr): State {
    match expr
    case NewEventExpr(n, event, _) => NewEvent(s, ToString(n), event)
    case LinkExpr(m, n) =>
      if ToString(m) == s.current || ToString(m) == s.context then s
      else s.(g := s.g.WithEdge(Edge(ToString(m), ToString(n), HAPPENS_BEFORE)))
    case TriggerExpr(n) => s.(context := ContextOf(n))
    case SubmitOp(_, _, _) => s
  }

  function EndBlock(s: State): State {
    s.(alive := s.alive - {s.current}, g := s.g.WithAttr(s.current, EXECUTED_ATTR), phase := Idle)
  }

  /** Steps that no trace asks for in the phase at hand change nothing. */
  function Next(prune: bool, s: State, step: Step): State {
    match step
    case Begin(id, isMain, isEmpty) => if s.phase == Idle then BeginBlock(prune, s, id, isMain, isEmpty) else s
    case Do(expr) => if s.phase == Running then Perform(s, expr) else s
    case End => if s.phase == Running then EndBlock(s) else s.(phase := Idle)
  }

  function Run(prune: bool, s: State, steps: seq<Step>): State {
    if steps == [] then s
    else Next(prune, Run(prune, s, steps[..|steps| - 1]), steps[|steps| - 1])
  }

  // ----- The steps of a trace

  function ExprSteps(exprs: seq<Expr>): seq<Step> {
    seq(|exprs|, i requires 0 <= i < |exprs| => Do(exprs[i]))
  }

  function BlockSteps(b: Block): seq<Step> {
    [Begin(b.GetPrettyBlockId(), b.isMain, b.exprs == [])] + ExprSteps(b.exprs) + [End]
  }

  function TraceSteps(blocks: seq<Block>): seq<Step> {
    if blocks == [] then [] else TraceSteps(blocks[..|blocks| - 1]) + BlockSteps(blocks[|blocks| - 1])
  }

  lemma {:induction false} RunConcat(prune: bool, s: State, a: seq<Step>, b: seq<Step>)
    ensures Run(prune, s, a + b) == Run(prune, Run(prune, s, a), b)
    decreases |b|
  {
    if b == [] {
      assert a + b == a;
    } else {
      assert (a + b)[..|a + b| - 1] == a + b[..|b| - 1];
      RunConcat(prune, s, a, b[..|b| - 1]);
    }
  }

  lemma RunSnoc(prune: bool, s: State, a: seq<Step>, step: Step)
    ensures Run(prune, s, a + [step]) == Next(prune, Run(prune, s, a), step)
  {
  }

  /** The expressions of a block that is skipped change nothing. */
  lemma {:induction false} SkippedExprs(prune: bool, s: State, exprs: seq<Expr>)
    requires s.phase == Skipping
    ensures Run(prune, s, ExprSteps(exprs)) == s
    decreases |exprs|
  {
    if exprs != [] {
      var front := exprs[..|exprs| - 1];
      SkippedExprs(prune, s, front);
      assert ExprSteps(exprs)[..|exprs| - 1] == ExprSteps(front);
    }
  }
}
