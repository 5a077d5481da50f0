/** Which operations a trace runs, in which order, and for which events: read off
    the expressions and the groups alone. */
module Submissions {
  import opened Common
  import opened Traces
  import opened FileAccess
  import opened FsModel

  /** An expression with the identifier of its block. */
  type Placed = (Id, Expr)

  /** The operations of the last group with an identifier, if there is one. */
  function GroupNamed(groups: seq<ExecOp>, id: string): Option<seq<Operation>> {
    if groups == [] then None
    else if groups[|groups| - 1].id == id then Some(groups[|groups| - 1].operations)
    else GroupNamed(groups[..|groups| - 1], id)
  }

  /** The tags that an event was last created with, if it was. */
  function KnownTags(done: seq<Placed>, event: Id): Option<seq<string>> {
    if done == [] then None
    else
      match done[|done| - 1].1
      case NewEventExpr(n, _, tags) =>
        if ToString(n) == event then Some(tags) else KnownTags(done[..|done| - 1], event)
      case _ => KnownTags(done[..|done| - 1], event)
  }

  /** What follows the first separator, or everything. */
  function AfterFirst(s: string, sep: char): string {
    if sep !in s then s else if s[0] == sep then s[1..] else AfterFirst(s[1..], sep)
  }

  /** The event for which a submission runs. */
  function ActsFor(blockId: Id, opId: string, submitted: Option<nat>): Id {
    if submitted.None? then blockId else AfterFirst(opId, '_')
  }

  function DebugTags(done: seq<Placed>, event: Id): Option<seq<string>> {
    if |event| >= 5 && event[..5] == "MAIN_" then Some(["main"]) else KnownTags(done, event)
  }

  /** What the last of some expressions runs: nothing, unless it submits a group
      that there is; then every operation of the group, in order. */
  function Runs(done: seq<Placed>, last: Placed, groups: seq<ExecOp>): seq<Item> {
    match last.1
    case SubmitOp(opId, submitted, _) =>
      var event := ActsFor(last.0, opId, submitted);
      (match GroupNamed(groups, opId)
       case None => []
       case Some(ops) => seq(|ops|, i requires 0 <= i < |ops| => Item(Context(event, DebugTags(done, event)), ops[i])))
    case _ => []
  }

  function AllRuns(exprs: seq<Placed>, groups: seq<ExecOp>): seq<Item> {
    if exprs == [] then []
    else
      var front, last := exprs[..|exprs| - 1], exprs[|exprs| - 1];
      AllRuns(front, groups) + Runs(front, last, groups)
  }

  function InBlock(b: Block): seq<Placed> {
    seq(|b.exprs|, i requires 0 <= i < |b.exprs| => (b.GetPrettyBlockId(), b.exprs[i]))
  }

  /** The expressions of all blocks, in the order of the trace. */
  function InOrder(blocks: seq<Block>): seq<Placed> {
    if blocks == [] then [] else InOrder(blocks[..|blocks| - 1]) + InBlock(blocks[|blocks| - 1])
  }

  // ----- Groups, tags and acting events

  lemma {:induction false} NamedIsLast(groups: seq<ExecOp>, id: string)
    ensures GroupNamed(groups, id)
         == if id in OpTableOf(groups) then Some(OpTableOf(groups)[id].operations) else None
    decreases |groups|
  {
    if groups != [] { NamedIsLast(groups[..|groups| - 1], id); }
  }

  lemma {:induction false} AfterFirstFrom(s: string, sep: char, i: nat)
    requires i <= |s| && sep in s[i..]
    ensures RightFrom(s, sep, i) == AfterFirst(s[i..], sep)
    decreases |s| - i
  {
    assert s[i..][0] == s[i] && s[i..][1..] == s[i + 1..];
    if s[i] != sep { AfterFirstFrom(s, sep, i + 1); }
  }

  lemma {:induction false} NoSeparatorFrom(s: string, sep: char, i: nat)
    requires i <= |s| && sep !in s
    ensures RightFrom(s, sep, i) == s
    decreases |s| - i
  {
    if i < |s| { NoSeparatorFrom(s, sep, i + 1); }
  }

  lemma RightIsAfterFirst(s: string, sep: char)
    ensures RightOf(s, sep) == AfterFirst(s, sep)
  {
    assert s[0..] == s;
    if sep in s { AfterFirstFrom(s, sep, 0); } else if s != "" { NoSeparatorFrom(s, sep, 0); }
  }

  lemma {:induction false} AfterPrefix(prefix: string, sep: char, rest: string)
    requires sep !in prefix
    ensures AfterFirst(prefix + [sep] + rest, sep) == rest
    decreases |prefix|
  {
    var s := prefix + [sep] + rest;
    assert s[|prefix|] == sep;
    if prefix == "" {
      assert s[1..] == rest;
    } else {
      assert s[0] == prefix[0] && s[1..] == prefix[1..] + [sep] + rest;
      AfterPrefix(prefix[1..], sep, rest);
    }
  }

  /** The operations of `async_n` are those of event n. */
  lemma AsyncActsFor(blockId: Id, n: nat)
    ensures ActsFor(blockId, "async_" + ToString(n), Some(n)) == ToString(n)
    ensures ActsFor(blockId, "sync_" + ToString(n), None) == blockId
  {
    AfterPrefix("async", '_', ToString(n));
    assert "async_" + ToString(n) == "async" + ['_'] + ToString(n);
  }

  /** The table of the analyzer holds the tags that are known. */
  ghost predicate Remembers(events: Events, done: seq<Placed>) {
    forall id :: KnownTags(done, id) == if id in events then Some(events[id]) else None
  }

  lemma OneRun(done: seq<Placed>, id: Id, e: Expr, groups: seq<ExecOp>, events: Events)
    requires Remembers(events, done)
    ensures ExprItems(id, e, OpTableOf(groups), events) == Runs(done, (id, e), groups)
    ensures Remembers(ExprEvents(e, events), done + [(id, e)])
  {
    assert (done + [(id, e)])[..|done|] == done;
    if e.SubmitOp? {
      NamedIsLast(groups, e.opId);
      RightIsAfterFirst(e.opId, '_');
      var event := ActsFor(id, e.opId, e.submitted);
      assert ContextOf(event, events) == Context(event, DebugTags(done, event));
    }
  }

  lemma OneMoreRun(front: seq<Placed>, last: Placed, groups: seq<ExecOp>)
    ensures AllRuns(front + [last], groups) == AllRuns(front, groups) + Runs(front, last, groups)
  {
    assert (front + [last])[..|front|] == front;
  }

  lemma OneMorePlaced(done: seq<Placed>, b: Block, m: nat)
    requires m < |b.exprs|
    ensures done + InBlock(b)[..m + 1] == done + InBlock(b)[..m] + [(b.GetPrettyBlockId(), b.exprs[m])]
  {
  }

  lemma OneMoreItem(id: Id, es: seq<Expr>, m: nat, ops: OpTable, events: Events)
    requires m < |es|
    ensures var known := ExprsEvents(es[..m], events);
      && ExprsItems(id, es[..m + 1], ops, events)
         == ExprsItems(id, es[..m], ops, events) + ExprItems(id, es[m], ops, known)
      && ExprsEvents(es[..m + 1], events) == ExprEvents(es[m], known)
  {
    assert es[..m + 1][..m] == es[..m];
  }

  lemma Joined<T>(a: seq<T>, b: seq<T>, c: seq<T>)
    ensures (a + b) + c == a + (b + c)
  {
  }

  lemma {:induction false} BlockRuns(done: seq<Placed>, b: Block, n: nat, groups: seq<ExecOp>, events: Events)
    requires Remembers(events, done) && n <= |b.exprs|
    ensures AllRuns(done + InBlock(b)[..n], groups)
         == AllRuns(done, groups) + ExprsItems(b.GetPrettyBlockId(), b.exprs[..n], OpTableOf(groups), events)
    ensures Remembers(ExprsEvents(b.exprs[..n], events), done + InBlock(b)[..n])
    decreases n
  {
    var id, ops := b.GetPrettyBlockId(), OpTableOf(groups);
    if n == 0 {
      assert done + InBlock(b)[..n] == done;
    } else {
      var m := n - 1;
      var front := done + InBlock(b)[..m];
      var known := ExprsEvents(b.exprs[..m], events);
      BlockRuns(done, b, m, groups, events);
      OneMorePlaced(done, b, m);
      OneMoreRun(front, (id, b.exprs[m]), groups);
      OneMoreItem(id, b.exprs, m, ops, events);
      OneRun(front, id, b.exprs[m], groups, known);
      Joined(AllRuns(done, groups), ExprsItems(id, b.exprs[..m], ops, events), ExprItems(id, b.exprs[m], ops, known));
    }
  }

  lemma {:induction false} BlocksRun(blocks: seq<Block>, groups: seq<ExecOp>)
    ensures AllRuns(InOrder(blocks), groups) == BlocksItems(blocks, OpTableOf(groups), map[])
    ensures Remembers(BlocksEvents(blocks, map[]), InOrder(blocks))
    decreases |blocks|
  {
    if blocks != [] {
      var front, b := blocks[..|blocks| - 1], blocks[|blocks| - 1];
      BlocksRun(front, groups);
      BlockRuns(InOrder(front), b, |b.exprs|, groups, BlocksEvents(front, map[]));
      assert InBlock(b)[..|b.exprs|] == InBlock(b) && b.exprs[..|b.exprs|] == b.exprs;
    }
  }

  /** The operations that a trace runs are those of the groups it submits, in the
      order of the submissions: synchronous ones for their block, asynchronous
      ones for the event in their identifier, with the tags known by then. */
  lemma TraceRunsItsSubmissions(t: Trace)
    ensures TraceItems(t) == AllRuns(InOrder(t.blocks), t.execOps)
  {
    BlocksRun(t.blocks, t.execOps);
  }

  /** A submission of either kind, of a group that there is, runs every operation
      of it, each in its place and for the same event. */
  lemma SubmissionRunsGroup(id: Id, e: Expr, groups: seq<ExecOp>, events: Events, k: nat)
    requires e.SubmitOp? && k < |groups| && groups[k].id == e.opId
    requires forall j :: k < j < |groups| ==> groups[j].id != e.opId
    ensures var items := ExprItems(id, e, OpTableOf(groups), events);
      && |items| == |groups[k].operations|
      && forall i :: 0 <= i < |items| ==>
           && items[i].op == groups[k].operations[i]
           && items[i].context.eventId == if e.submitted.None? then id else AfterFirst(e.opId, '_')
  {
    LastNamed(groups, e.opId, k);
    NamedIsLast(groups, e.opId);
    RightIsAfterFirst(e.opId, '_');
  }

  lemma {:induction false} LastNamed(groups: seq<ExecOp>, id: string, k: nat)
    requires k < |groups| && groups[k].id == id && forall j :: k < j < |groups| ==> groups[j].id != id
    ensures GroupNamed(groups, id) == Some(groups[k].operations)
    decreases |groups|
  {
    if k < |groups| - 1 { LastNamed(groups[..|groups| - 1], id, k); }
  }
}
