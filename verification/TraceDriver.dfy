/** The driver of the parser: the semantic actions that gather operations,
    expressions, groups of operations and blocks into the trace. */
module TraceDrivers {
  import opened Common
  import opened Traces
  import opened TraceLexer
  import opened TraceParser

  /** The last name wins, and `failed` is a flag. */
  method AddOperationDebugInfo(p: Primitive, marked: bool, debugInfo: seq<string>) returns (op: Operation)
    ensures op == WithMarks(p, marked, debugInfo)
  {
    var actualName, failed := "", marked;
    for i := 0 to |debugInfo|
      invariant actualName == ActualName(debugInfo[..i])
      invariant failed == (marked || "failed" in debugInfo[..i])
    {
      assert debugInfo[..i + 1] == debugInfo[..i] + [debugInfo[i]];
      if debugInfo[i] == "failed" {
        failed := true;
      } else {
        actualName := debugInfo[i];
      }
    }
    assert debugInfo[..|debugInfo|] == debugInfo;
    op := Operation(p, actualName, failed);
  }

  /** What is parsed already comes before what the rest gives. */
  function After<T>(done: seq<T>, r: Parsed<seq<T>>): Parsed<seq<T>> {
    match r
    case None => None
    case Some((more, rest)) => Some((done + more, rest))
  }

  function AfterBlocks(done: seq<Block>, r: Option<seq<Block>>): Option<seq<Block>> {
    match r
    case None => None
    case Some(more) => Some(done + more)
  }

  lemma OneMore<T>(done: seq<T>, x: T, r: Parsed<seq<T>>)
    ensures After(done, After([x], r)) == After(done + [x], r)
  {
    if r.Some? { assert done + ([x] + r.value.0) == (done + [x]) + r.value.0; }
  }

  lemma OneMoreBlock(done: seq<Block>, b: Block, r: Option<seq<Block>>)
    ensures AfterBlocks(done, AfterBlocks([b], r)) == AfterBlocks(done + [b], r)
  {
    if r.Some? { assert done + ([b] + r.value) == (done + [b]) + r.value; }
  }

  lemma AfterNone<T>(r: Parsed<seq<T>>)
    ensures After([], r) == r
  {
    if r.Some? { assert [] + r.value.0 == r.value.0; }
  }

  lemma GroupThenRest(ts: Tokens, e: ExecOp, rest: Tokens)
    requires ts.Cons? && ts.head == Key(OPERATION) && ParseExecOp(ts) == Some((e, rest))
    ensures ParseExecOps(ts) == After([e], ParseExecOps(rest))
  {
  }

  lemma NoneBefore(r: Option<seq<Block>>)
    ensures AfterBlocks([], r) == r
  {
    if r.Some? { assert [] + r.value == r.value; }
  }

  lemma BlockThenRest(ts: Tokens, b: Block, rest: Tokens)
    requires ParseBlock(ts) == Some((b, rest))
    ensures ParseBlocks(ts) == AfterBlocks([b], ParseBlocks(rest))
  {
  }

  class TraceGeneratorDriver {
    var traceF: Trace
    var opers: seq<Operation>
    var exprs: seq<Expr>

    constructor ()
      ensures traceF == Trace(0, "", [], []) && opers == [] && exprs == []
    {
      traceF := Trace(0, "", [], []);
      opers := [];
      exprs := [];
    }

    /** Pushes the operations of a group. */
    method Operations(ts: Tokens) returns (rest: Option<Tokens>)
      requires opers == []
      modifies `opers
      ensures match ParseOpers(ts) case None => rest == None case Some((ops, t)) => opers == ops && rest == Some(t)
    {
      var cur := ts;
      AfterNone(ParseOpers(ts));
      while !(cur.Cons? && cur.head == Key(DONE))
        invariant After(opers, ParseOpers(cur)) == ParseOpers(ts)
        decreases Len(cur)
      {
        var parts := ParseOperParts(cur);
        if parts.None? {
          return None;
        }
        var op := AddOperationDebugInfo(parts.value.0.0, parts.value.0.1, parts.value.0.2);
        OneMore(opers, op, ParseOpers(parts.value.1));
        assert ParseOpers(cur) == After([op], ParseOpers(parts.value.1));
        opers := opers + [op];
        cur := parts.value.1;
      }
      rest := Some(cur);
    }

    /** Adds a group of operations to the trace and clears what was pushed. */
    method OpDef(ts: Tokens) returns (rest: Option<Tokens>)
      requires opers == []
      modifies `opers, `traceF
      ensures match ParseExecOp(ts)
        case None => rest == None
        case Some((e, t)) =>
          rest == Some(t) && opers == [] && traceF == old(traceF).(execOps := old(traceF.execOps) + [e])
    {
      var t1 := Expect(ts, Key(OPERATION));
      if t1.None? {
        return None;
      }
      var id := ParseOpId(t1.value);
      if id.None? {
        return None;
      }
      var t3 := Expect(id.value.1, Key(DO));
      if t3.None? {
        return None;
      }
      var t4 := Operations(t3.value);
      if t4.None? {
        return None;
      }
      rest := Expect(t4.value, Key(DONE));
      if rest.Some? {
        traceF := traceF.(execOps := traceF.execOps + [ExecOp(id.value.0, opers)]);
        opers := [];
      }
    }

    method OpDefs(ts: Tokens) returns (rest: Option<Tokens>)
      requires opers == [] && traceF.execOps == []
      modifies `opers, `traceF
      ensures match ParseExecOps(ts)
        case None => rest == None
        case Some((es, t)) => rest == Some(t) && opers == [] && traceF == old(traceF).(execOps := es)
    {
      var cur := ts;
      ghost var start := traceF;
      AfterNone(ParseExecOps(ts));
      while cur.Cons? && cur.head == Key(OPERATION)
        invariant opers == [] && traceF == start.(execOps := traceF.execOps)
        invariant After(traceF.execOps, ParseExecOps(cur)) == ParseExecOps(ts)
        decreases Len(cur)
      {
        ghost var done, e := traceF.execOps, ParseExecOp(cur);
        var next := OpDef(cur);
        if next.None? {
          return None;
        }
        GroupThenRest(cur, e.value.0, next.value);
        OneMore(done, e.value.0, ParseExecOps(next.value));
        cur := next.value;
      }
      rest := Some(cur);
    }

    /** Pushes the expressions of a block. */
    method Exprs(ts: Tokens) returns (rest: Option<Tokens>)
      requires exprs == []
      modifies `exprs
      ensures match ParseExprs(ts) case None => rest == None case Some((es, t)) => exprs == es && rest == Some(t)
    {
      var cur := ts;
      AfterNone(ParseExprs(ts));
      while !(cur.Cons? && cur.head == Key(END))
        invariant After(exprs, ParseExprs(cur)) == ParseExprs(ts)
        decreases Len(cur)
      {
        var e := ParseExpr(cur);
        if e.None? {
          return None;
        }
        OneMore(exprs, e.value.0, ParseExprs(e.value.1));
        assert ParseExprs(cur) == After([e.value.0], ParseExprs(e.value.1));
        exprs := exprs + [e.value.0];
        cur := e.value.1;
      }
      rest := Some(cur);
    }

    /** Adds a block to the trace and clears what was pushed. */
    method BlockDef(ts: Tokens) returns (rest: Option<Tokens>)
      requires exprs == []
      modifies `exprs, `traceF
      ensures match ParseBlock(ts)
        case None => rest == None
        case Some((b, t)) =>
          rest == Some(t) && exprs == [] && traceF == old(traceF).(blocks := old(traceF.blocks) + [b])
    {
      var t1 := Expect(ts, Key(BEGIN));
      if t1.None? {
        return None;
      }
      var isMain := t1.value.Cons? && t1.value.head == Key(MAIN_);
      var n := ParseNumber(if isMain then t1.value.tail else t1.value);
      if n.None? {
        return None;
      }
      var t3 := Exprs(n.value.1);
      if t3.None? {
        return None;
      }
      rest := Expect(t3.value, Key(END));
      if rest.None? || (isMain && exprs == []) {
        return None;
      }
      traceF := traceF.(blocks := traceF.blocks + [Block(n.value.0, isMain, exprs)]);
      exprs := [];
    }

    method BlockDefs(ts: Tokens) returns (ok: bool)
      requires exprs == [] && traceF.blocks == []
      modifies `exprs, `traceF
      ensures match ParseBlocks(ts)
        case None => !ok
        case Some(bs) => ok && exprs == [] && traceF == old(traceF).(blocks := bs)
    {
      var cur := ts;
      ghost var start := traceF;
      NoneBefore(ParseBlocks(ts));
      while cur.Cons?
        invariant exprs == [] && traceF == start.(blocks := traceF.blocks)
        invariant AfterBlocks(traceF.blocks, ParseBlocks(cur)) == ParseBlocks(ts)
        decreases Len(cur)
      {
        ghost var done, b := traceF.blocks, ParseBlock(cur);
        var next := BlockDef(cur);
        if next.None? {
          return false;
        }
        BlockThenRest(cur, b.value.0, next.value);
        OneMoreBlock(done, b.value.0, ParseBlocks(next.value));
        cur := next.value;
      }
      ok := true;
    }

    /** The thread and the working directory are set last. */
    method Program(ts: Tokens) returns (ok: bool)
      requires traceF == Trace(0, "", [], []) && opers == [] && exprs == []
      modifies this
      ensures match ParseProgram(ts) case None => !ok case Some(t) => ok && traceF == t
    {
      var t1 := ParseStat(ts);
      if t1.None? {
        return false;
      }
      var t2 := MoreStats(t1.value);
      if t2.None? {
        return false;
      }
      var header := ParseHeader(t2.value);
      if header.None? {
        return false;
      }
      if header.value.1.Cons? {
        var t3 := OpDefs(header.value.1);
        if t3.None? {
          return false;
        }
        ok := BlockDefs(t3.value);
        if !ok || traceF.execOps == [] || traceF.blocks == [] {
          return false;
        }
      }
      traceF := traceF.(threadId := header.value.0.0, cwd := header.value.0.1);
      ok := true;
    }
  }

  method ParseText(text: string) returns (trace: Option<Trace>)
    ensures trace == Parse(text)
  {
    var driver := new TraceGeneratorDriver();
    var ok := driver.Program(Lex(text));
    trace := if ok then Some(driver.traceF) else None;
  }
}
