/** The text form of traces, and the analyzer that dumps it. */
module TracePrinter {
  import opened Common
  import opened Traces

  /** Words separated by single spaces. */
  function Join(words: seq<string>): string {
    if words == [] then ""
    else if |words| == 1 then words[0]
    else words[0] + (" " + Join(words[1..]))
  }

  /** Meta variables, each as " !name". */
  function MarksText(marks: seq<string>): string {
    if marks == [] then "" else " " + ("!" + (marks[0] + MarksText(marks[1..])))
  }

  function Line(words: seq<string>, marks: seq<string>): string {
    Join(words) + (MarksText(marks) + "\n")
  }

  // ----- Operations

  function DirfdToString(dirfd: nat): string {
    if dirfd == 0 then "AT_FDCWD" else ToString(dirfd)
  }

  function IntToString(n: int): string {
    if n < 0 then "-" + ToString(-n) else ToString(n)
  }

  function EffToString(effect: EffectType): string {
    match effect
    case CONSUMED => "consumed"
    case PRODUCED => "produced"
    case EXPUNGED => "expunged"
  }

  function OpWords(op: Operation): seq<string> {
    match op.primitive
    case DelFd(fd) => ["delFd", ToString(fd)]
    case Hpath(dirfd, path, effect) => ["hpath", DirfdToString(dirfd), path, EffToString(effect)]
    case HpathSym(dirfd, path, effect) => ["hpathsym", DirfdToString(dirfd), path, EffToString(effect)]
    case Link(oldDirfd, oldPath, newDirfd, newPath) =>
      ["link", DirfdToString(oldDirfd), oldPath, DirfdToString(newDirfd), newPath]
    case NewFd(dirfd, path, fd) =>
      if op.failed then ["newFd", DirfdToString(dirfd), path]
      else ["newFd", DirfdToString(dirfd), path, IntToString(fd)]
    case Rename(oldDirfd, oldPath, newDirfd, newPath) =>
      ["rename", DirfdToString(oldDirfd), oldPath, DirfdToString(newDirfd), newPath]
    case Symlink(dirfd, path, target) => ["symlink", DirfdToString(dirfd), path, target]
  }

  function OpMarks(op: Operation): seq<string> {
    (if op.actualName != "" then [op.actualName] else []) + (if op.failed then ["failed"] else [])
  }

  function OpText(op: Operation): string {
    Line(OpWords(op), OpMarks(op))
  }

  function OpsText(ops: seq<Operation>): string {
    if ops == [] then "" else OpText(ops[0]) + OpsText(ops[1..])
  }

  function ExecOpText(e: ExecOp): string {
    Line(["Operation", e.id, "do"], []) + (OpsText(e.operations) + Line(["done"], []))
  }

  function ExecOpsText(es: seq<ExecOp>): string {
    if es == [] then "" else ExecOpText(es[0]) + ExecOpsText(es[1..])
  }

  // ----- Expressions and blocks

  function EventWords(e: Event): seq<string> {
    match e.eventType
    case S => ["S", ToString(e.eventValue)]
    case M => ["M", ToString(e.eventValue)]
    case W => ["W", ToString(e.eventValue)]
    case MAIN => ["MAIN"]
    case EXT => ["EXTERNAL"]
  }

  function ExprWords(e: Expr): seq<string> {
    match e
    case NewEventExpr(n, event, _) => ["newEvent", ToString(n)] + EventWords(event)
    case LinkExpr(m, n) => ["link", ToString(m), ToString(n)]
    case TriggerExpr(n) => ["trigger", ToString(n)]
    case SubmitOp(opId, submitted, _) =>
      match submitted
      case Some(n) => ["submitOp", opId, ToString(n), "ASYNC"]
      case None => ["submitOp", opId, "SYNC"]
  }

  /** Only expressions with debug information have meta variables. */
  function ExprMarks(e: Expr): seq<string> {
    match e
    case NewEventExpr(_, _, tags) => tags
    case LinkExpr(_, _) => []
    case TriggerExpr(_) => []
    case SubmitOp(_, _, tags) => tags
  }

  function ExprText(e: Expr): string {
    Line(ExprWords(e), ExprMarks(e))
  }

  function ExprsText(es: seq<Expr>): string {
    if es == [] then "" else ExprText(es[0]) + ExprsText(es[1..])
  }

  predicate Dumped(b: Block) {
    !(b.exprs == [] && b.isMain)
  }

  function BeginWords(b: Block): seq<string> {
    if b.isMain then ["Begin", "MAIN", ToString(b.blockId)] else ["Begin", ToString(b.blockId)]
  }

  function BlockText(b: Block): string {
    if !Dumped(b) then "" else Line(BeginWords(b), []) + (ExprsText(b.exprs) + Line(["End"], []))
  }

  function BlocksText(bs: seq<Block>): string {
    if bs == [] then "" else BlockText(bs[0]) + BlocksText(bs[1..])
  }

  // ----- The dump

  /** What follows the name of a header field. */
  function Field(value: string): string {
    ":" + (" " + (value + "\n"))
  }

  function HeaderText(t: Trace): string {
    "!PID" + (Field(ToString(t.threadId)) + ("!Working Directory" + Field(t.cwd)))
  }

  function BodyText(t: Trace): string {
    HeaderText(t) + (ExecOpsText(t.execOps) + BlocksText(t.blocks))
  }

  function StatText(name: string, n: nat): string {
    "!" + (name + Field(ToString(n)))
  }

  function Preamble(blocks: nat, operations: nat, entries: nat): string {
    StatText("Blocks", blocks) + (StatText("Operations", operations) + StatText("Entries", entries))
  }

  function Entries(t: Trace): nat {
    OpEntries(t.execOps) + BlockEntries(t.blocks)
  }

  function OpEntries(es: seq<ExecOp>): nat {
    if es == [] then 0 else |es[0].operations| + OpEntries(es[1..])
  }

  function BlockEntries(bs: seq<Block>): nat {
    if bs == [] then 0 else |bs[0].exprs| + BlockEntries(bs[1..])
  }

  function Dump(t: Trace): string {
    Preamble(|t.blocks|, |t.execOps|, Entries(t)) + BodyText(t)
  }

  // ----- Strings built in loops

  method DebugInfoToString(debugInfo: seq<string>) returns (str: string)
    ensures str == MarksText(debugInfo)
  {
    str := "";
    for i := 0 to |debugInfo|
      invariant str + MarksText(debugInfo[i..]) == MarksText(debugInfo)
    {
      ghost var before, rest := str, MarksText(debugInfo[i + 1..]);
      assert debugInfo[i..][1..] == debugInfo[i + 1..];
      MarkAppended(before, debugInfo[i], rest);
      str := str + " !" + debugInfo[i];
    }
  }

  lemma MarkAppended(before: string, m: string, rest: string)
    ensures (before + " !" + m) + rest == before + (" " + ("!" + (m + rest)))
  {
  }

  method ExprToString(expr: Expr) returns (str: string)
    ensures str + "\n" == ExprText(expr)
  {
    var words, tags := ExprWords(expr), ExprMarks(expr);
    var debugInfo := DebugInfoToString(tags);
    str := Join(words) + debugInfo;
    Appended(Join(words), debugInfo, "\n");
  }

  function OperationToString(op: Operation): (str: string)
    ensures str + "\n" == OpText(op)
  {
    Appended(Join(OpWords(op)), MarksText(OpMarks(op)), "\n");
    Join(OpWords(op)) + MarksText(OpMarks(op))
  }

  method ExecOpToString(execOp: ExecOp) returns (str: string)
    ensures str + "\n" == ExecOpText(execOp)
  {
    ghost var first := Line(["Operation", execOp.id, "do"], []);
    OperationText(execOp.id);
    str := "Operation " + execOp.id + " do\n";
    for i := 0 to |execOp.operations|
      invariant str + OpsText(execOp.operations[i..]) == first + OpsText(execOp.operations)
    {
      ghost var before, rest := str, OpsText(execOp.operations[i + 1..]);
      assert execOp.operations[i..][1..] == execOp.operations[i + 1..];
      Appended(before, OpText(execOp.operations[i]), rest);
      Appended(before, OperationToString(execOp.operations[i]), "\n");
      str := str + OperationToString(execOp.operations[i]);
      str := str + "\n";
    }
    assert str == first + OpsText(execOp.operations);
    str := str + "done";
    DoneText(first, OpsText(execOp.operations));
  }

  lemma EndText(buf: string, begin: string, exprs: string)
    ensures ((buf + begin) + exprs) + "End\n" == buf + (begin + (exprs + Line(["End"], [])))
  {
    assert Line(["End"], []) == "End\n";
  }

  lemma OperationText(id: string)
    ensures "Operation " + id + " do\n" == Line(["Operation", id, "do"], [])
  {
    assert ["Operation", id, "do"][1..] == [id, "do"] && [id, "do"][1..] == ["do"];
    assert Join([id, "do"]) == id + (" " + "do");
    assert "Operation " == "Operation" + " " && " do\n" == " " + "do" + "\n";
  }

  lemma DoneText(first: string, ops: string)
    ensures first + ops + "done" + "\n" == first + (ops + Line(["done"], []))
  {
  }

  /** Appends the text of each part to a buffer and counts the entries. */
  class DumpAnalyzer {
    var traceBuf: string
    var blockCount: nat
    var operationCount: nat
    var traceCount: nat

    constructor ()
      ensures traceBuf == "" && traceCount == 0 && blockCount == 0 && operationCount == 0
    {
      traceBuf, blockCount, operationCount, traceCount := "", 0, 0, 0;
    }

    method AnalyzeTrace(trace: Trace)
      modifies this
      ensures traceBuf == old(traceBuf) + BodyText(trace)
      ensures blockCount == |trace.blocks| && operationCount == |trace.execOps|
      ensures traceCount == old(traceCount) + Entries(trace)
    {
      ghost var buf0, count0 := traceBuf, traceCount;
      AddHeader(trace);
      ghost var buf1 := traceBuf;
      operationCount := |trace.execOps|;
      for i := 0 to |trace.execOps|
        invariant operationCount == |trace.execOps|
        invariant traceBuf + ExecOpsText(trace.execOps[i..]) == buf1 + ExecOpsText(trace.execOps)
        invariant traceCount + OpEntries(trace.execOps[i..]) == count0 + OpEntries(trace.execOps)
      {
        NextExecOp(traceBuf, trace.execOps, i);
        AnalyzeExecOp(trace.execOps[i]);
      }
      assert traceBuf == buf1 + ExecOpsText(trace.execOps);
      ghost var buf2, count2 := traceBuf, traceCount;
      blockCount := |trace.blocks|;
      for i := 0 to |trace.blocks|
        invariant operationCount == |trace.execOps| && blockCount == |trace.blocks|
        invariant traceBuf + BlocksText(trace.blocks[i..]) == buf2 + BlocksText(trace.blocks)
        invariant traceCount + BlockEntries(trace.blocks[i..]) == count2 + BlockEntries(trace.blocks)
      {
        NextBlock(traceBuf, trace.blocks, i);
        AnalyzeBlock(trace.blocks[i]);
      }
      assert traceBuf == buf2 + BlocksText(trace.blocks);
      BodyAppended(buf0, trace);
    }

    method AddHeader(trace: Trace)
      modifies `traceBuf
      ensures traceBuf == old(traceBuf) + HeaderText(trace)
    {
      HeaderAppended(traceBuf, trace);
      traceBuf := traceBuf + "!PID: ";
      traceBuf := traceBuf + ToString(trace.threadId);
      traceBuf := traceBuf + "\n";
      traceBuf := traceBuf + "!Working Directory: ";
      traceBuf := traceBuf + trace.cwd;
      traceBuf := traceBuf + "\n";
    }

    method AnalyzeBlock(block: Block)
      modifies `traceBuf, `traceCount
      ensures traceBuf == old(traceBuf) + BlockText(block) && traceCount == old(traceCount) + |block.exprs|
    {
      if block.exprs == [] && block.isMain {
        return;
      }
      ghost var buf0, begin := traceBuf, Line(BeginWords(block), []);
      var id := if block.isMain then "MAIN " + ToString(block.blockId) else ToString(block.blockId);
      BeginText(block, id);
      BeginAppended(buf0, id);
      traceBuf := traceBuf + "Begin ";
      traceBuf := traceBuf + id;
      traceBuf := traceBuf + "\n";
      traceCount := traceCount + |block.exprs|;
      for i := 0 to |block.exprs|
        invariant traceBuf + ExprsText(block.exprs[i..]) == (buf0 + begin) + ExprsText(block.exprs)
        invariant traceCount == old(traceCount) + |block.exprs|
      {
        ghost var before := traceBuf;
        AnalyzeExpr(block.exprs[i]);
        assert block.exprs[i..][1..] == block.exprs[i + 1..];
        Appended(before, ExprText(block.exprs[i]), ExprsText(block.exprs[i + 1..]));
      }
      assert traceBuf == (buf0 + begin) + ExprsText(block.exprs);
      traceBuf := traceBuf + "End\n";
      EndText(buf0, begin, ExprsText(block.exprs));
    }

    method AnalyzeExpr(expr: Expr)
      modifies `traceBuf
      ensures traceBuf == old(traceBuf) + ExprText(expr)
    {
      var str := ExprToString(expr);
      Appended(traceBuf, str, "\n");
      traceBuf := traceBuf + str;
      traceBuf := traceBuf + "\n";
    }

    method AnalyzeExecOp(execOp: ExecOp)
      modifies `traceBuf, `traceCount
      ensures traceBuf == old(traceBuf) + ExecOpText(execOp)
      ensures traceCount == old(traceCount) + |execOp.operations|
    {
      traceCount := traceCount + |execOp.operations|;
      var str := ExecOpToString(execOp);
      Appended(traceBuf, str, "\n");
      traceBuf := traceBuf + str;
      traceBuf := traceBuf + "\n";
    }

    method DumpOutput() returns (out: string)
      ensures out == Preamble(blockCount, operationCount, traceCount) + traceBuf
    {
      out := Preamble(blockCount, operationCount, traceCount) + traceBuf;
    }
  }

  /** Dumping a trace writes its text form. */
  method DumpTrace(trace: Trace) returns (out: string)
    ensures out == Dump(trace)
  {
    var analyzer := new DumpAnalyzer();
    analyzer.AnalyzeTrace(trace);
    out := analyzer.DumpOutput();
    assert "" + BodyText(trace) == BodyText(trace);
  }

  lemma Appended(a: string, b: string, c: string)
    ensures (a + b) + c == a + (b + c)
  {
  }

  lemma NextExecOp(buf: string, es: seq<ExecOp>, i: nat)
    requires i < |es|
    ensures buf + ExecOpsText(es[i..]) == (buf + ExecOpText(es[i])) + ExecOpsText(es[i + 1..])
    ensures OpEntries(es[i..]) == |es[i].operations| + OpEntries(es[i + 1..])
  {
    assert es[i..][1..] == es[i + 1..];
    Appended(buf, ExecOpText(es[i]), ExecOpsText(es[i + 1..]));
  }

  lemma NextBlock(buf: string, bs: seq<Block>, i: nat)
    requires i < |bs|
    ensures buf + BlocksText(bs[i..]) == (buf + BlockText(bs[i])) + BlocksText(bs[i + 1..])
    ensures BlockEntries(bs[i..]) == |bs[i].exprs| + BlockEntries(bs[i + 1..])
  {
    assert bs[i..][1..] == bs[i + 1..];
    Appended(buf, BlockText(bs[i]), BlocksText(bs[i + 1..]));
  }

  lemma BodyAppended(buf: string, t: Trace)
    ensures buf + BodyText(t) == ((buf + HeaderText(t)) + ExecOpsText(t.execOps)) + BlocksText(t.blocks)
  {
    Appended(buf, HeaderText(t), ExecOpsText(t.execOps) + BlocksText(t.blocks));
    Appended(buf + HeaderText(t), ExecOpsText(t.execOps), BlocksText(t.blocks));
  }

  lemma FieldAppended(name: string, value: string)
    ensures name + ": " + value + "\n" == name + Field(value)
  {
  }

  lemma HeaderAppended(buf: string, t: Trace)
    ensures buf + "!PID: " + ToString(t.threadId) + "\n" + "!Working Directory: " + t.cwd + "\n" == buf + HeaderText(t)
  {
    var n := ToString(t.threadId);
    FieldAppended(buf + "!PID", n);
    FieldAppended(buf + "!PID" + Field(n) + "!Working Directory", t.cwd);
    assert buf + "!PID" + ": " == buf + "!PID: ";
    var mid := buf + "!PID" + Field(n);
    assert mid + "!Working Directory" + ": " == mid + "!Working Directory: ";
    assert mid + "!Working Directory" + Field(t.cwd) == buf + HeaderText(t);
  }

  lemma BeginAppended(buf: string, id: string)
    ensures buf + "Begin " + id + "\n" == buf + ("Begin " + (id + "\n"))
  {
  }

  lemma BeginText(b: Block, id: string)
    requires id == if b.isMain then "MAIN " + ToString(b.blockId) else ToString(b.blockId)
    ensures "Begin " + (id + "\n") == Line(BeginWords(b), [])
  {
    var n := ToString(b.blockId);
    assert ["MAIN", n][1..] == [n] && ["Begin", n][1..] == [n] && ["Begin", "MAIN", n][1..] == ["MAIN", n];
    assert Join(["MAIN", n]) == "MAIN" + (" " + n) == "MAIN " + n;
    assert Join(BeginWords(b)) == "Begin" + (" " + id);
  }
}
