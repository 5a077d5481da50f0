/** The grammar of traces and its semantic actions.  A syntax error, and a number
    that does not fit an `int`, give no trace. */
module TraceParser {
  import opened Common
  import opened Traces
  import opened TraceLexer

  type Parsed<T> = Option<(T, Tokens)>

  function Len(ts: Tokens): nat {
    match ts
    case Nil => 0
    case Cons(_, tail) => 1 + Len(tail)
  }

  // ----- Tokens with a value

  const INT_MAX := 2147483647

  function Decimal(w: string): nat
    requires forall i :: 0 <= i < |w| ==> IsDigit(w[i])
  {
    if w == "" then 0
    else
      assert IsDigit(w[|w| - 1]);
      10 * Decimal(w[..|w| - 1]) + (w[|w| - 1] as nat - '0' as nat)
  }

  /** `std::stoi` on digits throws when the value does not fit. */
  function Stoi(w: string): Option<nat> {
    if IsNumber(w) && Decimal(w) <= INT_MAX then Some(Decimal(w)) else None
  }

  function Expect(ts: Tokens, t: Token): (r: Option<Tokens>)
    ensures r.Some? ==> Len(r.value) < Len(ts)
  {
    if ts.Cons? && ts.head == t then Some(ts.tail) else None
  }

  function ParseNumber(ts: Tokens): (r: Parsed<nat>)
    ensures r.Some? ==> Len(r.value.1) < Len(ts)
  {
    if ts.Cons? && ts.head.Number? then
      var n :- Stoi(ts.head.text);
      Some((n, ts.tail))
    else None
  }

  function ParseIdent(ts: Tokens): (r: Parsed<string>)
    ensures r.Some? ==> Len(r.value.1) < Len(ts)
  {
    if ts.Cons? && ts.head.Ident? then Some((ts.head.text, ts.tail)) else None
  }

  function ParseOpId(ts: Tokens): (r: Parsed<string>)
    ensures r.Some? ==> Len(r.value.1) < Len(ts)
  {
    if ts.Cons? && ts.head.OpId? then Some((ts.head.text, ts.tail)) else None
  }

  function ParseDirfd(ts: Tokens): (r: Parsed<nat>)
    ensures r.Some? ==> Len(r.value.1) < Len(ts)
  {
    if ts.Cons? && ts.head == Key(ATFDCWD) then Some((0, ts.tail)) else ParseNumber(ts)
  }

  function ParseEffect(ts: Tokens): (r: Parsed<EffectType>)
    ensures r.Some? ==> Len(r.value.1) < Len(ts)
  {
    if ts.Nil? then None
    else if ts.head == Key(CONSUMED_) then Some((CONSUMED, ts.tail))
    else if ts.head == Key(PRODUCED_) then Some((PRODUCED, ts.tail))
    else if ts.head == Key(EXPUNGED_) then Some((EXPUNGED, ts.tail))
    else None
  }

  // ----- Meta variables

  function ParseMarks(ts: Tokens): (r: Parsed<seq<string>>)
    ensures r.Some? ==> Len(r.value.1) < Len(ts)
  {
    var t :- Expect(ts, Bang);
    if t.Cons? && t.head.Ident? then MoreMarks([t.head.text], t.tail)
    else if t.Cons? && t.head == Key(RENAME) then MoreMarks(["rename"], t.tail)
    else None
  }

  function MoreMarks(marks: seq<string>, ts: Tokens): (r: Parsed<seq<string>>)
    ensures r.Some? ==> Len(r.value.1) <= Len(ts)
    decreases ts
  {
    if ts.Cons? && ts.head == Bang then
      if ts.tail.Cons? && ts.tail.head.Ident? then MoreMarks(marks + [ts.tail.head.text], ts.tail.tail) else None
    else Some((marks, ts))
  }

  /** The last meta variable that is not `failed`. */
  function ActualName(marks: seq<string>): string {
    if marks == [] then ""
    else if marks[|marks| - 1] == "failed" then ActualName(marks[..|marks| - 1])
    else marks[|marks| - 1]
  }

  function WithMarks(p: Primitive, failed: bool, marks: seq<string>): Operation {
    Operation(p, ActualName(marks), failed || "failed" in marks)
  }

  // ----- Operations

  function ParsePathEffect(ts: Tokens): (r: Parsed<(nat, string, EffectType)>)
    ensures r.Some? ==> Len(r.value.1) < Len(ts)
  {
    var (dirfd, t1) :- ParseDirfd(ts);
    var (path, t2) :- ParseIdent(t1);
    var (effect, t3) :- ParseEffect(t2);
    Some(((dirfd, path, effect), t3))
  }

  function ParseTwoPaths(ts: Tokens): (r: Parsed<(nat, string, nat, string)>)
    ensures r.Some? ==> Len(r.value.1) < Len(ts)
  {
    var (oldDirfd, t1) :- ParseDirfd(ts);
    var (oldPath, t2) :- ParseIdent(t1);
    var (newDirfd, t3) :- ParseDirfd(t2);
    var (newPath, t4) :- ParseIdent(t3);
    Some(((oldDirfd, oldPath, newDirfd, newPath), t4))
  }

  /** The values of an operation rule: the operation, whether it is marked failed
      before its meta variables are looked at, and the meta variables. */
  type OperParts = (Primitive, bool, seq<string>)

  function ParseNewFd(ts: Tokens): (r: Parsed<OperParts>)
    ensures r.Some? ==> Len(r.value.1) < Len(ts)
  {
    var (dirfd, t1) :- ParseDirfd(ts);
    var (path, t2) :- ParseIdent(t1);
    if t2.Cons? && t2.head.Number? then
      var (fd, t3) :- ParseNumber(t2);
      var (marks, t4) :- ParseMarks(t3);
      Some(((NewFd(dirfd, path, fd), false, marks), t4))
    else
      var (marks, t3) :- ParseMarks(t2);
      Some(((NewFd(dirfd, path, -1), true, marks), t3))
  }

  function ParseOperParts(ts: Tokens): (r: Parsed<OperParts>)
    ensures r.Some? ==> Len(r.value.1) < Len(ts)
  {
    if ts.Nil? then None
    else if ts.head == Key(HPATH) then
      var (p, t) :- ParsePathEffect(ts.tail);
      var (marks, rest) :- ParseMarks(t);
      Some(((Hpath(p.0, p.1, p.2), false, marks), rest))
    else if ts.head == Key(HPATHSYM) then
      var (p, t) :- ParsePathEffect(ts.tail);
      var (marks, rest) :- ParseMarks(t);
      Some(((HpathSym(p.0, p.1, p.2), false, marks), rest))
    else if ts.head == Key(NEWFD) then ParseNewFd(ts.tail)
    else if ts.head == Key(DELFD) then
      var (fd, t) :- ParseNumber(ts.tail);
      var (marks, rest) :- ParseMarks(t);
      Some(((DelFd(fd), false, marks), rest))
    else if ts.head == Key(LINK) then
      var (p, t) :- ParseTwoPaths(ts.tail);
      var (marks, rest) :- ParseMarks(t);
      Some(((Link(p.0, p.1, p.2, p.3), false, marks), rest))
    else if ts.head == Key(RENAME) then
      var (p, t) :- ParseTwoPaths(ts.tail);
      var (marks, rest) :- ParseMarks(t);
      Some(((Rename(p.0, p.1, p.2, p.3), false, marks), rest))
    else if ts.head == Key(SYMLINK) then
      var (dirfd, t1) :- ParseDirfd(ts.tail);
      var (path, t2) :- ParseIdent(t1);
      var (target, t3) :- ParseIdent(t2);
      var (marks, rest) :- ParseMarks(t3);
      Some(((Symlink(dirfd, path, target), false, marks), rest))
    else None
  }

  function ParseOper(ts: Tokens): (r: Parsed<Operation>)
    ensures r.Some? ==> Len(r.value.1) < Len(ts)
  {
    var (parts, rest) :- ParseOperParts(ts);
    Some((WithMarks(parts.0, parts.1, parts.2), rest))
  }

  /** Operations up to `done`, which stays. */
  function ParseOpers(ts: Tokens): (r: Parsed<seq<Operation>>)
    ensures r.Some? ==> Len(r.value.1) <= Len(ts)
    decreases Len(ts)
  {
    if ts.Cons? && ts.head == Key(DONE) then Some(([], ts))
    else
      var (op, t) :- ParseOper(ts);
      var (ops, rest) :- ParseOpers(t);
      Some(([op] + ops, rest))
  }

  function ParseExecOp(ts: Tokens): (r: Parsed<ExecOp>)
    ensures r.Some? ==> Len(r.value.1) < Len(ts)
  {
    var t1 :- Expect(ts, Key(OPERATION));
    var (id, t2) :- ParseOpId(t1);
    var t3 :- Expect(t2, Key(DO));
    var (ops, t4) :- ParseOpers(t3);
    var rest :- Expect(t4, Key(DONE));
    Some((ExecOp(id, ops), rest))
  }

  function ParseExecOps(ts: Tokens): (r: Parsed<seq<ExecOp>>)
    ensures r.Some? ==> Len(r.value.1) <= Len(ts)
    decreases Len(ts)
  {
    if !(ts.Cons? && ts.head == Key(OPERATION)) then Some(([], ts))
    else
      var (e, t) :- ParseExecOp(ts);
      var (es, rest) :- ParseExecOps(t);
      Some(([e] + es, rest))
  }

  // ----- Expressions and blocks

  function ParseEvent(ts: Tokens): (r: Parsed<Event>)
    ensures r.Some? ==> Len(r.value.1) < Len(ts)
  {
    if ts.Nil? then None
    else if ts.head == Key(EXTERNAL) then Some((Event(EXT, 0), ts.tail))
    else if ts.head == Key(S_) then
      var (n, rest) :- ParseNumber(ts.tail);
      Some((Event(S, n), rest))
    else if ts.head == Key(M_) then
      var (n, rest) :- ParseNumber(ts.tail);
      Some((Event(M, n), rest))
    else if ts.head == Key(W_) then
      var (n, rest) :- ParseNumber(ts.tail);
      Some((Event(W, n), rest))
    else None
  }

  function ParseExpr(ts: Tokens): (r: Parsed<Expr>)
    ensures r.Some? ==> Len(r.value.1) < Len(ts)
  {
    if ts.Nil? then None
    else if ts.head == Key(NEW_EVENT) then
      var (n, t1) :- ParseNumber(ts.tail);
      var (event, t2) :- ParseEvent(t1);
      if t2.Cons? && t2.head == Bang then
        var (tags, rest) :- ParseMarks(t2);
        Some((NewEventExpr(n, event, tags), rest))
      else Some((NewEventExpr(n, event, []), t2))
    else if ts.head == Key(LINK) then
      var (m, t) :- ParseNumber(ts.tail);
      var (n, rest) :- ParseNumber(t);
      Some((LinkExpr(m, n), rest))
    else if ts.head == Key(TRIGGER) then
      var (n, rest) :- ParseNumber(ts.tail);
      Some((TriggerExpr(n), rest))
    else if ts.head == Key(SUBMIT_OP) then
      var (id, t1) :- ParseOpId(ts.tail);
      if t1.Cons? && t1.head == Key(SYNC) then
        var (tags, rest) :- ParseMarks(t1.tail);
        Some((SubmitOp(id, None, tags), rest))
      else
        var (n, t2) :- ParseNumber(t1);
        var t3 :- Expect(t2, Key(ASYNC));
        var (tags, rest) :- ParseMarks(t3);
        Some((SubmitOp(id, Some(n), tags), rest))
    else None
  }

  /** Expressions up to `End`, which stays. */
  function ParseExprs(ts: Tokens): (r: Parsed<seq<Expr>>)
    ensures r.Some? ==> Len(r.value.1) <= Len(ts)
    decreases Len(ts)
  {
    if ts.Cons? && ts.head == Key(END) then Some(([], ts))
    else
      var (e, t) :- ParseExpr(ts);
      var (es, rest) :- ParseExprs(t);
      Some(([e] + es, rest))
  }

  /** A MAIN block has at least one expression. */
  function ParseBlock(ts: Tokens): (r: Parsed<Block>)
    ensures r.Some? ==> Len(r.value.1) < Len(ts)
  {
    var t1 :- Expect(ts, Key(BEGIN));
    var isMain := t1.Cons? && t1.head == Key(MAIN_);
    var (n, t2) :- ParseNumber(if isMain then t1.tail else t1);
    var (es, t3) :- ParseExprs(t2);
    var rest :- Expect(t3, Key(END));
    if isMain && es == [] then None else Some((Block(n, isMain, es), rest))
  }

  /** Blocks up to the end of the text. */
  function ParseBlocks(ts: Tokens): (r: Option<seq<Block>>)
    decreases Len(ts)
  {
    if ts.Nil? then Some([])
    else
      var (b, t) :- ParseBlock(ts);
      var bs :- ParseBlocks(t);
      Some([b] + bs)
  }

  // ----- Programs

  function ParseStat(ts: Tokens): (r: Option<Tokens>)
    ensures r.Some? ==> Len(r.value) < Len(ts)
  {
    var t1 :- Expect(ts, Bang);
    var (_, t2) :- ParseIdent(t1);
    var t3 :- Expect(t2, Colon);
    if t3.Cons? && t3.head.Number? then Some(t3.tail) else None
  }

  function MoreStats(ts: Tokens): Option<Tokens>
    decreases Len(ts)
  {
    if !(ts.Cons? && ts.head == Bang) then Some(ts)
    else
      var t :- ParseStat(ts);
      MoreStats(t)
  }

  function ParseHeader(ts: Tokens): Parsed<(nat, string)> {
    var t1 :- Expect(ts, Pid);
    var t2 :- Expect(t1, Colon);
    var (threadId, t3) :- ParseNumber(t2);
    var t4 :- Expect(t3, Cwd);
    var t5 :- Expect(t4, Colon);
    var (cwd, rest) :- ParseIdent(t5);
    Some(((threadId, cwd), rest))
  }

  function ParseProgram(ts: Tokens): Option<Trace> {
    var t1 :- ParseStat(ts);
    var t2 :- MoreStats(t1);
    var (header, t3) :- ParseHeader(t2);
    ParseBody(header.0, header.1, t3)
  }

  /** What follows the header: nothing, or operations and then blocks. */
  function ParseBody(threadId: nat, cwd: string, ts: Tokens): Option<Trace> {
    if ts.Nil? then Some(Trace(threadId, cwd, [], []))
    else
      var (execOps, t) :- ParseExecOps(ts);
      var blocks :- ParseBlocks(t);
      if execOps == [] || blocks == [] then None else Some(Trace(threadId, cwd, execOps, blocks))
  }

  function Parse(text: string): Option<Trace> {
    ParseProgram(Lex(text))
  }
}
