/** Parsing the dump of a trace gives the trace back. */
module RoundTrip {
  import opened Common
  import opened DumpTokens
  import opened Traces
  import opened TraceLexer
  import opened TraceParser
  import opened TracePrinter

  function DumpedBlocks(bs: seq<Block>): seq<Block> {
    if bs == [] then [] else (if Dumped(bs[0]) then [bs[0]] else []) + DumpedBlocks(bs[1..])
  }

  predicate NoBang(ts: Tokens) {
    !(ts.Cons? && ts.head == Bang)
  }

  // ----- Lines as lists

  lemma OneToken(a: Token, t: Tokens)
    ensures Prepend([a], t) == Cons(a, t)
  {
  }

  lemma TwoTokens(a: Token, b: Token, t: Tokens)
    ensures Prepend([a, b], t) == Cons(a, Cons(b, t))
  {
    assert [a, b][1..] == [b];
    OneToken(b, t);
  }

  lemma ThreeTokens(a: Token, b: Token, c: Token, t: Tokens)
    ensures Prepend([a, b, c], t) == Cons(a, Cons(b, Cons(c, t)))
  {
    assert [a, b, c][1..] == [b, c];
    TwoTokens(b, c, t);
  }

  lemma FourTokens(a: Token, b: Token, c: Token, d: Token, t: Tokens)
    ensures Prepend([a, b, c, d], t) == Cons(a, Cons(b, Cons(c, Cons(d, t))))
  {
    assert [a, b, c, d][1..] == [b, c, d];
    ThreeTokens(b, c, d, t);
  }

  lemma FiveTokens(a: Token, b: Token, c: Token, d: Token, e: Token, t: Tokens)
    ensures Prepend([a, b, c, d, e], t) == Cons(a, Cons(b, Cons(c, Cons(d, Cons(e, t)))))
  {
    assert [a, b, c, d, e][1..] == [b, c, d, e];
    FourTokens(b, c, d, e, t);
  }

  lemma TwoAndMore(a: Token, b: Token, line: seq<Token>, t: Tokens)
    ensures Prepend([a, b] + line, t) == Cons(a, Cons(b, Prepend(line, t)))
  {
  }

  // ----- Values come back

  lemma NumberParses(n: nat, rest: Tokens)
    requires Fits(n)
    ensures ParseNumber(Cons(NumberToken(n), rest)) == Some((n, rest))
    ensures ParseDirfd(Cons(DirfdToken(n), rest)) == Some((n, rest))
  {
    NumbersRead(n);
  }

  lemma EffectParses(effect: EffectType, rest: Tokens)
    ensures ParseEffect(Cons(EffectToken(effect), rest)) == Some((effect, rest))
  {
  }

  lemma {:induction false} MoreMarksParse(done: seq<string>, marks: seq<string>, rest: Tokens)
    requires NoBang(rest) && forall i :: 0 <= i < |marks| ==> IsMark(marks[i])
    ensures MoreMarks(done, MarksTokens(marks, rest)) == Some((done + marks, rest))
    decreases |marks|
  {
    if marks == [] {
      assert done + marks == done;
    } else {
      NameFacts(marks[0]);
      MoreMarksParse(done + [marks[0]], marks[1..], rest);
      assert done + [marks[0]] + marks[1..] == done + marks;
    }
  }

  /** The first meta variable, which may be the keyword `rename`. */
  lemma FirstMarkParses(m: string, more: Tokens)
    requires IsMark(m) || m == Text(RENAME)
    ensures ParseMarks(Cons(Bang, Cons(MarkToken(m), more))) == MoreMarks([m], more)
  {
  }

  lemma MarksParse(marks: seq<string>, rest: Tokens)
    requires AreMarks(marks) && marks != [] && NoBang(rest)
    ensures ParseMarks(MarksTokens(marks, rest)) == Some((marks, rest))
  {
    var first, others := marks[0], marks[1..];
    assert IsMark(first) || first == Text(RENAME);
    assert forall i :: 0 <= i < |others| ==> others[i] == marks[i + 1];
    FirstMarkParses(first, MarksTokens(others, rest));
    MoreMarksParse([first], others, rest);
    assert [first] + others == marks;
  }

  /** Of any meta variables, the last one that is not `failed` names the operation,
      and it has failed if one of them is `failed`. */
  lemma {:induction false} LastMarkNames(p: Primitive, marks: seq<string>, i: nat)
    requires forall j :: i < j < |marks| ==> marks[j] == "failed"
    requires i < |marks| && marks[i] != "failed"
    ensures WithMarks(p, false, marks) == Operation(p, marks[i], exists j :: 0 <= j < |marks| && marks[j] == "failed")
    decreases |marks|
  {
    NameAt(marks, i);
  }

  lemma {:induction false} NameAt(marks: seq<string>, i: nat)
    requires forall j :: i < j < |marks| ==> marks[j] == "failed"
    requires i < |marks| && marks[i] != "failed"
    ensures ActualName(marks) == marks[i]
    decreases |marks|
  {
    if i < |marks| - 1 { NameAt(marks[..|marks| - 1], i); }
  }

  lemma MarksGiveOperation(op: Operation, failed: bool)
    requires op.actualName != "failed" && (failed ==> op.failed)
    ensures WithMarks(op.primitive, failed, OpMarks(op)) == op
  {
    var name := op.actualName;
    assert ActualName([]) == "";
    assert [name][..0] == [] && [name, "failed"][..1] == [name] && ["failed"][..0] == [];
    assert [name] + ["failed"] == [name, "failed"] && [name] + [] == [name] && [] + ["failed"] == ["failed"];
    assert ActualName([name]) == name;
  }

  // ----- Operations come back

  lemma PathEffectParses(dirfd: nat, path: string, effect: EffectType, rest: Tokens)
    requires Fits(dirfd)
    ensures ParsePathEffect(Cons(DirfdToken(dirfd), Cons(Ident(path), Cons(EffectToken(effect), rest))))
         == Some(((dirfd, path, effect), rest))
  {
    NumberParses(dirfd, Cons(Ident(path), Cons(EffectToken(effect), rest)));
    EffectParses(effect, rest);
  }

  lemma TwoPathsParse(oldDirfd: nat, oldPath: string, newDirfd: nat, newPath: string, rest: Tokens)
    requires Fits(oldDirfd) && Fits(newDirfd)
    ensures ParseTwoPaths(
              Cons(DirfdToken(oldDirfd), Cons(Ident(oldPath), Cons(DirfdToken(newDirfd), Cons(Ident(newPath), rest)))))
         == Some(((oldDirfd, oldPath, newDirfd, newPath), rest))
  {
    NumberParses(oldDirfd, Cons(Ident(oldPath), Cons(DirfdToken(newDirfd), Cons(Ident(newPath), rest))));
    NumberParses(newDirfd, Cons(Ident(newPath), rest));
  }

  lemma NewFdParses(dirfd: nat, path: string, fd: int, failed: bool, marks: seq<string>, rest: Tokens)
    requires Fits(dirfd) && (if failed then fd == -1 else 0 <= fd <= INT_MAX)
    requires AreMarks(marks) && marks != [] && NoBang(rest)
    ensures
      var line := if failed then [DirfdToken(dirfd), Ident(path)]
        else [DirfdToken(dirfd), Ident(path), NumberToken(fd)];
      ParseNewFd(LineTokens(line, marks, rest)) == Some(((NewFd(dirfd, path, fd), failed, marks), rest))
  {
    var t := MarksTokens(marks, rest);
    MarksParse(marks, rest);
    if failed {
      TwoTokens(DirfdToken(dirfd), Ident(path), t);
      NumberParses(dirfd, Cons(Ident(path), t));
    } else {
      ThreeTokens(DirfdToken(dirfd), Ident(path), NumberToken(fd), t);
      NumberParses(dirfd, Cons(Ident(path), Cons(NumberToken(fd), t)));
      NumberParses(fd, t);
    }
  }

  lemma NewFdOpParses(op: Operation, rest: Tokens)
    requires op.primitive.NewFd? && PrintableOp(op) && NoBang(rest)
    ensures ParseOper(OpTokens(op, rest)) == Some((op, rest))
  {
    var NewFd(dirfd, path, fd) := op.primitive;
    NewFdParses(dirfd, path, fd, op.failed, OpMarks(op), rest);
    MarksGiveOperation(op, op.failed);
    var line := OpLine(op);
    assert line[1..] == if op.failed then [DirfdToken(dirfd), Ident(path)]
      else [DirfdToken(dirfd), Ident(path), NumberToken(fd)];
  }

  lemma SymlinkLineParses(dirfd: nat, path: string, target: string, marks: seq<string>, rest: Tokens)
    requires Fits(dirfd) && AreMarks(marks) && marks != [] && NoBang(rest)
    ensures ParseOperParts(Prepend([Key(SYMLINK), DirfdToken(dirfd), Ident(path), Ident(target)],
                                   MarksTokens(marks, rest)))
         == Some(((Symlink(dirfd, path, target), false, marks), rest))
  {
    var t := MarksTokens(marks, rest);
    MarksParse(marks, rest);
    FourTokens(Key(SYMLINK), DirfdToken(dirfd), Ident(path), Ident(target), t);
    NumberParses(dirfd, Cons(Ident(path), Cons(Ident(target), t)));
  }

  lemma SymlinkParses(op: Operation, rest: Tokens)
    requires op.primitive.Symlink? && PrintableOp(op) && NoBang(rest)
    ensures ParseOper(OpTokens(op, rest)) == Some((op, rest))
  {
    var Symlink(dirfd, path, target) := op.primitive;
    SymlinkLineParses(dirfd, path, target, OpMarks(op), rest);
    OperFromParts(OpTokens(op, rest), (op.primitive, false, OpMarks(op)), rest);
    MarksGiveOperation(op, false);
  }

  lemma DelFdParses(op: Operation, rest: Tokens)
    requires op.primitive.DelFd? && PrintableOp(op) && NoBang(rest)
    ensures ParseOper(OpTokens(op, rest)) == Some((op, rest))
  {
    var (fd, marks) := (op.primitive.fd, MarksTokens(OpMarks(op), rest));
    MarksParse(OpMarks(op), rest);
    MarksGiveOperation(op, false);
    TwoTokens(Key(DELFD), NumberToken(fd), marks);
    NumberParses(fd, marks);
  }

  lemma PathOpParses(op: Operation, rest: Tokens)
    requires (op.primitive.Hpath? || op.primitive.HpathSym?) && PrintableOp(op) && NoBang(rest)
    ensures ParseOper(OpTokens(op, rest)) == Some((op, rest))
  {
    var (p, marks) := (op.primitive, MarksTokens(OpMarks(op), rest));
    MarksParse(OpMarks(op), rest);
    MarksGiveOperation(op, false);
    FourTokens(OpLine(op)[0], DirfdToken(p.dirfd), Ident(p.path), EffectToken(p.effect), marks);
    PathEffectParses(p.dirfd, p.path, p.effect, marks);
  }

  lemma OperFromParts(ts: Tokens, parts: OperParts, rest: Tokens)
    requires ParseOperParts(ts) == Some((parts, rest))
    ensures ParseOper(ts) == Some((WithMarks(parts.0, parts.1, parts.2), rest))
  {
  }

  lemma LinkLineParses(d1: nat, p1: string, d2: nat, p2: string, marks: seq<string>, rest: Tokens)
    requires Fits(d1) && Fits(d2) && AreMarks(marks) && marks != [] && NoBang(rest)
    ensures ParseOperParts(Prepend([Key(LINK), DirfdToken(d1), Ident(p1), DirfdToken(d2), Ident(p2)],
                                   MarksTokens(marks, rest)))
         == Some(((Link(d1, p1, d2, p2), false, marks), rest))
  {
    var t := MarksTokens(marks, rest);
    MarksParse(marks, rest);
    FiveTokens(Key(LINK), DirfdToken(d1), Ident(p1), DirfdToken(d2), Ident(p2), t);
    TwoPathsParse(d1, p1, d2, p2, t);
  }

  lemma RenameLineParses(d1: nat, p1: string, d2: nat, p2: string, marks: seq<string>, rest: Tokens)
    requires Fits(d1) && Fits(d2) && AreMarks(marks) && marks != [] && NoBang(rest)
    ensures ParseOperParts(Prepend([Key(RENAME), DirfdToken(d1), Ident(p1), DirfdToken(d2), Ident(p2)],
                                   MarksTokens(marks, rest)))
         == Some(((Rename(d1, p1, d2, p2), false, marks), rest))
  {
    var t := MarksTokens(marks, rest);
    MarksParse(marks, rest);
    FiveTokens(Key(RENAME), DirfdToken(d1), Ident(p1), DirfdToken(d2), Ident(p2), t);
    TwoPathsParse(d1, p1, d2, p2, t);
  }

  lemma TwoPathOpParses(op: Operation, rest: Tokens)
    requires (op.primitive.Link? || op.primitive.Rename?) && PrintableOp(op) && NoBang(rest)
    ensures ParseOper(OpTokens(op, rest)) == Some((op, rest))
  {
    MarksGiveOperation(op, false);
    match op.primitive
    case Link(d1, p1, d2, p2) =>
      LinkLineParses(d1, p1, d2, p2, OpMarks(op), rest);
      OperFromParts(OpTokens(op, rest), (op.primitive, false, OpMarks(op)), rest);
    case Rename(d1, p1, d2, p2) =>
      RenameLineParses(d1, p1, d2, p2, OpMarks(op), rest);
      OperFromParts(OpTokens(op, rest), (op.primitive, false, OpMarks(op)), rest);
  }

  lemma OperParses(op: Operation, rest: Tokens)
    requires PrintableOp(op) && NoBang(rest)
    ensures ParseOper(OpTokens(op, rest)) == Some((op, rest))
  {
    match op.primitive
    case DelFd(_) => DelFdParses(op, rest);
    case Hpath(_, _, _) => PathOpParses(op, rest);
    case HpathSym(_, _, _) => PathOpParses(op, rest);
    case Link(_, _, _, _) => TwoPathOpParses(op, rest);
    case NewFd(_, _, _) => NewFdOpParses(op, rest);
    case Rename(_, _, _, _) => TwoPathOpParses(op, rest);
    case Symlink(_, _, _) => SymlinkParses(op, rest);
  }

  predicate StartsWithKey(ts: Tokens) {
    ts.Cons? && ts.head.Key?
  }

  lemma OpStartsWithKey(op: Operation, rest: Tokens)
    ensures StartsWithKey(OpTokens(op, rest)) && OpTokens(op, rest).head != Key(DONE)
  {
  }

  lemma OperThenRest(ts: Tokens, op: Operation, t: Tokens, ops: seq<Operation>, rest: Tokens)
    requires StartsWithKey(ts) && ts.head != Key(DONE)
    requires ParseOper(ts) == Some((op, t)) && ParseOpers(t) == Some((ops, rest))
    ensures ParseOpers(ts) == Some(([op] + ops, rest))
  {
  }

  lemma OneMoreOper(op: Operation, more: seq<Operation>, rest: Tokens)
    requires PrintableOp(op) && ParseOpers(OpsTokens(more, rest)) == Some((more, rest))
    requires StartsWithKey(OpsTokens(more, rest))
    ensures var ts := OpTokens(op, OpsTokens(more, rest));
      ParseOpers(ts) == Some(([op] + more, rest)) && StartsWithKey(ts)
  {
    var tail := OpsTokens(more, rest);
    OperParses(op, tail);
    OpStartsWithKey(op, tail);
    OperThenRest(OpTokens(op, tail), op, tail, more, rest);
  }

  lemma {:induction false} OpersParse(ops: seq<Operation>, rest: Tokens)
    requires forall op :: op in ops ==> PrintableOp(op)
    requires StartsWithKey(rest) && rest.head == Key(DONE)
    ensures ParseOpers(OpsTokens(ops, rest)) == Some((ops, rest)) && StartsWithKey(OpsTokens(ops, rest))
    decreases |ops|
  {
    if ops != [] {
      var op, more := ops[0], ops[1..];
      assert op in ops && forall o :: o in more ==> o in ops;
      OpersParse(more, rest);
      OneMoreOper(op, more, rest);
      assert [op] + more == ops;
    }
  }

  lemma ExecOpParses(e: ExecOp, rest: Tokens)
    requires PrintableExecOp(e)
    ensures ParseExecOp(ExecOpTokens(e, rest)) == Some((e, rest))
    ensures StartsWithKey(ExecOpTokens(e, rest)) && ExecOpTokens(e, rest).head == Key(OPERATION)
  {
    OneToken(Key(DONE), rest);
    var done := Cons(Key(DONE), rest);
    ThreeTokens(Key(OPERATION), OpId(e.id), Key(DO), OpsTokens(e.operations, done));
    OpersParse(e.operations, done);
  }

  predicate AfterOperations(ts: Tokens) {
    ts.Cons? ==> ts.head != Key(OPERATION)
  }

  lemma {:induction false} ExecOpsParse(es: seq<ExecOp>, rest: Tokens)
    requires forall e :: e in es ==> PrintableExecOp(e)
    requires AfterOperations(rest)
    ensures ParseExecOps(ExecOpsTokens(es, rest)) == Some((es, rest))
    decreases |es|
  {
    if es != [] {
      ExecOpsParse(es[1..], rest);
      ExecOpParses(es[0], ExecOpsTokens(es[1..], rest));
      assert [es[0]] + es[1..] == es;
    }
  }

  // ----- Expressions come back

  lemma EventParses(e: Event, rest: Tokens)
    requires PrintableEvent(e)
    ensures ParseEvent(Prepend(EventLine(e), rest)) == Some((e, rest))
  {
    NumberParses(e.eventValue, rest);
    if e.eventType == EXT {
      OneToken(Key(EXTERNAL), rest);
    } else {
      TwoTokens(EventLine(e)[0], NumberToken(e.eventValue), rest);
    }
  }

  lemma NewEventParses(e: Expr, rest: Tokens)
    requires PrintableExpr(e) && e.NewEventExpr? && NoBang(rest)
    ensures ParseExpr(ExprTokens(e, rest)) == Some((e, rest))
  {
    var (line, marks) := (EventLine(e.event), MarksTokens(e.tags, rest));
    TwoAndMore(Key(NEW_EVENT), NumberToken(e.eventId), line, marks);
    NumberParses(e.eventId, Prepend(line, marks));
    EventParses(e.event, marks);
    if e.tags != [] { MarksParse(e.tags, rest); }
  }

  lemma SyncParses(opId: string, tags: seq<string>, rest: Tokens)
    requires AreMarks(tags) && tags != [] && NoBang(rest)
    ensures ParseExpr(Cons(Key(SUBMIT_OP), Cons(OpId(opId), Cons(Key(SYNC), MarksTokens(tags, rest)))))
         == Some((SubmitOp(opId, None, tags), rest))
  {
    MarksParse(tags, rest);
  }

  lemma AsyncParses(opId: string, n: nat, tags: seq<string>, rest: Tokens)
    requires AreMarks(tags) && tags != [] && NoBang(rest) && Fits(n)
    ensures ParseExpr(Cons(Key(SUBMIT_OP), Cons(OpId(opId), Cons(NumberToken(n),
                                                                 Cons(Key(ASYNC), MarksTokens(tags, rest))))))
         == Some((SubmitOp(opId, Some(n), tags), rest))
  {
    MarksParse(tags, rest);
    NumberParses(n, Cons(Key(ASYNC), MarksTokens(tags, rest)));
  }

  lemma SubmitOpParses(e: Expr, rest: Tokens)
    requires PrintableExpr(e) && e.SubmitOp? && NoBang(rest)
    ensures ParseExpr(ExprTokens(e, rest)) == Some((e, rest))
  {
    var marks := MarksTokens(e.tags, rest);
    match e.submitted
    case Some(n) =>
      FourTokens(Key(SUBMIT_OP), OpId(e.opId), NumberToken(n), Key(ASYNC), marks);
      AsyncParses(e.opId, n, e.tags, rest);
    case None =>
      ThreeTokens(Key(SUBMIT_OP), OpId(e.opId), Key(SYNC), marks);
      SyncParses(e.opId, e.tags, rest);
  }

  lemma ExprParses(e: Expr, rest: Tokens)
    requires PrintableExpr(e) && NoBang(rest)
    ensures ParseExpr(ExprTokens(e, rest)) == Some((e, rest))
  {
    match e
    case NewEventExpr(_, _, _) => NewEventParses(e, rest);
    case LinkExpr(m, n) =>
      ThreeTokens(Key(LINK), NumberToken(m), NumberToken(n), rest);
      NumberParses(m, Cons(NumberToken(n), rest));
      NumberParses(n, rest);
    case TriggerExpr(n) =>
      TwoTokens(Key(TRIGGER), NumberToken(n), rest);
      NumberParses(n, rest);
    case SubmitOp(_, _, _) => SubmitOpParses(e, rest);
  }

  lemma ExprStartsWithKey(e: Expr, rest: Tokens)
    ensures StartsWithKey(ExprTokens(e, rest)) && ExprTokens(e, rest).head != Key(END)
  {
  }

  lemma ExprThenRest(ts: Tokens, e: Expr, t: Tokens, es: seq<Expr>, rest: Tokens)
    requires StartsWithKey(ts) && ts.head != Key(END)
    requires ParseExpr(ts) == Some((e, t)) && ParseExprs(t) == Some((es, rest))
    ensures ParseExprs(ts) == Some(([e] + es, rest))
  {
  }

  lemma {:induction false} ExprsParse(es: seq<Expr>, rest: Tokens)
    requires forall e :: e in es ==> PrintableExpr(e)
    requires StartsWithKey(rest) && rest.head == Key(END)
    ensures ParseExprs(ExprsTokens(es, rest)) == Some((es, rest)) && StartsWithKey(ExprsTokens(es, rest))
    decreases |es|
  {
    if es != [] {
      var tail := ExprsTokens(es[1..], rest);
      ExprsParse(es[1..], rest);
      ExprParses(es[0], tail);
      ExprStartsWithKey(es[0], tail);
      ExprThenRest(ExprTokens(es[0], tail), es[0], tail, es[1..], rest);
      assert [es[0]] + es[1..] == es;
    }
  }

  // ----- Blocks come back

  lemma BlockParses(b: Block, rest: Tokens)
    requires PrintableBlock(b) && Dumped(b)
    ensures ParseBlock(BlockTokens(b, rest)) == Some((b, rest))
    ensures StartsWithKey(BlockTokens(b, rest)) && BlockTokens(b, rest).head == Key(BEGIN)
  {
    OneToken(Key(END), rest);
    var end := Cons(Key(END), rest);
    var exprs := ExprsTokens(b.exprs, end);
    ExprsParse(b.exprs, end);
    NumberParses(b.blockId, exprs);
    if b.isMain {
      ThreeTokens(Key(BEGIN), Key(MAIN_), NumberToken(b.blockId), exprs);
    } else {
      TwoTokens(Key(BEGIN), NumberToken(b.blockId), exprs);
    }
  }

  lemma BlockStep(ts: Tokens, b: Block, rest: Tokens, bs: seq<Block>)
    requires ParseBlock(ts) == Some((b, rest))
    requires StartsWithKey(ts) && ts.head == Key(BEGIN) && ParseBlocks(rest) == Some(bs)
    ensures ParseBlocks(ts) == Some([b] + bs) && AfterOperations(ts)
  {
  }

  lemma {:induction false} BlocksParse(bs: seq<Block>)
    requires forall b :: b in bs ==> PrintableBlock(b)
    ensures ParseBlocks(BlocksTokens(bs, Nil)) == Some(DumpedBlocks(bs))
    ensures AfterOperations(BlocksTokens(bs, Nil)) && (BlocksTokens(bs, Nil).Nil? <==> DumpedBlocks(bs) == [])
    decreases |bs|
  {
    if bs != [] {
      var tail, more := BlocksTokens(bs[1..], Nil), DumpedBlocks(bs[1..]);
      BlocksParse(bs[1..]);
      if Dumped(bs[0]) {
        BlockParses(bs[0], tail);
        BlockStep(BlockTokens(bs[0], tail), bs[0], tail, more);
      } else {
        assert [] + more == more;
      }
    }
  }

  // ----- The whole trace comes back

  lemma StatParses(name: string, n: nat, rest: Tokens)
    ensures ParseStat(StatTokens(name, n, rest)) == Some(rest)
    ensures MoreStats(StatTokens(name, n, rest)) == MoreStats(rest)
  {
  }

  lemma HeaderParses(t: Trace, rest: Tokens)
    requires Fits(t.threadId)
    ensures ParseHeader(HeaderTokens(t, rest)) == Some(((t.threadId, t.cwd), rest))
  {
    NumberParses(t.threadId, Cons(Cwd, Cons(Colon, Cons(Ident(t.cwd), rest))));
  }

  lemma PreambleParses(a: string, i: nat, b: string, j: nat, c: string, k: nat, t: Trace, rest: Tokens)
    requires Fits(t.threadId)
    ensures ParseProgram(StatTokens(a, i, StatTokens(b, j, StatTokens(c, k, HeaderTokens(t, rest)))))
         == ParseBody(t.threadId, t.cwd, rest)
  {
    var header := HeaderTokens(t, rest);
    StatParses(a, i, StatTokens(b, j, StatTokens(c, k, header)));
    StatParses(b, j, StatTokens(c, k, header));
    StatParses(c, k, header);
    HeaderParses(t, rest);
  }

  /** Parsing a dump gives the trace without its empty MAIN blocks, unless just
      one of the two parts of the trace is then empty: the grammar has no such
      trace. */
  lemma ParseOfDump(t: Trace)
    requires Printable(t)
    ensures Parse(Dump(t)) ==
      if (t.execOps == []) == (DumpedBlocks(t.blocks) == []) then Some(t.(blocks := DumpedBlocks(t.blocks))) else None
  {
    LexDump(t);
    BodyParses(t);
    PreambleParses("Blocks", |t.blocks|, "Operations", |t.execOps|, "Entries", Entries(t), t,
                   ExecOpsTokens(t.execOps, BlocksTokens(t.blocks, Nil)));
  }

  lemma BodyParses(t: Trace)
    requires Printable(t)
    ensures ParseBody(t.threadId, t.cwd, ExecOpsTokens(t.execOps, BlocksTokens(t.blocks, Nil))) ==
      if (t.execOps == []) == (DumpedBlocks(t.blocks) == []) then Some(t.(blocks := DumpedBlocks(t.blocks))) else None
  {
    var blocks := BlocksTokens(t.blocks, Nil);
    BlocksParse(t.blocks);
    ExecOpsParse(t.execOps, blocks);
    if t.execOps != [] { ExecOpParses(t.execOps[0], ExecOpsTokens(t.execOps[1..], blocks)); }
  }

  lemma StatsSkipped(a: string, i: nat, b: string, j: nat, c: string, k: nat, t: Trace, rest: Tokens)
    ensures MoreStats(StatTokens(a, i, StatTokens(b, j, StatTokens(c, k, HeaderTokens(t, rest)))))
      == Some(HeaderTokens(t, rest))
  {
    var header := HeaderTokens(t, rest);
    StatParses(a, i, StatTokens(b, j, StatTokens(c, k, header)));
    StatParses(b, j, StatTokens(c, k, header));
    StatParses(c, k, header);
  }

  /** The header, the groups of operations and the blocks, read one after the other. */
  lemma PartsParse(t: Trace)
    requires Printable(t)
    ensures
      var body := ExecOpsTokens(t.execOps, BlocksTokens(t.blocks, Nil));
      && MoreStats(DumpTokensOf(t)) == Some(HeaderTokens(t, body))
      && ParseExecOps(body) == Some((t.execOps, BlocksTokens(t.blocks, Nil)))
      && ParseBlocks(BlocksTokens(t.blocks, Nil)) == Some(DumpedBlocks(t.blocks))
  {
    StatsSkipped("Blocks", |t.blocks|, "Operations", |t.execOps|, "Entries", Entries(t), t,
                 ExecOpsTokens(t.execOps, BlocksTokens(t.blocks, Nil)));
    BlocksParse(t.blocks);
    ExecOpsParse(t.execOps, BlocksTokens(t.blocks, Nil));
  }

  /** The dump tells apart all traces it can print, but for empty MAIN blocks. */
  lemma DumpIsInjective(t: Trace, u: Trace)
    requires Printable(t) && Printable(u)
    ensures Dump(t) == Dump(u) ==> t.(blocks := DumpedBlocks(t.blocks)) == u.(blocks := DumpedBlocks(u.blocks))
  {
    LexDump(t);
    LexDump(u);
    if DumpTokensOf(t) == DumpTokensOf(u) { SameTokensSameTrace(t, u); }
  }

  lemma SameTokensSameTrace(t: Trace, u: Trace)
    requires Printable(t) && Printable(u) && DumpTokensOf(t) == DumpTokensOf(u)
    ensures t.(blocks := DumpedBlocks(t.blocks)) == u.(blocks := DumpedBlocks(u.blocks))
  {
    PartsParse(t);
    PartsParse(u);
    NumberParses(t.threadId, Nil);
    NumberParses(u.threadId, Nil);
  }
}
