/** The tokens of a dumped trace: what the lexer makes of the printer's text. */
module DumpTokens {
  import opened Common
  import opened Traces
  import opened TraceLexer
  import opened TraceParser
  import opened TracePrinter

  // ----- What can be printed so that it can be read again

  /** Lexes as one IDENTIFIER: no other rule matches as much. */
  ghost predicate IsName(w: string) {
    Applies(w, IdentRule, |w|)
  }

  /** The largest `int` of 32 bits. */
  predicate Fits(n: nat) {
    n <= 2147483647
  }

  /** A meta variable; `rename` may come first. */
  ghost predicate IsMark(w: string) {
    IsName(w) && !("PID" <= w)
  }

  ghost predicate AreMarks(marks: seq<string>) {
    forall i :: 0 <= i < |marks| ==> IsMark(marks[i]) || (i == 0 && marks[i] == Text(RENAME))
  }

  ghost predicate PrintablePrimitive(p: Primitive, failed: bool) {
    match p
    case DelFd(fd) => Fits(fd)
    case Hpath(dirfd, path, _) => Fits(dirfd) && IsName(path)
    case HpathSym(dirfd, path, _) => Fits(dirfd) && IsName(path)
    case Link(oldDirfd, oldPath, newDirfd, newPath) =>
      Fits(oldDirfd) && IsName(oldPath) && Fits(newDirfd) && IsName(newPath)
    case NewFd(dirfd, path, fd) =>
      Fits(dirfd) && IsName(path) && (if failed then fd == -1 else 0 <= fd <= 2147483647)
    case Rename(oldDirfd, oldPath, newDirfd, newPath) =>
      Fits(oldDirfd) && IsName(oldPath) && Fits(newDirfd) && IsName(newPath)
    case Symlink(dirfd, path, target) => Fits(dirfd) && IsName(path) && IsName(target)
  }

  /** An operation has an actual name, or at least has failed. */
  ghost predicate PrintableOp(op: Operation) {
    && PrintablePrimitive(op.primitive, op.failed)
    && AreMarks(OpMarks(op)) && OpMarks(op) != [] && op.actualName != "failed"
  }

  ghost predicate PrintableExecOp(e: ExecOp) {
    IsOpId(e.id) && forall op :: op in e.operations ==> PrintableOp(op)
  }

  predicate PrintableEvent(e: Event) {
    Fits(e.eventValue) && e.eventType != MAIN && (e.eventType == EXT ==> e.eventValue == 0)
  }

  ghost predicate PrintableExpr(e: Expr) {
    match e
    case NewEventExpr(n, event, tags) => Fits(n) && PrintableEvent(event) && AreMarks(tags)
    case LinkExpr(m, n) => Fits(m) && Fits(n)
    case TriggerExpr(n) => Fits(n)
    case SubmitOp(opId, submitted, tags) =>
      IsOpId(opId) && (submitted.Some? ==> Fits(submitted.value)) && AreMarks(tags) && tags != []
  }

  ghost predicate PrintableBlock(b: Block) {
    Fits(b.blockId) && forall e :: e in b.exprs ==> PrintableExpr(e)
  }

  ghost predicate Printable(t: Trace) {
    && Fits(t.threadId) && IsName(t.cwd)
    && (forall e :: e in t.execOps ==> PrintableExecOp(e))
    && (forall b :: b in t.blocks ==> PrintableBlock(b))
  }

  // ----- The tokens of each part of the text, before those of the rest

  function NumberToken(n: nat): Token {
    Number(ToString(n))
  }

  function DirfdToken(n: nat): Token {
    if n == 0 then Key(ATFDCWD) else NumberToken(n)
  }

  function EffectKey(effect: EffectType): Keyword {
    match effect
    case PRODUCED => PRODUCED_
    case CONSUMED => CONSUMED_
    case EXPUNGED => EXPUNGED_
  }

  function EffectToken(effect: EffectType): Token {
    Key(EffectKey(effect))
  }

  function MarkToken(m: string): Token {
    if m == Text(RENAME) then Key(RENAME) else Ident(m)
  }

  function MarksTokens(marks: seq<string>, rest: Tokens): Tokens {
    if marks == [] then rest else Cons(Bang, Cons(MarkToken(marks[0]), MarksTokens(marks[1..], rest)))
  }

  function OpLine(op: Operation): seq<Token> {
    match op.primitive
    case DelFd(fd) => [Key(DELFD), NumberToken(fd)]
    case Hpath(dirfd, path, effect) => [Key(HPATH), DirfdToken(dirfd), Ident(path), EffectToken(effect)]
    case HpathSym(dirfd, path, effect) => [Key(HPATHSYM), DirfdToken(dirfd), Ident(path), EffectToken(effect)]
    case Link(oldDirfd, oldPath, newDirfd, newPath) =>
      [Key(LINK), DirfdToken(oldDirfd), Ident(oldPath), DirfdToken(newDirfd), Ident(newPath)]
    case NewFd(dirfd, path, fd) =>
      if op.failed || fd < 0 then [Key(NEWFD), DirfdToken(dirfd), Ident(path)]
      else [Key(NEWFD), DirfdToken(dirfd), Ident(path), NumberToken(fd)]
    case Rename(oldDirfd, oldPath, newDirfd, newPath) =>
      [Key(RENAME), DirfdToken(oldDirfd), Ident(oldPath), DirfdToken(newDirfd), Ident(newPath)]
    case Symlink(dirfd, path, target) => [Key(SYMLINK), DirfdToken(dirfd), Ident(path), Ident(target)]
  }

  function Prepend(tokens: seq<Token>, rest: Tokens): Tokens {
    if tokens == [] then rest else Cons(tokens[0], Prepend(tokens[1..], rest))
  }

  function LineTokens(tokens: seq<Token>, marks: seq<string>, rest: Tokens): Tokens {
    Prepend(tokens, MarksTokens(marks, rest))
  }

  function OpTokens(op: Operation, rest: Tokens): Tokens {
    LineTokens(OpLine(op), OpMarks(op), rest)
  }

  function OpsTokens(ops: seq<Operation>, rest: Tokens): Tokens {
    if ops == [] then rest else OpTokens(ops[0], OpsTokens(ops[1..], rest))
  }

  function ExecOpTokens(e: ExecOp, rest: Tokens): Tokens {
    LineTokens([Key(OPERATION), OpId(e.id), Key(DO)], [], OpsTokens(e.operations, LineTokens([Key(DONE)], [], rest)))
  }

  function ExecOpsTokens(es: seq<ExecOp>, rest: Tokens): Tokens {
    if es == [] then rest else ExecOpTokens(es[0], ExecOpsTokens(es[1..], rest))
  }

  function EventLine(e: Event): seq<Token> {
    match e.eventType
    case S => [Key(S_), NumberToken(e.eventValue)]
    case M => [Key(M_), NumberToken(e.eventValue)]
    case W => [Key(W_), NumberToken(e.eventValue)]
    case MAIN => [Key(MAIN_)]
    case EXT => [Key(EXTERNAL)]
  }

  function ExprLine(e: Expr): seq<Token> {
    match e
    case NewEventExpr(n, event, _) => [Key(NEW_EVENT), NumberToken(n)] + EventLine(event)
    case LinkExpr(m, n) => [Key(LINK), NumberToken(m), NumberToken(n)]
    case TriggerExpr(n) => [Key(TRIGGER), NumberToken(n)]
    case SubmitOp(opId, submitted, _) =>
      match submitted
      case Some(n) => [Key(SUBMIT_OP), OpId(opId), NumberToken(n), Key(ASYNC)]
      case None => [Key(SUBMIT_OP), OpId(opId), Key(SYNC)]
  }

  function ExprTokens(e: Expr, rest: Tokens): Tokens {
    LineTokens(ExprLine(e), ExprMarks(e), rest)
  }

  function ExprsTokens(es: seq<Expr>, rest: Tokens): Tokens {
    if es == [] then rest else ExprTokens(es[0], ExprsTokens(es[1..], rest))
  }

  function BeginLine(b: Block): seq<Token> {
    if b.isMain then [Key(BEGIN), Key(MAIN_), NumberToken(b.blockId)] else [Key(BEGIN), NumberToken(b.blockId)]
  }

  function BlockTokens(b: Block, rest: Tokens): Tokens {
    if !Dumped(b) then rest
    else LineTokens(BeginLine(b), [], ExprsTokens(b.exprs, LineTokens([Key(END)], [], rest)))
  }

  function BlocksTokens(bs: seq<Block>, rest: Tokens): Tokens {
    if bs == [] then rest else BlockTokens(bs[0], BlocksTokens(bs[1..], rest))
  }

  function StatTokens(name: string, n: nat, rest: Tokens): Tokens {
    Cons(Bang, Cons(Ident(name), Cons(Colon, Cons(NumberToken(n), rest))))
  }

  function HeaderTokens(t: Trace, rest: Tokens): Tokens {
    Cons(Pid, Cons(Colon, Cons(NumberToken(t.threadId), Cons(Cwd, Cons(Colon, Cons(Ident(t.cwd), rest))))))
  }

  // ----- Single words

  predicate StartsBlank(s: string) {
    s != "" && (s[0] == ' ' || s[0] == '\n')
  }

  /** Before a blank, the word is one token. */
  ghost predicate Lexes(w: string, t: Token) {
    forall rest :: StartsBlank(rest) ==> Lex(w + rest) == Cons(t, Lex(rest))
  }

  lemma NameFacts(w: string)
    requires IsName(w)
    ensures IsIdent(w) && WordToken(w) == Ident(w)
    ensures forall k :: Text(k) != w
  {
    var n := |w|;
    assert w[..n] == w;
    assert MatchesUpTo(w, IdentRule, n);
    forall k ensures Text(k) != w {
      assert MatchesUpTo(w, KeyRule(k), n) <==> Text(k) == w;
    }
    assert MatchesUpTo(w, OpIdRule, n) <==> IsOpId(w);
  }

  /** Exactly which words are names: they start with a letter or one of four other
      characters, hold no blank, colon or line end, and are neither a keyword nor
      the identifier of a group of operations. */
  lemma NamesExactly(w: string)
    ensures IsName(w) <==>
      && w != ""
      && ('a' <= w[0] <= 'z' || 'A' <= w[0] <= 'Z' || w[0] in {'/', '.', '_', '-'})
      && (forall i :: 0 <= i < |w| ==> w[i] != ' ' && w[i] != ':' && w[i] != '\n')
      && (forall k :: Text(k) != w)
      && !("sync_" <= w && w != "sync_" && forall i :: 5 <= i < |w| ==> '0' <= w[i] <= '9')
      && !("async_" <= w && w != "async_" && forall i :: 6 <= i < |w| ==> '0' <= w[i] <= '9')
  {
    var n := |w|;
    assert w[..n] == w;
    OpIdExactly(w);
    if IsName(w) {
      NameFacts(w);
      assert MatchesUpTo(w, OpIdRule, n) <==> IsOpId(w) && n >= 1;
    }
    if IsIdent(w) && !IsOpId(w) && forall k :: Text(k) != w { IdentIsName(w); }
  }

  lemma IdentIsName(w: string)
    requires IsIdent(w) && !IsOpId(w) && forall k :: Text(k) != w
    ensures IsName(w)
  {
    var n := |w|;
    assert w[..n] == w;
    forall r, m: nat | MatchesUpTo(w, r, m) ensures m < n || (m == n && Order(IdentRule) <= Order(r)) {
    }
  }

  lemma OpIdExactly(w: string)
    ensures IsOpId(w) <==>
      || ("sync_" <= w && w != "sync_" && forall i :: 5 <= i < |w| ==> '0' <= w[i] <= '9')
      || ("async_" <= w && w != "async_" && forall i :: 6 <= i < |w| ==> '0' <= w[i] <= '9')
  {
    if "sync_" <= w { assert forall i :: 5 <= i < |w| ==> w[i] == w[5..][i - 5]; }
    if "async_" <= w { assert forall i :: 6 <= i < |w| ==> w[i] == w[6..][i - 6]; }
  }

  lemma NameLexes(w: string)
    requires IsName(w)
    ensures Lexes(w, Ident(w))
  {
    NameFacts(w);
    forall rest | StartsBlank(rest) ensures Lex(w + rest) == Cons(Ident(w), Lex(rest)) {
      LexWord(w, rest);
    }
  }

  lemma KeyLexes(k: Keyword)
    ensures IsIdent(Text(k)) && WordToken(Text(k)) == Key(k) && Lexes(Text(k), Key(k))
  {
    var w := Text(k);
    TextIsIdent(k);
    TextIsKeyword(k);
    forall rest | StartsBlank(rest) ensures Lex(w + rest) == Cons(Key(k), Lex(rest)) {
      LexWord(w, rest);
    }
  }

  lemma {:induction false} NumbersRead(n: nat)
    ensures IsNumber(ToString(n)) && Decimal(ToString(n)) == n
    decreases n
  {
    if n < 10 {
      assert ToString(n)[..0] == "";
    } else {
      NumbersRead(n / 10);
      var w := ToString(n);
      assert w[..|w| - 1] == ToString(n / 10);
    }
  }

  lemma NumberLexes(n: nat)
    ensures Lexes(ToString(n), NumberToken(n))
  {
    var w := ToString(n);
    NumbersRead(n);
    forall rest | StartsBlank(rest) ensures Lex(w + rest) == Cons(Number(w), Lex(rest)) {
      LexNumber(w, rest);
    }
  }

  lemma KeywordIsNoOpId(k: Keyword)
    ensures !IsOpId(Text(k))
  {
    var w := Text(k);
    assert !(|w| > 4 && w[4] == '_') && !(|w| > 5 && w[5] == '_') by {
      match k
      case _ =>
    }
  }

  lemma OpIdLexes(w: string)
    requires IsOpId(w)
    ensures Lexes(w, OpId(w))
  {
    OpIdIsIdent(w);
    assert WordToken(w) == OpId(w) by {
      if KeywordOf(w).Some? { KeywordIsNoOpId(KeywordOf(w).value); }
    }
    forall rest | StartsBlank(rest) ensures Lex(w + rest) == Cons(OpId(w), Lex(rest)) {
      LexWord(w, rest);
    }
  }

  lemma WordIsKey(w: string, k: Keyword)
    requires w == Text(k)
    ensures Lexes(w, Key(k))
  {
    KeyLexes(k);
  }

  lemma DirfdLexes(n: nat)
    ensures Lexes(DirfdToString(n), DirfdToken(n))
  {
    if n == 0 {
      WordIsKey(DirfdToString(n), ATFDCWD);
    } else {
      NumberLexes(n);
    }
  }

  lemma EffectText(effect: EffectType)
    ensures EffToString(effect) == Text(EffectKey(effect))
  {
  }

  lemma EffectLexes(effect: EffectType)
    ensures Lexes(EffToString(effect), EffectToken(effect))
  {
    EffectText(effect);
    WordIsKey(EffToString(effect), EffectKey(effect));
  }

  // ----- Lines

  ghost predicate LexAs(words: seq<string>, tokens: seq<Token>) {
    |words| == |tokens| > 0 && forall i :: 0 <= i < |words| ==> Lexes(words[i], tokens[i])
  }

  lemma {:induction false} LexJoin(words: seq<string>, tokens: seq<Token>, rest: string)
    requires LexAs(words, tokens) && StartsBlank(rest)
    ensures Lex(Join(words) + rest) == Prepend(tokens, Lex(rest))
    decreases |words|
  {
    assert Lexes(words[0], tokens[0]);
    if |words| == 1 {
      assert tokens[1..] == [];
    } else {
      var tail := Join(words[1..]) + rest;
      ThreeAppended(words[0], " ", Join(words[1..]), rest);
      LexBlank(' ', tail);
      LexJoin(words[1..], tokens[1..], rest);
    }
  }

  lemma DifferAt(w: string, s: string, i: nat)
    requires i < |w| && i < |s| && s[i] != w[i]
    ensures !(w <= s)
  {
  }

  /** No fixed token starting with `!` but `!` itself begins at a mark. */
  lemma MarkIsNoKeyword(m: string, rest: string)
    requires IsIdent(m) && !("PID" <= m) && rest != ""
    requires rest[0] == '\n' || (|rest| >= 2 && rest[0] == ' ' && rest[1] == '!')
    ensures !("PID" <= m + rest) && !("Working Directory" <= m + rest)
  {
    var w, s := "Working Directory", m + rest;
    if |m| < 3 {
      assert s[|m|] == rest[0];
      DifferAt("PID", s, |m|);
    } else {
      assert s[..3] == m[..3];
    }
    if |m| < 7 {
      assert s[|m|] == rest[0];
      DifferAt(w, s, |m|);
    } else if |m| == 7 {
      assert s[7..] == rest && (s[7] == '\n' || s[8] == rest[1]);
      DifferAt(w, s, if rest[0] == '\n' then 7 else 8);
    } else {
      assert s[7] == m[7];
      DifferAt(w, s, 7);
    }
  }

  lemma MarkLexes(m: string)
    requires IsMark(m) || m == Text(RENAME)
    ensures IsIdent(m) && !("PID" <= m) && Lexes(m, MarkToken(m))
  {
    if m == Text(RENAME) {
      KeyLexes(RENAME);
    } else {
      NameFacts(m);
      NameLexes(m);
    }
  }

  lemma OneMarkLexes(m: string, tail: string)
    requires IsMark(m) || m == Text(RENAME)
    requires tail != "" && (tail[0] == '\n' || (|tail| >= 2 && tail[0] == ' ' && tail[1] == '!'))
    ensures Lex(" " + ("!" + (m + tail))) == Cons(Bang, Cons(MarkToken(m), Lex(tail)))
  {
    MarkLexes(m);
    LexBlank(' ', "!" + (m + tail));
    MarkIsNoKeyword(m, tail);
    LexBang(m + tail);
  }

  lemma {:induction false} LexMarks(marks: seq<string>, rest: string)
    requires forall i :: 0 <= i < |marks| ==> IsMark(marks[i]) || marks[i] == Text(RENAME)
    ensures Lex(MarksText(marks) + ("\n" + rest)) == MarksTokens(marks, Lex(rest))
    decreases |marks|
  {
    var end := "\n" + rest;
    if marks == [] {
      assert MarksText(marks) + end == end;
      LexBlank('\n', rest);
    } else {
      var m, tail := marks[0], MarksText(marks[1..]) + end;
      assert MarksText(marks) + end == " " + ("!" + (m + tail));
      assert tail[0] == '\n' || (tail[0] == ' ' && tail[1] == '!') by {
        if marks[1..] == [] { assert tail == end; }
      }
      OneMarkLexes(m, tail);
      LexMarks(marks[1..], rest);
    }
  }

  lemma LexLine(words: seq<string>, tokens: seq<Token>, marks: seq<string>, rest: string)
    requires LexAs(words, tokens) && AreMarks(marks)
    ensures Lex(Line(words, marks) + rest) == LineTokens(tokens, marks, Lex(rest))
  {
    var tail := MarksText(marks) + ("\n" + rest);
    assert Line(words, marks) + rest == Join(words) + tail;
    assert StartsBlank(tail) by {
      if marks == [] { assert tail == "\n" + rest; } else { assert tail[0] == ' '; }
    }
    LexJoin(words, tokens, tail);
    LexMarks(marks, rest);
  }

  lemma ThreeAppended(a: string, b: string, c: string, rest: string)
    ensures (a + (b + c)) + rest == a + (b + (c + rest))
  {
  }

  lemma ThreeLex(a: string, b: string, c: string, ta: Token, tb: Token, tc: Token)
    requires Lexes(a, ta) && Lexes(b, tb) && Lexes(c, tc)
    ensures LexAs([a, b, c], [ta, tb, tc])
  {
  }

  lemma FourLex(a: string, b: string, c: string, d: string, ta: Token, tb: Token, tc: Token, td: Token)
    requires Lexes(a, ta) && Lexes(b, tb) && Lexes(c, tc) && Lexes(d, td)
    ensures LexAs([a, b, c, d], [ta, tb, tc, td])
  {
  }

  lemma FiveLex(a: string, b: string, c: string, d: string, e: string,
                ta: Token, tb: Token, tc: Token, td: Token, te: Token)
    requires Lexes(a, ta) && Lexes(b, tb) && Lexes(c, tc) && Lexes(d, td) && Lexes(e, te)
    ensures LexAs([a, b, c, d, e], [ta, tb, tc, td, te])
  {
  }

  // ----- Operations

  lemma PathOpLexes(op: Operation)
    requires PrintableOp(op) && (op.primitive.Hpath? || op.primitive.HpathSym?)
    ensures LexAs(OpWords(op), OpLine(op))
  {
    var p := op.primitive;
    var (word, k) := if p.Hpath? then ("hpath", HPATH) else ("hpathsym", HPATHSYM);
    WordIsKey(word, k);
    DirfdLexes(p.dirfd);
    NameLexes(p.path);
    EffectLexes(p.effect);
    FourLex(word, DirfdToString(p.dirfd), p.path, EffToString(p.effect),
            Key(k), DirfdToken(p.dirfd), Ident(p.path), EffectToken(p.effect));
  }

  lemma TwoPathsLex(key: string, k: Keyword, oldDirfd: nat, oldPath: string, newDirfd: nat, newPath: string)
    requires Lexes(key, Key(k)) && IsName(oldPath) && IsName(newPath)
    ensures LexAs([key, DirfdToString(oldDirfd), oldPath, DirfdToString(newDirfd), newPath],
                  [Key(k), DirfdToken(oldDirfd), Ident(oldPath), DirfdToken(newDirfd), Ident(newPath)])
  {
    DirfdLexes(oldDirfd);
    NameLexes(oldPath);
    DirfdLexes(newDirfd);
    NameLexes(newPath);
    FiveLex(key, DirfdToString(oldDirfd), oldPath, DirfdToString(newDirfd), newPath,
            Key(k), DirfdToken(oldDirfd), Ident(oldPath), DirfdToken(newDirfd), Ident(newPath));
  }

  lemma TwoPathOpLexes(op: Operation)
    requires PrintableOp(op) && (op.primitive.Link? || op.primitive.Rename?)
    ensures LexAs(OpWords(op), OpLine(op))
  {
    match op.primitive
    case Link(oldDirfd, oldPath, newDirfd, newPath) =>
      WordIsKey("link", LINK);
      TwoPathsLex("link", LINK, oldDirfd, oldPath, newDirfd, newPath);
    case Rename(oldDirfd, oldPath, newDirfd, newPath) =>
      WordIsKey("rename", RENAME);
      TwoPathsLex("rename", RENAME, oldDirfd, oldPath, newDirfd, newPath);
  }

  lemma NewFdLexes(op: Operation)
    requires PrintableOp(op) && op.primitive.NewFd?
    ensures LexAs(OpWords(op), OpLine(op))
  {
    var p := op.primitive;
    WordIsKey("newFd", NEWFD);
    DirfdLexes(p.dirfd);
    NameLexes(p.path);
    if op.failed {
      ThreeLex("newFd", DirfdToString(p.dirfd), p.path, Key(NEWFD), DirfdToken(p.dirfd), Ident(p.path));
    } else {
      NumberLexes(p.newFd);
      FourLex("newFd", DirfdToString(p.dirfd), p.path, ToString(p.newFd),
              Key(NEWFD), DirfdToken(p.dirfd), Ident(p.path), NumberToken(p.newFd));
    }
  }

  lemma SymlinkLexes(op: Operation)
    requires PrintableOp(op) && op.primitive.Symlink?
    ensures LexAs(OpWords(op), OpLine(op))
  {
    var p := op.primitive;
    WordIsKey("symlink", SYMLINK);
    DirfdLexes(p.dirfd);
    NameLexes(p.path);
    NameLexes(p.target);
    FourLex("symlink", DirfdToString(p.dirfd), p.path, p.target,
            Key(SYMLINK), DirfdToken(p.dirfd), Ident(p.path), Ident(p.target));
  }

  lemma DelFdLexes(op: Operation)
    requires PrintableOp(op) && op.primitive.DelFd?
    ensures LexAs(OpWords(op), OpLine(op))
  {
    WordIsKey(OpWords(op)[0], DELFD);
    NumberLexes(op.primitive.fd);
  }

  lemma LexOp(op: Operation, rest: string)
    requires PrintableOp(op)
    ensures Lex(OpText(op) + rest) == OpTokens(op, Lex(rest))
  {
    match op.primitive {
      case DelFd(_) => DelFdLexes(op);
      case Hpath(_, _, _) => PathOpLexes(op);
      case HpathSym(_, _, _) => PathOpLexes(op);
      case Link(_, _, _, _) => TwoPathOpLexes(op);
      case NewFd(_, _, _) => NewFdLexes(op);
      case Rename(_, _, _, _) => TwoPathOpLexes(op);
      case Symlink(_, _, _) => SymlinkLexes(op);
    }
    LexLine(OpWords(op), OpLine(op), OpMarks(op), rest);
  }

  lemma {:induction false} LexOps(ops: seq<Operation>, rest: string)
    requires forall op :: op in ops ==> PrintableOp(op)
    ensures Lex(OpsText(ops) + rest) == OpsTokens(ops, Lex(rest))
    decreases |ops|
  {
    if ops == [] {
      assert OpsText(ops) + rest == rest;
    } else {
      var tail := OpsText(ops[1..]) + rest;
      Appended(OpText(ops[0]), OpsText(ops[1..]), rest);
      LexOp(ops[0], tail);
      LexOps(ops[1..], rest);
    }
  }

  lemma OperationLexes(id: string)
    requires IsOpId(id)
    ensures LexAs(["Operation", id, "do"], [Key(OPERATION), OpId(id), Key(DO)])
  {
    WordIsKey("Operation", OPERATION);
    OpIdLexes(id);
    WordIsKey("do", DO);
  }

  lemma DoneLexes()
    ensures LexAs(["done"], [Key(DONE)])
  {
    WordIsKey("done", DONE);
  }

  lemma LexExecOp(e: ExecOp, rest: string)
    requires PrintableExecOp(e)
    ensures Lex(ExecOpText(e) + rest) == ExecOpTokens(e, Lex(rest))
  {
    var begin, done := ["Operation", e.id, "do"], Line(["done"], []);
    ThreeAppended(Line(begin, []), OpsText(e.operations), done, rest);
    OperationLexes(e.id);
    LexLine(begin, [Key(OPERATION), OpId(e.id), Key(DO)], [], OpsText(e.operations) + (done + rest));
    LexOps(e.operations, done + rest);
    DoneLexes();
    LexLine(["done"], [Key(DONE)], [], rest);
  }

  lemma {:induction false} LexExecOps(es: seq<ExecOp>, rest: string)
    requires forall e :: e in es ==> PrintableExecOp(e)
    ensures Lex(ExecOpsText(es) + rest) == ExecOpsTokens(es, Lex(rest))
    decreases |es|
  {
    if es == [] {
      assert ExecOpsText(es) + rest == rest;
    } else {
      var tail := ExecOpsText(es[1..]) + rest;
      Appended(ExecOpText(es[0]), ExecOpsText(es[1..]), rest);
      LexExecOp(es[0], tail);
      LexExecOps(es[1..], rest);
    }
  }

  // ----- Expressions and blocks

  lemma EventLexes(e: Event)
    requires PrintableEvent(e)
    ensures LexAs(EventWords(e), EventLine(e))
  {
    NumberLexes(e.eventValue);
    match e.eventType
    case S => WordIsKey("S", S_);
    case M => WordIsKey("M", M_);
    case W => WordIsKey("W", W_);
    case EXT => WordIsKey("EXTERNAL", EXTERNAL);
  }

  lemma NewEventLexes(e: Expr)
    requires PrintableExpr(e) && e.NewEventExpr?
    ensures LexAs(ExprWords(e), ExprLine(e))
  {
    WordIsKey("newEvent", NEW_EVENT);
    NumberLexes(e.eventId);
    EventLexes(e.event);
  }

  lemma SubmitOpLexes(e: Expr)
    requires PrintableExpr(e) && e.SubmitOp?
    ensures LexAs(ExprWords(e), ExprLine(e))
  {
    WordIsKey("submitOp", SUBMIT_OP);
    OpIdLexes(e.opId);
    match e.submitted
    case Some(n) =>
      NumberLexes(n);
      WordIsKey("ASYNC", ASYNC);
      FourLex("submitOp", e.opId, ToString(n), "ASYNC", Key(SUBMIT_OP), OpId(e.opId), NumberToken(n), Key(ASYNC));
    case None =>
      WordIsKey("SYNC", SYNC);
      ThreeLex("submitOp", e.opId, "SYNC", Key(SUBMIT_OP), OpId(e.opId), Key(SYNC));
  }

  lemma LinkLexes(m: nat, n: nat)
    ensures LexAs(["link", ToString(m), ToString(n)], [Key(LINK), NumberToken(m), NumberToken(n)])
  {
    WordIsKey("link", LINK);
    NumberLexes(m);
    NumberLexes(n);
  }

  lemma TriggerLexes(n: nat)
    ensures LexAs(["trigger", ToString(n)], [Key(TRIGGER), NumberToken(n)])
  {
    WordIsKey("trigger", TRIGGER);
    NumberLexes(n);
  }

  lemma LexExpr(e: Expr, rest: string)
    requires PrintableExpr(e)
    ensures Lex(ExprText(e) + rest) == ExprTokens(e, Lex(rest))
  {
    match e {
      case NewEventExpr(_, _, _) => NewEventLexes(e);
      case LinkExpr(m, n) => LinkLexes(m, n);
      case TriggerExpr(n) => TriggerLexes(n);
      case SubmitOp(_, _, _) => SubmitOpLexes(e);
    }
    LexLine(ExprWords(e), ExprLine(e), ExprMarks(e), rest);
  }

  lemma {:induction false} LexExprs(es: seq<Expr>, rest: string)
    requires forall e :: e in es ==> PrintableExpr(e)
    ensures Lex(ExprsText(es) + rest) == ExprsTokens(es, Lex(rest))
    decreases |es|
  {
    if es == [] {
      assert ExprsText(es) + rest == rest;
    } else {
      var tail := ExprsText(es[1..]) + rest;
      Appended(ExprText(es[0]), ExprsText(es[1..]), rest);
      LexExpr(es[0], tail);
      LexExprs(es[1..], rest);
    }
  }

  lemma BeginLexes(b: Block)
    ensures LexAs(BeginWords(b), BeginLine(b))
  {
    WordIsKey("Begin", BEGIN);
    WordIsKey("MAIN", MAIN_);
    NumberLexes(b.blockId);
  }

  lemma EndLexes()
    ensures LexAs(["End"], [Key(END)])
  {
    WordIsKey("End", END);
  }

  lemma LexBlock(b: Block, rest: string)
    requires PrintableBlock(b) && Dumped(b)
    ensures Lex(BlockText(b) + rest) == BlockTokens(b, Lex(rest))
  {
    var end := Line(["End"], []);
    ThreeAppended(Line(BeginWords(b), []), ExprsText(b.exprs), end, rest);
    BeginLexes(b);
    LexLine(BeginWords(b), BeginLine(b), [], ExprsText(b.exprs) + (end + rest));
    LexExprs(b.exprs, end + rest);
    EndLexes();
    LexLine(["End"], [Key(END)], [], rest);
  }

  lemma {:induction false} LexBlocks(bs: seq<Block>, rest: string)
    requires forall b :: b in bs ==> PrintableBlock(b)
    ensures Lex(BlocksText(bs) + rest) == BlocksTokens(bs, Lex(rest))
    decreases |bs|
  {
    if bs == [] {
      assert BlocksText(bs) + rest == rest;
    } else {
      var tail := BlocksText(bs[1..]) + rest;
      Appended(BlockText(bs[0]), BlocksText(bs[1..]), rest);
      if Dumped(bs[0]) { LexBlock(bs[0], tail); } else { assert BlockText(bs[0]) + tail == tail; }
      LexBlocks(bs[1..], rest);
    }
  }

  // ----- The whole dump

  lemma LexField(value: string, t: Token, rest: string)
    requires Lexes(value, t)
    ensures Lex(Field(value) + rest) == Cons(Colon, Cons(t, Lex(rest)))
  {
    var end := "\n" + rest;
    ThreeAppended(":", " ", value + "\n", rest);
    Appended(value, "\n", rest);
    LexColon(" " + (value + end));
    LexBlank(' ', value + end);
    LexBlank('\n', rest);
  }

  lemma LexStat(name: string, n: nat, rest: string)
    requires IsName(name) && name[0] != 'P' && name[0] != 'W'
    ensures Lex(StatText(name, n) + rest) == StatTokens(name, n, Lex(rest))
  {
    var tail := Field(ToString(n)) + rest;
    ThreeAppended("!", name, Field(ToString(n)), rest);
    DifferAt("PID", name + tail, 0);
    DifferAt("Working Directory", name + tail, 0);
    LexBang(name + tail);
    NameFacts(name);
    assert tail[0] == ':';
    LexWord(name, tail);
    NumberLexes(n);
    LexField(ToString(n), NumberToken(n), rest);
  }

  lemma LexHeader(t: Trace, rest: string)
    requires IsName(t.cwd)
    ensures Lex(HeaderText(t) + rest) == HeaderTokens(t, Lex(rest))
  {
    var pid, cwd := Field(ToString(t.threadId)), Field(t.cwd);
    var tail := "!Working Directory" + (cwd + rest);
    ThreeAppended("!PID", pid, "!Working Directory" + cwd, rest);
    Appended("!Working Directory", cwd, rest);
    LexPid(pid + tail);
    NumberLexes(t.threadId);
    LexField(ToString(t.threadId), NumberToken(t.threadId), tail);
    LexCwd(cwd + rest);
    NameLexes(t.cwd);
    LexField(t.cwd, Ident(t.cwd), rest);
  }

  function DumpTokensOf(t: Trace): Tokens {
    StatTokens("Blocks", |t.blocks|, StatTokens("Operations", |t.execOps|, StatTokens("Entries", Entries(t),
      HeaderTokens(t, ExecOpsTokens(t.execOps, BlocksTokens(t.blocks, Nil))))))
  }

  lemma NameFromScan(w: string)
    requires IsIdent(w) && KeywordOf(w).None? && w[0] != 's' && w[0] != 'a'
    ensures IsName(w)
  {
    RunStops(w, "");
    assert w + "" == w && w[..|w|] == w;
    DifferAt("sync_", w, 0);
    DifferAt("async_", w, 0);
    ScanIsLongestMatch(w);
  }

  lemma StatNames()
    ensures IsName("Blocks") && IsName("Operations") && IsName("Entries")
  {
    NameFromScan("Blocks");
    NameFromScan("Operations");
    NameFromScan("Entries");
  }

  lemma LexPreamble(t: Trace, rest: string)
    ensures Lex(Preamble(|t.blocks|, |t.execOps|, Entries(t)) + rest)
         == StatTokens("Blocks", |t.blocks|, StatTokens("Operations", |t.execOps|,
                                                        StatTokens("Entries", Entries(t), Lex(rest))))
  {
    var s2 := StatText("Entries", Entries(t)) + rest;
    var s1 := StatText("Operations", |t.execOps|) + s2;
    ThreeAppended(StatText("Blocks", |t.blocks|), StatText("Operations", |t.execOps|),
                  StatText("Entries", Entries(t)), rest);
    StatNames();
    LexStat("Blocks", |t.blocks|, s1);
    LexStat("Operations", |t.execOps|, s2);
    LexStat("Entries", Entries(t), rest);
  }

  lemma LexDump(t: Trace)
    requires Printable(t)
    ensures Lex(Dump(t)) == DumpTokensOf(t)
  {
    var blocks := BlocksText(t.blocks);
    LexPreamble(t, BodyText(t));
    LexHeader(t, ExecOpsText(t.execOps) + blocks);
    LexExecOps(t.execOps, blocks);
    LexBlocks(t.blocks, "");
    assert blocks + "" == blocks;
  }
}
