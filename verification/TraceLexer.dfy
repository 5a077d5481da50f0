/** The lexer of traces: which rule matches, by longest match and then by the
    order of the rules, and the tokens a text consists of. */
module TraceLexer {
  import opened Common

  datatype Keyword =
    | OPERATION | DO | DONE | CONSUMED_ | PRODUCED_ | EXPUNGED_ | HPATH | HPATHSYM | NEWFD | DELFD
    | RENAME | SYMLINK | ATFDCWD | BEGIN | END | MAIN_ | NEW_EVENT | LINK | TRIGGER | SUBMIT_OP
    | SYNC | ASYNC | S_ | M_ | W_ | EXTERNAL

  function Text(k: Keyword): string {
    match k
    case OPERATION => "Operation"
    case DO => "do"
    case DONE => "done"
    case CONSUMED_ => "consumed"
    case PRODUCED_ => "produced"
    case EXPUNGED_ => "expunged"
    case HPATH => "hpath"
    case HPATHSYM => "hpathsym"
    case NEWFD => "newFd"
    case DELFD => "delFd"
    case RENAME => "rename"
    case SYMLINK => "symlink"
    case ATFDCWD => "AT_FDCWD"
    case BEGIN => "Begin"
    case END => "End"
    case MAIN_ => "MAIN"
    case NEW_EVENT => "newEvent"
    case LINK => "link"
    case TRIGGER => "trigger"
    case SUBMIT_OP => "submitOp"
    case SYNC => "SYNC"
    case ASYNC => "ASYNC"
    case S_ => "S"
    case M_ => "M"
    case W_ => "W"
    case EXTERNAL => "EXTERNAL"
  }

  function KeywordOf(w: string): (r: Option<Keyword>)
    ensures r.Some? ==> Text(r.value) == w
  {
    match |w|
    case 1 => if w == "S" then Some(S_) else if w == "M" then Some(M_) else if w == "W" then Some(W_) else None
    case 2 => if w == "do" then Some(DO) else None
    case 3 => if w == "End" then Some(END) else None
    case 4 => KeywordOfLength4(w)
    case 5 => KeywordOfLength5(w)
    case 6 => if w == "rename" then Some(RENAME) else None
    case 7 => if w == "symlink" then Some(SYMLINK) else if w == "trigger" then Some(TRIGGER) else None
    case 8 => KeywordOfLength8(w)
    case 9 => if w == "Operation" then Some(OPERATION) else None
    case _ => None
  }

  function KeywordOfLength4(w: string): (r: Option<Keyword>)
    ensures r.Some? ==> Text(r.value) == w
  {
    if w == "done" then Some(DONE)
    else if w == "MAIN" then Some(MAIN_)
    else if w == "link" then Some(LINK)
    else if w == "SYNC" then Some(SYNC)
    else None
  }

  function KeywordOfLength5(w: string): (r: Option<Keyword>)
    ensures r.Some? ==> Text(r.value) == w
  {
    if w == "hpath" then Some(HPATH)
    else if w == "newFd" then Some(NEWFD)
    else if w == "delFd" then Some(DELFD)
    else if w == "Begin" then Some(BEGIN)
    else if w == "ASYNC" then Some(ASYNC)
    else None
  }

  function KeywordOfLength8(w: string): (r: Option<Keyword>)
    ensures r.Some? ==> Text(r.value) == w
  {
    if w == "consumed" then Some(CONSUMED_)
    else if w == "produced" then Some(PRODUCED_)
    else if w == "expunged" then Some(EXPUNGED_)
    else if w == "hpathsym" then Some(HPATHSYM)
    else if w == "AT_FDCWD" then Some(ATFDCWD)
    else if w == "newEvent" then Some(NEW_EVENT)
    else if w == "submitOp" then Some(SUBMIT_OP)
    else if w == "EXTERNAL" then Some(EXTERNAL)
    else None
  }

  const PID_TEXT := "!PID"
  const CWD_TEXT := "!Working Directory"

  datatype Rule = PidRule | CwdRule | ColonRule | BangRule | KeyRule(k: Keyword) |
    OpIdRule | NumberRule | IdentRule | AnyRule

  // ----- The languages of the rules

  predicate IsDigit(c: char) {
    '0' <= c <= '9'
  }

  predicate IsIdentStart(c: char) {
    'a' <= c <= 'z' || 'A' <= c <= 'Z' || c == '/' || c == '.' || c == '_' || c == '-'
  }

  predicate IsIdentChar(c: char) {
    c != ' ' && c != ':' && c != '\n'
  }

  predicate IsBlank(c: char) {
    c == ' ' || c == '\t' || c == '\r' || c == '\n'
  }

  predicate IsNumber(w: string) {
    w != "" && forall i :: 0 <= i < |w| ==> IsDigit(w[i])
  }

  predicate IsIdent(w: string) {
    w != "" && IsIdentStart(w[0]) && forall i :: 0 <= i < |w| ==> IsIdentChar(w[i])
  }

  predicate IsOpId(w: string) {
    || ("sync_" <= w && IsNumber(w[5..]))
    || ("async_" <= w && IsNumber(w[6..]))
  }

  predicate Matches(r: Rule, w: string) {
    match r
    case PidRule => w == PID_TEXT
    case CwdRule => w == CWD_TEXT
    case ColonRule => w == ":"
    case BangRule => w == "!"
    case KeyRule(k) => w == Text(k)
    case OpIdRule => IsOpId(w)
    case NumberRule => IsNumber(w)
    case IdentRule => IsIdent(w)
    case AnyRule => |w| == 1 && w[0] != '\n'
  }

  /** The position of a rule in the file, keywords counting as one. */
  function Order(r: Rule): nat {
    match r
    case PidRule => 0
    case CwdRule => 1
    case ColonRule => 2
    case BangRule => 3
    case KeyRule(_) => 4
    case OpIdRule => 5
    case NumberRule => 6
    case IdentRule => 7
    case AnyRule => 8
  }

  predicate MatchesUpTo(s: string, r: Rule, n: nat) {
    1 <= n <= |s| && Matches(r, s[..n])
  }

  /** The rule that applies at the start of a text: the longest match, and the
      earliest rule among those. */
  ghost predicate Applies(s: string, r: Rule, n: nat) {
    && MatchesUpTo(s, r, n)
    && forall r', n': nat :: MatchesUpTo(s, r', n') ==> n' < n || (n' == n && Order(r) <= Order(r'))
  }

  // ----- Scanning

  function DigitRun(s: string): (n: nat)
    ensures n <= |s| && forall i :: 0 <= i < n ==> IsDigit(s[i])
    ensures n < |s| ==> !IsDigit(s[n])
  {
    if s != "" && IsDigit(s[0]) then 1 + DigitRun(s[1..]) else 0
  }

  function IdentRun(s: string): (n: nat)
    ensures n <= |s| && forall i :: 0 <= i < n ==> IsIdentChar(s[i])
    ensures n < |s| ==> !IsIdentChar(s[n])
  {
    if s != "" && IsIdentChar(s[0]) then 1 + IdentRun(s[1..]) else 0
  }

  function WordRule(w: string): Rule {
    if KeywordOf(w).Some? then KeyRule(KeywordOf(w).value) else if IsOpId(w) then OpIdRule else IdentRule
  }

  /** The rule that applies, found by looking at the first character. */
  function Scan(s: string): (r: (Rule, nat))
    requires s != "" && !IsBlank(s[0])
    ensures 1 <= r.1 <= |s|
  {
    if s[0] == '!' then
      (if CWD_TEXT <= s then (CwdRule, |CWD_TEXT|)
       else if PID_TEXT <= s then (PidRule, |PID_TEXT|)
       else (BangRule, 1))
    else if s[0] == ':' then (ColonRule, 1)
    else if IsDigit(s[0]) then (NumberRule, DigitRun(s))
    else if IsIdentStart(s[0]) then (WordRule(s[..IdentRun(s)]), IdentRun(s))
    else (AnyRule, 1)
  }

  lemma TextIsIdent(k: Keyword)
    ensures IsIdent(Text(k))
  {
    match k
    case _ =>
  }

  lemma TextIsKeyword(k: Keyword)
    ensures KeywordOf(Text(k)) == Some(k)
  {
    match k
    case _ =>
  }

  lemma OpIdIsIdent(w: string)
    requires IsOpId(w)
    ensures IsIdent(w)
  {
  }

  /** What each rule other than the fixed ones needs of the first character. */
  lemma MatchStart(r: Rule, w: string)
    requires Matches(r, w)
    ensures w != ""
    ensures r.KeyRule? || r.OpIdRule? || r.IdentRule? ==> IsIdent(w)
    ensures r.PidRule? || r.CwdRule? || r.BangRule? ==> w[0] == '!'
  {
    if r.KeyRule? { TextIsIdent(r.k); }
    if r.OpIdRule? { OpIdIsIdent(w); }
  }

  lemma WordRuleMatches(w: string)
    requires IsIdent(w)
    ensures Matches(WordRule(w), w)
  {
  }

  /** No match reaches further than the one found, and an equally long one comes
      from a later rule. */
  lemma ScanIsBest(s: string, r: Rule, n: nat)
    requires s != "" && !IsBlank(s[0]) && MatchesUpTo(s, r, n)
    ensures n < Scan(s).1 || (n == Scan(s).1 && Order(Scan(s).0) <= Order(r))
  {
    var w := s[..n];
    MatchStart(r, w);
    if s[0] == '!' {
      if r.CwdRule? { assert CWD_TEXT <= s; }
      if r.PidRule? { assert PID_TEXT <= s; }
    } else if s[0] == ':' {
    } else if IsDigit(s[0]) {
      if n > DigitRun(s) { assert !IsDigit(w[DigitRun(s)]); }
    } else if IsIdentStart(s[0]) {
      if n > IdentRun(s) { assert !IsIdentChar(w[IdentRun(s)]); }
      if n == IdentRun(s) && r.KeyRule? { TextIsKeyword(r.k); }
    }
  }

  lemma ScanMatches(s: string)
    requires s != "" && !IsBlank(s[0])
    ensures Matches(Scan(s).0, s[..Scan(s).1])
  {
    if s[0] == '!' {
      assert s[..1] == "!";
    } else if s[0] == ':' {
      assert s[..1] == ":";
    } else if IsDigit(s[0]) {
    } else if IsIdentStart(s[0]) {
      WordRuleMatches(s[..IdentRun(s)]);
    }
  }

  /** Scanning by the first character is longest match by the rules. */
  lemma ScanIsLongestMatch(s: string)
    requires s != "" && !IsBlank(s[0])
    ensures Applies(s, Scan(s).0, Scan(s).1)
  {
    ScanMatches(s);
    forall r, n: nat | MatchesUpTo(s, r, n)
      ensures n < Scan(s).1 || (n == Scan(s).1 && Order(Scan(s).0) <= Order(r))
    {
      ScanIsBest(s, r, n);
    }
  }

  // ----- Tokens

  datatype Token =
    | Pid | Cwd | Colon | Bang | Key(k: Keyword)
    | OpId(text: string) | Number(text: string) | Ident(text: string) | Error(text: string)

  datatype Tokens = Nil | Cons(head: Token, tail: Tokens)

  function TokenOf(r: Rule, text: string): Token {
    match r
    case PidRule => Pid
    case CwdRule => Cwd
    case ColonRule => Colon
    case BangRule => Bang
    case KeyRule(k) => Key(k)
    case OpIdRule => OpId(text)
    case NumberRule => Number(text)
    case IdentRule => Ident(text)
    case AnyRule => Error(text)
  }

  function Lex(s: string): Tokens
    decreases |s|
  {
    if s == "" then Nil
    else if IsBlank(s[0]) then Lex(s[1..])
    else
      var (r, n) := Scan(s);
      Cons(TokenOf(r, s[..n]), Lex(s[n..]))
  }

  /** Spaces, tabs, carriage returns and line ends make no token. */
  lemma BlanksAreSkipped(c: char, rest: string)
    requires c == ' ' || c == '\t' || c == '\r' || c == '\n'
    ensures Lex([c] + rest) == Lex(rest)
  {
    assert ([c] + rest)[1..] == rest;
  }

  // ----- Lexing a text piece by piece

  /** What may follow a word without becoming part of it. */
  predicate Delimited(rest: string) {
    rest == "" || !IsIdentChar(rest[0])
  }

  function WordToken(w: string): Token {
    TokenOf(WordRule(w), w)
  }

  lemma {:induction false} RunStops(w: string, rest: string)
    requires forall i :: 0 <= i < |w| ==> IsIdentChar(w[i])
    requires Delimited(rest)
    ensures IdentRun(w + rest) == |w|
    decreases |w|
  {
    if w != "" {
      assert (w + rest)[1..] == w[1..] + rest;
      RunStops(w[1..], rest);
    }
  }

  lemma {:induction false} DigitsStop(w: string, rest: string)
    requires forall i :: 0 <= i < |w| ==> IsDigit(w[i])
    requires rest == "" || !IsDigit(rest[0])
    ensures DigitRun(w + rest) == |w|
    decreases |w|
  {
    if w != "" {
      assert (w + rest)[1..] == w[1..] + rest;
      DigitsStop(w[1..], rest);
    }
  }

  lemma LexWord(w: string, rest: string)
    requires IsIdent(w) && Delimited(rest)
    ensures Lex(w + rest) == Cons(WordToken(w), Lex(rest))
  {
    RunStops(w, rest);
    var s := w + rest;
    assert s[0] == w[0] && s[..|w|] == w && s[|w|..] == rest;
  }

  lemma LexNumber(w: string, rest: string)
    requires IsNumber(w) && (rest == "" || !IsDigit(rest[0]))
    ensures Lex(w + rest) == Cons(Number(w), Lex(rest))
  {
    DigitsStop(w, rest);
    var s := w + rest;
    assert s[0] == w[0] && IsDigit(w[0]) && s[..|w|] == w && s[|w|..] == rest;
  }

  lemma LexBlank(c: char, rest: string)
    requires IsBlank(c)
    ensures Lex([c] + rest) == Lex(rest)
  {
  }

  lemma TailPrefix(k: string, s: string)
    requires k != "" && s != ""
    ensures k <= s ==> k[1..] <= s[1..]
  {
  }

  lemma LexBang(rest: string)
    requires !("PID" <= rest) && !("Working Directory" <= rest)
    ensures Lex("!" + rest) == Cons(Bang, Lex(rest))
  {
    var s := "!" + rest;
    assert s[1..] == rest && s[..1] == "!";
    assert "Working Directory" == CWD_TEXT[1..] && "PID" == PID_TEXT[1..];
    TailPrefix(CWD_TEXT, s);
    TailPrefix(PID_TEXT, s);
  }

  lemma LexColon(rest: string)
    ensures Lex(":" + rest) == Cons(Colon, Lex(rest))
  {
  }

  lemma LexPid(rest: string)
    ensures Lex(PID_TEXT + rest) == Cons(Pid, Lex(rest))
  {
    var s := PID_TEXT + rest;
    assert s[0] == '!' && PID_TEXT <= s && s[|PID_TEXT|..] == rest;
    assert s[1] == 'P' && CWD_TEXT[1] == 'W';
  }

  lemma LexCwd(rest: string)
    ensures Lex(CWD_TEXT + rest) == Cons(Cwd, Lex(rest))
  {
  }
}
