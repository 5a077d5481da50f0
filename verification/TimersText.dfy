/** The trace of tests/node_tests/timers.exp as text. */
module TimersText {
  import opened Common
  import opened Traces
  import opened TracePrinter
  import opened TimersTest
  import opened TimersReport
  import opened TraceLexer
  import opened TraceParser
  import opened DumpTokens
  import opened RoundTrip

  lemma Join2(a: string, b: string)
    ensures Join([a, b]) == a + " " + b
  {
  }

  lemma Join3(a: string, b: string, c: string)
    ensures Join([a, b, c]) == a + " " + b + " " + c
  {
    assert [a, b, c][1..] == [b, c];
    Join2(b, c);
  }

  lemma Join4(a: string, b: string, c: string, d: string)
    ensures Join([a, b, c, d]) == a + " " + b + " " + c + " " + d
  {
    assert [a, b, c, d][1..] == [b, c, d];
    Join3(b, c, d);
  }

  lemma Marks1(m: string)
    ensures MarksText([m]) == " !" + m
  {
    assert [m][1..] == [];
  }

  lemma Marks2(m: string, n: string)
    ensures MarksText([m, n]) == " !" + m + " !" + n
  {
    assert [m, n][1..] == [n];
    Marks1(n);
  }

  // ----- The text, line by line

  const GROUP_12_TEXT := ["Operation sync_12 do"] + [
    "hpath AT_FDCWD tmp produced !open",
    "newFd AT_FDCWD tmp 3 !open"] + ["done"]

  const GROUP_13_TEXT := ["Operation sync_13 do"] + [
    "delFd 3 !close"] + ["done"]

  const GROUP_7_TEXT := ["Operation async_7 do"] + [
    "hpath AT_FDCWD tmp expunged !unlink"] + ["done"]

  const GROUP_8_TEXT := ["Operation async_8 do"] + [
    "hpath AT_FDCWD tmp consumed !access"] + ["done"]

  const BLOCK_MAIN_TEXT := ["Begin MAIN 1"] + [
    "submitOp sync_12 SYNC !node_open",
    "submitOp sync_13 SYNC !node_close",
    "newEvent 4 W 3 !setImmediate",
    "newEvent 5 W 1 !setTimeout",
    "newEvent 6 W 0 !timerWrap"] + ["End"]

  const BLOCK_6_TEXT := ["Begin 6"] + [
    "trigger 5",
    "newEvent 7 EXTERNAL !fs !node_unlink",
    "link 5 7",
    "submitOp async_7 7 ASYNC !node_unlink"] + ["End"]

  const BLOCK_7_TEXT := ["Begin 7"] + [] + ["End"]

  const BLOCK_4_TEXT := ["Begin 4"] + [
    "newEvent 8 EXTERNAL !fs !node_access",
    "link 4 8",
    "submitOp async_8 8 ASYNC !node_access"] + ["End"]

  const BLOCK_8_TEXT := ["Begin 8"] + [] + ["End"]

  function Lines(ls: seq<string>): string {
    if ls == [] then "" else ls[0] + ("\n" + Lines(ls[1..]))
  }

  lemma {:induction false} LinesConcat(a: seq<string>, b: seq<string>)
    ensures Lines(a + b) == Lines(a) + Lines(b)
    decreases |a|
  {
    if a == [] {
      assert a + b == b;
    } else {
      assert (a + b)[1..] == a[1..] + b;
      LinesConcat(a[1..], b);
    }
  }

  // ----- Operations

  lemma HpathText(effect: string, name: string)
    ensures Line(["hpath", "AT_FDCWD", "tmp", effect], [name]) == "hpath AT_FDCWD tmp " + effect + " !" + name + "\n"
  {
    Join4("hpath", "AT_FDCWD", "tmp", effect);
    Marks1(name);
    assert "hpath" + " " + "AT_FDCWD" + " " + "tmp" + " " == "hpath AT_FDCWD tmp ";
    Appended("hpath AT_FDCWD tmp " + effect, " !" + name, "\n");
    Appended("hpath AT_FDCWD tmp " + effect, " !", name);
  }

  lemma WriteText()
    ensures OpText(WRITE) == "hpath AT_FDCWD tmp produced !open\n"
  {
    HpathText("produced", "open");
  }

  lemma OpenText()
    ensures OpText(OPEN) == "newFd AT_FDCWD tmp 3 !open\n"
  {
    Join4("newFd", "AT_FDCWD", "tmp", "3");
    Marks1("open");
  }

  lemma CloseText()
    ensures OpText(CLOSE) == "delFd 3 !close\n"
  {
    Join2("delFd", "3");
    Marks1("close");
  }

  lemma UnlinkText()
    ensures OpText(UNLINK) == "hpath AT_FDCWD tmp expunged !unlink\n"
  {
    HpathText("expunged", "unlink");
  }

  lemma AccessText()
    ensures OpText(ACCESS) == "hpath AT_FDCWD tmp consumed !access\n"
  {
    HpathText("consumed", "access");
  }

  // ----- Expressions

  lemma SubmitOpenText()
    ensures ExprText(SUBMIT_OPEN) == "submitOp sync_12 SYNC !node_open\n"
  {
    Digits();
    Join3("submitOp", "sync_12", "SYNC");
    Marks1("node_open");
  }

  lemma SubmitCloseText()
    ensures ExprText(SUBMIT_CLOSE) == "submitOp sync_13 SYNC !node_close\n"
  {
    Digits();
    Join3("submitOp", "sync_13", "SYNC");
    Marks1("node_close");
  }

  lemma SetImmediateText()
    ensures ExprText(SET_IMMEDIATE) == "newEvent 4 W 3 !setImmediate\n"
  {
    Digits();
    Join4("newEvent", "4", "W", "3");
    Marks1("setImmediate");
  }

  lemma SetTimeoutText()
    ensures ExprText(SET_TIMEOUT) == "newEvent 5 W 1 !setTimeout\n"
  {
    Digits();
    Join4("newEvent", "5", "W", "1");
    Marks1("setTimeout");
  }

  lemma TimerWrapText()
    ensures ExprText(TIMER_WRAP) == "newEvent 6 W 0 !timerWrap\n"
  {
    Digits();
    Join4("newEvent", "6", "W", "0");
    Marks1("timerWrap");
  }

  lemma NodeUnlinkText()
    ensures ExprText(NODE_UNLINK) == "newEvent 7 EXTERNAL !fs !node_unlink\n"
  {
    Digits();
    Join3("newEvent", "7", "EXTERNAL");
    Marks2("fs", "node_unlink");
  }

  lemma NodeAccessText()
    ensures ExprText(NODE_ACCESS) == "newEvent 8 EXTERNAL !fs !node_access\n"
  {
    Digits();
    Join3("newEvent", "8", "EXTERNAL");
    Marks2("fs", "node_access");
  }

  lemma SubmitUnlinkText()
    ensures ExprText(SUBMIT_UNLINK) == "submitOp async_7 7 ASYNC !node_unlink\n"
  {
    Digits();
    Join4("submitOp", "async_7", "7", "ASYNC");
    Marks1("node_unlink");
  }

  lemma SubmitAccessText()
    ensures ExprText(SUBMIT_ACCESS) == "submitOp async_8 8 ASYNC !node_access\n"
  {
    Digits();
    Join4("submitOp", "async_8", "8", "ASYNC");
    Marks1("node_access");
  }

  lemma LinksText()
    ensures ExprText(TriggerExpr(5)) == "trigger 5\n"
    ensures ExprText(LinkExpr(5, 7)) == "link 5 7\n" && ExprText(LinkExpr(4, 8)) == "link 4 8\n"
  {
    Digits();
    Join2("trigger", "5");
    Join3("link", "5", "7");
    Join3("link", "4", "8");
  }

  // ----- The parts together

  lemma {:induction false} OpsLines(ops: seq<Operation>, ls: seq<string>)
    requires |ops| == |ls| && forall i :: 0 <= i < |ops| ==> OpText(ops[i]) == ls[i] + "\n"
    ensures OpsText(ops) == Lines(ls)
    decreases |ops|
  {
    if ops != [] {
      OpsLines(ops[1..], ls[1..]);
      Appended(ls[0], "\n", Lines(ls[1..]));
    }
  }

  lemma {:induction false} ExprsLines(es: seq<Expr>, ls: seq<string>)
    requires |es| == |ls| && forall i :: 0 <= i < |es| ==> ExprText(es[i]) == ls[i] + "\n"
    ensures ExprsText(es) == Lines(ls)
    decreases |es|
  {
    if es != [] {
      ExprsLines(es[1..], ls[1..]);
      Appended(ls[0], "\n", Lines(ls[1..]));
    }
  }

  lemma OneLine(l: string)
    ensures Lines([l]) == l + "\n"
  {
    assert [l][1..] == [];
    assert "\n" + "" == "\n";
  }

  /** First and last lines around others. */
  lemma Framed(first: string, ls: seq<string>, last: string)
    ensures Lines([first] + ls + [last]) == (first + "\n") + (Lines(ls) + (last + "\n"))
  {
    LinesConcat([first] + ls, [last]);
    LinesConcat([first], ls);
    OneLine(first);
    OneLine(last);
    Appended(first + "\n", Lines(ls), last + "\n");
  }

  lemma LastLines()
    ensures Line(["done"], []) == "done\n" && Line(["End"], []) == "End\n"
  {
  }

  lemma FirstLine(a: string, b: string, c: string)
    ensures (a + b + c) + "\n" == a + b + (c + "\n")
    ensures (a + b) + "\n" == a + (b + "\n")
  {
  }

  lemma GroupLines(e: ExecOp, first: string, ls: seq<string>)
    requires |e.operations| == |ls| && forall i :: 0 <= i < |ls| ==> OpText(e.operations[i]) == ls[i] + "\n"
    requires first + "\n" == "Operation " + e.id + " do\n"
    ensures ExecOpText(e) == Lines([first] + ls + ["done"])
  {
    OpsLines(e.operations, ls);
    Framed(first, ls, "done");
    OperationText(e.id);
    LastLines();
  }

  lemma BlockLines(b: Block, first: string, ls: seq<string>)
    requires |b.exprs| == |ls| && forall i :: 0 <= i < |ls| ==> ExprText(b.exprs[i]) == ls[i] + "\n"
    requires Dumped(b) && first == "Begin " + (if b.isMain then "MAIN " + ToString(b.blockId) else ToString(b.blockId))
    ensures BlockText(b) == Lines([first] + ls + ["End"])
  {
    var id := if b.isMain then "MAIN " + ToString(b.blockId) else ToString(b.blockId);
    ExprsLines(b.exprs, ls);
    Framed(first, ls, "End");
    BeginText(b, id);
    FirstLine("Begin ", id, "");
    LastLines();
  }

  lemma Group12Text()
    ensures ExecOpText(GROUPS[0]) == Lines(GROUP_12_TEXT)
  {
    WriteText();
    OpenText();
    GroupLines(GROUPS[0], "Operation sync_12 do", ["hpath AT_FDCWD tmp produced !open", "newFd AT_FDCWD tmp 3 !open"]);
  }

  lemma Group13Text()
    ensures ExecOpText(GROUPS[1]) == Lines(GROUP_13_TEXT)
  {
    CloseText();
    GroupLines(GROUPS[1], "Operation sync_13 do", ["delFd 3 !close"]);
  }

  lemma Group7Text()
    ensures ExecOpText(GROUPS[2]) == Lines(GROUP_7_TEXT)
  {
    UnlinkText();
    GroupLines(GROUPS[2], "Operation async_7 do", ["hpath AT_FDCWD tmp expunged !unlink"]);
  }

  lemma Group8Text()
    ensures ExecOpText(GROUPS[3]) == Lines(GROUP_8_TEXT)
  {
    AccessText();
    GroupLines(GROUPS[3], "Operation async_8 do", ["hpath AT_FDCWD tmp consumed !access"]);
  }

  lemma BlockMainText()
    ensures BlockText(MAIN_BLOCK) == Lines(BLOCK_MAIN_TEXT)
  {
    Digits();
    SubmitOpenText();
    SubmitCloseText();
    SetImmediateText();
    SetTimeoutText();
    TimerWrapText();
    BlockLines(MAIN_BLOCK, "Begin MAIN 1", ["submitOp sync_12 SYNC !node_open",
                "submitOp sync_13 SYNC !node_close",
                "newEvent 4 W 3 !setImmediate",
                "newEvent 5 W 1 !setTimeout",
                "newEvent 6 W 0 !timerWrap"]);
  }

  lemma Block6Text()
    ensures BlockText(BLOCK_6) == Lines(BLOCK_6_TEXT)
  {
    Digits();
    LinksText();
    NodeUnlinkText();
    SubmitUnlinkText();
    BlockLines(BLOCK_6, "Begin 6", ["trigger 5",
                "newEvent 7 EXTERNAL !fs !node_unlink",
                "link 5 7",
                "submitOp async_7 7 ASYNC !node_unlink"]);
  }

  lemma Block7Text()
    ensures BlockText(BLOCK_7) == Lines(BLOCK_7_TEXT)
  {
    Digits();
    BlockLines(BLOCK_7, "Begin 7", []);
  }

  lemma Block4Text()
    ensures BlockText(BLOCK_4) == Lines(BLOCK_4_TEXT)
  {
    Digits();
    NodeAccessText();
    LinksText();
    SubmitAccessText();
    BlockLines(BLOCK_4, "Begin 4", ["newEvent 8 EXTERNAL !fs !node_access",
                "link 4 8",
                "submitOp async_8 8 ASYNC !node_access"]);
  }

  lemma Block8Text()
    ensures BlockText(BLOCK_8) == Lines(BLOCK_8_TEXT)
  {
    Digits();
    BlockLines(BLOCK_8, "Begin 8", []);
  }

  // ----- The whole text

  lemma Preamble5(a: string, b: string, c: string)
    requires a == "!Blocks: 5" && b == "!Operations: 4" && c == "!Entries: 17"
    ensures Preamble(5, 4, 17) == a + "\n" + (b + "\n" + (c + "\n"))
  {
    assert ToString(5) == "5" && ToString(4) == "4" && ToString(17) == "17" by { assert ToString(17 / 10) == "1"; }
    assert StatText("Blocks", 5) == a + "\n";
    assert StatText("Operations", 4) == b + "\n";
    assert StatText("Entries", 17) == c + "\n";
  }

  lemma Header1(a: string, b: string)
    requires a == "!PID: 1" && b == "!Working Directory: /w"
    ensures HeaderText(TIMERS_TRACE) == a + "\n" + (b + "\n")
  {
    Digits();
    assert "!PID" + Field("1") == a + "\n";
    assert "!Working Directory" + Field("/w") == b + "\n";
    Appended("!PID", Field("1"), "!Working Directory" + Field("/w"));
  }

  lemma ThreeLines(a: string, b: string, c: string)
    ensures Lines([a, b, c]) == a + "\n" + (b + "\n" + (c + "\n"))
  {
    assert [a, b, c] == [a] + ([b] + [c]);
    LinesConcat([a], [b] + [c]);
    LinesConcat([b], [c]);
    OneLine(a);
    OneLine(b);
    OneLine(c);
  }

  lemma TwoLines(a: string, b: string)
    ensures Lines([a, b]) == a + "\n" + (b + "\n")
  {
    assert [a, b] == [a] + [b];
    LinesConcat([a], [b]);
    OneLine(a);
    OneLine(b);
  }

  function Concat(texts: seq<seq<string>>): seq<string> {
    if texts == [] then [] else texts[0] + Concat(texts[1..])
  }

  lemma {:induction false} GroupsLines(es: seq<ExecOp>, texts: seq<seq<string>>)
    requires |es| == |texts| && forall i :: 0 <= i < |es| ==> ExecOpText(es[i]) == Lines(texts[i])
    ensures ExecOpsText(es) == Lines(Concat(texts))
    decreases |es|
  {
    if es != [] {
      GroupsLines(es[1..], texts[1..]);
      LinesConcat(texts[0], Concat(texts[1..]));
    }
  }

  lemma {:induction false} BlocksLines(bs: seq<Block>, texts: seq<seq<string>>)
    requires |bs| == |texts| && forall i :: 0 <= i < |bs| ==> BlockText(bs[i]) == Lines(texts[i])
    ensures BlocksText(bs) == Lines(Concat(texts))
    decreases |bs|
  {
    if bs != [] {
      BlocksLines(bs[1..], texts[1..]);
      LinesConcat(texts[0], Concat(texts[1..]));
    }
  }

  lemma Lines4(a: seq<string>, b: seq<string>, c: seq<string>, d: seq<string>)
    ensures Lines(a + (b + (c + d))) == Lines(a) + (Lines(b) + (Lines(c) + Lines(d)))
  {
    LinesConcat(a, b + (c + d));
    LinesConcat(b, c + d);
    LinesConcat(c, d);
  }

  const ALL_GROUPS_TEXT := Concat([GROUP_12_TEXT, GROUP_13_TEXT, GROUP_7_TEXT, GROUP_8_TEXT])
  const ALL_BLOCKS_TEXT := Concat([BLOCK_MAIN_TEXT, BLOCK_6_TEXT, BLOCK_7_TEXT, BLOCK_4_TEXT, BLOCK_8_TEXT])
  const STATS_TEXT := ["!Blocks: 5", "!Operations: 4", "!Entries: 17"]
  const HEADER_TEXT := ["!PID: 1", "!Working Directory: /w"]

  lemma FourTexts(a: ExecOp, ta: seq<string>, b: ExecOp, tb: seq<string>, c: ExecOp, tc: seq<string>,
                  d: ExecOp, td: seq<string>)
    requires ExecOpText(a) == Lines(ta) && ExecOpText(b) == Lines(tb)
    requires ExecOpText(c) == Lines(tc) && ExecOpText(d) == Lines(td)
    ensures ExecOpsText([a, b, c, d]) == Lines(Concat([ta, tb, tc, td]))
  {
    GroupsLines([a, b, c, d], [ta, tb, tc, td]);
  }

  lemma FiveTexts(a: Block, ta: seq<string>, b: Block, tb: seq<string>, c: Block, tc: seq<string>,
                  d: Block, td: seq<string>, e: Block, te: seq<string>)
    requires BlockText(a) == Lines(ta) && BlockText(b) == Lines(tb) && BlockText(c) == Lines(tc)
    requires BlockText(d) == Lines(td) && BlockText(e) == Lines(te)
    ensures BlocksText([a, b, c, d, e]) == Lines(Concat([ta, tb, tc, td, te]))
  {
    BlocksLines([a, b, c, d, e], [ta, tb, tc, td, te]);
  }

  lemma GroupsText()
    ensures ExecOpsText(GROUPS) == Lines(ALL_GROUPS_TEXT)
  {
    Group12Text();
    Group13Text();
    Group7Text();
    Group8Text();
    assert GROUPS == [GROUPS[0], GROUPS[1], GROUPS[2], GROUPS[3]];
    FourTexts(GROUPS[0], GROUP_12_TEXT, GROUPS[1], GROUP_13_TEXT, GROUPS[2], GROUP_7_TEXT, GROUPS[3], GROUP_8_TEXT);
  }

  lemma AllBlocksText()
    ensures BlocksText(BLOCKS) == Lines(ALL_BLOCKS_TEXT)
  {
    BlockMainText();
    Block6Text();
    Block7Text();
    Block4Text();
    Block8Text();
    FiveTexts(MAIN_BLOCK, BLOCK_MAIN_TEXT, BLOCK_6, BLOCK_6_TEXT, BLOCK_7, BLOCK_7_TEXT, BLOCK_4, BLOCK_4_TEXT,
              BLOCK_8, BLOCK_8_TEXT);
  }

  lemma CountsEntries()
    ensures Entries(TIMERS_TRACE) == 17
  {
    assert OpEntries(GROUPS[3..]) == 1 && OpEntries(GROUPS[2..]) == 2 && OpEntries(GROUPS[1..]) == 3;
    assert BlockEntries(BLOCKS[4..]) == 0 && BlockEntries(BLOCKS[3..]) == 3;
    assert BlockEntries(BLOCKS[2..]) == 3 && BlockEntries(BLOCKS[1..]) == 7;
  }

  /** The text that is written for the trace of the test. */
  lemma TimersDump()
    ensures Dump(TIMERS_TRACE) == Lines(STATS_TEXT + (HEADER_TEXT + (ALL_GROUPS_TEXT + ALL_BLOCKS_TEXT)))
  {
    CountsEntries();
    Preamble5(STATS_TEXT[0], STATS_TEXT[1], STATS_TEXT[2]);
    ThreeLines(STATS_TEXT[0], STATS_TEXT[1], STATS_TEXT[2]);
    Header1(HEADER_TEXT[0], HEADER_TEXT[1]);
    TwoLines(HEADER_TEXT[0], HEADER_TEXT[1]);
    GroupsText();
    AllBlocksText();
    Lines4(STATS_TEXT, HEADER_TEXT, ALL_GROUPS_TEXT, ALL_BLOCKS_TEXT);
  }

  // ----- Reading it

  /** A word of letters and `_`, `/` or `.` that is no keyword is a meta variable. */
  lemma PlainWord(w: string)
    requires w != "" && KeywordOf(w).None? && w[0] != 'P'
    requires forall i :: 0 <= i < |w| ==> 'a' <= w[i] <= 'z' || 'A' <= w[i] <= 'Z' || w[i] in {'_', '/', '.'}
    ensures IsMark(w)
  {
    forall k ensures Text(k) != w {
      TextIsKeyword(k);
    }
    assert |w| > 5 ==> !('0' <= w[5] <= '9');
    assert |w| > 6 ==> !('0' <= w[6] <= '9');
    NamesExactly(w);
  }

  lemma Paths()
    ensures IsMark("/w") && IsMark("tmp") && IsMark("fs")
  {
    PlainWord("/w");
    PlainWord("tmp");
    PlainWord("fs");
  }

  lemma Calls()
    ensures IsMark("open") && IsMark("close") && IsMark("unlink") && IsMark("access")
  {
    PlainWord("open");
    PlainWord("close");
    PlainWord("unlink");
    PlainWord("access");
  }

  lemma FileTags()
    ensures IsMark("node_open") && IsMark("node_close")
  {
    PlainWord("node_open");
    PlainWord("node_close");
  }

  lemma EventTags()
    ensures IsMark("node_unlink") && IsMark("node_access")
  {
    PlainWord("node_unlink");
    PlainWord("node_access");
  }

  lemma TimerTags()
    ensures IsMark("setImmediate") && IsMark("setTimeout") && IsMark("timerWrap")
  {
    PlainWord("setImmediate");
    PlainWord("setTimeout");
    PlainWord("timerWrap");
  }

  lemma PrintableOps()
    ensures PrintableOp(WRITE) && PrintableOp(OPEN) && PrintableOp(CLOSE) && PrintableOp(UNLINK) && PrintableOp(ACCESS)
  {
    Paths();
    Calls();
  }

  lemma PrintableGroups()
    ensures forall e :: e in GROUPS ==> PrintableExecOp(e)
  {
    PrintableOps();
    OpIds();
  }

  lemma PrintableTimers()
    ensures forall e :: e in MAIN_BLOCK.exprs ==> PrintableExpr(e)
  {
    FileTags();
    TimerTags();
    OpIds();
  }

  lemma PrintableEvents()
    ensures forall e :: e in BLOCK_6.exprs + BLOCK_4.exprs ==> PrintableExpr(e)
  {
    Paths();
    EventTags();
    OpIds();
  }

  lemma PrintableBlocks()
    ensures forall b :: b in BLOCKS ==> PrintableBlock(b)
  {
    PrintableTimers();
    PrintableEvents();
    assert forall e :: e in BLOCK_6.exprs || e in BLOCK_4.exprs ==> e in BLOCK_6.exprs + BLOCK_4.exprs;
  }

  lemma OpIds()
    ensures IsOpId("sync_12") && IsOpId("sync_13") && IsOpId("async_7") && IsOpId("async_8")
  {
    assert "sync_12"[5..] == "12" && "sync_13"[5..] == "13" && "async_7"[6..] == "7" && "async_8"[6..] == "8";
  }

  lemma TimersPrintable()
    ensures Printable(TIMERS_TRACE)
  {
    PrintableGroups();
    PrintableBlocks();
    Paths();
  }

  lemma ReadsBack(t: Trace)
    requires Printable(t) && t.execOps != [] && t.blocks != [] && forall b :: b in t.blocks ==> Dumped(b)
    ensures Parse(Dump(t)) == Some(t)
  {
    AllDumped(t.blocks);
    ParseOfDump(t);
  }

  lemma AllDumped(bs: seq<Block>)
    requires forall b :: b in bs ==> Dumped(b)
    ensures DumpedBlocks(bs) == bs
  {
  }

  lemma NoEmptyMain()
    ensures forall b :: b in BLOCKS ==> Dumped(b)
  {
  }

  /** Reading the text of the test gives the trace. */
  lemma TimersParse()
    ensures Parse(Lines(STATS_TEXT + (HEADER_TEXT + (ALL_GROUPS_TEXT + ALL_BLOCKS_TEXT)))) == Some(TIMERS_TRACE)
  {
    TimersPrintable();
    TimersDump();
    NoEmptyMain();
    ReadsBack(TIMERS_TRACE);
  }

  // ----- What the test does not use

  lemma Join5(a: string, b: string, c: string, d: string, e: string)
    ensures Join([a, b, c, d, e]) == a + " " + b + " " + c + " " + d + " " + e
  {
    assert [a, b, c, d, e][1..] == [b, c, d, e];
    Join4(b, c, d, e);
  }

  /** The words of operations on two paths, of links, and of a failed open. */
  lemma OtherOperations(m: nat, p: string, n: nat, q: string, name: string)
    requires m > 0 && n > 0
    ensures Join(OpWords(Operation(Link(m, p, n, q), name, false)))
         == "link" + " " + ToString(m) + " " + p + " " + ToString(n) + " " + q
    ensures Join(OpWords(Operation(Rename(0, p, n, q), name, false)))
         == "rename" + " " + "AT_FDCWD" + " " + p + " " + ToString(n) + " " + q
    ensures Join(OpWords(Operation(Symlink(0, p, q), name, false))) == "symlink" + " " + "AT_FDCWD" + " " + p + " " + q
    ensures Join(OpWords(Operation(HpathSym(m, p, EXPUNGED), name, false)))
         == "hpathsym" + " " + ToString(m) + " " + p + " " + "expunged"
    ensures Join(OpWords(Operation(NewFd(m, p, -1), name, true))) == "newFd" + " " + ToString(m) + " " + p
  {
    Join5("link", ToString(m), p, ToString(n), q);
    Join5("rename", "AT_FDCWD", p, ToString(n), q);
    Join4("symlink", "AT_FDCWD", p, q);
    Join4("hpathsym", ToString(m), p, "expunged");
    Join3("newFd", ToString(m), p);
  }

  /** A failure follows the name of the call; S and M events have a value. */
  lemma OtherWords(p: Primitive, name: string, n: nat, value: nat, tags: seq<string>)
    requires name != ""
    ensures MarksText(OpMarks(Operation(p, name, true))) == " !" + name + " !" + "failed"
    ensures Join(ExprWords(NewEventExpr(n, Event(S, value), tags)))
         == "newEvent" + " " + ToString(n) + " " + "S" + " " + ToString(value)
    ensures Join(ExprWords(NewEventExpr(n, Event(M, value), tags)))
         == "newEvent" + " " + ToString(n) + " " + "M" + " " + ToString(value)
  {
    assert [name] + ["failed"] == [name, "failed"];
    Marks2(name, "failed");
    Join4("newEvent", ToString(n), "S", ToString(value));
    Join4("newEvent", ToString(n), "M", ToString(value));
    assert ["newEvent", ToString(n)] + ["S", ToString(value)] == ["newEvent", ToString(n), "S", ToString(value)];
    assert ["newEvent", ToString(n)] + ["M", ToString(value)] == ["newEvent", ToString(n), "M", ToString(value)];
  }
}
