/** The files and the race of tests/node_tests/timers.exp: the accesses and the
    one race that the test expects. */
module TimersReport {
  import opened Common
  import opened Traces
  import opened Reachability
  import opened DependencyGraph
  import opened DependencyModel
  import opened FileAccess
  import opened InodeModel
  import opened FsModel
  import opened FsNames
  import opened Submissions
  import opened RaceDetectors
  import opened FaultReport
  import opened Fsracer
  import opened TimersTest

  const WRITE := Operation(Hpath(0, "tmp", PRODUCED), "open", false)
  const OPEN := Operation(NewFd(0, "tmp", 3), "open", false)
  const CLOSE := Operation(DelFd(3), "close", false)
  const UNLINK := Operation(Hpath(0, "tmp", EXPUNGED), "unlink", false)
  const ACCESS := Operation(Hpath(0, "tmp", CONSUMED), "access", false)

  const GROUPS := [
    ExecOp("sync_12", [WRITE, OPEN]), ExecOp("sync_13", [CLOSE]),
    ExecOp("async_7", [UNLINK]), ExecOp("async_8", [ACCESS])]

  /** The trace of the test, run in a directory of our choice. */
  const TIMERS_TRACE := Trace(1, "/w", GROUPS, BLOCKS)

  // ----- The operations it runs

  const IN_MAIN := Context("MAIN_1", Some(["main"]))
  const IN_7 := Context("7", Some(["fs", "node_unlink"]))
  const IN_8 := Context("8", Some(["fs", "node_access"]))

  const MAIN_ITEMS := [Item(IN_MAIN, WRITE), Item(IN_MAIN, OPEN), Item(IN_MAIN, CLOSE)]
  const ITEMS := MAIN_ITEMS + [Item(IN_7, UNLINK)] + [Item(IN_8, ACCESS)]

  const PLACED_MAIN: seq<Placed> := [
    ("MAIN_1", SUBMIT_OPEN), ("MAIN_1", SUBMIT_CLOSE),
    ("MAIN_1", SET_IMMEDIATE), ("MAIN_1", SET_TIMEOUT), ("MAIN_1", TIMER_WRAP)]
  const QUIET_6: seq<Placed> := [("6", TriggerExpr(5)), ("6", NODE_UNLINK), ("6", LinkExpr(5, 7))]
  const QUIET_4: seq<Placed> := [("4", NODE_ACCESS), ("4", LinkExpr(4, 8))]
  const LAST_6: Placed := ("6", SUBMIT_UNLINK)
  const LAST_4: Placed := ("4", SUBMIT_ACCESS)

  lemma PlacedBlocks()
    ensures InBlock(MAIN_BLOCK) == PLACED_MAIN
    ensures InBlock(BLOCK_6) == QUIET_6 + [LAST_6] && InBlock(BLOCK_4) == QUIET_4 + [LAST_4]
    ensures InBlock(BLOCK_7) == [] && InBlock(BLOCK_8) == []
  {
    Digits();
    assert MAIN_BLOCK.GetPrettyBlockId() == "MAIN_1";
    assert BLOCK_6.GetPrettyBlockId() == "6" && BLOCK_4.GetPrettyBlockId() == "4";
    assert MAIN_BLOCK.exprs == [SUBMIT_OPEN, SUBMIT_CLOSE, SET_IMMEDIATE, SET_TIMEOUT, TIMER_WRAP];
    assert BLOCK_6.exprs == [TriggerExpr(5), NODE_UNLINK, LinkExpr(5, 7), SUBMIT_UNLINK];
    assert BLOCK_4.exprs == [NODE_ACCESS, LinkExpr(4, 8), SUBMIT_ACCESS];
  }

  lemma OneMoreBlock(blocks: seq<Block>, b: Block)
    ensures InOrder(blocks + [b]) == InOrder(blocks) + InBlock(b)
  {
    assert (blocks + [b])[..|blocks|] == blocks;
  }

  lemma PlacedInOrder()
    ensures InOrder(BLOCKS) == PLACED_MAIN + (QUIET_6 + [LAST_6]) + (QUIET_4 + [LAST_4])
  {
    assert BLOCKS == [] + [MAIN_BLOCK] + [BLOCK_6] + [BLOCK_7] + [BLOCK_4] + [BLOCK_8];
    PlacedBlocks();
    OneMoreBlock([], MAIN_BLOCK);
    OneMoreBlock([] + [MAIN_BLOCK], BLOCK_6);
    OneMoreBlock([] + [MAIN_BLOCK] + [BLOCK_6], BLOCK_7);
    OneMoreBlock([] + [MAIN_BLOCK] + [BLOCK_6] + [BLOCK_7], BLOCK_4);
    OneMoreBlock([] + [MAIN_BLOCK] + [BLOCK_6] + [BLOCK_7] + [BLOCK_4], BLOCK_8);
  }

  lemma QuietRun(front: seq<Placed>, last: Placed, groups: seq<ExecOp>)
    requires !last.1.SubmitOp?
    ensures AllRuns(front + [last], groups) == AllRuns(front, groups)
  {
    OneMoreRun(front, last, groups);
  }

  lemma Reordered(done: seq<Placed>, first: Placed, others: seq<Placed>, more: seq<Placed>)
    requires more == [first] + others
    ensures done + more == done + [first] + others
  {
  }

  /** Expressions that submit nothing run nothing. */
  lemma {:induction false} QuietRuns(done: seq<Placed>, more: seq<Placed>, groups: seq<ExecOp>)
    requires forall p :: p in more ==> !p.1.SubmitOp?
    ensures AllRuns(done + more, groups) == AllRuns(done, groups)
    decreases |more|
  {
    if more == [] {
      assert done + more == done;
    } else {
      var first, others := more[0], more[1..];
      assert first in more && forall p :: p in others ==> p in more;
      QuietRun(done, first, groups);
      QuietRuns(done + [first], others, groups);
      Reordered(done, first, others, more);
    }
  }

  lemma GroupOps()
    ensures GroupNamed(GROUPS, "sync_12") == Some([WRITE, OPEN]) && GroupNamed(GROUPS, "sync_13") == Some([CLOSE])
    ensures GroupNamed(GROUPS, "async_7") == Some([UNLINK]) && GroupNamed(GROUPS, "async_8") == Some([ACCESS])
  {
    LastNamed(GROUPS, "sync_12", 0);
    LastNamed(GROUPS, "sync_13", 1);
    LastNamed(GROUPS, "async_7", 2);
    LastNamed(GROUPS, "async_8", 3);
  }

  /** A submission of one operation. */
  lemma OneOperation(done: seq<Placed>, p: Placed, event: Id, tags: Option<seq<string>>, op: Operation)
    requires p.1.SubmitOp? && GroupNamed(GROUPS, p.1.opId) == Some([op])
    requires event == ActsFor(p.0, p.1.opId, p.1.submitted) && tags == DebugTags(done, event)
    ensures AllRuns(done + [p], GROUPS) == AllRuns(done, GROUPS) + [Item(Context(event, tags), op)]
  {
    OneMoreRun(done, p, GROUPS);
  }

  lemma MainRuns()
    ensures AllRuns(PLACED_MAIN, GROUPS) == MAIN_ITEMS
  {
    GroupOps();
    var first: Placed, second: Placed := ("MAIN_1", SUBMIT_OPEN), ("MAIN_1", SUBMIT_CLOSE);
    OneMoreRun([], first, GROUPS);
    assert DebugTags([], "MAIN_1") == Some(["main"]);
    var runs := Runs([], first, GROUPS);
    assert |runs| == 2 && runs[0] == Item(IN_MAIN, WRITE) && runs[1] == Item(IN_MAIN, OPEN);
    assert [] + [first] == [first];
    OneOperation([first], second, "MAIN_1", Some(["main"]), CLOSE);
    QuietRuns([first] + [second], PLACED_MAIN[2..], GROUPS);
    assert PLACED_MAIN == [first] + [second] + PLACED_MAIN[2..];
  }

  lemma NoTags(done: seq<Placed>, p: Placed, event: Id)
    requires p.1.NewEventExpr? ==> ToString(p.1.eventId) != event
    ensures KnownTags(done + [p], event) == KnownTags(done, event)
  {
    assert (done + [p])[..|done|] == done;
  }

  lemma Tags7(done: seq<Placed>)
    ensures KnownTags(done + QUIET_6, "7") == Some(["fs", "node_unlink"])
  {
    Digits();
    var created := done + [("6", TriggerExpr(5))] + [("6", NODE_UNLINK)];
    assert done + QUIET_6 == created + [("6", LinkExpr(5, 7))];
    NoTags(created, ("6", LinkExpr(5, 7)), "7");
  }

  lemma Tags8(done: seq<Placed>)
    ensures KnownTags(done + QUIET_4, "8") == Some(["fs", "node_access"])
  {
    Digits();
    var created := done + [("4", NODE_ACCESS)];
    assert done + QUIET_4 == created + [("4", LinkExpr(4, 8))];
    NoTags(created, ("4", LinkExpr(4, 8)), "8");
  }

  lemma AsyncNames()
    ensures AfterFirst("async_7", '_') == "7" && AfterFirst("async_8", '_') == "8"
  {
    assert "async_7" == "async" + ['_'] + "7" && "async_8" == "async" + ['_'] + "8";
    AfterPrefix("async", '_', "7");
    AfterPrefix("async", '_', "8");
  }

  /** A submission of one operation after expressions that submit nothing. */
  lemma LastSubmits(done: seq<Placed>, quiet: seq<Placed>, p: Placed, event: Id, tags: Option<seq<string>>,
                    op: Operation)
    requires forall q :: q in quiet ==> !q.1.SubmitOp?
    requires p.1.SubmitOp? && GroupNamed(GROUPS, p.1.opId) == Some([op])
    requires event == ActsFor(p.0, p.1.opId, p.1.submitted) && tags == DebugTags(done + quiet, event)
    ensures AllRuns(done + (quiet + [p]), GROUPS) == AllRuns(done, GROUPS) + [Item(Context(event, tags), op)]
  {
    QuietRuns(done, quiet, GROUPS);
    OneOperation(done + quiet, p, event, tags, op);
    assert done + (quiet + [p]) == done + quiet + [p];
  }

  lemma AsyncActs()
    ensures ActsFor(LAST_6.0, LAST_6.1.opId, LAST_6.1.submitted) == "7"
    ensures ActsFor(LAST_4.0, LAST_4.1.opId, LAST_4.1.submitted) == "8"
  {
    AsyncNames();
  }

  lemma AsyncTags(done: seq<Placed>)
    ensures DebugTags(done + QUIET_6, "7") == Some(["fs", "node_unlink"])
    ensures DebugTags(done + QUIET_4, "8") == Some(["fs", "node_access"])
  {
    Tags7(done);
    Tags8(done);
  }

  lemma Quiet()
    ensures forall q :: q in QUIET_6 ==> !q.1.SubmitOp?
    ensures forall q :: q in QUIET_4 ==> !q.1.SubmitOp?
  {
  }

  lemma AsyncRuns(done: seq<Placed>)
    ensures AllRuns(done + (QUIET_6 + [LAST_6]), GROUPS) == AllRuns(done, GROUPS) + [Item(IN_7, UNLINK)]
    ensures AllRuns(done + (QUIET_4 + [LAST_4]), GROUPS) == AllRuns(done, GROUPS) + [Item(IN_8, ACCESS)]
  {
    GroupOps();
    AsyncActs();
    AsyncTags(done);
    Quiet();
    LastSubmits(done, QUIET_6, LAST_6, "7", Some(["fs", "node_unlink"]), UNLINK);
    LastSubmits(done, QUIET_4, LAST_4, "8", Some(["fs", "node_access"]), ACCESS);
  }

  lemma TimersRuns()
    ensures AllRuns(PLACED_MAIN + (QUIET_6 + [LAST_6]) + (QUIET_4 + [LAST_4]), GROUPS) == ITEMS
  {
    MainRuns();
    AsyncRuns(PLACED_MAIN);
    AsyncRuns(PLACED_MAIN + (QUIET_6 + [LAST_6]));
  }

  lemma TimersItems()
    ensures TraceItems(TIMERS_TRACE) == ITEMS
  {
    TraceRunsItsSubmissions(TIMERS_TRACE);
    PlacedInOrder();
    TimersRuns();
  }

  // ----- What the operations do

  const TMP: Path := ["w", "tmp"]
  const KEY: Key := (2, "tmp")

  /** The working directory is `/w`, inode 2; the name `tmp` in it may be bound. */
  ghost predicate InW(s: Fs) {
    && s.cwd == 2 && s.symlinks == map[] && s.inodes.next >= 3
    && (1, "w") in s.inodes.table && s.inodes.table[(1, "w")] == 2 && ToPaths(s.inodes, 2) == {["w"]}
  }

  lemma FindsTmp(s: Fs)
    requires InW(s)
    ensures AbsolutePath(s, 0, ToRaw("tmp")) == Some(TMP)
    ensures Parent(TMP) == ["w"] && Filename(TMP) == "tmp" && ToInode(s.inodes, ["w"]) == (s.inodes, 2)
    ensures ToInode(s.inodes, TMP) ==
      if KEY in s.inodes.table then (s.inodes, s.inodes.table[KEY]) else (AddFresh(s.inodes, KEY, TMP), s.inodes.next)
  {
    assert Native(["tmp"])[1..] == "tmp" by { assert ["tmp"][1..] == []; }
    RelativeReadsBack(["tmp"]);
    assert ["w"] + ["tmp"] == TMP;
    assert Parent(["w"]) == [] && Filename(["w"]) == "w";
  }

  /** Producing or consuming `tmp`. */
  lemma TouchTmp(s: Fs, item: Item)
    requires InW(s) && item.context.debugInfo.Some?
    requires item.op.primitive == Hpath(0, "tmp", PRODUCED) || item.op.primitive == Hpath(0, "tmp", CONSUMED)
    ensures var s', access := Handle(s, item), FSAccess(item.context.eventId, item.op.primitive.effect,
                                                       item.context.debugInfo.value, item.op.actualName);
      && Defined(s, item) && InW(s') && KEY in s'.inodes.table && s'.inodes.opens == s.inodes.opens
      && s'.accesses == AddPathEffect(s.accesses, Absolute(TMP), access)
  {
    FindsTmp(s);
  }

  lemma OpenTmp(s: Fs)
    requires InW(s) && KEY !in s.inodes.opens
    ensures var s' := Handle(s, Item(IN_MAIN, OPEN));
      && Defined(s, Item(IN_MAIN, OPEN)) && InW(s') && KEY in s'.inodes.table && s'.accesses == s.accesses
      && KEY in s'.inodes.opens && s'.inodes.opens[KEY] == (LINKED, 1) && 3 in s'.fds && s'.fds[3] == KEY
  {
    FindsTmp(s);
  }

  lemma CloseTmp(s: Fs)
    requires InW(s) && KEY in s.inodes.table && 3 in s.fds && s.fds[3] == KEY
    requires KEY in s.inodes.opens && s.inodes.opens[KEY] == (LINKED, 1)
    ensures var s' := Handle(s, Item(IN_MAIN, CLOSE));
      && Defined(s, Item(IN_MAIN, CLOSE)) && InW(s') && s'.accesses == s.accesses
      && KEY in s'.inodes.table && KEY !in s'.inodes.opens
  {
  }

  lemma UnlinkTmp(s: Fs)
    requires InW(s) && KEY in s.inodes.table && KEY !in s.inodes.opens
    ensures var s', access := Handle(s, Item(IN_7, UNLINK)), FSAccess("7", EXPUNGED, ["fs", "node_unlink"], "unlink");
      && Defined(s, Item(IN_7, UNLINK)) && InW(s') && KEY !in s'.inodes.table
      && s'.accesses == AddPathEffect(s.accesses, Absolute(TMP), access)
  {
    FindsTmp(s);
    assert ["w"] + ["tmp"] == TMP;
  }

  lemma StartInW()
    ensures InW(Start(["w"])) && Start(["w"]).accesses == map[] && Start(["w"]).inodes.opens == map[]
  {
    assert Parent(["w"]) == [] && Filename(["w"]) == "w";
  }

  const PRODUCES := FSAccess("MAIN_1", PRODUCED, ["main"], "open")
  const EXPUNGES := FSAccess("7", EXPUNGED, ["fs", "node_unlink"], "unlink")
  const CONSUMES := FSAccess("8", CONSUMED, ["fs", "node_access"], "access")
  const EXPECTED_ACCESSES := map[
    (Absolute(TMP), "MAIN_1") := PRODUCES, (Absolute(TMP), "7") := EXPUNGES, (Absolute(TMP), "8") := CONSUMES]

  lemma {:induction false} FiveItems(s: Fs, a: Item, b: Item, c: Item, d: Item, e: Item)
    ensures HandleAll(s, [a, b, c, d, e]) == Handle(Handle(Handle(Handle(Handle(s, a), b), c), d), e)
    ensures AllDefined(s, [a, b, c, d, e]) <==>
      var s1 := Handle(s, a); var s2 := Handle(s1, b); var s3 := Handle(s2, c); var s4 := Handle(s3, d);
      Defined(s, a) && Defined(s1, b) && Defined(s2, c) && Defined(s3, d) && Defined(s4, e)
  {
    var items := [a, b, c, d, e];
    assert items[..0] == [] && items[..1] == [a] && items[..2] == [a, b] && items[..3] == [a, b, c];
    assert items[..4] == [a, b, c, d] && [a, b, c, d][..3] == [a, b, c] && [a, b, c][..2] == [a, b];
    assert [a, b][..1] == [a] && [a][..0] == [];
    assert DefinedAt(s, items, 0) <==> Defined(s, a);
    assert DefinedAt(s, items, 1) <==> Defined(Handle(s, a), b);
    assert DefinedAt(s, items, 2) <==> Defined(Handle(Handle(s, a), b), c);
    assert DefinedAt(s, items, 3) <==> Defined(Handle(Handle(Handle(s, a), b), c), d);
    assert DefinedAt(s, items, 4) <==> Defined(Handle(Handle(Handle(Handle(s, a), b), c), d), e);
  }

  lemma FiveEffects(s: Fs)
    requires InW(s) && s.inodes.opens == map[]
    ensures AllDefined(s, ITEMS)
    ensures HandleAll(s, ITEMS).accesses ==
      AddPathEffect(AddPathEffect(AddPathEffect(s.accesses, Absolute(TMP), PRODUCES), Absolute(TMP), EXPUNGES),
                    Absolute(TMP), CONSUMES)
  {
    var write, open, close := Item(IN_MAIN, WRITE), Item(IN_MAIN, OPEN), Item(IN_MAIN, CLOSE);
    var unlink, access := Item(IN_7, UNLINK), Item(IN_8, ACCESS);
    assert ITEMS == [write, open, close, unlink, access];
    FiveItems(s, write, open, close, unlink, access);
    TouchTmp(s, write);
    var s1 := Handle(s, write);
    OpenTmp(s1);
    var s2 := Handle(s1, open);
    CloseTmp(s2);
    var s3 := Handle(s2, close);
    UnlinkTmp(s3);
    TouchTmp(Handle(s3, unlink), access);
  }

  lemma ThreeAccesses()
    ensures AddPathEffect(AddPathEffect(AddPathEffect(map[], Absolute(TMP), PRODUCES), Absolute(TMP), EXPUNGES),
                          Absolute(TMP), CONSUMES)
         == EXPECTED_ACCESSES
  {
    assert "7" != "MAIN_1" && "8" != "MAIN_1" && "7" != "8";
  }

  lemma WorkingDirectory()
    ensures ToRaw("/w") == Absolute(["w"])
  {
    PathReadsBack(["w"]);
    assert Native(["w"]) == "/w" by { assert ["w"][1..] == []; }
  }

  /** The accesses that the test expects, but for the reading of the script. */
  lemma ExpectedAccesses()
    ensures Analyzable(TIMERS_TRACE)
    ensures NetAccesses(TIMERS_TRACE) == EXPECTED_ACCESSES
  {
    TimersItems();
    WorkingDirectory();
    StartInW();
    FiveEffects(Start(["w"]));
    ThreeAccesses();
  }

  // ----- The race

  lemma NothingAfter7(g: View)
    requires g.deps == DEPS_4
    ensures !Reaches(Pairs(g.deps), "7", "8") && !Reaches(Pairs(g.deps), "8", "7")
  {
    assert forall e :: e in Pairs(DEPS_4) ==> e.0 != "7" && e.0 != "8";
  }

  lemma MainBeforeAll(g: View)
    requires g.deps == DEPS_4
    ensures Reaches(Pairs(g.deps), "MAIN_1", "7") && Reaches(Pairs(g.deps), "MAIN_1", "8")
  {
    var r := Pairs(g.deps);
    assert Edge("4", "7", HAPPENS_BEFORE) in Before({"4", "5"}, "7");
    assert Edge("MAIN_1", "4", CREATES) in g.deps && Edge("4", "8", CREATES) in g.deps;
    ReachesEdge(r, "MAIN_1", "4");
    ReachesEdge(r, "4", "7");
    ReachesEdge(r, "4", "8");
    ReachesTrans(r, "MAIN_1", "4", "7");
    ReachesTrans(r, "MAIN_1", "4", "8");
  }

  lemma InTextOrder()
    ensures Less("7", "8") && Less("7", "MAIN_1") && Less("8", "MAIN_1")
    ensures !Less("8", "7") && !Less("MAIN_1", "7") && !Less("MAIN_1", "8")
    ensures !Less("7", "7") && !Less("8", "8") && !Less("MAIN_1", "MAIN_1")
  {
    LessAsymmetric("7", "8");
    LessIrreflexive("7");
    LessIrreflexive("8");
    LessIrreflexive("MAIN_1");
  }

  lemma Candidates(b: BlockAccesses, first: Id, second: Id, p: RawPath)
    requires b == EXPECTED_ACCESSES
    ensures Candidate(b, first, second, p) <==>
      p == Absolute(TMP) && (first, second) in {("7", "8"), ("7", "MAIN_1"), ("8", "MAIN_1")}
  {
    InTextOrder();
  }

  /** The one race that the test expects: event 7 expunges the file, event 8
      consumes it, and nothing orders them.  Detection does not fail. */
  lemma ExpectedRace(first: Id, second: Id, p: RawPath)
    ensures Race(NetAccesses(TIMERS_TRACE), FinalGraph(true, TIMERS_TRACE), first, second, p) <==>
      first == "7" && second == "8" && p == Absolute(["w", "tmp"])
    ensures !DetectionFails(NetAccesses(TIMERS_TRACE), FinalGraph(true, TIMERS_TRACE))
  {
    ExpectedAccesses();
    AfterAll();
    var b, g := NetAccesses(TIMERS_TRACE), FinalGraph(true, TIMERS_TRACE);
    Candidates(b, first, second, p);
    NothingAfter7(g);
    MainBeforeAll(g);
    TargetsMakeDetectable(b, g);
  }
}
