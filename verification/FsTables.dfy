/** What a trace does to the inode table is a run of table operations, with the
    arguments the operations expect: what holds of such runs holds of traces. */
module FsTables {
  import opened Common
  import opened Traces
  import opened FileAccess
  import opened InodeModel
  import opened InodeRuns
  import opened FsModel

  // ----- The table operations of each operation

  function KeyOf(s: Inodes, p: Path): Key {
    (ToInode(s, Parent(p)).1, Filename(p))
  }

  function OpenOps(s: Inodes, p: Path): seq<Op> {
    [Resolve(Parent(p)), Fresh(KeyOf(s, p), p), Open(KeyOf(s, p))]
  }

  function LinkOps(s: Inodes, from: Path, to: Path): seq<Op> {
    var (s1, inode) := ToInode(s, from);
    [Resolve(from), Resolve(Parent(to)), Add(KeyOf(s1, to), to, inode)]
  }

  function UnlinkOps(s: Inodes, p: Path): seq<Op> {
    [Resolve(Parent(p)), Remove(KeyOf(s, p))]
  }

  predicate SameInode(s: Inodes, from: Path, to: Path) {
    var (s1, inode) := ToInode(s, from);
    var s2 := ToInode(s1, Parent(to)).0;
    KeyOf(s1, to) in s2.table && s2.table[KeyOf(s1, to)] == inode
  }

  ghost function RenameOps(s: Inodes, from: Path, to: Path): seq<Op> {
    if SameInode(s, from, to) then [Resolve(from), Resolve(Parent(to))]
    else LinkOps(s, from, to) + UnlinkOps(HardLink(s, from, to), from)
  }

  function EffectOps(s: Inodes, p: RawPath, effect: EffectType): seq<Op> {
    if effect == EXPUNGED && p.Absolute? then UnlinkOps(s, p.names) else []
  }

  ghost function TableOps(s: Fs, item: Item): seq<Op> {
    match item.op.primitive
    case NewFd(dirfd, path, fd) =>
      var p := AbsolutePath(s, dirfd, ToRaw(path));
      if fd < 0 || p.None? then [] else OpenOps(s.inodes, p.value)
    case DelFd(fd) => if fd in s.fds then [Close(s.fds[fd])] else []
    case Hpath(dirfd, path, effect) =>
      var p := AbsolutePath(s, dirfd, ToRaw(path));
      if p.None? then []
      else
        var (i1, inode) := ToInode(s.inodes, p.value);
        [Resolve(p.value)] + EffectOps(i1, Dereference(s, inode, p.value), effect)
    case HpathSym(dirfd, path, effect) =>
      var p := AbsolutePath(s, dirfd, ToRaw(path));
      if p.None? then [] else EffectOps(s.inodes, Absolute(p.value), effect)
    case Link(oldDirfd, oldPath, newDirfd, newPath) =>
      var from, to := AbsolutePath(s, oldDirfd, ToRaw(oldPath)), AbsolutePath(s, newDirfd, ToRaw(newPath));
      if from.None? || to.None? then [] else LinkOps(s.inodes, from.value, to.value)
    case Rename(oldDirfd, oldPath, newDirfd, newPath) =>
      var from, to := AbsolutePath(s, oldDirfd, ToRaw(oldPath)), AbsolutePath(s, newDirfd, ToRaw(newPath));
      if from.None? || to.None? then [] else RenameOps(s.inodes, from.value, to.value)
    case Symlink(dirfd, path, _) =>
      var p := AbsolutePath(s, dirfd, ToRaw(path));
      if p.None? then [] else [Resolve(p.value)]
  }

  ghost function AllTableOps(cwd: Path, items: seq<Item>): seq<Op> {
    if items == [] then [Resolve(cwd)]
    else
      var n := |items| - 1;
      AllTableOps(cwd, items[..n]) + TableOps(HandleAll(Start(cwd), items[..n]), items[n])
  }

  // ----- They make a matching run

  /** The operations match and lead from one table to the other. */
  ghost predicate LeadsTo(s: Inodes, ops: seq<Op>, s': Inodes) {
    WellFormed(s) && MatchingRun(s, ops) && Run(s, ops) == s' && WellFormed(s')
  }

  lemma NoOps(s: Inodes)
    requires WellFormed(s)
    ensures LeadsTo(s, [], s)
  {
  }

  lemma OneMore(s: Inodes, ops: seq<Op>, s1: Inodes, op: Op)
    requires LeadsTo(s, ops, s1) && Matching(s1, op)
    ensures LeadsTo(s, ops + [op], Apply(s1, op))
  {
    var all := ops + [op];
    assert all[..|ops|] == ops && all[|ops|] == op;
    forall n | 0 <= n < |all| ensures MatchesAt(s, all, n) {
      if n < |ops| { assert all[..n] == ops[..n] && MatchesAt(s, ops, n); }
    }
    ApplyKeepsWellFormed(s1, op);
  }

  lemma AllButLast(s: Inodes, ops: seq<Op>, s': Inodes) returns (s1: Inodes)
    requires LeadsTo(s, ops, s') && ops != []
    ensures LeadsTo(s, ops[..|ops| - 1], s1)
    ensures Matching(s1, ops[|ops| - 1]) && s' == Apply(s1, ops[|ops| - 1])
  {
    var n := |ops| - 1;
    s1 := Run(s, ops[..n]);
    RunKeepsWellFormed(s, ops, n);
    forall m | 0 <= m < n ensures MatchesAt(s, ops[..n], m) {
      assert ops[..n][..m] == ops[..m] && MatchesAt(s, ops, m);
    }
    assert MatchesAt(s, ops, n);
  }

  lemma {:induction false} Joined(s: Inodes, a: seq<Op>, s1: Inodes, b: seq<Op>, s2: Inodes)
    requires LeadsTo(s, a, s1) && LeadsTo(s1, b, s2)
    ensures LeadsTo(s, a + b, s2)
    decreases |b|
  {
    if b == [] {
      assert a + b == a;
    } else {
      var n := |b| - 1;
      var t := AllButLast(s1, b, s2);
      Joined(s, a, s1, b[..n], t);
      OneMore(s, a + b[..n], t, b[n]);
      assert a + b == a + b[..n] + [b[n]];
    }
  }

  lemma Resolves(s: Inodes, p: Path)
    requires WellFormed(s)
    ensures LeadsTo(s, [Resolve(p)], ToInode(s, p).0)
  {
    NoOps(s);
    OneMore(s, [], s, Resolve(p));
    assert [] + [Resolve(p)] == [Resolve(p)];
  }

  lemma FreshLeads(s: Inodes, p: Path)
    requires WellFormed(s)
    ensures var s1, k := ToInode(s, Parent(p)).0, KeyOf(s, p);
      LeadsTo(s, [Resolve(Parent(p)), Fresh(k, p)], AddFresh(s1, k, p)) && k.0 < s1.next
  {
    var s1, k := ToInode(s, Parent(p)).0, KeyOf(s, p);
    Resolves(s, Parent(p));
    ResolutionSteps(s, Parent(p));
    OneMore(s, [Resolve(Parent(p))], s1, Fresh(k, p));
    assert [Resolve(Parent(p))] + [Fresh(k, p)] == [Resolve(Parent(p)), Fresh(k, p)];
  }

  lemma OpenLeads(s: Inodes, p: Path)
    requires WellFormed(s)
    ensures var s1, k := ToInode(s, Parent(p)).0, KeyOf(s, p);
      LeadsTo(s, OpenOps(s, p), OpenInode(AddFresh(s1, k, p), k))
  {
    var s1, k := ToInode(s, Parent(p)).0, KeyOf(s, p);
    FreshLeads(s, p);
    OneMore(s, [Resolve(Parent(p)), Fresh(k, p)], AddFresh(s1, k, p), Open(k));
    assert OpenOps(s, p) == [Resolve(Parent(p)), Fresh(k, p)] + [Open(k)];
  }

  lemma ResolveTwo(s: Inodes, p: Path, q: Path)
    requires WellFormed(s)
    ensures LeadsTo(s, [Resolve(p), Resolve(q)], ToInode(ToInode(s, p).0, q).0)
  {
    Resolves(s, p);
    OneMore(s, [Resolve(p)], ToInode(s, p).0, Resolve(q));
    assert [Resolve(p)] + [Resolve(q)] == [Resolve(p), Resolve(q)];
  }

  lemma LinkLeads(s: Inodes, from: Path, to: Path)
    requires WellFormed(s)
    ensures LeadsTo(s, LinkOps(s, from, to), HardLink(s, from, to))
  {
    var (s1, inode) := ToInode(s, from);
    var s2 := ToInode(s1, Parent(to)).0;
    ResolutionSteps(s, from);
    ResolutionSteps(s1, Parent(to));
    ResolveTwo(s, from, Parent(to));
    OneMore(s, [Resolve(from), Resolve(Parent(to))], s2, Add(KeyOf(s1, to), to, inode));
    assert LinkOps(s, from, to) == [Resolve(from), Resolve(Parent(to))] + [Add(KeyOf(s1, to), to, inode)];
  }

  lemma UnlinkLeads(s: Inodes, p: Path)
    requires WellFormed(s)
    ensures LeadsTo(s, UnlinkOps(s, p), RemoveEntry(ToInode(s, Parent(p)).0, KeyOf(s, p)))
  {
    Resolves(s, Parent(p));
    OneMore(s, [Resolve(Parent(p))], ToInode(s, Parent(p)).0, Remove(KeyOf(s, p)));
    assert UnlinkOps(s, p) == [Resolve(Parent(p))] + [Remove(KeyOf(s, p))];
  }

  lemma RenameLeads(s: Inodes, from: Path, to: Path)
    requires WellFormed(s)
    ensures LeadsTo(s, RenameOps(s, from, to), InodeRename.Rename(s, from, to))
  {
    if SameInode(s, from, to) {
      ResolveTwo(s, from, Parent(to));
    } else {
      var s3 := HardLink(s, from, to);
      LinkLeads(s, from, to);
      UnlinkLeads(s3, from);
      Joined(s, LinkOps(s, from, to), s3, UnlinkOps(s3, from), InodeRename.Rename(s, from, to));
    }
  }

  lemma EffectLeads(s: Fs, c: Context, p: RawPath, effect: EffectType, name: string)
    requires WellFormed(s.inodes)
    ensures LeadsTo(s.inodes, EffectOps(s.inodes, p, effect), PathEffect(s, c, p, effect, name).inodes)
  {
    if effect == EXPUNGED && p.Absolute? { UnlinkLeads(s.inodes, p.names); } else { NoOps(s.inodes); }
  }

  lemma HpathLeads(s: Fs, item: Item)
    requires WellFormed(s.inodes) && item.op.primitive.Hpath?
    ensures LeadsTo(s.inodes, TableOps(s, item), Handle(s, item).inodes)
  {
    var op := item.op.primitive;
    var p := AbsolutePath(s, op.dirfd, ToRaw(op.path));
    if p.None? {
      NoOps(s.inodes);
    } else {
      var (i1, inode) := ToInode(s.inodes, p.value);
      var s1, target := s.(inodes := i1), Dereference(s, inode, p.value);
      Resolves(s.inodes, p.value);
      EffectLeads(s1, item.context, target, op.effect, item.op.actualName);
      Joined(s.inodes, [Resolve(p.value)], i1, EffectOps(i1, target, op.effect), Handle(s, item).inodes);
    }
  }

  lemma OnePathLeads(s: Fs, item: Item)
    requires WellFormed(s.inodes) && var op := item.op.primitive; op.NewFd? || op.HpathSym? || op.Symlink?
    ensures LeadsTo(s.inodes, TableOps(s, item), Handle(s, item).inodes)
  {
    var op := item.op.primitive;
    var p := AbsolutePath(s, op.dirfd, ToRaw(op.path));
    NoOps(s.inodes);
    if p.Some? {
      if op.NewFd? { OpenLeads(s.inodes, p.value); }
      if op.HpathSym? { EffectLeads(s, item.context, Absolute(p.value), op.effect, item.op.actualName); }
      if op.Symlink? { Resolves(s.inodes, p.value); }
    }
  }

  lemma TwoPathsLead(s: Fs, item: Item)
    requires WellFormed(s.inodes) && (item.op.primitive.Link? || item.op.primitive.Rename?)
    ensures LeadsTo(s.inodes, TableOps(s, item), Handle(s, item).inodes)
  {
    var op := item.op.primitive;
    var from, to := AbsolutePath(s, op.oldDirfd, ToRaw(op.oldPath)), AbsolutePath(s, op.newDirfd, ToRaw(op.newPath));
    NoOps(s.inodes);
    if from.Some? && to.Some? {
      LinkLeads(s.inodes, from.value, to.value);
      RenameLeads(s.inodes, from.value, to.value);
    }
  }

  lemma CloseLeads(s: Fs, item: Item)
    requires WellFormed(s.inodes) && item.op.primitive.DelFd?
    ensures LeadsTo(s.inodes, TableOps(s, item), Handle(s, item).inodes)
  {
    var fd := item.op.primitive.fd;
    NoOps(s.inodes);
    if fd in s.fds {
      OneMore(s.inodes, [], s.inodes, Close(s.fds[fd]));
      assert [] + [Close(s.fds[fd])] == [Close(s.fds[fd])];
    }
  }

  lemma HandleLeads(s: Fs, item: Item)
    requires WellFormed(s.inodes)
    ensures LeadsTo(s.inodes, TableOps(s, item), Handle(s, item).inodes)
  {
    match item.op.primitive
    case NewFd(_, _, _) => OnePathLeads(s, item);
    case DelFd(_) => CloseLeads(s, item);
    case Hpath(_, _, _) => HpathLeads(s, item);
    case HpathSym(_, _, _) => OnePathLeads(s, item);
    case Link(_, _, _, _) => TwoPathsLead(s, item);
    case Rename(_, _, _, _) => TwoPathsLead(s, item);
    case Symlink(_, _, _) => OnePathLeads(s, item);
  }

  /** In every state of every run the inode table is the one that its table
      operations lead to, and each of them was called with matching arguments. */
  lemma {:induction false} TraceIsTableRun(cwd: Path, items: seq<Item>)
    ensures LeadsTo(INITIAL, AllTableOps(cwd, items), HandleAll(Start(cwd), items).inodes)
    decreases |items|
  {
    if items == [] {
      InitialIsExact();
      Resolves(INITIAL, cwd);
    } else {
      var n := |items| - 1;
      var s := HandleAll(Start(cwd), items[..n]);
      TraceIsTableRun(cwd, items[..n]);
      HandleLeads(s, items[n]);
      Joined(INITIAL, AllTableOps(cwd, items[..n]), s.inodes, TableOps(s, items[n]), Handle(s, items[n]).inodes);
    }
  }

  /** In every state of every run an inode that was not given out yet occurs
      nowhere in the tables: what the allocator promises holds throughout. */
  lemma RunIsWellFormed(cwd: Path, items: seq<Item>)
    ensures WellFormed(HandleAll(Start(cwd), items).inodes)
  {
    TraceIsTableRun(cwd, items);
  }

  /** While a trace is analysed, the recorded paths are exactly the ones that
      resolve, after every table operation, if and only if each is careful. */
  lemma TraceTableIsExact(cwd: Path, items: seq<Item>)
    ensures var ops := AllTableOps(cwd, items);
      && Run(INITIAL, ops) == HandleAll(Start(cwd), items).inodes
      && (AlwaysExact(INITIAL, ops) <==> CarefulRun(INITIAL, ops))
  {
    TraceIsTableRun(cwd, items);
    InitialIsExact();
    ReverseIndexIsExact(INITIAL, AllTableOps(cwd, items));
  }
}
