/** Names in the file-system analyzer: the text of paths, hard and symbolic
    links. */
module FsNames {
  import opened Common
  import opened Traces
  import opened FileAccess
  import opened InodeModel
  import opened InodeRename
  import opened InodeRuns
  import opened FsModel
  import opened NetEffects

  // ----- Names

  /** The text of an absolute path. */
  function Native(p: Path): string {
    if p == [] then "" else "/" + (p[0] + Native(p[1..]))
  }

  predicate IsComponent(name: string) {
    name != "" && '/' !in name
  }

  lemma {:induction false} SplitName(name: string, rest: string, cur: string)
    requires '/' !in name
    ensures Split(name + rest, cur) == Split(rest, cur + name)
    decreases |name|
  {
    if name == "" {
      assert name + rest == rest && cur + name == cur;
    } else {
      assert (name + rest)[1..] == name[1..] + rest;
      SplitName(name[1..], rest, cur + [name[0]]);
      assert cur + [name[0]] + name[1..] == cur + name;
    }
  }

  lemma {:induction false} SplitNative(p: Path, cur: string)
    requires forall name :: name in p ==> IsComponent(name)
    ensures Split(Native(p), cur) == (if cur == "" then [] else [cur]) + p
    decreases |p|
  {
    if p != [] {
      var rest := Native(p[1..]);
      assert p[0] in p && forall name :: name in p[1..] ==> name in p;
      assert Native(p)[0] == '/' && Native(p)[1..] == p[0] + rest;
      SplitName(p[0], rest, "");
      assert "" + p[0] == p[0];
      SplitNative(p[1..], p[0]);
      assert [p[0]] + p[1..] == p;
    }
  }

  /** Reading the text of an absolute path gives its components back. */
  lemma PathReadsBack(p: Path)
    requires p != [] && forall name :: name in p ==> IsComponent(name)
    ensures ToRaw(Native(p)) == Absolute(p)
  {
    SplitNative(p, "");
  }

  // ----- Links

  lemma OthersKeep(s: Inodes, k: Key, to: Path, inode: Inode, q: Path)
    requires OnlyPath(s.table, k, to) && !(to <= q)
    ensures var t := AddEntry(s, k, to, inode).table;
      Walk(t, q) == Walk(s.table, q) && Walk(t, to) == Some(inode)
  {
    var t := AddEntry(s, k, to, inode).table;
    assert !(to <= Parent(to));
    OthersKeepWalking(s.table, t, k, to, k, to, Parent(to));
    OthersKeepWalking(s.table, t, k, to, k, to, q);
  }

  /** A hard link makes the new name an alias: both names resolve to one inode,
      which records the new path, and no path outside the new name moves. */
  lemma HardLinkAliases(s: Inodes, from: Path, to: Path, other: Path)
    requires WellFormed(s) && to != [] && !(to <= from) && !(to <= other)
    requires Tree(Resolved(s, from, to).table, ToInode(ToInode(s, from).0, Parent(to)).1)
    ensures var s', inode := HardLink(s, from, to), ToInode(s, from).1;
      && Walk(s'.table, to) == Some(inode) && Walk(s'.table, from) == Some(inode)
      && to in ToPaths(s', inode)
      && Walk(s'.table, other) == Walk(Resolved(s, from, to).table, other)
  {
    var (s1, inode) := ToInode(s, from);
    var (s2, parent) := ToInode(s1, Parent(to));
    var k, s' := (parent, Filename(to)), HardLink(s, from, to);
    ResolutionSteps(s, from);
    ResolutionSteps(s1, Parent(to));
    WalkExtends(s1.table, s2.table, from);
    assert OnlyPath(s2.table, k, to);
    OthersKeep(s2, k, to, inode, from);
    OthersKeep(s2, k, to, inode, other);
  }

  /** A path that names a symbolic link records its accesses under the target. */
  lemma SymlinkIsFollowed(s: Fs, link: Item, use: Item, p: Path)
    requires WellFormed(s.inodes) && link.op.primitive.Symlink? && use.op.primitive.Hpath?
    requires AbsolutePath(s, link.op.primitive.dirfd, ToRaw(link.op.primitive.path)) == Some(p)
    requires AbsolutePath(Handle(s, link), use.op.primitive.dirfd, ToRaw(use.op.primitive.path)) == Some(p)
    ensures |Recording(Handle(s, link), use)| == 1
    ensures var (path, access) := Recording(Handle(s, link), use)[0];
      && path == ToRaw(link.op.primitive.target)
      && access.eventId == use.context.eventId && access.effectType == use.op.primitive.effect
      && access.operationName == use.op.actualName
  {
    var (i1, inode) := ToInode(s.inodes, p);
    var target := ToRaw(link.op.primitive.target);
    StableAllocator(s.inodes, p);
    assert Handle(s, link) == s.(inodes := i1, symlinks := s.symlinks[inode := target]);
    TargetIsRecorded(Handle(s, link), use, p, inode, target);
  }

  lemma TargetIsRecorded(s: Fs, use: Item, p: Path, inode: Inode, target: RawPath)
    requires use.op.primitive.Hpath? && AbsolutePath(s, use.op.primitive.dirfd, ToRaw(use.op.primitive.path)) == Some(p)
    requires ToInode(s.inodes, p).1 == inode && inode in s.symlinks && s.symlinks[inode] == target
    ensures Recording(s, use) == [(target, AccessOf(use.context, use.op.primitive.effect, use.op.actualName))]
  {
  }

  // ----- Where a trace starts

  /** The text of a relative path is that of an absolute one without the first `/`. */
  lemma RelativeReadsBack(p: Path)
    requires p != [] && forall name :: name in p ==> IsComponent(name)
    ensures ToRaw(Native(p)[1..]) == Relative(p)
  {
    var rest := Native(p[1..]);
    assert p[0] in p && forall name :: name in p[1..] ==> name in p;
    assert Native(p)[1..] == p[0] + rest;
    SplitName(p[0], rest, "");
    assert "" + p[0] == p[0];
    SplitNative(p[1..], p[0]);
    assert [p[0]] + p[1..] == p;
  }

  /** In the first table nothing but the root resolves. */
  lemma {:induction false} NothingYet(p: Path)
    requires p != []
    ensures Walk(INITIAL.table, p).None? && CarefulResolve(INITIAL, p)
    decreases |p|
  {
    if |p| > 1 { NothingYet(Parent(p)); }
  }

  /** When the analysis starts, a relative path lies in the working directory of
      the trace, and directory descriptor 0 stands for that. */
  lemma StartsInWorkingDirectory(cwd: Path, p: Path)
    requires p != [] && forall name :: name in p ==> IsComponent(name)
    ensures AbsolutePath(Start(cwd), 0, ToRaw(Native(p)[1..])) == Some(cwd + p)
    ensures AbsolutePath(Start(cwd), 0, ToRaw(Native(p))) == Some(p)
  {
    RelativeReadsBack(p);
    PathReadsBack(p);
    InitialIsExact();
    if cwd != [] {
      NothingYet(cwd);
      ResolveKeepsExact(INITIAL, cwd);
    }
    assert ToPaths(Start(cwd).inodes, Start(cwd).cwd) == {cwd};
  }

  // ----- Who and where

  lemma {:induction false} FirstSeparator(s: string, sep: char, i: nat, k: nat)
    requires i <= k < |s| && s[k] == sep && forall j :: i <= j < k ==> s[j] != sep
    ensures RightFrom(s, sep, i) == s[k + 1..]
    decreases k - i
  {
    if i < k { FirstSeparator(s, sep, i + 1, k); }
  }

  /** The operations of `async_n` act on behalf of event n, those of a
      synchronous submission on behalf of the block at hand. */
  lemma SubmittedOnBehalf(blockId: Id, e: Expr, ops: OpTable, events: Events, n: nat, item: Item)
    requires e.SubmitOp? && item in ExprItems(blockId, e, ops, events)
    ensures e.submitted.None? ==> item.context.eventId == blockId
    ensures e.submitted.Some? && e.opId == "async_" + ToString(n) ==> item.context.eventId == ToString(n)
  {
    if e.submitted.Some? && e.opId == "async_" + ToString(n) {
      FirstSeparator(e.opId, '_', 0, 5);
      assert e.opId[6..] == ToString(n);
    }
  }

  /** A new descriptor stands for the directory it was opened on, unless it is 0,
      which always means the working directory. */
  lemma RelativeToDescriptor(s: Fs, p: Path, fd: nat, names: Path)
    requires WellFormed(s.inodes)
    ensures fd != AT_FDCWD ==> AbsolutePath(NewDescriptor(s, p, fd), fd, Relative(names)) == Some(p + names)
    ensures fd == AT_FDCWD && ToPath(NewDescriptor(s, p, fd).inodes, s.cwd).Some? ==>
      AbsolutePath(NewDescriptor(s, p, fd), fd, Relative(names))
        == Some(ToPath(NewDescriptor(s, p, fd).inodes, s.cwd).value + names)
  {
    var (i1, parent) := ToInode(s.inodes, Parent(p));
    ResolutionSteps(s.inodes, Parent(p));
    var s' := NewDescriptor(s, p, fd);
    var k := (parent, Filename(p));
    assert s'.inodes.table[k] == i1.next && s'.fds[fd] == k;
    assert i1.next !in i1.rev;
    assert ToPaths(s'.inodes, i1.next) == {p};
  }
}
