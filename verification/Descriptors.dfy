/** Descriptors over every run of the file-system analyzer: what is open is what
    some descriptor holds. */
module Descriptors {
  import opened Common
  import opened Traces
  import opened FileAccess
  import opened InodeModel
  import opened InodeRename
  import opened FsModel

  /** The descriptors bound to a key. */
  function Holders(fds: map<nat, Key>, k: Key): set<nat> {
    set fd | fd in fds && fds[fd] == k
  }

  ghost predicate KeyConserved(opens: map<Key, (INodeType, nat)>, fds: map<nat, Key>, k: Key) {
    && (k in opens <==> Holders(fds, k) != {})
    && (k in opens ==> opens[k].1 == |Holders(fds, k)|)
  }

  /** A key is open exactly when some descriptor is bound to it, and its counter
      is the number of those. */
  ghost predicate Conserved(s: Fs) {
    forall k :: KeyConserved(s.inodes.opens, s.fds, k)
  }

  /** A new descriptor is not in use, and a dropped one is. */
  ghost predicate FreshDescriptor(s: Fs, op: Primitive) {
    && (op.NewFd? && op.newFd >= 0 && AbsolutePath(s, op.dirfd, ToRaw(op.path)).Some? ==> op.newFd !in s.fds)
    && (op.DelFd? ==> op.fd in s.fds)
  }

  lemma {:induction false} ResolveKeepsOpens(s: Inodes, p: Path)
    ensures ToInode(s, p).0.opens == s.opens
    decreases |p|
  {
    if p != [] { ResolveKeepsOpens(s, Parent(p)); }
  }

  /** The counters of two tables are the same, key by key. */
  ghost predicate SameCounts(s: Inodes, s': Inodes) {
    s'.opens.Keys == s.opens.Keys && forall k :: k in s.opens ==> s'.opens[k].1 == s.opens[k].1
  }

  lemma RemoveKeepsCounts(s: Inodes, k: Key)
    ensures SameCounts(s, RemoveEntry(s, k))
  {
  }

  lemma RenameKeepsCounts(s: Inodes, from: Path, to: Path)
    ensures SameCounts(s, InodeRename.Rename(s, from, to))
  {
    var (s1, inode) := ToInode(s, from);
    var (s2, parent) := ToInode(s1, Parent(to));
    var s3 := AddEntry(s2, (parent, Filename(to)), to, inode);
    var (s4, oldParent) := ToInode(s3, Parent(from));
    ResolveKeepsOpens(s, from);
    ResolveKeepsOpens(s1, Parent(to));
    ResolveKeepsOpens(s3, Parent(from));
    RemoveKeepsCounts(s4, (oldParent, Filename(from)));
  }

  lemma HoldersGrow(fds: map<nat, Key>, fd: nat, k: Key, j: Key)
    requires fd !in fds
    ensures Holders(fds[fd := k], j) == Holders(fds, j) + (if j == k then {fd} else {})
    ensures |Holders(fds[fd := k], j)| == |Holders(fds, j)| + (if j == k then 1 else 0)
  {
  }

  lemma HoldersShrink(fds: map<nat, Key>, fd: nat, j: Key)
    requires fd in fds
    ensures Holders(fds - {fd}, j) == Holders(fds, j) - (if j == fds[fd] then {fd} else {})
    ensures |Holders(fds - {fd}, j)| == |Holders(fds, j)| - (if j == fds[fd] then 1 else 0)
  {
  }

  lemma FreshDescriptorConserves(s: Fs, p: Path, fd: nat)
    requires Conserved(s) && fd !in s.fds
    ensures Conserved(NewDescriptor(s, p, fd))
  {
    var (i1, parent) := ToInode(s.inodes, Parent(p));
    ResolveKeepsOpens(s.inodes, Parent(p));
    var k, s' := (parent, Filename(p)), NewDescriptor(s, p, fd);
    forall j ensures KeyConserved(s'.inodes.opens, s'.fds, j) {
      assert KeyConserved(s.inodes.opens, s.fds, j);
      HoldersGrow(s.fds, fd, k, j);
    }
  }

  lemma UsedDescriptorLeaks(s: Fs, p: Path, fd: nat)
    requires Conserved(s) && fd in s.fds
    ensures !Conserved(NewDescriptor(s, p, fd))
  {
    var (i1, parent) := ToInode(s.inodes, Parent(p));
    ResolveKeepsOpens(s.inodes, Parent(p));
    var k, s' := (parent, Filename(p)), NewDescriptor(s, p, fd);
    var j := s.fds[fd];
    assert KeyConserved(s.inodes.opens, s.fds, j);
    assert fd in Holders(s.fds, j);
    if j == k {
      assert Holders(s'.fds, j) == Holders(s.fds, j);
    } else {
      assert Holders(s'.fds, j) == Holders(s.fds, j) - {fd};
    }
    assert !KeyConserved(s'.inodes.opens, s'.fds, j);
  }

  /** Conservation after a descriptor was returned for a path that resolves: it
      holds if and only if the descriptor was not in use. */
  lemma NewDescriptorConserves(s: Fs, p: Path, fd: nat)
    requires Conserved(s)
    ensures Conserved(NewDescriptor(s, p, fd)) <==> fd !in s.fds
  {
    if fd in s.fds { UsedDescriptorLeaks(s, p, fd); } else { FreshDescriptorConserves(s, p, fd); }
  }

  lemma DropDescriptorConserves(s: Fs, fd: nat)
    requires Conserved(s) && fd in s.fds
    ensures Conserved(DropDescriptor(s, fd))
  {
    var k, s' := s.fds[fd], DropDescriptor(s, fd);
    assert fd in Holders(s.fds, k);
    assert KeyConserved(s.inodes.opens, s.fds, k);
    RemoveKeepsCounts(s.inodes.(opens := s.inodes.opens - {k}), k);
    forall j ensures KeyConserved(s'.inodes.opens, s'.fds, j) {
      assert KeyConserved(s.inodes.opens, s.fds, j);
      HoldersShrink(s.fds, fd, j);
    }
  }

  lemma CountsConserve(s: Fs, s': Fs)
    requires Conserved(s) && s'.fds == s.fds && SameCounts(s.inodes, s'.inodes)
    ensures Conserved(s')
  {
    forall j ensures KeyConserved(s'.inodes.opens, s'.fds, j) {
      assert KeyConserved(s.inodes.opens, s.fds, j);
    }
  }

  lemma PathEffectKeepsCounts(s: Fs, c: Context, p: RawPath, effect: EffectType, name: string)
    ensures var s' := PathEffect(s, c, p, effect, name); s'.fds == s.fds && SameCounts(s.inodes, s'.inodes)
  {
    if effect == EXPUNGED && p.Absolute? {
      ResolveKeepsOpens(s.inodes, Parent(p.names));
      var (i1, parent) := ToInode(s.inodes, Parent(p.names));
      RemoveKeepsCounts(i1, (parent, Filename(p.names)));
    }
  }

  lemma HpathKeepsCounts(s: Fs, c: Context, p: Path, effect: EffectType, name: string)
    ensures var (i1, inode) := ToInode(s.inodes, p);
      var s' := PathEffect(s.(inodes := i1), c, Dereference(s, inode, p), effect, name);
      s'.fds == s.fds && SameCounts(s.inodes, s'.inodes)
  {
    ResolveKeepsOpens(s.inodes, p);
    var (i1, inode) := ToInode(s.inodes, p);
    PathEffectKeepsCounts(s.(inodes := i1), c, Dereference(s, inode, p), effect, name);
  }

  lemma HardLinkKeepsCounts(s: Inodes, from: Path, to: Path)
    ensures SameCounts(s, HardLink(s, from, to))
  {
    ResolveKeepsOpens(s, from);
    ResolveKeepsOpens(ToInode(s, from).0, Parent(to));
  }

  /** Operations on one path, unlinks included. */
  lemma OnePathKeepsCounts(s: Fs, item: Item)
    requires var p := item.op.primitive; p.Hpath? || p.HpathSym? || p.Symlink?
    ensures var s' := Handle(s, item); s'.fds == s.fds && SameCounts(s.inodes, s'.inodes)
  {
    match item.op.primitive
    case Hpath(dirfd, path, effect) =>
      var p := AbsolutePath(s, dirfd, ToRaw(path));
      if p.Some? { HpathKeepsCounts(s, item.context, p.value, effect, item.op.actualName); }
    case HpathSym(dirfd, path, effect) =>
      var p := AbsolutePath(s, dirfd, ToRaw(path));
      if p.Some? { PathEffectKeepsCounts(s, item.context, Absolute(p.value), effect, item.op.actualName); }
    case Symlink(dirfd, path, _) =>
      var p := AbsolutePath(s, dirfd, ToRaw(path));
      if p.Some? { ResolveKeepsOpens(s.inodes, p.value); }
  }

  /** Links and renames. */
  lemma TwoPathsKeepCounts(s: Fs, from: Option<Path>, to: Option<Path>)
    ensures HandleLink(s, from, to).fds == s.fds && SameCounts(s.inodes, HandleLink(s, from, to).inodes)
    ensures HandleRename(s, from, to).fds == s.fds && SameCounts(s.inodes, HandleRename(s, from, to).inodes)
  {
    if from.Some? && to.Some? {
      HardLinkKeepsCounts(s.inodes, from.value, to.value);
      RenameKeepsCounts(s.inodes, from.value, to.value);
    }
  }

  lemma HandleConserves(s: Fs, item: Item)
    requires Conserved(s) && FreshDescriptor(s, item.op.primitive)
    ensures Conserved(Handle(s, item))
  {
    var op := item.op.primitive;
    if op.NewFd? {
      var p := AbsolutePath(s, op.dirfd, ToRaw(op.path));
      if op.newFd >= 0 && p.Some? { NewDescriptorConserves(s, p.value, op.newFd); }
    } else if op.DelFd? {
      DropDescriptorConserves(s, op.fd);
    } else {
      if op.Link? || op.Rename? {
        TwoPathsKeepCounts(s, AbsolutePath(s, op.oldDirfd, ToRaw(op.oldPath)),
                           AbsolutePath(s, op.newDirfd, ToRaw(op.newPath)));
      } else {
        OnePathKeepsCounts(s, item);
      }
      CountsConserve(s, Handle(s, item));
    }
  }

  // ----- The sum of the counters

  ghost function SomeKey(keys: set<Key>): (k: Key)
    requires keys != {}
    ensures k in keys
  {
    var k :| k in keys; k
  }

  ghost function Sum(opens: map<Key, (INodeType, nat)>, keys: set<Key>): nat
    requires keys <= opens.Keys
  {
    if keys == {} then 0 else opens[SomeKey(keys)].1 + Sum(opens, keys - {SomeKey(keys)})
  }

  function HeldBy(fds: map<nat, Key>, keys: set<Key>): set<nat> {
    set fd | fd in fds && fds[fd] in keys
  }

  lemma {:induction false} SumCountsHolders(s: Fs, keys: set<Key>)
    requires Conserved(s) && keys <= s.inodes.opens.Keys
    ensures Sum(s.inodes.opens, keys) == |HeldBy(s.fds, keys)|
    decreases keys
  {
    if keys == {} {
      assert HeldBy(s.fds, keys) == {};
    } else {
      var k := SomeKey(keys);
      SumCountsHolders(s, keys - {k});
      assert KeyConserved(s.inodes.opens, s.fds, k);
      assert HeldBy(s.fds, keys) == Holders(s.fds, k) + HeldBy(s.fds, keys - {k});
      assert Holders(s.fds, k) !! HeldBy(s.fds, keys - {k});
    }
  }

  /** Over every run whose new descriptors are not in use and whose dropped ones
      are, every open counter is the number of descriptors bound to its key, no
      counter is zero, and the counters add up to the number of descriptors. */
  lemma {:induction false} DescriptorsAreConserved(cwd: Path, items: seq<Item>)
    requires forall k :: 0 <= k < |items| ==> FreshDescriptor(HandleAll(Start(cwd), items[..k]), items[k].op.primitive)
    ensures var s := HandleAll(Start(cwd), items);
      && Conserved(s)
      && (forall k :: k in s.inodes.opens ==> s.inodes.opens[k].1 > 0)
      && Sum(s.inodes.opens, s.inodes.opens.Keys) == |s.fds|
    decreases |items|
  {
    var s := HandleAll(Start(cwd), items);
    if items == [] {
      ResolveKeepsOpens(INITIAL, cwd);
      assert Conserved(s);
    } else {
      var n := |items| - 1;
      assert forall m :: 0 <= m <= n ==> items[..n][..m] == items[..m];
      DescriptorsAreConserved(cwd, items[..n]);
      HandleConserves(HandleAll(Start(cwd), items[..n]), items[n]);
    }
    forall k | k in s.inodes.opens ensures s.inodes.opens[k].1 > 0 {
      assert KeyConserved(s.inodes.opens, s.fds, k);
    }
    SumCountsHolders(s, s.inodes.opens.Keys);
    forall fd | fd in s.fds ensures s.fds[fd] in s.inodes.opens {
      assert KeyConserved(s.inodes.opens, s.fds, s.fds[fd]);
      assert fd in Holders(s.fds, s.fds[fd]);
    }
    assert HeldBy(s.fds, s.inodes.opens.Keys) == s.fds.Keys;
  }
}
