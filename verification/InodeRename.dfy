/** Renaming: the whole subtree moves with the name. */
module InodeRename {
  import opened Common
  import opened FileAccess
  import opened InodeModel
  import opened InodeRuns

  /** The table part of FSAnalyzer::AnalyzeRename, on absolute paths. */
  ghost function Rename(s: Inodes, from: Path, to: Path): Inodes {
    var (s1, inode) := ToInode(s, from);
    var (s2, parent) := ToInode(s1, Parent(to));
    var k := (parent, Filename(to));
    if k in s2.table && s2.table[k] == inode then s2
    else
      var s3 := AddEntry(s2, k, to, inode);
      var (s4, oldParent) := ToInode(s3, Parent(from));
      RemoveEntry(s4, (oldParent, Filename(from)))
  }

  /** The table once both ends of the renaming have been resolved. */
  function Resolved(s: Inodes, from: Path, to: Path): Inodes {
    ToInode(ToInode(s, from).0, Parent(to)).0
  }

  predicate Apart(p: Path, q: Path) {
    !(p <= q) && !(q <= p)
  }

  /** An inode with names under it, or one about to get some, has one path. */
  ghost predicate Tree(t: Table, dir: Inode) {
    forall p, q | Walk(t, p).Some? && Walk(t, q) == Walk(t, p) ::
      (Walk(t, p) == Some(dir) || !Childless(t, Walk(t, p).value)) ==> p == q
  }

  lemma BelowPath(p: Path, sfx: Path)
    requires sfx != []
    ensures p + sfx != [] && Parent(p + sfx) == p + Parent(sfx) && Filename(p + sfx) == Filename(sfx)
  {
  }

  /** An inode below the old name is the parent of neither name. */
  lemma NotAParent(t: Table, k1: Key, p1: Path, k2: Key, p2: Path, q: Path)
    requires OnlyPath(t, k1, p1) && OnlyPath(t, k2, p2) && Apart(p1, p2) && p2 <= q
    ensures Walk(t, q) != Some(k1.0) && Walk(t, q) != Some(k2.0)
  {
  }

  /** Below the renamed name, walks go as they went below the old one. */
  lemma {:induction false} SubtreeMoves(t: Table, t': Table, k1: Key, p1: Path, k2: Key, p2: Path, sfx: Path)
    requires OnlyPath(t, k1, p1) && OnlyPath(t, k2, p2) && AgreeExcept(t, t', k1, k2) && Apart(p1, p2)
    requires Walk(t', p1) == Walk(t, p2)
    ensures Walk(t', p1 + sfx) == Walk(t, p2 + sfx)
    decreases |sfx|
  {
    if sfx == [] {
      assert p1 + sfx == p1 && p2 + sfx == p2;
    } else {
      SubtreeMoves(t, t', k1, p1, k2, p2, Parent(sfx));
      BelowPath(p1, sfx);
      BelowPath(p2, sfx);
      NotAParent(t, k1, p1, k2, p2, p2 + Parent(sfx));
      if Walk(t, p2 + Parent(sfx)).Some? {
        var k := (Walk(t, p2 + Parent(sfx)).value, Filename(sfx));
        assert k != k1 && k != k2;
      }
    }
  }

  /** The name that the last step of resolving a path binds. */
  lemma LastName(s: Inodes, p: Path, k: Key)
    requires WellFormed(s) && p != []
    requires k in ToInode(s, p).0.table && k !in ToInode(s, Parent(p)).0.table
    ensures Walk(ToInode(s, p).0.table, Parent(p)) == Some(k.0) && Filename(p) == k.1
  {
    var (s1, parent) := ToInode(s, Parent(p));
    ResolutionSteps(s, Parent(p));
    WalkExtends(s1.table, ToInode(s, p).0.table, Parent(p));
  }

  /** Resolving a path binds only names on that path. */
  lemma {:induction false} NewNames(s: Inodes, p: Path, k: Key) returns (r: Path)
    requires WellFormed(s)
    requires k in ToInode(s, p).0.table && k !in s.table
    ensures r != [] && r <= p && Walk(s.table, r).None?
    ensures Walk(ToInode(s, p).0.table, Parent(r)) == Some(k.0) && Filename(r) == k.1
    decreases |p|
  {
    if Walk(s.table, p).Some? {
      ResolvedIsUnchanged(s, p);
      assert false;
    } else if k in ToInode(s, Parent(p)).0.table {
      r := NewNames(s, Parent(p), k);
      WalkExtends(ToInode(s, Parent(p)).0.table, ToInode(s, p).0.table, Parent(r));
    } else {
      LastName(s, p, k);
      r := p;
    }
  }

  /** When directories have one path, only paths through those names change. */
  lemma {:induction false} ResolutionIsLocal(s: Inodes, p: Path, q: Path)
    requires WellFormed(s)
    requires var (s', i) := ToInode(s, p); Tree(s'.table, i)
    ensures var t' := ToInode(s, p).0.table;
      Walk(s.table, q) == Walk(t', q) || exists r :: r <= p && r <= q && Walk(s.table, r).None?
    decreases |q|
  {
    var (s', i) := ToInode(s, p);
    ResolutionSteps(s, p);
    if Walk(s.table, q).Some? {
      WalkExtends(s.table, s'.table, q);
    } else if q != [] && Walk(s'.table, q).Some? {
      ResolutionIsLocal(s, p, Parent(q));
      if Walk(s.table, Parent(q)) == Walk(s'.table, Parent(q)) {
        var k := (Walk(s'.table, Parent(q)).value, Filename(q));
        assert k in s'.table && k !in s.table;
        var r := NewNames(s, p, k);
        assert !Childless(s'.table, k.0);
        assert Parent(r) == Parent(q);
        SplitPath(r);
        SplitPath(q);
        assert r == q;
      } else {
        var r :| r <= p && r <= Parent(q) && Walk(s.table, r).None?;
        assert r <= q;
      }
    }
  }

  /** What the renaming relies on: neither path is inside the other, the new one
      does not name the old one's inode already, and every inode that holds
      names has one path. */
  ghost predicate Renameable(s: Inodes, from: Path, to: Path) {
    var s1, inode := ToInode(s, from).0, ToInode(s, from).1;
    var s2, parent := ToInode(s1, Parent(to)).0, ToInode(s1, Parent(to)).1;
    && WellFormed(s) && Apart(from, to)
    && Tree(s2.table, parent)
    && ((parent, Filename(to)) in s2.table ==> s2.table[(parent, Filename(to))] != inode)
  }

  /** The key of the old name, in the resolved table. */
  function OldKey(s: Inodes, from: Path, to: Path): Key {
    (ToInode(Resolved(s, from, to), Parent(from)).1, Filename(from))
  }

  /** The facts about the resolved table on which the renaming works. */
  ghost predicate Ready(s2: Inodes, inode: Inode, kNew: Key, to: Path, kOld: Key, from: Path) {
    && WellFormed(s2) && OnlyPath(s2.table, kNew, to) && OnlyPath(s2.table, kOld, from) && kNew != kOld
    && Walk(s2.table, from) == Some(inode) && kOld in s2.table && s2.table[kOld] == inode && inode != kOld.0
    && ToInode(s2, Parent(from)) == (s2, kOld.0)
  }

  lemma ResolvedIsReady(s: Inodes, from: Path, to: Path)
    requires Renameable(s, from, to)
    ensures var kNew := (ToInode(ToInode(s, from).0, Parent(to)).1, Filename(to));
      Ready(Resolved(s, from, to), ToInode(s, from).1, kNew, to, OldKey(s, from, to), from)
  {
    var (s1, inode) := ToInode(s, from);
    var (s2, parent) := ToInode(s1, Parent(to));
    ResolutionSteps(s, from);
    ResolutionSteps(s1, Parent(to));
    WalkExtends(s1.table, s2.table, from);
    SplitPath(from);
    SplitPath(to);
    var oldParent := Walk(s2.table, Parent(from)).value;
    ResolvedIsUnchanged(s2, Parent(from));
    var kOld := (oldParent, Filename(from));
    assert kOld in s2.table && !Childless(s2.table, oldParent);
    assert OnlyPath(s2.table, kOld, from);
    assert OnlyPath(s2.table, (parent, Filename(to)), to);
    assert Walk(s2.table, from) != Walk(s2.table, Parent(from));
  }

  ghost function Moved(s2: Inodes, inode: Inode, kNew: Key, to: Path, kOld: Key, from: Path): Inodes {
    var (s4, oldParent) := ToInode(AddEntry(s2, kNew, to, inode), Parent(from));
    RemoveEntry(s4, (oldParent, Filename(from)))
  }

  lemma MovedTable(s2: Inodes, inode: Inode, kNew: Key, to: Path, kOld: Key, from: Path)
    requires Ready(s2, inode, kNew, to, kOld, from) && Apart(from, to)
    ensures var t := Moved(s2, inode, kNew, to, kOld, from).table;
      && AgreeExcept(s2.table, t, kNew, kOld)
      && kNew in t && t[kNew] == inode
      && (if kOld !in s2.opens && ToPath(s2, kOld.0).Some? then kOld !in t else kOld in t && t[kOld] == inode)
  {
    var s3 := AddEntry(s2, kNew, to, inode);
    SplitPath(from);
    NotAbove(to, from);
    OthersKeepWalking(s2.table, s3.table, kNew, to, kNew, to, Parent(from));
    ResolvedIsUnchanged(s3, Parent(from));
    assert ToPaths(s3, kOld.0) == ToPaths(s2, kOld.0);
    assert ToPath(s3, kOld.0) == ToPath(s2, kOld.0);
  }

  /** What a changed table means for the paths. */
  lemma MovedPaths(s2: Inodes, inode: Inode, kNew: Key, to: Path, kOld: Key, from: Path, t: Table, sfx: Path)
    requires Ready(s2, inode, kNew, to, kOld, from) && Apart(from, to)
    requires AgreeExcept(s2.table, t, kNew, kOld) && kNew in t && t[kNew] == inode
    ensures Walk(t, to + sfx) == Walk(s2.table, from + sfx)
    ensures Walk(t, from).None? <==> kOld !in t
  {
    SplitPath(from);
    SplitPath(to);
    NotAbove(from, to);
    NotAbove(to, from);
    OthersKeepWalking(s2.table, t, kNew, to, kOld, from, Parent(to));
    OthersKeepWalking(s2.table, t, kNew, to, kOld, from, Parent(from));
    assert Walk(t, to) == Some(inode);
    SubtreeMoves(s2.table, t, kNew, to, kOld, from, sfx);
  }

  /** Below the old name, resolving the new parent changed nothing. */
  lemma SubtreeUntouched(s: Inodes, from: Path, to: Path, sfx: Path)
    requires Renameable(s, from, to)
    ensures Walk(Resolved(s, from, to).table, from + sfx) == Walk(ToInode(s, from).0.table, from + sfx)
  {
    var s1, s2 := ToInode(s, from).0, Resolved(s, from, to);
    ResolutionSteps(s, from);
    ResolutionIsLocal(s1, Parent(to), from + sfx);
    if Walk(s1.table, from + sfx) != Walk(s2.table, from + sfx) {
      var r :| r <= Parent(to) && r <= from + sfx && Walk(s1.table, r).None?;
      OldNotUnresolved(s1, from, to, sfx, r);
    }
  }

  /** Renaming carries the subtree: whatever `from`/sfx resolved to once `from`
      itself was resolved, `to`/sfx resolves to afterwards; the old name is gone
      exactly when it was not open and its parent has one recorded path; and no
      path outside the two subtrees moves. */
  lemma RenameCarriesSubtree(s: Inodes, from: Path, to: Path, sfx: Path, other: Path)
    requires Renameable(s, from, to)
    ensures var s1, s2, s' := ToInode(s, from).0, Resolved(s, from, to), Rename(s, from, to);
      var kOld := OldKey(s, from, to);
      && Walk(s'.table, to + sfx) == Walk(s1.table, from + sfx)
      && (Walk(s.table, from).Some? ==> Walk(s'.table, to + sfx) == Walk(s.table, from + sfx))
      && (Walk(s'.table, from).None? <==> kOld !in s2.opens && ToPath(s2, kOld.0).Some?)
      && (!(from <= other) && !(to <= other) ==> Walk(s'.table, other) == Walk(s2.table, other))
  {
    var s1, inode := ToInode(s, from).0, ToInode(s, from).1;
    var s2 := Resolved(s, from, to);
    var kNew, kOld := (ToInode(s1, Parent(to)).1, Filename(to)), OldKey(s, from, to);
    ResolvedIsReady(s, from, to);
    MovedTable(s2, inode, kNew, to, kOld, from);
    var s' := Moved(s2, inode, kNew, to, kOld, from);
    assert s' == Rename(s, from, to);
    MovedPaths(s2, inode, kNew, to, kOld, from, s'.table, sfx);
    SubtreeUntouched(s, from, to, sfx);
    if !(from <= other) && !(to <= other) {
      OthersKeepWalking(s2.table, s'.table, kNew, to, kOld, from, other);
    }
    if Walk(s.table, from).Some? {
      ResolvedIsUnchanged(s, from);
    }
  }

  lemma OldNotUnresolved(s1: Inodes, from: Path, to: Path, sfx: Path, r: Path)
    requires Walk(s1.table, from).Some? && to != [] && r <= Parent(to) && r <= from + sfx && Walk(s1.table, r).None?
    ensures from <= to
  {
    if |r| <= |from| {
      assert r == from[..|r|];
      PrefixResolves(s1.table, from, |r|);
    } else {
      assert from == (from + sfx)[..|from|] == r[..|from|];
      assert from <= r <= to;
    }
  }

  lemma {:induction false} PrefixResolves(t: Table, p: Path, k: nat)
    requires k <= |p| && Walk(t, p).Some?
    ensures Walk(t, p[..k]).Some?
    decreases |p|
  {
    if k == |p| {
      assert p[..k] == p;
    } else {
      assert p[..k] == Parent(p)[..k];
      PrefixResolves(t, Parent(p), k);
    }
  }
}
