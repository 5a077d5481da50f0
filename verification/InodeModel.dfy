/** The inode table as a value: names under their parent's inode, the paths
    recorded for each inode, the open counts, and the next free inode. */
module InodeModel {
  import opened Common
  import opened FileAccess

  type Inode = nat
  type Key = (Inode, string)
  type Table = map<Key, Inode>

  datatype INodeType = LINKED | UNLINKED

  datatype Inodes = Inodes(
    table: Table,
    rev: map<Inode, set<Path>>,
    opens: map<Key, (INodeType, nat)>,
    next: Inode)

  const ROOT: Inode := 1

  const INITIAL := Inodes(map[(0, "/") := ROOT], map[ROOT := {[]}], map[], 2)

  /** `parent_path()` and `filename()`; the root is its own parent, named "/". */
  function Parent(p: Path): Path {
    if p == [] then [] else p[..|p| - 1]
  }

  function Filename(p: Path): string {
    if p == [] then "/" else p[|p| - 1]
  }

  function ToPaths(s: Inodes, i: Inode): set<Path> {
    if i in s.rev then s.rev[i] else {}
  }

  ghost function ToPath(s: Inodes, i: Inode): Option<Path> {
    if p :| ToPaths(s, i) == {p} then Some(p) else None
  }

  function AddEntry(s: Inodes, k: Key, p: Path, i: Inode): Inodes {
    s.(rev := s.rev[i := ToPaths(s, i) + {p}], table := s.table[k := i])
  }

  function AddFresh(s: Inodes, k: Key, p: Path): Inodes {
    AddEntry(s, k, p, s.next).(next := s.next + 1)
  }

  /** Popping a key that is not bound has no defined result in the source. */
  ghost predicate RemoveDefined(s: Inodes, k: Key) {
    ToPath(s, k.0).Some? && k !in s.opens ==> k in s.table
  }

  function DropPath(rev: map<Inode, set<Path>>, i: Inode, p: Path): map<Inode, set<Path>> {
    if i !in rev then rev
    else if rev[i] - {p} == {} then rev - {i}
    else rev[i := rev[i] - {p}]
  }

  ghost function RemoveEntry(s: Inodes, k: Key): Inodes {
    match ToPath(s, k.0)
    case None => s
    case Some(parent) =>
      if k in s.opens then
        (if s.opens[k].0 == LINKED then s.(opens := s.opens[k := (UNLINKED, s.opens[k].1)]) else s)
      else if k in s.table then
        s.(rev := DropPath(s.rev, s.table[k], parent + [k.1]), table := s.table - {k})
      else s
  }

  function OpenInode(s: Inodes, k: Key): Inodes {
    s.(opens := s.opens[k := (LINKED, if k in s.opens then s.opens[k].1 + 1 else 1)])
  }

  ghost function CloseInode(s: Inodes, k: Key): Inodes {
    if k !in s.opens || s.opens[k].1 == 0 then s
    else if s.opens[k].1 > 1 then s.(opens := s.opens[k := (s.opens[k].0, s.opens[k].1 - 1)])
    else if s.opens[k].0 == LINKED then s.(opens := s.opens - {k})
    else RemoveEntry(s.(opens := s.opens - {k}), k)
  }

  ghost predicate CloseDefined(s: Inodes, k: Key) {
    k in s.opens && s.opens[k] == (UNLINKED, 1) ==> RemoveDefined(s.(opens := s.opens - {k}), k)
  }

  /** The table and the inode that a path resolves to, with every missing name
      bound to a fresh inode on the way. */
  function ToInode(s: Inodes, p: Path): (r: (Inodes, Inode))
    decreases |p|
  {
    if p == [] then (s, ROOT)
    else
      var (s1, parent) := ToInode(s, Parent(p));
      var k := (parent, Filename(p));
      if k in s1.table then (s1, s1.table[k]) else (AddFresh(s1, k, p), s1.next)
  }

  // ----- Looking a path up without changing anything

  function Child(t: Table, dir: Option<Inode>, name: string): Option<Inode> {
    if dir.Some? && (dir.value, name) in t then Some(t[(dir.value, name)]) else None
  }

  function Walk(t: Table, p: Path): Option<Inode>
    decreases |p|
  {
    if p == [] then Some(ROOT) else Child(t, Walk(t, Parent(p)), Filename(p))
  }

  /** How many components of a path do not resolve. */
  function Missing(t: Table, p: Path): nat
    decreases |p|
  {
    if p == [] then 0 else Missing(t, Parent(p)) + if Walk(t, p).None? then 1 else 0
  }

  predicate Childless(t: Table, i: Inode) {
    forall k :: k in t ==> k.0 != i
  }

  /** Inodes not yet given out occur nowhere. */
  ghost predicate WellFormed(s: Inodes) {
    && s.next >= 2
    && (forall k :: k in s.table ==> k.0 < s.next && s.table[k] < s.next)
    && (forall i :: i in s.rev ==> i < s.next)
    && (forall k :: k in s.opens ==> k.0 < s.next && s.opens[k].1 > 0)
  }

  predicate Extends(t: Table, t': Table) {
    forall k :: k in t ==> k in t' && t'[k] == t[k]
  }

  lemma {:induction false} WalkExtends(t: Table, t': Table, p: Path)
    requires Extends(t, t') && Walk(t, p).Some?
    ensures Walk(t', p) == Walk(t, p)
    decreases |p|
  {
    if p != [] { WalkExtends(t, t', Parent(p)); }
  }

  lemma {:induction false} WalkBelowNext(s: Inodes, p: Path)
    requires WellFormed(s) && Walk(s.table, p).Some?
    ensures Walk(s.table, p).value < s.next
    decreases |p|
  {
  }

  /** A path that resolves is returned as it is, and nothing changes. */
  lemma {:induction false} ResolvedIsUnchanged(s: Inodes, p: Path)
    requires Walk(s.table, p).Some?
    ensures ToInode(s, p) == (s, Walk(s.table, p).value)
    decreases |p|
  {
    if p != [] { ResolvedIsUnchanged(s, Parent(p)); }
  }

  lemma {:induction false} ResolutionSteps(s: Inodes, p: Path)
    requires WellFormed(s)
    ensures var (s', i) := ToInode(s, p);
      && WellFormed(s') && i < s'.next && s'.opens == s.opens
      && Extends(s.table, s'.table)
      && Walk(s'.table, p) == Some(i)
      && s'.next == s.next + Missing(s.table, p)
      && (Walk(s.table, p).None? ==> i == s'.next - 1 >= s.next && Childless(s'.table, i))
    decreases |p|
  {
    if p != [] {
      ResolutionSteps(s, Parent(p));
      var (s1, parent) := ToInode(s, Parent(p));
      var (s', i) := ToInode(s, p);
      if Walk(s.table, Parent(p)).Some? {
        ResolvedIsUnchanged(s, Parent(p));
      }
      WalkExtends(s1.table, s'.table, Parent(p));
    }
  }

  /** The allocator is stable: the result is what the path resolves to from then
      on, asking again changes nothing, no other path moves, and one inode is
      used for each component that did not resolve. */
  lemma StableAllocator(s: Inodes, p: Path)
    requires WellFormed(s)
    ensures var (s', i) := ToInode(s, p);
      && Walk(s'.table, p) == Some(i)
      && ToInode(s', p) == (s', i)
      && (forall q :: Walk(s.table, q).Some? ==> Walk(s'.table, q) == Walk(s.table, q))
      && s'.next == s.next + Missing(s.table, p)
      && s'.opens == s.opens && WellFormed(s')
  {
    ResolutionSteps(s, p);
    var (s', i) := ToInode(s, p);
    ResolvedIsUnchanged(s', p);
    forall q | Walk(s.table, q).Some? ensures Walk(s'.table, q) == Walk(s.table, q) {
      WalkExtends(s.table, s'.table, q);
    }
  }

  /** Components that do not resolve are the trailing ones. */
  lemma {:induction false} MissingAreTrailing(t: Table, p: Path, k: nat)
    requires k <= |p|
    ensures Walk(t, p[..k]).None? <==> k > |p| - Missing(t, p)
    decreases |p|
  {
    if p == [] {
    } else if k == |p| {
      assert p[..k] == p;
      MissingAreTrailing(t, Parent(p), |p| - 1);
      assert Parent(p)[..|p| - 1] == Parent(p);
    } else {
      assert p[..k] == Parent(p)[..k];
      MissingAreTrailing(t, Parent(p), k);
      MissingAreTrailing(t, Parent(p), |p| - 1);
      assert Parent(p)[..|p| - 1] == Parent(p);
    }
  }
}
