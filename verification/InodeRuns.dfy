/** Runs of inode-table operations: the unlinking of open files, and the exact
    correspondence between the reverse table and the paths that resolve. */
module InodeRuns {
  import opened Common
  import opened FileAccess
  import opened InodeModel

  datatype Op =
    | Add(key: Key, path: Path, inode: Inode)
    | Fresh(key: Key, path: Path)
    | Remove(key: Key)
    | Open(key: Key)
    | Close(key: Key)
    | Resolve(path: Path)

  ghost function Apply(s: Inodes, op: Op): Inodes {
    match op
    case Add(k, p, i) => AddEntry(s, k, p, i)
    case Fresh(k, p) => AddFresh(s, k, p)
    case Remove(k) => RemoveEntry(s, k)
    case Open(k) => OpenInode(s, k)
    case Close(k) => CloseInode(s, k)
    case Resolve(p) => ToInode(s, p).0
  }

  ghost function Run(s: Inodes, ops: seq<Op>): Inodes {
    if ops == [] then s else Apply(Run(s, ops[..|ops| - 1]), ops[|ops| - 1])
  }

  // ----- Unlinking a file that is open

  /** Neither re-opens the key nor binds it again. */
  predicate LeavesAlone(op: Op, k: Key) {
    !((op.Add? || op.Fresh? || op.Open?) && op.key == k)
  }

  function Closes(ops: seq<Op>, k: Key): nat {
    if ops == [] then 0
    else Closes(ops[..|ops| - 1], k) + if ops[|ops| - 1] == Close(k) then 1 else 0
  }

  /** Resolving any path leaves a bound key bound to the same inode. */
  lemma {:induction false} ResolveKeepsBound(s: Inodes, p: Path, k: Key)
    requires k in s.table
    ensures var s' := ToInode(s, p).0; k in s'.table && s'.table[k] == s.table[k] && s'.opens == s.opens
    decreases |p|
  {
    if p != [] { ResolveKeepsBound(s, Parent(p), k); }
  }

  lemma ApplyKeepsUnlinked(s: Inodes, op: Op, k: Key)
    requires k in s.table && k in s.opens && s.opens[k].0 == UNLINKED && s.opens[k].1 >= 1
    requires LeavesAlone(op, k) && (op == Close(k) ==> s.opens[k].1 >= 2)
    ensures var s' := Apply(s, op);
      && k in s'.table && s'.table[k] == s.table[k]
      && k in s'.opens && s'.opens[k] == (UNLINKED, s.opens[k].1 - if op == Close(k) then 1 else 0)
  {
    if op.Resolve? { ResolveKeepsBound(s, op.path, k); }
  }

  /** A bound key that is unlinked while open `n` times stays bound to its inode
      through the first `n - 1` closes, whatever happens to other keys. */
  lemma {:induction false} UnlinkIsDeferred(s: Inodes, k: Key, n: nat, ops: seq<Op>)
    requires k in s.table && k in s.opens && s.opens[k].1 == n >= 1 && ToPath(s, k.0).Some?
    requires forall op :: op in ops ==> LeavesAlone(op, k)
    requires Closes(ops, k) < n
    ensures var s' := Run(RemoveEntry(s, k), ops);
      && k in s'.table && s'.table[k] == s.table[k]
      && k in s'.opens && s'.opens[k] == (UNLINKED, n - Closes(ops, k))
      && forall q :: Walk(s'.table, q) == Some(k.0) ==> Walk(s'.table, q + [k.1]) == Some(s.table[k])
    decreases |ops|
  {
    var s' := Run(RemoveEntry(s, k), ops);
    if ops != [] {
      var front, op := ops[..|ops| - 1], ops[|ops| - 1];
      assert op in ops && forall o :: o in front ==> o in ops;
      UnlinkIsDeferred(s, k, n, front);
      ApplyKeepsUnlinked(Run(RemoveEntry(s, k), front), op, k);
    }
    forall q | Walk(s'.table, q) == Some(k.0) ensures Walk(s'.table, q + [k.1]) == Some(s.table[k]) {
      assert Parent(q + [k.1]) == q && Filename(q + [k.1]) == k.1;
    }
  }

  /** The `n`-th close removes it, if and only if its parent then has one recorded
      path: the key is unbound, and no path ending in it resolves any more. */
  lemma LastCloseUnbinds(s: Inodes, k: Key, n: nat, ops: seq<Op>)
    requires k in s.table && k in s.opens && s.opens[k].1 == n >= 1 && ToPath(s, k.0).Some?
    requires forall op :: op in ops ==> LeavesAlone(op, k)
    requires Closes(ops, k) == n - 1
    ensures var s', t := Run(RemoveEntry(s, k), ops + [Close(k)]), Run(RemoveEntry(s, k), ops);
      && k !in s'.opens
      && (k !in s'.table <==> ToPath(t, k.0).Some?)
      && (ToPath(t, k.0).Some? ==> forall q :: Walk(s'.table, q) == Some(k.0) ==> Walk(s'.table, q + [k.1]).None?)
  {
    UnlinkIsDeferred(s, k, n, ops);
    assert (ops + [Close(k)])[..|ops|] == ops;
    var t := Run(RemoveEntry(s, k), ops);
    var s' := Run(RemoveEntry(s, k), ops + [Close(k)]);
    assert s' == RemoveEntry(t.(opens := t.opens - {k}), k);
    assert ToPath(t.(opens := t.opens - {k}), k.0) == ToPath(t, k.0);
    if ToPath(t, k.0).Some? {
      forall q | Walk(s'.table, q) == Some(k.0) ensures Walk(s'.table, q + [k.1]).None? {
        assert Parent(q + [k.1]) == q && Filename(q + [k.1]) == k.1;
      }
    }
  }

  // ----- The reverse table

  /** The recorded paths of an inode are exactly those that resolve to it. */
  ghost predicate Exact(s: Inodes) {
    forall i: Inode, p :: p in ToPaths(s, i) <==> Walk(s.table, p) == Some(i)
  }

  /** What every caller passes: the key of a path whose parent resolves to the
      inode of the key, and inodes that have been given out. */
  predicate Matching(s: Inodes, op: Op) {
    match op
    case Add(k, p, i) => Filename(p) == k.1 && Walk(s.table, Parent(p)) == Some(k.0) && i < s.next
    case Fresh(k, p) => Filename(p) == k.1 && Walk(s.table, Parent(p)) == Some(k.0)
    case Open(k) => k.0 < s.next
    case _ => true
  }

  /** A name goes under an inode that has one path, and names an inode that is
      neither that one nor has names under it. A bound name may be bound to
      its own inode again, to no other. The root cannot be named. */
  ghost predicate CarefulAdd(s: Inodes, k: Key, p: Path, i: Inode) {
    && p != []
    && if k in s.table then s.table[k] == i
       else ToPaths(s, k.0) == {Parent(p)} && i != k.0 && Childless(s.table, i)
  }

  /** A name that is removed has an inode with no names under it. */
  ghost predicate CarefulRemove(s: Inodes, k: Key) {
    ToPath(s, k.0).Some? && k in s.table ==> Childless(s.table, s.table[k])
  }

  /** Nothing is created under an inode that has several paths. */
  ghost predicate CarefulResolve(s: Inodes, p: Path)
    decreases |p|
  {
    Walk(s.table, p).Some? ||
    (if Walk(s.table, Parent(p)).Some? then ToPaths(s, Walk(s.table, Parent(p)).value) == {Parent(p)}
     else p != [] && CarefulResolve(s, Parent(p)))
  }

  ghost predicate Careful(s: Inodes, op: Op) {
    match op
    case Add(k, p, i) => CarefulAdd(s, k, p, i)
    case Fresh(k, p) => CarefulAdd(s, k, p, s.next)
    case Remove(k) => k !in s.opens ==> CarefulRemove(s, k)
    case Open(k) => true
    case Close(k) => k in s.opens && s.opens[k] == (UNLINKED, 1) ==> CarefulRemove(s, k)
    case Resolve(p) => CarefulResolve(s, p)
  }

  /** `p` is the only path whose last step looks `k` up. */
  ghost predicate OnlyPath(t: Table, k: Key, p: Path) {
    && p != [] && Filename(p) == k.1 && Walk(t, Parent(p)) == Some(k.0)
    && forall q :: Walk(t, q) == Some(k.0) ==> q == Parent(p)
  }

  lemma OnePathIsOnly(s: Inodes, k: Key, p: Path)
    requires Exact(s) && p != [] && Filename(p) == k.1 && ToPaths(s, k.0) == {Parent(p)}
    ensures OnlyPath(s.table, k, p)
  {
  }

  lemma SplitPath(p: Path)
    requires p != []
    ensures p == Parent(p) + [Filename(p)] && Parent(p) != p
  {
  }

  ghost predicate AgreeExcept(t: Table, t': Table, k1: Key, k2: Key) {
    forall k :: k != k1 && k != k2 ==> (k in t <==> k in t') && (k in t ==> t[k] == t'[k])
  }

  lemma NotAbove(p: Path, q: Path)
    requires !(p <= q)
    ensures !(p <= Parent(q))
  {
  }

  lemma OtherName(t: Table, k: Key, p: Path, q: Path)
    requires OnlyPath(t, k, p) && q != [] && !(p <= q) && Walk(t, Parent(q)).Some?
    ensures (Walk(t, Parent(q)).value, Filename(q)) != k
  {
  }

  /** Only paths through a changed name can be affected by the change. */
  lemma {:induction false} OthersKeepWalking(t: Table, t': Table, k1: Key, p1: Path, k2: Key, p2: Path, q: Path)
    requires OnlyPath(t, k1, p1) && OnlyPath(t, k2, p2) && AgreeExcept(t, t', k1, k2)
    requires !(p1 <= q) && !(p2 <= q)
    ensures Walk(t', q) == Walk(t, q)
    decreases |q|
  {
    if q != [] {
      NotAbove(p1, q);
      NotAbove(p2, q);
      OthersKeepWalking(t, t', k1, p1, k2, p2, Parent(q));
      if Walk(t, Parent(q)).Some? {
        OtherName(t, k1, p1, q);
        OtherName(t, k2, p2, q);
      }
    }
  }

  /** At the changed name. */
  lemma ChangedStep(t: Table, t': Table, k: Key, p: Path)
    requires OnlyPath(t, k, p) && AgreeExcept(t, t', k, k)
    ensures Walk(t, p) == (if k in t then Some(t[k]) else None)
    ensures Walk(t', p) == (if k in t' then Some(t'[k]) else None)
  {
    assert !(p <= Parent(p));
    OthersKeepWalking(t, t', k, p, k, p, Parent(p));
  }

  /** Nothing resolves below a path that does not, or whose inode has no names. */
  lemma {:induction false} NoneBelow(t: Table, p: Path, q: Path)
    requires p < q && (Walk(t, p).Some? ==> Childless(t, Walk(t, p).value))
    ensures Walk(t, q) == None
    decreases |q|
  {
    if Parent(q) == p {
    } else {
      NoneBelow(t, p, Parent(q));
    }
  }

  /** What a new name, under an inode with one path, makes resolve. */
  lemma WalkAfterAdd(t: Table, k: Key, p: Path, i: Inode, q: Path)
    requires OnlyPath(t, k, p) && k !in t && i != k.0 && Childless(t, i)
    ensures Walk(t[k := i], q) == if q == p then Some(i) else Walk(t, q)
  {
    var t' := t[k := i];
    ChangedStep(t, t', k, p);
    if p < q {
      NoneBelow(t, p, q);
      NoneBelow(t', p, q);
    } else if q != p {
      OthersKeepWalking(t, t', k, p, k, p, q);
    }
  }

  /** What the removal of a name, under an inode with one path, makes vanish. */
  lemma WalkAfterRemove(t: Table, k: Key, p: Path, q: Path)
    requires OnlyPath(t, k, p) && k in t && Childless(t, t[k])
    ensures Walk(t - {k}, q) == if q == p then None else Walk(t, q)
  {
    var t' := t - {k};
    ChangedStep(t, t', k, p);
    if p < q {
      NoneBelow(t, p, q);
      NoneBelow(t', p, q);
    } else if q != p {
      OthersKeepWalking(t, t', k, p, k, p, q);
    }
  }

  // ----- Adding

  /** The walk one name further. */
  lemma WalkOneMore(t: Table, q: Path, k: Key)
    requires Walk(t, q) == Some(k.0)
    ensures Walk(t, q + [k.1]) == if k in t then Some(t[k]) else None
  {
    assert Parent(q + [k.1]) == q && Filename(q + [k.1]) == k.1;
  }

  lemma AddKeepsExact(s: Inodes, k: Key, p: Path, i: Inode)
    requires Exact(s) && k !in s.table && p != [] && Filename(p) == k.1 && ToPaths(s, k.0) == {Parent(p)}
    requires i != k.0 && Childless(s.table, i)
    ensures Exact(AddEntry(s, k, p, i))
  {
    var s' := AddEntry(s, k, p, i);
    OnePathIsOnly(s, k, p);
    assert Walk(s.table, p).None?;
    forall j: Inode, q ensures q in ToPaths(s', j) <==> Walk(s'.table, q) == Some(j) {
      WalkAfterAdd(s.table, k, p, i, q);
      assert q in ToPaths(s, j) <==> Walk(s.table, q) == Some(j);
      assert p !in ToPaths(s, j);
    }
  }

  /** A path that comes to resolve, and is not the one that is recorded. */
  lemma AddLoses(s: Inodes, k: Key, p: Path, i: Inode, q: Path, name: string)
    requires Exact(s) && k !in s.table && q + [name] != p && Walk(s.table, q + [name]).None?
    requires Walk(s.table[k := i], q + [name]).Some?
    ensures !Exact(AddEntry(s, k, p, i))
  {
    var w, s' := q + [name], AddEntry(s, k, p, i);
    var j := Walk(s'.table, w).value;
    assert w in ToPaths(s, j) <==> Walk(s.table, w) == Some(j);
    assert w in ToPaths(s', j) <==> w in ToPaths(s, j);
  }

  /** A new name under an inode with another path resolves there too. */
  lemma OtherPathIsLost(s: Inodes, k: Key, p: Path, i: Inode, q: Path)
    requires Exact(s) && k !in s.table && p != [] && Filename(p) == k.1
    requires q in ToPaths(s, k.0) && q != Parent(p)
    ensures !Exact(AddEntry(s, k, p, i))
  {
    WalkOneMore(s.table, q, k);
    WalkExtends(s.table, s.table[k := i], q);
    WalkOneMore(s.table[k := i], q, k);
    assert Parent(q + [k.1]) == q;
    AddLoses(s, k, p, i, q, k.1);
  }

  /** What is already named under the inode resolves below its new name too. */
  lemma ChildIsLost(s: Inodes, k: Key, p: Path, i: Inode, c: Key)
    requires Exact(s) && k !in s.table && p != [] && Filename(p) == k.1 && Walk(s.table, Parent(p)) == Some(k.0)
    requires c.0 == i && (c == k || c in s.table)
    ensures !Exact(AddEntry(s, k, p, i))
  {
    var t' := s.table[k := i];
    SplitPath(p);
    WalkOneMore(s.table, Parent(p), k);
    WalkExtends(s.table, t', Parent(p));
    WalkOneMore(t', Parent(p), k);
    WalkOneMore(t', p, c);
    assert Parent(p + [c.1]) == p;
    AddLoses(s, k, p, i, p, c.1);
  }

  /** The inode that a name was bound to keeps the path of the name. */
  lemma OverwrittenIsStale(s: Inodes, k: Key, p: Path, i: Inode)
    requires Exact(s) && Matching(s, Fresh(k, p)) && p != [] && k in s.table && s.table[k] != i
    ensures !Exact(AddEntry(s, k, p, i))
  {
    var s', earlier := AddEntry(s, k, p, i), s.table[k];
    assert Walk(s.table, p) == Some(earlier);
    assert p in ToPaths(s, earlier);
    assert p in ToPaths(s', earlier) && p in ToPaths(s', i);
    assert Exact(s') ==> Walk(s'.table, p) == Some(earlier) && Walk(s'.table, p) == Some(i);
  }

  function Slashes(n: nat): (p: Path) {
    seq(n, _ => "/")
  }

  lemma {:induction false} LongestPath(ps: set<Path>) returns (n: nat)
    ensures forall p :: p in ps ==> |p| < n
    decreases |ps|
  {
    if ps == {} {
      n := 0;
    } else {
      var q :| q in ps;
      var m := LongestPath(ps - {q});
      n := if m > |q| then m else |q| + 1;
      assert forall p :: p in ps ==> p == q || p in ps - {q};
    }
  }

  lemma {:induction false} SlashesWalk(t: Table, n: nat)
    requires (ROOT, "/") in t && t[(ROOT, "/")] == ROOT
    ensures Walk(t, Slashes(n)) == Some(ROOT)
  {
    if n > 0 {
      SlashesWalk(t, n - 1);
      assert Parent(Slashes(n)) == Slashes(n - 1);
    }
  }

  /** Naming the root is never exact: nothing but the root has the empty path,
      and if its name were bound to the root it would have paths of any length. */
  lemma RootCannotBeNamed(s: Inodes, k: Key, i: Inode)
    requires Exact(s) && Matching(s, Fresh(k, []))
    ensures !Exact(AddEntry(s, k, [], i))
  {
    var s' := AddEntry(s, k, [], i);
    var n := LongestPath(ToPaths(s', ROOT));
    assert Slashes(n) !in ToPaths(s', ROOT);
    assert [] in ToPaths(s', i) && Walk(s'.table, []) == Some(ROOT);
    if i == ROOT { SlashesWalk(s'.table, n); }
  }

  /** An addition is exact if and only if it is careful: an overwritten inode
      keeps its path, and a name under a parent with several paths, or of an
      inode with names under it, makes more than one path resolve. */
  lemma AddIsExact(s: Inodes, k: Key, p: Path, i: Inode)
    requires Exact(s) && Matching(s, Fresh(k, p))
    ensures Exact(AddEntry(s, k, p, i)) <==> CarefulAdd(s, k, p, i)
  {
    if p == [] {
      RootCannotBeNamed(s, k, i);
    } else if k in s.table {
      assert Walk(s.table, p) == Some(s.table[k]);
      assert p in ToPaths(s, s.table[k]);
      if s.table[k] != i { OverwrittenIsStale(s, k, p, i); } else { SameStateExact(s, k, p, i); }
    } else if ToPaths(s, k.0) != {Parent(p)} {
      assert Parent(p) in ToPaths(s, k.0);
      var q :| q in ToPaths(s, k.0) && q != Parent(p);
      OtherPathIsLost(s, k, p, i, q);
    } else if i == k.0 {
      ChildIsLost(s, k, p, i, k);
    } else if !Childless(s.table, i) {
      var c :| c in s.table && c.0 == i;
      ChildIsLost(s, k, p, i, c);
    } else {
      AddKeepsExact(s, k, p, i);
    }
  }

  /** Binding a name to its own inode again changes nothing. */
  lemma SameStateExact(s: Inodes, k: Key, p: Path, i: Inode)
    requires Exact(s) && k in s.table && s.table[k] == i && p in ToPaths(s, i)
    ensures Exact(AddEntry(s, k, p, i))
  {
    assert s.table[k := i] == s.table;
    assert forall j :: ToPaths(AddEntry(s, k, p, i), j) == ToPaths(s, j);
  }

  /** The open counts and the next inode are not read by the correspondence. */
  lemma OnlyTablesMatter(s: Inodes, s': Inodes)
    requires s'.table == s.table && s'.rev == s.rev
    ensures Exact(s') <==> Exact(s)
  {
    assert forall i :: ToPaths(s', i) == ToPaths(s, i);
  }

  lemma FreshIsExact(s: Inodes, k: Key, p: Path)
    requires Exact(s) && Matching(s, Fresh(k, p))
    ensures Exact(AddFresh(s, k, p)) <==> CarefulAdd(s, k, p, s.next)
  {
    AddIsExact(s, k, p, s.next);
    OnlyTablesMatter(AddEntry(s, k, p, s.next), AddFresh(s, k, p));
  }

  /** A name that is already bound is the one thing that makes a fresh inode,
      under an inode with one path, stale. */
  lemma FreshIsExactIfUnbound(s: Inodes, k: Key, p: Path)
    requires WellFormed(s) && Exact(s) && p != [] && Filename(p) == k.1 && ToPaths(s, k.0) == {Parent(p)}
    ensures Exact(AddFresh(s, k, p)) <==> k !in s.table
  {
    assert Parent(p) in ToPaths(s, k.0);
    WalkBelowNext(s, Parent(p));
    FreshIsExact(s, k, p);
  }

  // ----- Removing

  lemma RemoveKeepsExact(s: Inodes, k: Key)
    requires Exact(s) && CarefulRemove(s, k)
    ensures Exact(RemoveEntry(s, k))
  {
    var s' := RemoveEntry(s, k);
    if ToPath(s, k.0).Some? && k !in s.opens && k in s.table {
      var p := ToPath(s, k.0).value + [k.1];
      assert Parent(p) == ToPath(s, k.0).value && Filename(p) == k.1;
      OnePathIsOnly(s, k, p);
      assert Walk(s.table, p) == Some(s.table[k]);
      assert p in ToPaths(s, s.table[k]);
      forall j: Inode, q ensures q in ToPaths(s', j) <==> Walk(s'.table, q) == Some(j) {
        WalkAfterRemove(s.table, k, p, q);
        assert q in ToPaths(s, j) <==> Walk(s.table, q) == Some(j);
        assert ToPaths(s', j) == ToPaths(s, j) - (if j == s.table[k] then {p} else {});
      }
    } else {
      OnlyTablesMatter(s, s');
    }
  }

  /** What was named under a removed name keeps its path, which is gone. */
  lemma OrphanIsStale(s: Inodes, k: Key, c: Key)
    requires Exact(s) && ToPath(s, k.0).Some? && k !in s.opens && k in s.table
    requires c in s.table && c.0 == s.table[k]
    ensures !Exact(RemoveEntry(s, k))
  {
    var s', parent := RemoveEntry(s, k), ToPath(s, k.0).value;
    var p := parent + [k.1];
    assert Parent(p) == parent && Filename(p) == k.1;
    OnePathIsOnly(s, k, p);
    ChangedStep(s.table, s'.table, k, p);
    WalkOneMore(s.table, p, c);
    var w, j := p + [c.1], s.table[c];
    assert w in ToPaths(s, j);
    assert w in ToPaths(s', j);
    assert Parent(w) == p;
    assert Walk(s'.table, w).None?;
  }

  /** A removal is exact if and only if nothing is left under the name. */
  lemma RemoveIsExact(s: Inodes, k: Key)
    requires Exact(s)
    ensures Exact(RemoveEntry(s, k)) <==> (k !in s.opens ==> CarefulRemove(s, k))
  {
    if k in s.opens {
      OnlyTablesMatter(s, RemoveEntry(s, k));
    } else if CarefulRemove(s, k) {
      RemoveKeepsExact(s, k);
    } else {
      var c :| c in s.table && c.0 == s.table[k];
      OrphanIsStale(s, k, c);
    }
  }

  lemma CloseIsExact(s: Inodes, k: Key)
    requires Exact(s)
    ensures Exact(CloseInode(s, k)) <==> Careful(s, Close(k))
  {
    if k in s.opens && s.opens[k] == (UNLINKED, 1) {
      var s1 := s.(opens := s.opens - {k});
      OnlyTablesMatter(s, s1);
      RemoveIsExact(s1, k);
      assert forall i :: ToPath(s1, i) == ToPath(s, i);
    } else {
      OnlyTablesMatter(s, CloseInode(s, k));
    }
  }

  // ----- Resolving

  lemma {:induction false} ResolveKeepsExact(s: Inodes, p: Path)
    requires WellFormed(s) && Exact(s) && CarefulResolve(s, p)
    ensures var (s', i) := ToInode(s, p); Exact(s') && (Walk(s.table, p).None? ==> ToPaths(s', i) == {p})
    decreases |p|
  {
    if Walk(s.table, p).Some? {
      ResolvedIsUnchanged(s, p);
    } else {
      var (s1, parent) := ToInode(s, Parent(p));
      ResolutionSteps(s, Parent(p));
      if Walk(s.table, Parent(p)).Some? {
        ResolvedIsUnchanged(s, Parent(p));
      } else {
        ResolveKeepsExact(s, Parent(p));
      }
      var k := (parent, Filename(p));
      assert ToPaths(s1, parent) == {Parent(p)};
      assert k !in s1.table;
      assert Childless(s1.table, s1.next);
      AddKeepsExact(s1, k, p, s1.next);
      var s2 := AddEntry(s1, k, p, s1.next);
      OnlyTablesMatter(s2, s2.(next := s1.next + 1));
      assert ToPaths(s1, s1.next) == {};
    }
  }

  /** A path whose parent resolved before, that now resolves unrecorded. */
  ghost predicate Unrecorded(s: Inodes, s': Inodes, w: Path, j: Inode) {
    Walk(s.table, Parent(w)).Some? && Walk(s'.table, w) == Some(j) && w !in ToPaths(s', j)
  }

  /** Where the first missing name goes under an inode with another path. */
  lemma FirstUnrecorded(s: Inodes, p: Path) returns (w: Path, j: Inode)
    requires WellFormed(s) && Exact(s) && p != []
    requires Walk(s.table, p).None? && Walk(s.table, Parent(p)).Some? && !CarefulResolve(s, p)
    ensures Unrecorded(s, ToInode(s, p).0, w, j)
  {
    var dir := Walk(s.table, Parent(p)).value;
    ResolvedIsUnchanged(s, Parent(p));
    assert Parent(p) in ToPaths(s, dir);
    var q :| q in ToPaths(s, dir) && q != Parent(p);
    var k, s' := (dir, Filename(p)), ToInode(s, p).0;
    w, j := q + [k.1], s.next;
    assert Parent(w) == q;
    WalkExtends(s.table, s'.table, q);
    WalkOneMore(s'.table, q, k);
  }

  /** The names created after that record other paths. */
  lemma {:induction false} StaysUnrecorded(s: Inodes, p: Path) returns (w: Path, j: Inode)
    requires WellFormed(s) && Exact(s) && !CarefulResolve(s, p)
    ensures Unrecorded(s, ToInode(s, p).0, w, j)
    decreases |p|
  {
    if Walk(s.table, Parent(p)).Some? {
      w, j := FirstUnrecorded(s, p);
    } else {
      w, j := StaysUnrecorded(s, Parent(p));
      var s1, s' := ToInode(s, Parent(p)).0, ToInode(s, p).0;
      WalkExtends(s1.table, s'.table, w);
    }
  }

  lemma ResolveIsExact(s: Inodes, p: Path)
    requires WellFormed(s) && Exact(s)
    ensures Exact(ToInode(s, p).0) <==> CarefulResolve(s, p)
  {
    if CarefulResolve(s, p) {
      ResolveKeepsExact(s, p);
    } else {
      var w, j := StaysUnrecorded(s, p);
    }
  }

  // ----- Every operation, every run

  lemma RemoveKeepsWellFormed(s: Inodes, k: Key)
    requires WellFormed(s)
    ensures WellFormed(RemoveEntry(s, k))
  {
  }

  lemma CloseKeepsWellFormed(s: Inodes, k: Key)
    requires WellFormed(s)
    ensures WellFormed(CloseInode(s, k))
  {
    RemoveKeepsWellFormed(s.(opens := s.opens - {k}), k);
  }

  lemma ApplyKeepsWellFormed(s: Inodes, op: Op)
    requires WellFormed(s) && Matching(s, op)
    ensures WellFormed(Apply(s, op))
  {
    match op
    case Add(k, p, i) => WalkBelowNext(s, Parent(p));
    case Fresh(k, p) => WalkBelowNext(s, Parent(p));
    case Remove(k) => RemoveKeepsWellFormed(s, k);
    case Open(k) =>
    case Close(k) => CloseKeepsWellFormed(s, k);
    case Resolve(p) => ResolutionSteps(s, p);
  }

  /** One operation on an exact table leaves it exact if and only if it is
      careful. */
  lemma ApplyIsExact(s: Inodes, op: Op)
    requires WellFormed(s) && Exact(s) && Matching(s, op)
    ensures Exact(Apply(s, op)) <==> Careful(s, op)
  {
    match op
    case Add(k, p, i) => AddIsExact(s, k, p, i);
    case Fresh(k, p) => FreshIsExact(s, k, p);
    case Remove(k) => RemoveIsExact(s, k);
    case Open(k) => OnlyTablesMatter(s, Apply(s, op));
    case Close(k) => CloseIsExact(s, k);
    case Resolve(p) => ResolveIsExact(s, p);
  }

  lemma InitialIsExact()
    ensures WellFormed(INITIAL) && Exact(INITIAL)
  {
  }

  lemma RunStep(s: Inodes, ops: seq<Op>, n: nat)
    requires n < |ops|
    ensures Run(s, ops[..n + 1]) == Apply(Run(s, ops[..n]), ops[n])
  {
    assert ops[..n + 1][..n] == ops[..n];
  }

  ghost predicate MatchesAt(s: Inodes, ops: seq<Op>, n: nat)
    requires n < |ops|
  {
    Matching(Run(s, ops[..n]), ops[n])
  }

  ghost predicate CarefulAt(s: Inodes, ops: seq<Op>, n: nat)
    requires n < |ops|
  {
    Careful(Run(s, ops[..n]), ops[n])
  }

  ghost predicate ExactAfter(s: Inodes, ops: seq<Op>, n: nat)
    requires n <= |ops|
  {
    Exact(Run(s, ops[..n]))
  }

  ghost predicate AlwaysExact(s: Inodes, ops: seq<Op>) {
    forall n :: 0 <= n <= |ops| ==> ExactAfter(s, ops, n)
  }

  ghost predicate MatchingRun(s: Inodes, ops: seq<Op>) {
    forall n :: 0 <= n < |ops| ==> MatchesAt(s, ops, n)
  }

  ghost predicate CarefulRun(s: Inodes, ops: seq<Op>) {
    forall n :: 0 <= n < |ops| ==> CarefulAt(s, ops, n)
  }

  lemma {:induction false} RunKeepsWellFormed(s: Inodes, ops: seq<Op>, n: nat)
    requires WellFormed(s) && MatchingRun(s, ops) && n <= |ops|
    ensures WellFormed(Run(s, ops[..n]))
  {
    if n > 0 {
      RunKeepsWellFormed(s, ops, n - 1);
      assert MatchesAt(s, ops, n - 1);
      RunStep(s, ops, n - 1);
      ApplyKeepsWellFormed(Run(s, ops[..n - 1]), ops[n - 1]);
    }
  }

  lemma StepIsExact(s: Inodes, ops: seq<Op>, n: nat)
    requires WellFormed(s) && MatchingRun(s, ops) && n < |ops| && Exact(Run(s, ops[..n]))
    ensures Exact(Run(s, ops[..n + 1])) <==> CarefulAt(s, ops, n)
  {
    RunKeepsWellFormed(s, ops, n);
    assert MatchesAt(s, ops, n);
    RunStep(s, ops, n);
    ApplyIsExact(Run(s, ops[..n]), ops[n]);
  }

  lemma {:induction false} CarefulRunKeepsExact(s: Inodes, ops: seq<Op>, n: nat)
    requires WellFormed(s) && Exact(s) && MatchingRun(s, ops) && CarefulRun(s, ops) && n <= |ops|
    ensures Exact(Run(s, ops[..n]))
  {
    if n > 0 {
      CarefulRunKeepsExact(s, ops, n - 1);
      StepIsExact(s, ops, n - 1);
    }
  }

  /** In every state of a run from an exact table `ToPaths` is exactly the set of paths whose walk
      through the table ends at the inode, if and only if every operation of
      the run is careful. */
  lemma ReverseIndexIsExact(s: Inodes, ops: seq<Op>)
    requires WellFormed(s) && Exact(s) && MatchingRun(s, ops)
    ensures AlwaysExact(s, ops) <==> CarefulRun(s, ops)
  {
    if CarefulRun(s, ops) {
      forall n | 0 <= n <= |ops| ensures ExactAfter(s, ops, n) {
        CarefulRunKeepsExact(s, ops, n);
      }
    } else {
      var n :| 0 <= n < |ops| && !CarefulAt(s, ops, n);
      if ExactAfter(s, ops, n) {
        StepIsExact(s, ops, n);
        assert !ExactAfter(s, ops, n + 1);
      }
    }
  }
}
