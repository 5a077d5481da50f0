/** Names that are open: as long as nothing removes or rebinds them, opening and
    closing leaves them bound, and opening after an unlink takes the unlink back. */
module OpenNames {
  import opened Common
  import opened FileAccess
  import opened InodeModel
  import opened InodeRuns
  import opened FsModel

  /** Neither removes the key nor binds it again. */
  predicate OnlyOpensOrCloses(op: Op, k: Key) {
    !((op.Remove? || op.Add? || op.Fresh?) && op.key == k)
  }

  /** How many opens are left of `n` and those of `ops`; closing what is not open
      does nothing. */
  function StillOpen(ops: seq<Op>, k: Key, n: nat): nat {
    if ops == [] then n
    else
      var before, last := StillOpen(ops[..|ops| - 1], k, n), ops[|ops| - 1];
      if last == Open(k) then before + 1
      else if last == Close(k) && before > 0 then before - 1
      else before
  }

  /** Bound to `i`, and open `n` times without having been unlinked. */
  predicate LinkedTimes(s: Inodes, k: Key, i: Inode, n: nat) {
    && k in s.table && s.table[k] == i
    && (if n == 0 then k !in s.opens else k in s.opens && s.opens[k] == (LINKED, n))
  }

  lemma ApplyKeepsLinked(s: Inodes, op: Op, k: Key, i: Inode, n: nat)
    requires LinkedTimes(s, k, i, n) && OnlyOpensOrCloses(op, k)
    ensures LinkedTimes(Apply(s, op), k, i,
                        if op == Open(k) then n + 1 else if op == Close(k) && n > 0 then n - 1 else n)
  {
    if op.Resolve? { ResolveKeepsBound(s, op.path, k); }
  }

  /** The dual of deferred unlinking: whatever happens to other keys, any number of
      opens and closes leaves a bound key bound to its inode and its name in
      place, linked for as long as it is open, with the exact count. */
  lemma {:induction false} OpeningKeepsName(s: Inodes, k: Key, n: nat, ops: seq<Op>)
    requires k in s.table && LinkedTimes(s, k, s.table[k], n)
    requires forall op :: op in ops ==> OnlyOpensOrCloses(op, k)
    ensures var s' := Run(s, ops);
      && k in s'.table && s'.table[k] == s.table[k]
      && (k in s'.opens <==> StillOpen(ops, k, n) > 0)
      && (k in s'.opens ==> s'.opens[k] == (LINKED, StillOpen(ops, k, n)))
      && forall q :: Walk(s'.table, q) == Some(k.0) ==> Walk(s'.table, q + [k.1]) == Some(s.table[k])
    decreases |ops|
  {
    var s' := Run(s, ops);
    if ops != [] {
      var front, op := ops[..|ops| - 1], ops[|ops| - 1];
      assert op in ops && forall o :: o in front ==> o in ops;
      OpeningKeepsName(s, k, n, front);
      ApplyKeepsLinked(Run(s, front), op, k, s.table[k], StillOpen(front, k, n));
    }
    forall q | Walk(s'.table, q) == Some(k.0) ensures Walk(s'.table, q + [k.1]) == Some(s.table[k]) {
      WalkOneMore(s'.table, q, k);
    }
  }

  /** Opening a name again after it was unlinked while open takes the unlink back:
      closing it as often as it is open leaves it bound. */
  lemma ReopeningCancelsUnlink(s: Inodes, k: Key, n: nat, ops: seq<Op>)
    requires k in s.table && k in s.opens && s.opens[k].1 == n >= 1
    requires forall op :: op in ops ==> OnlyOpensOrCloses(op, k)
    ensures var s' := Run(OpenInode(RemoveEntry(s, k), k), ops);
      && k in s'.table && s'.table[k] == s.table[k]
      && (k in s'.opens <==> StillOpen(ops, k, n + 1) > 0)
      && (k in s'.opens ==> s'.opens[k].0 == LINKED)
  {
    OpeningKeepsName(OpenInode(RemoveEntry(s, k), k), k, n + 1, ops);
  }

  /** Opening a file and closing its descriptor leaves the tables of names and of
      recorded paths as they were while it was open. */
  lemma ClosingKeepsName(s: Fs, p: Path, fd: nat)
    requires (ToInode(s.inodes, Parent(p)).1, Filename(p)) !in ToInode(s.inodes, Parent(p)).0.opens
    ensures var open, closed := NewDescriptor(s, p, fd), DropDescriptor(NewDescriptor(s, p, fd), fd);
      && closed.inodes.table == open.inodes.table && closed.inodes.rev == open.inodes.rev
      && (ToInode(s.inodes, Parent(p)).1, Filename(p)) !in closed.inodes.opens
      && fd !in closed.fds
  {
  }
}
