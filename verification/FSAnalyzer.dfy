/** The file-system analyzer: it walks the trace and updates its tables. */
module FsAnalyzers {
  import opened Common
  import opened Traces
  import opened FileAccess
  import opened InodeModel
  import opened InodeTables
  import opened FsModel
  import opened NetEffects

  // ----- Runs in pieces

  lemma {:induction false} HandleConcat(s: Fs, a: seq<Item>, b: seq<Item>)
    ensures HandleAll(s, a + b) == HandleAll(HandleAll(s, a), b)
    decreases |b|
  {
    if b == [] {
      assert a + b == a;
    } else {
      assert (a + b)[..|a + b| - 1] == a + b[..|b| - 1];
      HandleConcat(s, a, b[..|b| - 1]);
    }
  }

  lemma DefinedPieces(s: Fs, a: seq<Item>, b: seq<Item>)
    requires AllDefined(s, a + b)
    ensures AllDefined(s, a) && AllDefined(HandleAll(s, a), b)
  {
    forall k | 0 <= k < |a| ensures DefinedAt(s, a, k) {
      assert DefinedAt(s, a + b, k);
      assert (a + b)[..k] == a[..k] && (a + b)[k] == a[k];
    }
    forall k | 0 <= k < |b| ensures DefinedAt(HandleAll(s, a), b, k) {
      assert DefinedAt(s, a + b, |a| + k);
      assert (a + b)[..|a| + k] == a + b[..k] && (a + b)[|a| + k] == b[k];
      HandleConcat(s, a, b[..k]);
    }
  }

  /** One more piece of work, out of several. */
  lemma NextPiece(s: Fs, all: seq<Item>, done: seq<Item>, piece: seq<Item>)
    requires AllDefined(s, all) && done + piece <= all
    ensures AllDefined(HandleAll(s, done), piece)
    ensures HandleAll(s, done + piece) == HandleAll(HandleAll(s, done), piece)
  {
    assert all == (done + piece) + all[|done + piece|..];
    DefinedPieces(s, done + piece, all[|done + piece|..]);
    DefinedPieces(s, done, piece);
    HandleConcat(s, done, piece);
  }

  lemma OneItem(s: Fs, items: seq<Item>, i: nat)
    requires AllDefined(s, items) && i < |items|
    ensures Defined(HandleAll(s, items[..i]), items[i])
    ensures HandleAll(s, items[..i + 1]) == Handle(HandleAll(s, items[..i]), items[i])
  {
    assert items[..i + 1][..i] == items[..i];
    assert DefinedAt(s, items, i);
  }

  lemma {:induction false} ExprsPrefix(blockId: Id, es: seq<Expr>, ops: OpTable, events: Events, i: nat)
    requires i <= |es|
    ensures ExprsItems(blockId, es[..i], ops, events) <= ExprsItems(blockId, es, ops, events)
    decreases |es|
  {
    if i == |es| {
      assert es[..i] == es;
    } else {
      ExprsPrefix(blockId, es[..|es| - 1], ops, events, i);
      assert es[..|es| - 1][..i] == es[..i];
    }
  }

  /** One turn of the loop over the expressions of a block. */
  lemma NextExprItems(s: Fs, id: Id, es: seq<Expr>, ops: OpTable, events: Events, i: nat)
    requires i < |es| && AllDefined(s, ExprsItems(id, es, ops, events))
    ensures var before := HandleAll(s, ExprsItems(id, es[..i], ops, events));
      var piece := ExprItems(id, es[i], ops, ExprsEvents(es[..i], events));
      && AllDefined(before, piece)
      && HandleAll(s, ExprsItems(id, es[..i + 1], ops, events)) == HandleAll(before, piece)
    ensures ExprsEvents(es[..i + 1], events) == ExprEvents(es[i], ExprsEvents(es[..i], events))
  {
    assert es[..i + 1][..i] == es[..i];
    ExprsPrefix(id, es, ops, events, i + 1);
    NextPiece(s, ExprsItems(id, es, ops, events), ExprsItems(id, es[..i], ops, events),
              ExprItems(id, es[i], ops, ExprsEvents(es[..i], events)));
  }

  lemma {:induction false} BlocksPrefix(bs: seq<Block>, ops: OpTable, events: Events, i: nat)
    requires i <= |bs|
    ensures BlocksItems(bs[..i], ops, events) <= BlocksItems(bs, ops, events)
    decreases |bs|
  {
    if i == |bs| {
      assert bs[..i] == bs;
    } else {
      BlocksPrefix(bs[..|bs| - 1], ops, events, i);
      assert bs[..|bs| - 1][..i] == bs[..i];
    }
  }

  /** One turn of the loop over the blocks of a trace. */
  lemma NextBlockItems(s: Fs, bs: seq<Block>, ops: OpTable, events: Events, i: nat)
    requires i < |bs| && AllDefined(s, BlocksItems(bs, ops, events))
    ensures var before := HandleAll(s, BlocksItems(bs[..i], ops, events));
      var piece := ExprsItems(bs[i].GetPrettyBlockId(), bs[i].exprs, ops, BlocksEvents(bs[..i], events));
      && AllDefined(before, piece)
      && HandleAll(s, BlocksItems(bs[..i + 1], ops, events)) == HandleAll(before, piece)
    ensures BlocksEvents(bs[..i + 1], events) == ExprsEvents(bs[i].exprs, BlocksEvents(bs[..i], events))
  {
    assert bs[..i + 1][..i] == bs[..i];
    BlocksPrefix(bs, ops, events, i + 1);
    NextPiece(s, BlocksItems(bs, ops, events), BlocksItems(bs[..i], ops, events),
              ExprsItems(bs[i].GetPrettyBlockId(), bs[i].exprs, ops, BlocksEvents(bs[..i], events)));
  }

  class FSAnalyzer {
    const inodeTable: InodeTable
    /** The descriptors and the working directory of the one process traced. */
    var fdTable: map<nat, Key>
    var cwd: Inode
    var symlinkTable: map<Inode, RawPath>
    var blockAccesses: BlockAccesses
    var effectTable: map<RawPath, seq<FSAccess>>
    var opTable: OpTable
    var eventInfo: Events
    var currentBlock: Id
    var blockId: Id

    ghost function State(): Fs
      reads this, inodeTable
    {
      Fs(inodeTable.State(), fdTable, symlinkTable, cwd, blockAccesses)
    }

    ghost predicate Empty()
      reads this, inodeTable
    {
      && inodeTable.State() == INITIAL
      && fdTable == map[] && symlinkTable == map[] && blockAccesses == map[] && opTable == map[] && eventInfo == map[]
    }

    constructor ()
      ensures fresh(inodeTable) && Empty()
    {
      inodeTable := new InodeTable();
      fdTable := map[];
      cwd := ROOT;
      symlinkTable := map[];
      blockAccesses := map[];
      effectTable := map[];
      opTable := map[];
      eventInfo := map[];
      currentBlock := "";
      blockId := "";
    }

    method Analyze(trace: Trace)
      requires Empty() && ToRaw(trace.cwd).Absolute?
      requires AllDefined(Start(ToRaw(trace.cwd).names), TraceItems(trace))
      modifies this, inodeTable
      ensures State() == HandleAll(Start(ToRaw(trace.cwd).names), TraceItems(trace))
      ensures Grouped(blockAccesses, effectTable) && Keyed(blockAccesses)
    {
      AnalyzeTrace(trace);
      RunHoldsNetAccesses(ToRaw(trace.cwd).names, TraceItems(trace));
      effectTable := GroupByPath(blockAccesses);
    }

    method AnalyzeTrace(trace: Trace)
      requires Empty() && ToRaw(trace.cwd).Absolute?
      requires AllDefined(Start(ToRaw(trace.cwd).names), TraceItems(trace))
      modifies this, inodeTable
      ensures State() == HandleAll(Start(ToRaw(trace.cwd).names), TraceItems(trace))
    {
      cwd := inodeTable.ToInode(ToRaw(trace.cwd).names);
      AnalyzeExecOps(trace.execOps);
      AnalyzeBlocks(trace.blocks);
    }

    method AnalyzeExecOps(execOps: seq<ExecOp>)
      requires opTable == map[]
      modifies `opTable
      ensures opTable == OpTableOf(execOps)
    {
      for i := 0 to |execOps|
        invariant opTable == OpTableOf(execOps[..i])
      {
        assert execOps[..i + 1][..i] == execOps[..i];
        AnalyzeExecOp(execOps[i]);
      }
      assert execOps[..|execOps|] == execOps;
    }

    method AnalyzeBlocks(blocks: seq<Block>)
      requires eventInfo == map[] && AllDefined(State(), BlocksItems(blocks, opTable, map[]))
      modifies `currentBlock, `blockId, `fdTable, `symlinkTable, `blockAccesses, `eventInfo, inodeTable
      ensures State() == HandleAll(old(State()), BlocksItems(blocks, opTable, map[]))
    {
      ghost var start := State();
      for i := 0 to |blocks|
        invariant eventInfo == BlocksEvents(blocks[..i], map[])
        invariant State() == HandleAll(start, BlocksItems(blocks[..i], opTable, map[]))
      {
        NextBlockItems(start, blocks, opTable, map[], i);
        AnalyzeBlock(blocks[i]);
      }
      assert blocks[..|blocks|] == blocks;
    }

    method AnalyzeExecOp(execOp: ExecOp)
      modifies `opTable
      ensures opTable == old(opTable)[execOp.id := execOp]
    {
      opTable := opTable[execOp.id := execOp];
    }

    method AnalyzeBlock(block: Block)
      requires AllDefined(State(), ExprsItems(block.GetPrettyBlockId(), block.exprs, opTable, eventInfo))
      modifies `currentBlock, `blockId, `fdTable, `symlinkTable, `blockAccesses, `eventInfo, inodeTable
      ensures eventInfo == ExprsEvents(block.exprs, old(eventInfo))
      ensures State() == HandleAll(old(State()),
                                   ExprsItems(block.GetPrettyBlockId(), block.exprs, old(opTable), old(eventInfo)))
    {
      ghost var s0, events := State(), eventInfo;
      currentBlock := block.GetPrettyBlockId();
      for i := 0 to |block.exprs|
        invariant eventInfo == ExprsEvents(block.exprs[..i], events)
        invariant currentBlock == block.GetPrettyBlockId()
        invariant State() == HandleAll(s0, ExprsItems(currentBlock, block.exprs[..i], opTable, events))
      {
        NextExprItems(s0, currentBlock, block.exprs, opTable, events, i);
        AnalyzeExpr(block.exprs[i]);
      }
      assert block.exprs[..|block.exprs|] == block.exprs;
    }

    method AnalyzeExpr(expr: Expr)
      requires AllDefined(State(), ExprItems(currentBlock, expr, opTable, eventInfo))
      modifies `blockId, `fdTable, `symlinkTable, `blockAccesses, `eventInfo, inodeTable
      ensures eventInfo == ExprEvents(expr, old(eventInfo))
      ensures State() == HandleAll(old(State()), ExprItems(currentBlock, expr, old(opTable), old(eventInfo)))
    {
      match expr
      case NewEventExpr(n, _, tags) => eventInfo := eventInfo[ToString(n) := tags];
      case SubmitOp(_, _, _) => AnalyzeSubmitOp(expr);
      case LinkExpr(_, _) =>
      case TriggerExpr(_) =>
    }

    method AnalyzeSubmitOp(submitOp: Expr)
      requires submitOp.SubmitOp?
      requires AllDefined(State(), ExprItems(currentBlock, submitOp, opTable, eventInfo))
      modifies `blockId, `fdTable, `symlinkTable, `blockAccesses, inodeTable
      ensures State() == HandleAll(old(State()), ExprItems(currentBlock, submitOp, opTable, eventInfo))
    {
      if submitOp.opId !in opTable {
        return;
      }
      match submitOp.submitted {
        case None => blockId := currentBlock;
        case Some(_) => blockId := RightOf(submitOp.opId, '_');
      }
      AnalyzeOperations(opTable[submitOp.opId].operations);
    }

    method AnalyzeOperations(ops: seq<Operation>)
      requires AllDefined(State(), ItemsOf(ContextOf(blockId, eventInfo), ops))
      modifies `fdTable, `symlinkTable, `blockAccesses, inodeTable
      ensures State() == HandleAll(old(State()), ItemsOf(ContextOf(blockId, eventInfo), ops))
    {
      ghost var s0, items := State(), ItemsOf(ContextOf(blockId, eventInfo), ops);
      for i := 0 to |ops|
        invariant State() == HandleAll(s0, items[..i])
      {
        OneItem(s0, items, i);
        AnalyzeOperation(ops[i]);
      }
      assert items[..|ops|] == items;
    }

    method AnalyzeOperation(op: Operation)
      requires Defined(State(), Item(ContextOf(blockId, eventInfo), op))
      modifies `fdTable, `symlinkTable, `blockAccesses, inodeTable
      ensures State() == Handle(old(State()), Item(ContextOf(blockId, eventInfo), op))
    {
      match op.primitive
      case NewFd(dirfd, path, fd) => AnalyzeNewFd(dirfd, ToRaw(path), fd);
      case DelFd(fd) => AnalyzeDelFd(fd);
      case Hpath(dirfd, path, effect) => AnalyzeHpath(dirfd, ToRaw(path), effect, op.actualName);
      case HpathSym(dirfd, path, effect) => AnalyzeHpathSym(dirfd, ToRaw(path), effect, op.actualName);
      case Link(oldDirfd, oldPath, newDirfd, newPath) =>
        AnalyzeLink(oldDirfd, ToRaw(oldPath), newDirfd, ToRaw(newPath));
      case Rename(oldDirfd, oldPath, newDirfd, newPath) =>
        AnalyzeRename(oldDirfd, ToRaw(oldPath), newDirfd, ToRaw(newPath));
      case Symlink(dirfd, path, target) => AnalyzeSymlink(dirfd, ToRaw(path), ToRaw(target));
    }

    method AnalyzeNewFd(dirfd: nat, path: RawPath, fd: int)
      modifies `fdTable, inodeTable
      ensures State() ==
        if fd < 0 || AbsolutePath(old(State()), dirfd, path).None? then old(State())
        else NewDescriptor(old(State()), AbsolutePath(old(State()), dirfd, path).value, fd)
    {
      if fd < 0 {
        return;
      }
      var absPath := GetAbsolutePath(dirfd, path);
      if absPath.None? {
        return;
      }
      var inodeP := inodeTable.ToInode(Parent(absPath.value));
      var basename := Filename(absPath.value);
      inodeTable.AddNewEntry((inodeP, basename), absPath.value);
      inodeTable.OpenInode((inodeP, basename));
      fdTable := fdTable[fd := (inodeP, basename)];
    }

    method AnalyzeDelFd(fd: nat)
      requires fd in fdTable && CloseDefined(inodeTable.State(), fdTable[fd])
      modifies `fdTable, inodeTable
      ensures State() == DropDescriptor(old(State()), fd)
    {
      var key := fdTable[fd];
      fdTable := fdTable - {fd};
      inodeTable.CloseInode(key);
    }

    method AnalyzeHpath(dirfd: nat, path: RawPath, effect: EffectType, name: string)
      requires var p := AbsolutePath(State(), dirfd, path);
        p.Some? ==>
          var r := ToInode(inodeTable.State(), p.value);
          PathEffectDefined(State().(inodes := r.0), ContextOf(blockId, eventInfo),
                            Dereference(State(), r.1, p.value), effect)
      modifies `blockAccesses, inodeTable
      ensures var p := AbsolutePath(old(State()), dirfd, path);
        State() ==
          if p.None? then old(State())
          else
            var (i1, inode) := ToInode(old(inodeTable.State()), p.value);
            PathEffect(old(State()).(inodes := i1), ContextOf(blockId, eventInfo),
                       Dereference(old(State()), inode, p.value), effect, name)
    {
      var absPath := GetAbsolutePath(dirfd, path);
      if absPath.None? {
        return;
      }
      var p := Absolute(absPath.value);
      var inode := inodeTable.ToInode(absPath.value);
      if inode in symlinkTable {
        p := symlinkTable[inode];
      }
      ProcessPathEffect(p, effect, name);
    }

    method AnalyzeHpathSym(dirfd: nat, path: RawPath, effect: EffectType, name: string)
      requires var p := AbsolutePath(State(), dirfd, path);
        p.Some? ==> PathEffectDefined(State(), ContextOf(blockId, eventInfo), Absolute(p.value), effect)
      modifies `blockAccesses, inodeTable
      ensures var p := AbsolutePath(old(State()), dirfd, path);
        State() ==
          if p.None? then old(State())
          else PathEffect(old(State()), ContextOf(blockId, eventInfo), Absolute(p.value), effect, name)
    {
      var absPath := GetAbsolutePath(dirfd, path);
      if absPath.None? {
        return;
      }
      ProcessPathEffect(Absolute(absPath.value), effect, name);
    }

    method AnalyzeLink(oldDirfd: nat, oldPath: RawPath, newDirfd: nat, newPath: RawPath)
      modifies inodeTable
      ensures State() == HandleLink(old(State()), AbsolutePath(old(State()), oldDirfd, oldPath),
                                    AbsolutePath(old(State()), newDirfd, newPath))
    {
      var from := GetAbsolutePath(oldDirfd, oldPath);
      var to := GetAbsolutePath(newDirfd, newPath);
      if from.None? || to.None? {
        return;
      }
      var inode := inodeTable.ToInode(from.value);
      var inodeP := inodeTable.ToInode(Parent(to.value));
      inodeTable.AddEntry((inodeP, Filename(to.value)), to.value, inode);
    }

    method AnalyzeRename(oldDirfd: nat, oldPath: RawPath, newDirfd: nat, newPath: RawPath)
      requires var from, to := AbsolutePath(State(), oldDirfd, oldPath), AbsolutePath(State(), newDirfd, newPath);
        from.Some? && to.Some? ==> RenameDefined(inodeTable.State(), from.value, to.value)
      modifies inodeTable
      ensures State() == HandleRename(old(State()), AbsolutePath(old(State()), oldDirfd, oldPath),
                                      AbsolutePath(old(State()), newDirfd, newPath))
    {
      var from := GetAbsolutePath(oldDirfd, oldPath);
      var to := GetAbsolutePath(newDirfd, newPath);
      if from.None? || to.None? {
        return;
      }
      var inode := inodeTable.ToInode(from.value);
      var inodeP := inodeTable.ToInode(Parent(to.value));
      var basename := Filename(to.value);
      var inodeNew := inodeTable.GetInode((inodeP, basename));
      if inodeNew.Some? && inodeNew.value == inode {
        return;
      }
      inodeTable.AddEntry((inodeP, basename), to.value, inode);
      inodeP := inodeTable.ToInode(Parent(from.value));
      basename := Filename(from.value);
      inodeTable.RemoveEntry((inodeP, basename));
    }

    method AnalyzeSymlink(dirfd: nat, path: RawPath, target: RawPath)
      modifies `symlinkTable, inodeTable
      ensures var p := AbsolutePath(old(State()), dirfd, path);
        State() ==
          if p.None? then old(State())
          else
            var (i1, inode) := ToInode(old(inodeTable.State()), p.value);
            old(State()).(inodes := i1, symlinks := old(symlinkTable)[inode := target])
    {
      var absPath := GetAbsolutePath(dirfd, path);
      if absPath.None? {
        return;
      }
      var inode := inodeTable.ToInode(absPath.value);
      symlinkTable := symlinkTable[inode := target];
    }

    method ProcessPathEffect(p: RawPath, effect: EffectType, name: string)
      requires PathEffectDefined(State(), ContextOf(blockId, eventInfo), p, effect)
      modifies `blockAccesses, inodeTable
      ensures State() == PathEffect(old(State()), ContextOf(blockId, eventInfo), p, effect, name)
    {
      var debugInfo;
      if IsMainId(blockId) {
        debugInfo := ["main"];
      } else {
        debugInfo := eventInfo[blockId];
      }
      match effect
      case CONSUMED => AddPathEffect(p, FSAccess(blockId, effect, debugInfo, name));
      case PRODUCED => AddPathEffect(p, FSAccess(blockId, effect, debugInfo, name));
      case EXPUNGED =>
        var inodeP := inodeTable.ToInode(Parent(p.names));
        var basename := Filename(p.names);
        AddPathEffect(p, FSAccess(blockId, EXPUNGED, debugInfo, name));
        inodeTable.RemoveEntry((inodeP, basename));
    }

    method GetParentDir(dirfd: nat) returns (p: Option<Path>)
      ensures p == ParentDir(State(), dirfd)
    {
      var inode: Option<Inode> := None;
      if dirfd == AT_FDCWD {
        inode := Some(cwd);
      } else if dirfd in fdTable {
        inode := inodeTable.GetInode(fdTable[dirfd]);
      }
      if inode.None? {
        return None;
      }
      p := inodeTable.ToPath(inode.value);
    }

    method GetAbsolutePath(dirfd: nat, path: RawPath) returns (p: Option<Path>)
      ensures p == AbsolutePath(State(), dirfd, path)
    {
      if path.Absolute? {
        return Some(path.names);
      }
      var parentP := GetParentDir(dirfd);
      if parentP.None? {
        return None;
      }
      p := Some(parentP.value + path.names);
    }

    method AddPathEffect(p: RawPath, access: FSAccess)
      modifies `blockAccesses
      ensures blockAccesses == FsModel.AddPathEffect(old(blockAccesses), p, access)
    {
      var key := (p, access.eventId);
      if key !in blockAccesses {
        blockAccesses := blockAccesses[key := access];
        return;
      }
      var earlier := blockAccesses[key];
      match access.effectType
      case CONSUMED =>
        if earlier.effectType == CONSUMED {
          blockAccesses := blockAccesses[key := access];
        } else {
          blockAccesses := blockAccesses[key := earlier];
        }
      case PRODUCED =>
        blockAccesses := blockAccesses[key := access];
      case EXPUNGED =>
        match earlier.effectType {
          case CONSUMED => blockAccesses := blockAccesses[key := access];
          case EXPUNGED => blockAccesses := blockAccesses[key := access];
          case PRODUCED => blockAccesses := blockAccesses - {key};
        }
    }
  }
}
