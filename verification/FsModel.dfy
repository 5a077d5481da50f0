/** What the file-system analyzer computes: the effect of each operation on the
    inode table, the descriptors and the accesses of the events. */
module FsModel {
  import opened Common
  import opened Traces
  import opened FileAccess
  import opened InodeModel
  import opened InodeRename

  const AT_FDCWD := 0

  datatype Fs = Fs(
    inodes: Inodes,
    fds: map<nat, Key>,
    symlinks: map<Inode, RawPath>,
    cwd: Inode,
    accesses: BlockAccesses)

  /** On whose behalf an operation runs.  The debug information is missing when
      the event was never created; the source then throws. */
  datatype Context = Context(eventId: Id, debugInfo: Option<seq<string>>)

  datatype Item = Item(context: Context, op: Operation)

  // ----- Paths

  /** The component names of a path, with `cur` read of the one at hand. */
  function Split(s: string, cur: string): seq<string>
    decreases |s|
  {
    var done := if cur == "" then [] else [cur];
    if s == "" then done
    else if s[0] == '/' then done + Split(s[1..], "")
    else Split(s[1..], cur + [s[0]])
  }

  function ToRaw(s: string): RawPath {
    if s != "" && s[0] == '/' then Absolute(Split(s, "")) else Relative(Split(s, ""))
  }

  ghost function ParentDir(s: Fs, dirfd: nat): Option<Path> {
    if dirfd == AT_FDCWD then ToPath(s.inodes, s.cwd)
    else if dirfd in s.fds && s.fds[dirfd] in s.inodes.table then ToPath(s.inodes, s.inodes.table[s.fds[dirfd]])
    else None
  }

  ghost function AbsolutePath(s: Fs, dirfd: nat, raw: RawPath): Option<Path> {
    match raw
    case Absolute(names) => Some(names)
    case Relative(names) =>
      match ParentDir(s, dirfd)
      case None => None
      case Some(dir) => Some(dir + names)
  }

  // ----- The net effect of an event on a path

  /** What an earlier access and the next one leave, if anything. */
  function Combine(earlier: Option<FSAccess>, access: FSAccess): Option<FSAccess> {
    if earlier.None? then Some(access)
    else match access.effectType
      case CONSUMED => if earlier.value.effectType == CONSUMED then Some(access) else earlier
      case PRODUCED => Some(access)
      case EXPUNGED => if earlier.value.effectType == PRODUCED then None else Some(access)
  }

  function Lookup(b: BlockAccesses, k: (RawPath, Id)): Option<FSAccess> {
    if k in b then Some(b[k]) else None
  }

  function AddPathEffect(b: BlockAccesses, p: RawPath, access: FSAccess): BlockAccesses {
    var k := (p, access.eventId);
    match Combine(Lookup(b, k), access)
    case Some(a) => b[k := a]
    case None => b - {k}
  }

  // ----- Operations

  function AccessOf(c: Context, effect: EffectType, name: string): FSAccess {
    FSAccess(c.eventId, effect, if c.debugInfo.Some? then c.debugInfo.value else [], name)
  }

  ghost function PathEffect(s: Fs, c: Context, p: RawPath, effect: EffectType, name: string): Fs {
    var s1 := s.(accesses := AddPathEffect(s.accesses, p, AccessOf(c, effect, name)));
    if effect != EXPUNGED || p.Relative? then s1
    else
      var (i1, parent) := ToInode(s.inodes, Parent(p.names));
      s1.(inodes := RemoveEntry(i1, (parent, Filename(p.names))))
  }

  ghost function NewDescriptor(s: Fs, p: Path, fd: nat): Fs {
    var (i1, parent) := ToInode(s.inodes, Parent(p));
    var k := (parent, Filename(p));
    s.(inodes := OpenInode(AddFresh(i1, k, p), k), fds := s.fds[fd := k])
  }

  ghost function DropDescriptor(s: Fs, fd: nat): Fs {
    if fd in s.fds then s.(fds := s.fds - {fd}, inodes := CloseInode(s.inodes, s.fds[fd])) else s
  }

  ghost function HardLink(s: Inodes, from: Path, to: Path): Inodes {
    var (s1, inode) := ToInode(s, from);
    var (s2, parent) := ToInode(s1, Parent(to));
    AddEntry(s2, (parent, Filename(to)), to, inode)
  }

  ghost function HandleLink(s: Fs, from: Option<Path>, to: Option<Path>): Fs {
    if from.None? || to.None? then s else s.(inodes := HardLink(s.inodes, from.value, to.value))
  }

  ghost function HandleRename(s: Fs, from: Option<Path>, to: Option<Path>): Fs {
    if from.None? || to.None? then s else s.(inodes := InodeRename.Rename(s.inodes, from.value, to.value))
  }

  /** A path that names a symbolic link stands for the link's target. */
  function Dereference(s: Fs, inode: Inode, p: Path): RawPath {
    if inode in s.symlinks then s.symlinks[inode] else Absolute(p)
  }

  ghost function Handle(s: Fs, item: Item): Fs {
    var c, name := item.context, item.op.actualName;
    match item.op.primitive
    case NewFd(dirfd, path, fd) =>
      if fd < 0 then s
      else (match AbsolutePath(s, dirfd, ToRaw(path))
            case None => s
            case Some(p) => NewDescriptor(s, p, fd))
    case DelFd(fd) => DropDescriptor(s, fd)
    case Hpath(dirfd, path, effect) =>
      (match AbsolutePath(s, dirfd, ToRaw(path))
       case None => s
       case Some(p) =>
         var (i1, inode) := ToInode(s.inodes, p);
         PathEffect(s.(inodes := i1), c, Dereference(s, inode, p), effect, name))
    case HpathSym(dirfd, path, effect) =>
      (match AbsolutePath(s, dirfd, ToRaw(path))
       case None => s
       case Some(p) => PathEffect(s, c, Absolute(p), effect, name))
    case Link(oldDirfd, oldPath, newDirfd, newPath) =>
      var from, to := AbsolutePath(s, oldDirfd, ToRaw(oldPath)), AbsolutePath(s, newDirfd, ToRaw(newPath));
      HandleLink(s, from, to)
    case Rename(oldDirfd, oldPath, newDirfd, newPath) =>
      var from, to := AbsolutePath(s, oldDirfd, ToRaw(oldPath)), AbsolutePath(s, newDirfd, ToRaw(newPath));
      HandleRename(s, from, to)
    case Symlink(dirfd, path, target) =>
      (match AbsolutePath(s, dirfd, ToRaw(path))
       case None => s
       case Some(p) =>
         var (i1, inode) := ToInode(s.inodes, p);
         s.(inodes := i1, symlinks := s.symlinks[inode := ToRaw(target)]))
  }

  /** The effect is defined: the event is known, and a path that is expunged is
      absolute and bound, or open, when its entry is removed. */
  ghost predicate PathEffectDefined(s: Fs, c: Context, p: RawPath, effect: EffectType) {
    && c.debugInfo.Some?
    && (effect == EXPUNGED ==>
          p.Absolute? &&
          var r := ToInode(s.inodes, Parent(p.names));
          RemoveDefined(r.0, (r.1, Filename(p.names))))
  }

  ghost predicate RenameDefined(s: Inodes, from: Path, to: Path) {
    var (s1, inode) := ToInode(s, from);
    var (s2, parent) := ToInode(s1, Parent(to));
    var k := (parent, Filename(to));
    (k in s2.table && s2.table[k] == inode) ||
    var r := ToInode(AddEntry(s2, k, to, inode), Parent(from));
    RemoveDefined(r.0, (r.1, Filename(from)))
  }

  /** The operation does not run into undefined behaviour or an exception. */
  ghost predicate Defined(s: Fs, item: Item) {
    match item.op.primitive
    case NewFd(_, _, _) => true
    case DelFd(fd) => fd in s.fds && CloseDefined(s.inodes, s.fds[fd])
    case Hpath(dirfd, path, effect) =>
      var p := AbsolutePath(s, dirfd, ToRaw(path));
      p.Some? ==>
        var r := ToInode(s.inodes, p.value);
        PathEffectDefined(s.(inodes := r.0), item.context, Dereference(s, r.1, p.value), effect)
    case HpathSym(dirfd, path, effect) =>
      var p := AbsolutePath(s, dirfd, ToRaw(path));
      p.Some? ==> PathEffectDefined(s, item.context, Absolute(p.value), effect)
    case Link(_, _, _, _) => true
    case Rename(oldDirfd, oldPath, newDirfd, newPath) =>
      var from, to := AbsolutePath(s, oldDirfd, ToRaw(oldPath)), AbsolutePath(s, newDirfd, ToRaw(newPath));
      from.Some? && to.Some? ==> RenameDefined(s.inodes, from.value, to.value)
    case Symlink(_, _, _) => true
  }

  ghost function HandleAll(s: Fs, items: seq<Item>): Fs {
    if items == [] then s else Handle(HandleAll(s, items[..|items| - 1]), items[|items| - 1])
  }

  ghost predicate DefinedAt(s: Fs, items: seq<Item>, k: nat)
    requires k < |items|
  {
    Defined(HandleAll(s, items[..k]), items[k])
  }

  ghost predicate AllDefined(s: Fs, items: seq<Item>) {
    forall k :: 0 <= k < |items| ==> DefinedAt(s, items, k)
  }

  // ----- The operations of a trace, in the order they are analysed

  type Events = map<Id, seq<string>>
  type OpTable = map<string, ExecOp>

  function RightOf(s: string, sep: char): string {
    if s == "" then s else RightFrom(s, sep, 0)
  }

  /** What follows the first `sep`; the whole string if there is none. */
  function RightFrom(s: string, sep: char, i: nat): string
    requires i <= |s|
    decreases |s| - i
  {
    if i == |s| then s else if s[i] == sep then s[i + 1..] else RightFrom(s, sep, i + 1)
  }

  predicate IsMainId(id: Id) {
    |id| >= 5 && id[..5] == "MAIN_"
  }

  function ContextOf(id: Id, events: Events): Context {
    Context(id, if IsMainId(id) then Some(["main"]) else if id in events then Some(events[id]) else None)
  }

  function ItemsOf(c: Context, ops: seq<Operation>): seq<Item> {
    seq(|ops|, i requires 0 <= i < |ops| => Item(c, ops[i]))
  }

  function ExprItems(blockId: Id, e: Expr, ops: OpTable, events: Events): seq<Item> {
    if e.SubmitOp? && e.opId in ops
    then ItemsOf(ContextOf(if e.submitted.None? then blockId else RightOf(e.opId, '_'), events), ops[e.opId].operations)
    else []
  }

  function ExprEvents(e: Expr, events: Events): Events {
    if e.NewEventExpr? then events[ToString(e.eventId) := e.tags] else events
  }

  function ExprsEvents(es: seq<Expr>, events: Events): Events {
    if es == [] then events else ExprEvents(es[|es| - 1], ExprsEvents(es[..|es| - 1], events))
  }

  function ExprsItems(blockId: Id, es: seq<Expr>, ops: OpTable, events: Events): seq<Item> {
    if es == [] then []
    else
      ExprsItems(blockId, es[..|es| - 1], ops, events) +
      ExprItems(blockId, es[|es| - 1], ops, ExprsEvents(es[..|es| - 1], events))
  }

  function BlocksEvents(bs: seq<Block>, events: Events): Events {
    if bs == [] then events else ExprsEvents(bs[|bs| - 1].exprs, BlocksEvents(bs[..|bs| - 1], events))
  }

  function BlocksItems(bs: seq<Block>, ops: OpTable, events: Events): seq<Item> {
    if bs == [] then []
    else
      BlocksItems(bs[..|bs| - 1], ops, events) +
      ExprsItems(bs[|bs| - 1].GetPrettyBlockId(), bs[|bs| - 1].exprs, ops, BlocksEvents(bs[..|bs| - 1], events))
  }

  function OpTableOf(execOps: seq<ExecOp>): OpTable {
    if execOps == [] then map[]
    else OpTableOf(execOps[..|execOps| - 1])[execOps[|execOps| - 1].id := execOps[|execOps| - 1]]
  }

  function TraceItems(t: Trace): seq<Item> {
    BlocksItems(t.blocks, OpTableOf(t.execOps), map[])
  }

  /** The state in which the first operation of a trace is analysed. */
  ghost function Start(cwd: Path): Fs {
    var (inodes, dir) := ToInode(INITIAL, cwd);
    Fs(inodes, map[], map[], dir, map[])
  }
}
