/** The syntax tree of a trace. */
module Traces {
  import opened Common

  datatype EventType = S | M | W | EXT | MAIN

  datatype Event = Event(eventType: EventType, eventValue: nat)

  /** `tags` is the debug information of the expression.  A submitted operation
      with no event identifier is a synchronous one. */
  datatype Expr =
    | NewEventExpr(eventId: nat, event: Event, tags: seq<string>)
    | LinkExpr(sourceEv: nat, targetEv: nat)
    | TriggerExpr(triggered: nat)
    | SubmitOp(opId: string, submitted: Option<nat>, tags: seq<string>)

  datatype Block = Block(blockId: nat, isMain: bool, exprs: seq<Expr>)
  {
    function GetPrettyBlockId(): (id: Id) {
      if isMain then "MAIN_" + ToString(blockId) else ToString(blockId)
    }
  }

  datatype EffectType = PRODUCED | CONSUMED | EXPUNGED

  datatype Primitive =
    | DelFd(fd: nat)
    | Hpath(dirfd: nat, path: string, effect: EffectType)
    | HpathSym(dirfd: nat, path: string, effect: EffectType)
    | Link(oldDirfd: nat, oldPath: string, newDirfd: nat, newPath: string)
    | NewFd(dirfd: nat, path: string, newFd: int)
    | Rename(oldDirfd: nat, oldPath: string, newDirfd: nat, newPath: string)
    | Symlink(dirfd: nat, path: string, target: string)

  datatype Operation = Operation(primitive: Primitive, actualName: string, failed: bool)

  datatype ExecOp = ExecOp(id: string, operations: seq<Operation>)

  datatype Trace = Trace(threadId: nat, cwd: string, execOps: seq<ExecOp>, blocks: seq<Block>)
}
