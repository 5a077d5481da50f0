/** The accesses the file-system analyzer keeps are the net ones, for every event
    and path and over every run. */
module NetEffects {
  import opened Common
  import opened Traces
  import opened FileAccess
  import opened InodeModel
  import opened FsModel

  /** The accesses of one event to one path, folded as they come. */
  function Net(accesses: seq<FSAccess>): Option<FSAccess> {
    if accesses == [] then None else Combine(Net(accesses[..|accesses| - 1]), accesses[|accesses| - 1])
  }

  /** The last access that is not a consume, if any: its position. */
  function LastChange(accesses: seq<FSAccess>): (r: Option<nat>)
    ensures r.Some? ==> r.value < |accesses| && accesses[r.value].effectType != CONSUMED
    ensures forall i :: (if r.Some? then r.value + 1 else 0) <= i < |accesses| ==> accesses[i].effectType == CONSUMED
  {
    if accesses == [] then None
    else if accesses[|accesses| - 1].effectType != CONSUMED then Some(|accesses| - 1)
    else LastChange(accesses[..|accesses| - 1])
  }

  /** An expunge whose last preceding change is a produce undoes it. */
  predicate Cancels(accesses: seq<FSAccess>, j: nat)
    requires j < |accesses|
  {
    && accesses[j].effectType == EXPUNGED
    && LastChange(accesses[..j]).Some? && accesses[LastChange(accesses[..j]).value].effectType == PRODUCED
  }

  /** The net effect, said without folding: produced if the last change is a
      produce; expunged if it is an expunge that undoes no produce; otherwise
      consumed if a consume comes after the change, or there is no change. */
  function NetEffect(accesses: seq<FSAccess>): Option<EffectType> {
    match LastChange(accesses)
    case None => if accesses == [] then None else Some(CONSUMED)
    case Some(j) =>
      if !Cancels(accesses, j) then Some(accesses[j].effectType)
      else if j + 1 < |accesses| then Some(CONSUMED) else None
  }

  ghost predicate IsLastWith(accesses: seq<FSAccess>, effect: EffectType, a: FSAccess) {
    exists i :: 0 <= i < |accesses| && accesses[i] == a && a.effectType == effect
      && forall j :: i < j < |accesses| ==> accesses[j].effectType != effect
  }

  /** Folding gives the closed form, and keeps the last access with that effect. */
  lemma {:induction false} NetEffectIsClosedForm(accesses: seq<FSAccess>)
    ensures NetEffect(accesses) == (if Net(accesses).Some? then Some(Net(accesses).value.effectType) else None)
    ensures Net(accesses).Some? ==> IsLastWith(accesses, Net(accesses).value.effectType, Net(accesses).value)
    decreases |accesses|
  {
    if accesses != [] {
      var n := |accesses| - 1;
      var front, last := accesses[..n], accesses[n];
      NetEffectIsClosedForm(front);
      if last.effectType == CONSUMED {
        if LastChange(front).Some? {
          var j := LastChange(front).value;
          assert accesses[..j] == front[..j];
          assert Cancels(accesses, j) <==> Cancels(front, j);
        }
      }
      if Net(accesses).Some? {
        var a := Net(accesses).value;
        if a != last || last.effectType == CONSUMED {
          if Net(front).Some? && a == Net(front).value && a.effectType != last.effectType {
            var i :| 0 <= i < |front| && front[i] == a &&
              forall j :: i < j < |front| ==> front[j].effectType != a.effectType;
            assert accesses[i] == a;
          }
        }
        if a == last {
          assert accesses[n] == a;
        }
      }
    }
  }

  /** A sequence of accesses to paths, as they are recorded. */
  type Recorded = seq<(RawPath, FSAccess)>

  function RecordAll(log: Recorded): BlockAccesses {
    if log == [] then map[]
    else AddPathEffect(RecordAll(log[..|log| - 1]), log[|log| - 1].0, log[|log| - 1].1)
  }

  function AccessesAt(log: Recorded, k: (RawPath, Id)): seq<FSAccess> {
    if log == [] then []
    else
      var last := log[|log| - 1];
      AccessesAt(log[..|log| - 1], k) + (if (last.0, last.1.eventId) == k then [last.1] else [])
  }

  /** However the accesses of events and paths are interleaved, the table holds
      for each event and path the net access of that event to that path. */
  lemma {:induction false} TableHoldsNetAccesses(log: Recorded)
    ensures forall k :: Lookup(RecordAll(log), k) == Net(AccessesAt(log, k))
    ensures Keyed(RecordAll(log))
    decreases |log|
  {
    if log != [] {
      var front, p, a := log[..|log| - 1], log[|log| - 1].0, log[|log| - 1].1;
      TableHoldsNetAccesses(front);
      forall k ensures Lookup(RecordAll(log), k) == Net(AccessesAt(log, k)) {
        var before := AccessesAt(front, k);
        assert Lookup(RecordAll(front), k) == Net(before);
        if (p, a.eventId) == k {
          assert AccessesAt(log, k) == before + [a];
          assert (before + [a])[..|before|] == before;
        } else {
          assert AccessesAt(log, k) == before;
        }
      }
    }
  }

  /** What an operation records, if it records anything: the event, the effect, the
      tags of the event and the name of the operation. */
  ghost function Recording(s: Fs, item: Item): Recorded {
    var tags := match item.context.debugInfo { case None => [] case Some(known) => known };
    match item.op.primitive
    case Hpath(dirfd, path, effect) =>
      var p := AbsolutePath(s, dirfd, ToRaw(path));
      if p.None? then []
      else [(Dereference(s, ToInode(s.inodes, p.value).1, p.value),
             FSAccess(item.context.eventId, effect, tags, item.op.actualName))]
    case HpathSym(dirfd, path, effect) =>
      var p := AbsolutePath(s, dirfd, ToRaw(path));
      if p.None? then [] else [(Absolute(p.value), FSAccess(item.context.eventId, effect, tags, item.op.actualName))]
    case _ => []
  }

  ghost function RunLog(s: Fs, items: seq<Item>): Recorded {
    if items == [] then []
    else
      var n := |items| - 1;
      RunLog(s, items[..n]) + Recording(HandleAll(s, items[..n]), items[n])
  }

  lemma PathEffectRecords(s: Fs, c: Context, p: RawPath, effect: EffectType, name: string, log: Recorded)
    requires s.accesses == RecordAll(log)
    ensures PathEffect(s, c, p, effect, name).accesses == RecordAll(log + [(p, AccessOf(c, effect, name))])
  {
  }

  lemma HpathRecords(s: Fs, item: Item, log: Recorded)
    requires item.op.primitive.Hpath? && s.accesses == RecordAll(log)
    ensures Handle(s, item).accesses == RecordAll(log + Recording(s, item))
  {
    var Hpath(dirfd, path, effect) := item.op.primitive;
    var p := AbsolutePath(s, dirfd, ToRaw(path));
    if p.Some? {
      var (i1, inode) := ToInode(s.inodes, p.value);
      PathEffectRecords(s.(inodes := i1), item.context, Dereference(s, inode, p.value), effect,
                        item.op.actualName, log);
    } else {
      assert log + [] == log;
    }
  }

  lemma HpathSymRecords(s: Fs, item: Item, log: Recorded)
    requires item.op.primitive.HpathSym? && s.accesses == RecordAll(log)
    ensures Handle(s, item).accesses == RecordAll(log + Recording(s, item))
  {
    var HpathSym(dirfd, path, effect) := item.op.primitive;
    var p := AbsolutePath(s, dirfd, ToRaw(path));
    if p.Some? {
      PathEffectRecords(s, item.context, Absolute(p.value), effect, item.op.actualName, log);
    } else {
      assert log + [] == log;
    }
  }

  lemma HandleRecords(s: Fs, item: Item, log: Recorded)
    requires s.accesses == RecordAll(log)
    ensures Handle(s, item).accesses == RecordAll(log + Recording(s, item))
  {
    if item.op.primitive.Hpath? {
      HpathRecords(s, item, log);
    } else if item.op.primitive.HpathSym? {
      HpathSymRecords(s, item, log);
    } else {
      assert log + [] == log;
      assert Handle(s, item).accesses == s.accesses;
    }
  }

  /** After any run, the table of accesses holds, for each event and path, the
      net access of all that the run recorded for them. */
  lemma {:induction false} RunHoldsNetAccesses(cwd: Path, items: seq<Item>)
    ensures var b, log := HandleAll(Start(cwd), items).accesses, RunLog(Start(cwd), items);
      && b == RecordAll(log) && Keyed(b)
      && forall k :: Lookup(b, k) == Net(AccessesAt(log, k))
    decreases |items|
  {
    var log := RunLog(Start(cwd), items);
    if items != [] {
      var n := |items| - 1;
      RunHoldsNetAccesses(cwd, items[..n]);
      HandleRecords(HandleAll(Start(cwd), items[..n]), items[n], RunLog(Start(cwd), items[..n]));
    }
    TableHoldsNetAccesses(log);
  }
}
