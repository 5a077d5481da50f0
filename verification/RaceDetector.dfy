/** The race detector: memoised happens-before queries over a fixed graph, and
    the enumeration of conflicting, unordered accesses. */
module RaceDetectors {
  import opened Common
  import opened Traces
  import opened Reachability
  import opened DependencyGraph
  import opened FileAccess

  /** The cache-free meaning of a query: both events exist, and either both are
      MAIN events or the first reaches the second. */
  ghost predicate HappensBefore(g: View, source: Id, target: Id) {
    && source in g.events && target in g.events
    && ((g.events[source].eventType == MAIN && g.events[target].eventType == MAIN)
        || Reaches(Pairs(g.deps), source, target))
  }

  predicate Consumes(effect: EffectType) {
    effect == CONSUMED
  }

  /** Two accesses of different events, not both of which consume. */
  predicate Conflicting(x: FSAccess, y: FSAccess) {
    x.eventId != y.eventId && !(Consumes(x.effectType) && Consumes(y.effectType))
  }

  ghost predicate Racy(g: View, x: FSAccess, y: FSAccess) {
    && Conflicting(x, y)
    && !HappensBefore(g, x.eventId, y.eventId) && !HappensBefore(g, y.eventId, x.eventId)
  }

  /** The query searches the graph and meets an edge to a missing node, on which
      the assertion in the search fails. */
  ghost predicate QueryFails(g: View, source: Id, target: Id) {
    && source in g.events && target in g.events
    && !(g.events[source].eventType == MAIN && g.events[target].eventType == MAIN)
    && !Searchable(g, source)
  }

  /** Comparing two accesses fails: the second query is made only if the first
      one says no. */
  ghost predicate CheckFails(g: View, x: FSAccess, y: FSAccess) {
    && Conflicting(x, y)
    && (QueryFails(g, x.eventId, y.eventId)
        || (!HappensBefore(g, x.eventId, y.eventId) && QueryFails(g, y.eventId, x.eventId)))
  }

  datatype FaultDesc = FaultDesc(p: RawPath, access1: FSAccess, access2: FSAccess)

  type Faults = map<(Id, Id), set<FaultDesc>>

  /** Insertion into a set whose elements are compared by their path only. */
  function InsertDesc(descs: set<FaultDesc>, d: FaultDesc): set<FaultDesc> {
    if exists e :: e in descs && e.p == d.p then descs else descs + {d}
  }

  // ----- Pairs of accesses

  /** Each element with itself and with every later one. */
  function Combinations<T>(a: seq<T>): seq<(T, T)> {
    if a == [] then [] else seq(|a|, i requires 0 <= i < |a| => (a[0], a[i])) + Combinations(a[1..])
  }

  lemma {:induction false} InCombinations<T>(a: seq<T>, c: (T, T))
    ensures c in Combinations(a) <==> exists i, j :: 0 <= i <= j < |a| && c == (a[i], a[j])
    decreases |a|
  {
    if a != [] {
      var first := seq(|a|, i requires 0 <= i < |a| => (a[0], a[i]));
      InCombinations(a[1..], c);
      if c in first {
        var j :| 0 <= j < |first| && first[j] == c;
        assert 0 <= 0 <= j < |a| && c == (a[0], a[j]);
      } else if c in Combinations(a[1..]) {
        var i, j :| 0 <= i <= j < |a[1..]| && c == (a[1..][i], a[1..][j]);
        assert 0 <= i + 1 <= j + 1 < |a| && c == (a[i + 1], a[j + 1]);
      }
      if i, j :| 0 <= i <= j < |a| && c == (a[i], a[j]) {
        if i == 0 {
          assert c == first[j];
        } else {
          assert 0 <= i - 1 <= j - 1 < |a[1..]| && c == (a[1..][i - 1], a[1..][j - 1]);
        }
      }
    }
  }

  lemma Regroup<T>(a: seq<T>, b: seq<T>, c: seq<T>)
    ensures (a + b) + c == a + (b + c)
  {
  }

  method Get2Combinations<T>(a: seq<T>) returns (combs: seq<(T, T)>)
    ensures combs == Combinations(a)
  {
    combs := [];
    for i := 0 to |a|
      invariant combs + Combinations(a[i..]) == Combinations(a)
    {
      ghost var before := combs;
      ghost var first := seq(|a[i..]|, k requires 0 <= k < |a[i..]| => (a[i..][0], a[i..][k]));
      for j := i to |a|
        invariant combs == before + first[..j - i]
      {
        combs := combs + [(a[i], a[j])];
      }
      assert first[..|a| - i] == first;
      assert a[i..][1..] == a[i + 1..];
      Regroup(before, first, Combinations(a[i + 1..]));
    }
    assert a[|a|..] == [];
  }

  // ----- What a fault table reports

  /** The racy pairs found so far: a path, and its two accesses in table order. */
  type Hits = set<(RawPath, FSAccess, FSAccess)>

  ghost predicate Sound(faults: Faults, hits: Hits) {
    forall k, d :: k in faults && d in faults[k] ==>
      (d.p, d.access1, d.access2) in hits && k == (d.access1.eventId, d.access2.eventId)
  }

  ghost predicate Complete(faults: Faults, hits: Hits) {
    forall h :: h in hits ==> Reported(faults, h.1.eventId, h.2.eventId, h.0)
  }

  ghost predicate Reported(faults: Faults, a: Id, b: Id, p: RawPath) {
    (a, b) in faults && exists d :: d in faults[(a, b)] && d.p == p
  }

  /** No pair of events is reported twice for one path, none with no path. */
  ghost predicate NoRepeats(faults: Faults) {
    forall k :: k in faults ==>
      faults[k] != {} && forall d, e :: d in faults[k] && e in faults[k] && d.p == e.p ==> d == e
  }

  ghost predicate Recorded(faults: Faults, hits: Hits) {
    Sound(faults, hits) && Complete(faults, hits) && NoRepeats(faults)
  }

  ghost predicate Compared(table: map<RawPath, seq<FSAccess>>, h: (RawPath, FSAccess, FSAccess)) {
    h.0 in table && (h.1, h.2) in Combinations(table[h.0])
  }

  ghost predicate Found(g: View, table: map<RawPath, seq<FSAccess>>, h: (RawPath, FSAccess, FSAccess)) {
    Compared(table, h) && Racy(g, h.1, h.2)
  }

  ghost predicate SomeCheckFails(g: View, table: map<RawPath, seq<FSAccess>>) {
    exists h :: Compared(table, h) && CheckFails(g, h.1, h.2)
  }

  /** The fault table holds exactly the racy pairs of the access table. */
  ghost predicate Reports(faults: Faults, g: View, table: map<RawPath, seq<FSAccess>>) {
    && NoRepeats(faults)
    && (forall k, d :: k in faults && d in faults[k] ==>
          Found(g, table, (d.p, d.access1, d.access2)) && k == (d.access1.eventId, d.access2.eventId))
    && (forall h :: Found(g, table, h) ==> Reported(faults, h.1.eventId, h.2.eventId, h.0))
  }

  function AddFault(faults: Faults, d: FaultDesc): Faults {
    var k := (d.access1.eventId, d.access2.eventId);
    if k !in faults then faults[k := {d}] else faults[k := InsertDesc(faults[k], d)]
  }

  /** Inserting a description keeps what is reported, and reports its path. */
  lemma ReportGrows(faults: Faults, d: FaultDesc, a: Id, b: Id, p: RawPath)
    ensures Reported(faults, a, b, p) ==> Reported(AddFault(faults, d), a, b, p)
    ensures Reported(AddFault(faults, d), d.access1.eventId, d.access2.eventId, d.p)
  {
    var faults', k := AddFault(faults, d), (d.access1.eventId, d.access2.eventId);
    if Reported(faults, a, b, p) {
      var e :| e in faults[(a, b)] && e.p == p;
      assert e in faults'[(a, b)];
    }
    if k in faults && exists e :: e in faults[k] && e.p == d.p {
      var e :| e in faults[k] && e.p == d.p;
      assert e in faults'[k];
    } else {
      assert d in faults'[k];
    }
  }

  lemma RepeatsStayOut(faults: Faults, d: FaultDesc)
    requires NoRepeats(faults)
    ensures NoRepeats(AddFault(faults, d))
  {
  }

  lemma SoundnessStays(faults: Faults, hits: Hits, d: FaultDesc)
    requires Sound(faults, hits)
    ensures Sound(AddFault(faults, d), hits + {(d.p, d.access1, d.access2)})
  {
  }

  lemma FaultAdded(faults: Faults, hits: Hits, d: FaultDesc)
    requires Recorded(faults, hits)
    ensures Recorded(AddFault(faults, d), hits + {(d.p, d.access1, d.access2)})
  {
    SoundnessStays(faults, hits, d);
    RepeatsStayOut(faults, d);
    forall h | h in hits + {(d.p, d.access1, d.access2)}
      ensures Reported(AddFault(faults, d), h.1.eventId, h.2.eventId, h.0)
    {
      ReportGrows(faults, d, h.1.eventId, h.2.eventId, h.0);
    }
  }

  class RaceDetector {
    const fsAccesses: map<RawPath, seq<FSAccess>>
    const depGraph: Graph
    var cacheDfs: map<Id, set<Id>>
    var eventInfo: map<Id, seq<string>>

    /** Every memo holds exactly what its key reaches. */
    ghost predicate Valid()
      reads this, depGraph
    {
      && depGraph.Valid()
      && forall s :: s in cacheDfs ==> Memo(depGraph.view, s, cacheDfs[s]) && Searchable(depGraph.view, s)
    }

    constructor (fsAccesses: map<RawPath, seq<FSAccess>>, depGraph: Graph)
      requires depGraph.Valid()
      ensures Valid() && this.fsAccesses == fsAccesses && this.depGraph == depGraph
    {
      this.fsAccesses := fsAccesses;
      this.depGraph := depGraph;
      cacheDfs := map[];
      eventInfo := map[];
    }

    static method HasConflict(acc1: FSAccess, acc2: FSAccess) returns (b: bool)
      ensures b <==> !(Consumes(acc1.effectType) && Consumes(acc2.effectType))
    {
      match acc1.effectType
      case CONSUMED => b := !Consumes(acc2.effectType);
      case PRODUCED => b := true;
      case EXPUNGED => b := true;
    }

    method QueryHappensBefore(source: Id, target: Id) returns (b: Option<bool>)
      requires Valid()
      modifies `cacheDfs
      ensures Valid()
      ensures b.None? <==> QueryFails(depGraph.view, source, target)
      ensures b.Some? ==> (b.value <==> HappensBefore(depGraph.view, source, target))
    {
      var sourceInfo := depGraph.GetNodeInfo(source);
      var targetInfo := depGraph.GetNodeInfo(target);
      if sourceInfo.None? || targetInfo.None? {
        return Some(false);
      }
      if sourceInfo.value.obj.eventType == MAIN && targetInfo.value.obj.eventType == MAIN {
        return Some(true);
      }
      if source !in cacheDfs {
        var visited := depGraph.DFS(source);
        if visited.None? {
          return None;
        }
        cacheDfs := cacheDfs[source := visited.value];
        b := Some(target in visited.value);
      } else {
        assert Memo(depGraph.view, source, cacheDfs[source]);
        b := Some(target in cacheDfs[source]);
      }
    }

    /** Whether two conflicting accesses are ordered; the second query is made
        only if the first one says no. */
    method HasDependency(first: FSAccess, second: FSAccess) returns (b: Option<bool>)
      requires Valid() && Conflicting(first, second)
      modifies `cacheDfs
      ensures Valid()
      ensures b.None? <==> CheckFails(depGraph.view, first, second)
      ensures b.Some? ==> (b.value <==> !Racy(depGraph.view, first, second))
    {
      b := QueryHappensBefore(first.eventId, second.eventId);
      if b == Some(false) {
        b := QueryHappensBefore(second.eventId, first.eventId);
      }
    }

    method GetFaults() returns (result: Option<Faults>)
      requires Valid()
      modifies this
      ensures Valid()
      ensures result.None? <==> SomeCheckFails(depGraph.view, fsAccesses)
      ensures result.Some? ==> Reports(result.value, depGraph.view, fsAccesses)
    {
      result := Some(map[]);
      ghost var g, hits: Hits := depGraph.view, {};
      var paths := fsAccesses.Keys;
      while paths != {}
        invariant Valid() && paths <= fsAccesses.Keys
        invariant result.Some? && Recorded(result.value, hits)
        invariant forall h :: h in hits <==> h.0 !in paths && Found(g, fsAccesses, h)
        invariant forall h :: Compared(fsAccesses, h) && h.0 !in paths ==> !CheckFails(g, h.1, h.2)
      {
        var p :| p in paths;
        paths := paths - {p};
        result, hits := CompareAccesses(p, result.value, hits);
        if result.None? {
          ghost var c :| c in Combinations(fsAccesses[p]) && CheckFails(g, c.0, c.1);
          assert c == (c.0, c.1) && Compared(fsAccesses, (p, c.0, c.1));
          return;
        }
        forall h ensures h in HitSet(g, p, Combinations(fsAccesses[p])) <==> h.0 == p && Found(g, fsAccesses, h) {
          HitsAreFound(g, fsAccesses, p, h);
        }
      }
    }

    /** The inner loop: all pairs of accesses to one path. */
    method CompareAccesses(p: RawPath, faults0: Faults, ghost hits0: Hits)
      returns (result: Option<Faults>, ghost hits: Hits)
      requires Valid() && p in fsAccesses && Recorded(faults0, hits0)
      modifies this
      ensures Valid()
      ensures result.None? <==> !NoneFails(depGraph.view, Combinations(fsAccesses[p]))
      ensures result.Some? ==>
        Recorded(result.value, hits) && hits == hits0 + HitSet(depGraph.view, p, Combinations(fsAccesses[p]))
    {
      ghost var g := depGraph.view;
      var faults := faults0;
      hits := hits0;
      var accCombs := Get2Combinations(fsAccesses[p]);
      for k := 0 to |accCombs|
        invariant Valid() && Recorded(faults, hits)
        invariant hits == hits0 + HitSet(g, p, accCombs[..k])
        invariant NoneFails(g, accCombs[..k])
      {
        OneMoreHit(g, p, accCombs, k, hits0);
        OneMoreCheck(g, accCombs, k);
        result, hits := CompareTwo(p, accCombs[k].0, accCombs[k].1, faults, hits);
        if result.None? {
          assert accCombs[k] in accCombs;
          return None, hits;
        }
        faults := result.value;
      }
      assert accCombs[..|accCombs|] == accCombs;
      result := Some(faults);
    }

    /** One pair of accesses to a path. */
    method CompareTwo(p: RawPath, first: FSAccess, second: FSAccess, faults: Faults, ghost hits0: Hits)
        returns (result: Option<Faults>, ghost hits: Hits)
      requires Valid() && Recorded(faults, hits0)
      modifies this
      ensures Valid()
      ensures result.None? <==> CheckFails(depGraph.view, first, second)
      ensures result.Some? ==> Recorded(result.value, hits)
      ensures hits == hits0 + if result.Some? && Racy(depGraph.view, first, second) then {(p, first, second)} else {}
    {
      hits := hits0;
      eventInfo := eventInfo[first.eventId := first.debugInfo];
      eventInfo := eventInfo[second.eventId := second.debugInfo];
      if first.eventId == second.eventId {
        return Some(faults), hits;
      }
      var conflict := HasConflict(first, second);
      if !conflict {
        return Some(faults), hits;
      }
      var hasDep := HasDependency(first, second);
      if hasDep.None? {
        return None, hits;
      }
      if hasDep.value {
        return Some(faults), hits;
      }
      var desc := FaultDesc(p, first, second);
      FaultAdded(faults, hits, desc);
      hits := hits + {(p, first, second)};
      var faults' := ReportFault(faults, desc);
      result := Some(faults');
    }

    /** Adds to the set of a pair of events, or makes one. */
    static method ReportFault(faults: Faults, desc: FaultDesc) returns (faults': Faults)
      ensures faults' == AddFault(faults, desc)
    {
      var pairElement := (desc.access1.eventId, desc.access2.eventId);
      if pairElement !in faults {
        faults' := faults[pairElement := {desc}];
      } else {
        faults' := faults[pairElement := InsertDesc(faults[pairElement], desc)];
      }
    }
  }

  ghost predicate NoneFails(g: View, combs: seq<(FSAccess, FSAccess)>) {
    forall c :: c in combs ==> !CheckFails(g, c.0, c.1)
  }

  lemma OneMoreCheck(g: View, combs: seq<(FSAccess, FSAccess)>, k: nat)
    requires k < |combs|
    ensures NoneFails(g, combs[..k + 1]) <==> NoneFails(g, combs[..k]) && !CheckFails(g, combs[k].0, combs[k].1)
  {
    assert combs[..k + 1] == combs[..k] + [combs[k]];
    assert combs[k] in combs[..k + 1];
  }

  ghost predicate Memo(g: View, source: Id, reached: set<Id>) {
    forall v :: v in reached <==> Reaches(Pairs(g.deps), source, v)
  }

  /** The racy pairs among some pairs of accesses to a path. */
  ghost function HitSet(g: View, p: RawPath, combs: seq<(FSAccess, FSAccess)>): Hits {
    set c | c in combs && Racy(g, c.0, c.1) :: (p, c.0, c.1)
  }

  lemma OneMoreHit(g: View, p: RawPath, combs: seq<(FSAccess, FSAccess)>, k: nat, hits0: Hits)
    requires k < |combs|
    ensures hits0 + HitSet(g, p, combs[..k + 1])
         == (hits0 + HitSet(g, p, combs[..k])) +
           (if Racy(g, combs[k].0, combs[k].1) then {(p, combs[k].0, combs[k].1)} else {})
  {
    assert combs[..k + 1] == combs[..k] + [combs[k]];
  }

  lemma HitsAreFound(g: View, table: map<RawPath, seq<FSAccess>>, p: RawPath, h: (RawPath, FSAccess, FSAccess))
    requires p in table
    ensures h in HitSet(g, p, Combinations(table[p])) <==> h.0 == p && Found(g, table, h)
  {
    if h.0 == p && Found(g, table, h) {
      assert h == (p, (h.1, h.2).0, (h.1, h.2).1);
    }
  }
}
