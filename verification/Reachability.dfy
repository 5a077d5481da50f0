/** Reachability and acyclicity over a finite relation on identifiers.
    Walks are measured by their number of steps, so every proof about walks is
    an induction on a number. */
module Reachability {
  import opened Common

  type Relation = set<(Id, Id)>

  ghost predicate ReachesIn(r: Relation, u: Id, v: Id, n: nat)
    decreases n
  {
    if n == 0 then u == v
    else exists w :: (u, w) in r && ReachesIn(r, w, v, n - 1)
  }

  /** There is a walk, possibly of no step, from `u` to `v`. */
  ghost predicate Reaches(r: Relation, u: Id, v: Id) {
    exists n: nat :: ReachesIn(r, u, v, n)
  }

  /** No walk of at least one step comes back to where it started. */
  ghost predicate Acyclic(r: Relation) {
    forall u, n: nat :: n > 0 ==> !ReachesIn(r, u, u, n)
  }

  ghost predicate SameReach(r1: Relation, r2: Relation) {
    forall u, v :: Reaches(r1, u, v) <==> Reaches(r2, u, v)
  }

  lemma ReachesSelf(r: Relation, u: Id)
    ensures Reaches(r, u, u)
  {
    assert ReachesIn(r, u, u, 0);
  }

  lemma ReachesEdge(r: Relation, u: Id, v: Id)
    requires (u, v) in r
    ensures ReachesIn(r, u, v, 1) && Reaches(r, u, v)
  {
    assert ReachesIn(r, v, v, 0);
    assert ReachesIn(r, u, v, 1);
  }

  lemma {:induction false} WalkConcat(r: Relation, u: Id, v: Id, w: Id, m: nat, n: nat)
    requires ReachesIn(r, u, v, m) && ReachesIn(r, v, w, n)
    ensures ReachesIn(r, u, w, m + n)
    decreases m
  {
    if m > 0 {
      var x :| (u, x) in r && ReachesIn(r, x, v, m - 1);
      WalkConcat(r, x, v, w, m - 1, n);
    }
  }

  lemma ReachesTrans(r: Relation, u: Id, v: Id, w: Id)
    requires Reaches(r, u, v) && Reaches(r, v, w)
    ensures Reaches(r, u, w)
  {
    var m: nat :| ReachesIn(r, u, v, m);
    var n: nat :| ReachesIn(r, v, w, n);
    WalkConcat(r, u, v, w, m, n);
  }

  /** An edge followed by a walk back would be a cycle. */
  lemma NoWayBack(r: Relation, u: Id, v: Id)
    requires Acyclic(r) && (u, v) in r
    ensures !Reaches(r, v, u)
  {
    if Reaches(r, v, u) {
      var n: nat :| ReachesIn(r, v, u, n);
      assert ReachesIn(r, u, u, n + 1);
    }
  }

  /** If every edge of `r1` can be walked in `r2`, so can every walk of `r1`. */
  lemma {:induction false} WalkEmbeds(r1: Relation, r2: Relation, u: Id, v: Id, n: nat)
    requires forall e :: e in r1 ==> Reaches(r2, e.0, e.1)
    requires ReachesIn(r1, u, v, n)
    ensures Reaches(r2, u, v)
    decreases n
  {
    if n == 0 {
      ReachesSelf(r2, u);
    } else {
      var w :| (u, w) in r1 && ReachesIn(r1, w, v, n - 1);
      WalkEmbeds(r1, r2, w, v, n - 1);
      assert Reaches(r2, (u, w).0, (u, w).1);
      ReachesTrans(r2, u, w, v);
    }
  }

  lemma ReachesEmbeds(r1: Relation, r2: Relation)
    requires forall e :: e in r1 ==> Reaches(r2, e.0, e.1)
    ensures forall u, v :: Reaches(r1, u, v) ==> Reaches(r2, u, v)
  {
    forall u, v | Reaches(r1, u, v) ensures Reaches(r2, u, v) {
      var n: nat :| ReachesIn(r1, u, v, n);
      WalkEmbeds(r1, r2, u, v, n);
    }
  }

  lemma ReachesMonotone(r1: Relation, r2: Relation)
    requires r1 <= r2
    ensures forall u, v :: Reaches(r1, u, v) ==> Reaches(r2, u, v)
  {
    forall e | e in r1 ensures Reaches(r2, e.0, e.1) {
      ReachesEdge(r2, e.0, e.1);
    }
    ReachesEmbeds(r1, r2);
  }

  lemma {:induction false} WalkMonotone(r1: Relation, r2: Relation, u: Id, v: Id, n: nat)
    requires r1 <= r2 && ReachesIn(r1, u, v, n)
    ensures ReachesIn(r2, u, v, n)
    decreases n
  {
    if n > 0 {
      var w :| (u, w) in r1 && ReachesIn(r1, w, v, n - 1);
      WalkMonotone(r1, r2, w, v, n - 1);
    }
  }

  /** A part of an acyclic relation is acyclic. */
  lemma AcyclicPart(r1: Relation, r2: Relation)
    requires r1 <= r2 && Acyclic(r2)
    ensures Acyclic(r1)
  {
    forall u, n: nat | n > 0 ensures !ReachesIn(r1, u, u, n) {
      if ReachesIn(r1, u, u, n) {
        WalkMonotone(r1, r2, u, u, n);
      }
    }
  }

  /** Adding the same edges to two relations with the same reachability. */
  lemma SameReachExtends(r1: Relation, r2: Relation, more: Relation)
    requires SameReach(r1, r2)
    ensures SameReach(r1 + more, r2 + more)
  {
    ExtendOneWay(r1, r2, more);
    ExtendOneWay(r2, r1, more);
  }

  lemma ExtendOneWay(r1: Relation, r2: Relation, more: Relation)
    requires SameReach(r1, r2)
    ensures forall u, v :: Reaches(r1 + more, u, v) ==> Reaches(r2 + more, u, v)
  {
    ReachesMonotone(r2, r2 + more);
    forall e | e in r1 + more ensures Reaches(r2 + more, e.0, e.1) {
      if e in r1 {
        ReachesEdge(r1, e.0, e.1);
      } else {
        ReachesEdge(r2 + more, e.0, e.1);
      }
    }
    ReachesEmbeds(r1 + more, r2 + more);
  }

  /** If every edge goes up in a transitive relation, so does every real walk. */
  lemma {:induction false} WalkGoesUp(r: Relation, lt: (Id, Id) -> bool, u: Id, v: Id, n: nat)
    requires forall e :: e in r ==> lt(e.0, e.1)
    requires forall x, y, z :: lt(x, y) && lt(y, z) ==> lt(x, z)
    requires n > 0 && ReachesIn(r, u, v, n)
    ensures lt(u, v)
    decreases n
  {
    var w :| (u, w) in r && ReachesIn(r, w, v, n - 1);
    assert lt((u, w).0, (u, w).1);
    if n > 1 {
      WalkGoesUp(r, lt, w, v, n - 1);
    }
  }

  lemma OrderedIsAcyclic(r: Relation, lt: (Id, Id) -> bool)
    requires forall e :: e in r ==> lt(e.0, e.1)
    requires forall x, y, z :: lt(x, y) && lt(y, z) ==> lt(x, z)
    requires forall x :: !lt(x, x)
    ensures Acyclic(r)
  {
    forall u, n: nat | n > 0 ensures !ReachesIn(r, u, u, n) {
      if ReachesIn(r, u, u, n) {
        WalkGoesUp(r, lt, u, u, n);
      }
    }
  }

  /** A walk that starts in a set closed under the relation stays in it. */
  lemma {:induction false} WalkStays(r: Relation, s: set<Id>, u: Id, v: Id, n: nat)
    requires forall e :: e in r && e.0 in s ==> e.1 in s
    requires u in s && ReachesIn(r, u, v, n)
    ensures v in s
    decreases n
  {
    if n > 0 {
      var w :| (u, w) in r && ReachesIn(r, w, v, n - 1);
      assert (u, w).1 in s;
      WalkStays(r, s, w, v, n - 1);
    }
  }

  ghost predicate IsSink(r: Relation, u: Id) {
    forall e :: e in r ==> e.0 != u
  }

  /** A walk of at least one step. */
  ghost predicate StepsTo(r: Relation, u: Id, v: Id) {
    exists n: nat :: n > 0 && ReachesIn(r, u, v, n)
  }

  /** In a finite acyclic relation every node reaches a sink.  `seen` holds
      nodes already walked through, so that the walk cannot go on for ever. */
  lemma {:induction false} SomeSink(r: Relation, nodes: set<Id>, u: Id, seen: set<Id>) returns (sink: Id)
    requires Acyclic(r)
    requires forall e :: e in r ==> e.1 in nodes
    requires u in nodes && seen <= nodes && u !in seen
    requires forall s :: s in seen ==> StepsTo(r, s, u)
    ensures sink in nodes && IsSink(r, sink) && Reaches(r, u, sink)
    decreases nodes - seen
  {
    if IsSink(r, u) {
      sink := u;
      ReachesSelf(r, u);
    } else {
      var e :| e in r && e.0 == u;
      var w := e.1;
      ReachesEdge(r, u, w);
      assert ReachesIn(r, u, w, 1);
      var seen' := seen + {u};
      forall s | s in seen' ensures StepsTo(r, s, w) {
        if s in seen {
          assert StepsTo(r, s, u);
          var n: nat :| n > 0 && ReachesIn(r, s, u, n);
          WalkConcat(r, s, u, w, n, 1);
        }
      }
      assert !StepsTo(r, w, w);
      sink := SomeSink(r, nodes, w, seen');
      ReachesTrans(r, u, w, sink);
    }
  }

  // ----- Edges added at one node

  /** Edges into and out of one node. */
  datatype Star = Star(mid: Id, ins: set<Id>, outs: set<Id>)

  predicate WellPlaced(x: Star) {
    x.mid !in x.ins && x.mid !in x.outs
  }

  function StarEdges(x: Star): Relation {
    (set y | y in x.ins :: (y, x.mid)) + (set z | z in x.outs :: (x.mid, z))
  }

  /** Nothing the star leads to reaches anything the star comes from. */
  ghost predicate NoDetour(r: Relation, x: Star) {
    forall z, y :: z in x.outs + {x.mid} && y in x.ins + {x.mid} && (z != x.mid || y != x.mid) ==> !Reaches(r, z, y)
  }

  /** A walk that uses the star enters it and leaves it. */
  ghost predicate Passes(r: Relation, x: Star, u: Id, v: Id) {
    exists y, z :: y in x.ins + {x.mid} && z in x.outs + {x.mid} && Reaches(r, u, y) && Reaches(r, z, v)
  }

  lemma PassesBy(r: Relation, x: Star, u: Id, y: Id, z: Id, v: Id)
    requires y in x.ins + {x.mid} && z in x.outs + {x.mid} && Reaches(r, u, y) && Reaches(r, z, v)
    ensures Passes(r, x, u, v)
  {
  }

  lemma StarEdge(x: Star, e: (Id, Id))
    ensures e in StarEdges(x) <==> (e.0 in x.ins && e.1 == x.mid) || (e.0 == x.mid && e.1 in x.outs)
  {
    if e.0 in x.ins && e.1 == x.mid { assert e == (e.0, x.mid); }
    if e.0 == x.mid && e.1 in x.outs { assert e == (x.mid, e.1); }
  }

  lemma {:induction false} WalkWithStar(r: Relation, x: Star, u: Id, v: Id, n: nat)
    requires ReachesIn(r + StarEdges(x), u, v, n)
    ensures Reaches(r, u, v) || Passes(r, x, u, v)
    decreases n
  {
    ReachesSelf(r, u);
    if n > 0 {
      var w :| (u, w) in r + StarEdges(x) && ReachesIn(r + StarEdges(x), w, v, n - 1);
      WalkWithStar(r, x, w, v, n - 1);
      if (u, w) in r {
        ReachesEdge(r, u, w);
        if Reaches(r, w, v) {
          ReachesTrans(r, u, w, v);
        } else {
          var y, z :| y in x.ins + {x.mid} && z in x.outs + {x.mid} && Reaches(r, w, y) && Reaches(r, z, v);
          ReachesTrans(r, u, w, y);
          PassesBy(r, x, u, y, z, v);
        }
      } else {
        StarEdge(x, (u, w));
        if Reaches(r, w, v) {
          PassesBy(r, x, u, u, w, v);
        } else {
          var y, z :| y in x.ins + {x.mid} && z in x.outs + {x.mid} && Reaches(r, w, y) && Reaches(r, z, v);
          PassesBy(r, x, u, u, z, v);
        }
      }
    }
  }

  /** In an acyclic relation the ends of a step do not reach back. */
  lemma NoCycleThroughStar(r: Relation, x: Star, u: Id, w: Id)
    requires Acyclic(r) && NoDetour(r, x) && WellPlaced(x) && (u, w) in r + StarEdges(x)
    ensures !Reaches(r, w, u) && !Passes(r, x, w, u)
  {
    if (u, w) in r {
      NoWayBack(r, u, w);
      ReachesEdge(r, u, w);
      forall y, z | y in x.ins + {x.mid} && z in x.outs + {x.mid} && Reaches(r, w, y)
        ensures !Reaches(r, z, u)
      {
        if Reaches(r, z, u) {
          ReachesTrans(r, z, u, w);
          ReachesTrans(r, z, w, y);
          assert y == z == x.mid;
          ReachesTrans(r, w, y, u);
        }
      }
    } else {
      StarEdge(x, (u, w));
    }
  }

  /** Adding a star keeps a relation acyclic if and only if it was acyclic and
      nothing the star leads to reached anything it comes from. */
  lemma StarKeepsAcyclic(r: Relation, x: Star)
    requires WellPlaced(x)
    ensures Acyclic(r + StarEdges(x)) <==> Acyclic(r) && NoDetour(r, x)
  {
    var r' := r + StarEdges(x);
    if Acyclic(r) && NoDetour(r, x) {
      forall u, n: nat | n > 0 ensures !ReachesIn(r', u, u, n) {
        if ReachesIn(r', u, u, n) {
          var w :| (u, w) in r' && ReachesIn(r', w, u, n - 1);
          WalkWithStar(r, x, w, u, n - 1);
          NoCycleThroughStar(r, x, u, w);
        }
      }
    }
    if Acyclic(r') {
      AcyclicPart(r, r');
      ReachesMonotone(r, r');
      forall z, y | z in x.outs + {x.mid} && y in x.ins + {x.mid} && (z != x.mid || y != x.mid)
        ensures !Reaches(r, z, y)
      {
        DetourClosesCycle(r, x, z, y);
      }
    }
  }

  lemma DetourClosesCycle(r: Relation, x: Star, z: Id, y: Id)
    requires WellPlaced(x) && z in x.outs + {x.mid} && y in x.ins + {x.mid} && (z != x.mid || y != x.mid)
    requires Acyclic(r + StarEdges(x))
    ensures !Reaches(r, z, y)
  {
    var r' := r + StarEdges(x);
    ReachesMonotone(r, r');
    StarEdge(x, (x.mid, z));
    StarEdge(x, (y, x.mid));
    if Reaches(r', z, y) {
      if z == x.mid {
        NoWayBack(r', y, x.mid);
      } else {
        ReachesSelf(r', y);
        if y != x.mid { ReachesEdge(r', y, x.mid); }
        ReachesTrans(r', z, y, x.mid);
        NoWayBack(r', x.mid, z);
      }
    }
  }
}
