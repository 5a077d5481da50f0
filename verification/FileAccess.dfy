/** Accesses to paths, and the order in which the tables keep event identifiers. */
module FileAccess {
  import opened Common
  import opened Traces

  /** An absolute, normalised path: its component names, none for the root. */
  type Path = seq<string>

  /** A path as an operation names it. */
  datatype RawPath = Absolute(names: Path) | Relative(names: Path)

  datatype FSAccess = FSAccess(eventId: Id, effectType: EffectType, debugInfo: seq<string>, operationName: string)

  /** Lexicographic order, as on `std::string`. */
  predicate Less(a: string, b: string)
    decreases |a|
  {
    b != "" && (a == "" || a[0] < b[0] || (a[0] == b[0] && Less(a[1..], b[1..])))
  }

  /** The first difference decides, or else the length. */
  lemma {:induction false} LessIsLexicographic(a: string, b: string)
    ensures Less(a, b) <==>
      exists n :: 0 <= n <= |a| && n < |b| && a[..n] == b[..n] && (n == |a| || a[n] < b[n])
    decreases |a|
  {
    if a == "" || b == "" {
      assert a[..0] == b[..0];
    } else if a[0] != b[0] {
      assert a[..0] == b[..0];
      forall n | 0 < n <= |a| && n < |b| ensures a[..n] != b[..n] {
        assert a[..n][0] == a[0] && b[..n][0] == b[0];
      }
    } else {
      LessIsLexicographic(a[1..], b[1..]);
      if n :| 0 <= n <= |a| && n < |b| && a[..n] == b[..n] && (n == |a| || a[n] < b[n]) {
        assert a[1..][..n - 1] == a[..n][1..] && b[1..][..n - 1] == b[..n][1..];
      }
      var x, y := a[1..], b[1..];
      if n :| 0 <= n <= |x| && n < |y| && x[..n] == y[..n] && (n == |x| || x[n] < y[n]) {
        assert a[..n + 1] == [a[0]] + x[..n] && b[..n + 1] == [b[0]] + y[..n];
      }
    }
  }

  lemma {:induction false} LessIrreflexive(a: string)
    ensures !Less(a, a)
    decreases |a|
  {
    if a != "" { LessIrreflexive(a[1..]); }
  }

  lemma {:induction false} LessTransitive(a: string, b: string, c: string)
    requires Less(a, b) && Less(b, c)
    ensures Less(a, c)
    decreases |a|
  {
    if a != "" && a[0] == b[0] && b[0] == c[0] {
      LessTransitive(a[1..], b[1..], c[1..]);
    }
  }

  lemma {:induction false} LessTotal(a: string, b: string)
    ensures Less(a, b) || Less(b, a) || a == b
    decreases |a|
  {
    if a != "" && b != "" && a[0] == b[0] {
      LessTotal(a[1..], b[1..]);
      assert a == [a[0]] + a[1..] && b == [b[0]] + b[1..];
    }
  }

  lemma LessAsymmetric(a: string, b: string)
    requires Less(a, b)
    ensures !Less(b, a) && a != b
  {
  }

  /** A non-empty finite set of identifiers has a least one. */
  lemma {:induction false} LeastId(ids: set<Id>) returns (least: Id)
    requires ids != {}
    ensures least in ids && forall id :: id in ids && id != least ==> Less(least, id)
    decreases ids
  {
    var x :| x in ids;
    if ids == {x} {
      least := x;
    } else {
      var y := LeastId(ids - {x});
      LessTotal(x, y);
      if Less(x, y) {
        least := x;
        forall id | id in ids && id != x ensures Less(x, id) {
          if id != y { LessTransitive(x, y, id); }
        }
      } else {
        least := y;
      }
    }
  }

  /** The identifiers of the accesses strictly increase. */
  ghost predicate Sorted(s: seq<FSAccess>) {
    forall i, j :: 0 <= i < j < |s| ==> Less(s[i].eventId, s[j].eventId)
  }

  type BlockAccesses = map<(RawPath, Id), FSAccess>

  ghost predicate Keyed(b: BlockAccesses) {
    forall k :: k in b ==> b[k].eventId == k.1
  }

  /** Each path has its accesses, all of them, in the order of their events. */
  ghost predicate Grouped(b: BlockAccesses, table: map<RawPath, seq<FSAccess>>) {
    && (forall p :: p in table ==> Sorted(table[p]) && table[p] != [])
    && (forall p, a :: (p in table && a in table[p]) <==> ((p, a.eventId) in b && b[(p, a.eventId)] == a))
  }

  /** The loop of FSAnalyzer::Analyze that groups accesses by path.  The source
      walks the keys in the order of path, then event; any walk that meets the
      events of each path in order gives the same table. */
  method GroupByPath(blockAccesses: BlockAccesses) returns (effectTable: map<RawPath, seq<FSAccess>>)
    requires Keyed(blockAccesses)
    ensures Grouped(blockAccesses, effectTable)
  {
    effectTable := map[];
    var rest := blockAccesses;
    ghost var done: BlockAccesses := map[];
    while rest != map[]
      invariant Walked(blockAccesses, done, rest)
      invariant Grouped(done, effectTable)
      decreases rest.Keys
    {
      NextKeyExists(rest);
      var key :| key in rest && IsNext(rest, key);
      var access := rest[key];
      var accesses := if key.0 in effectTable then effectTable[key.0] + [access] else [access];
      WalkOn(blockAccesses, done, rest, key);
      OneMoreAccess(done, effectTable, key, access);
      effectTable := effectTable[key.0 := accesses];
      done := done[key := access];
      rest := rest - {key};
    }
    assert done == blockAccesses;
  }

  /** No event of the same path comes before it. */
  predicate IsNext(rest: BlockAccesses, key: (RawPath, Id)) {
    forall k :: k in rest && k.0 == key.0 && k != key ==> Less(key.1, k.1)
  }

  ghost predicate Walked(all: BlockAccesses, done: BlockAccesses, rest: BlockAccesses) {
    && Keyed(rest) && all.Keys == done.Keys + rest.Keys && done.Keys !! rest.Keys
    && (forall k :: k in done ==> done[k] == all[k])
    && (forall k :: k in rest ==> rest[k] == all[k])
    && (forall p, e, e' :: (p, e) in done && (p, e') in rest ==> Less(e, e'))
  }

  lemma WalkOn(all: BlockAccesses, done: BlockAccesses, rest: BlockAccesses, key: (RawPath, Id))
    requires Walked(all, done, rest) && key in rest && IsNext(rest, key)
    ensures Walked(all, done[key := rest[key]], rest - {key})
    ensures forall e :: (key.0, e) in done ==> Less(e, key.1)
  {
    assert key == (key.0, key.1);
  }

  lemma NextKeyExists(rest: BlockAccesses)
    requires rest != map[]
    ensures exists key :: key in rest && IsNext(rest, key)
  {
    var some :| some in rest;
    var events := set k | k in rest.Keys && k.0 == some.0 :: k.1;
    assert some.1 in events;
    var e := LeastId(events);
    var key := (some.0, e);
    assert key in rest;
    forall k | k in rest && k.0 == key.0 && k != key ensures Less(key.1, k.1) {
      assert k.1 in events;
    }
  }

  lemma OneMoreAccess(done: BlockAccesses, table: map<RawPath, seq<FSAccess>>, key: (RawPath, Id), access: FSAccess)
    requires Grouped(done, table) && key !in done && access.eventId == key.1
    requires forall e :: (key.0, e) in done ==> Less(e, key.1)
    ensures Grouped(done[key := access],
                    table[key.0 := if key.0 in table then table[key.0] + [access] else [access]])
  {
  }
}
