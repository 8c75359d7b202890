/** The derived statistics of the image cache: access counts and the hit rate. */
module CacheStatistics {
  import opened MapSum
  import opened CacheModel

  /** Hits on `ref` since it was last inserted. */
  function HitsSinceInsertion(ops: seq<Op>, ref: string): nat {
    if ops == [] then 0 else
    var earlier, last := ops[..|ops| - 1], ops[|ops| - 1];
    match last
    case Hit(r, _) => HitsSinceInsertion(earlier, ref) + if r == ref then 1 else 0
    case Put(r, _, _) => if r == ref then 0 else HitsSinceInsertion(earlier, ref)
    case Prepull(r, _) => if r == ref then 0 else HitsSinceInsertion(earlier, ref)
    case _ => HitsSinceInsertion(earlier, ref)
  }

  /** What the last insertion of `ref` credited it with: one for a Put, nothing for a Prepull. */
  function InsertionCredit(ops: seq<Op>, ref: string): nat {
    if ops == [] then 0 else
    var earlier, last := ops[..|ops| - 1], ops[|ops| - 1];
    match last
    case Put(r, _, _) => if r == ref then 1 else InsertionCredit(earlier, ref)
    case Prepull(r, _) => if r == ref then 0 else InsertionCredit(earlier, ref)
    case _ => InsertionCredit(earlier, ref)
  }

  /** Each resident entry's access count is its hits since insertion plus its insertion credit. */
  lemma {:induction false} AccessCountsAreHits(cfg: Config, ops: seq<Op>, states: seq<Cache>, ref: string)
    requires Run(cfg, ops, states) && ref in states[|ops|]
    ensures states[|ops|][ref].accessCount == HitsSinceInsertion(ops, ref) + InsertionCredit(ops, ref)
    decreases |ops|
  {
    if ops != [] {
      var n := |ops| - 1;
      RunPrefix(cfg, ops, states, n);
      var c, c' := states[n], states[n + 1];
      assert Step(cfg, ops[n], c, c');
      StepAccessCount(cfg, ops[n], c, c', ref);
      if ref in c {
        AccessCountsAreHits(cfg, ops[..n], states[..n + 1], ref);
      }
    }
  }

  /** Whether an operation inserts `ref` anew. */
  predicate Inserts(op: Op, ref: string) {
    (op.Put? || op.Prepull?) && op.ref == ref
  }

  lemma {:induction false} StepAccessCount(cfg: Config, op: Op, c: Cache, c': Cache, ref: string)
    requires Step(cfg, op, c, c') && ref in c'
    ensures Inserts(op, ref) ==> c'[ref].accessCount == if op.Put? then 1 else 0
    ensures !Inserts(op, ref) ==> ref in c
    ensures !Inserts(op, ref) ==> c'[ref].accessCount == c[ref].accessCount + if op.Hit? && op.ref == ref then 1 else 0
  {
    if op.Put? {
      var victims, more :| PutBy(cfg, op.ref, op.size, op.now, c, c', victims, more);
    }
  }

  const Accesses: Entry -> int := (e: Entry) => e.accessCount
  const RepeatAccesses: Entry -> int := (e: Entry) => if e.accessCount > 1 then e.accessCount - 1 else 0
  const WasAccessed: Entry -> int := (e: Entry) => if e.accessCount >= 1 then 1 else 0

  ghost predicate CountsNonNegative(c: Cache) { NonNegative(c, Accesses) }

  /** The hits a status update computes are all accesses less one per entry accessed at all. */
  lemma {:induction false} HitsFromAccesses(c: Cache)
    requires CountsNonNegative(c)
    ensures Sum(c, RepeatAccesses) == Sum(c, Accesses) - Sum(c, WasAccessed)
    ensures 0 <= Sum(c, RepeatAccesses)
    ensures Sum(c, Accesses) > 0 ==> Sum(c, WasAccessed) > 0
    decreases |c|
  {
    if c != map[] {
      var k :| k in c;
      assert (c - {k}).Keys == c.Keys - {k};
      SumRemove(c, RepeatAccesses, k);
      SumRemove(c, Accesses, k);
      SumRemove(c, WasAccessed, k);
      assert CountsNonNegative(c - {k});
      HitsFromAccesses(c - {k});
      SumNonNegative(c - {k}, WasAccessed);
    }
  }

  /** The percentage written to the status, without floating-point rounding. */
  ghost function HitRate(c: Cache): real
    requires Sum(c, Accesses) > 0
  {
    Sum(c, RepeatAccesses) as real / Sum(c, Accesses) as real * 100.0
  }

  /** The sums over entries: all accesses, and one for each entry accessed at all. */
  lemma {:induction false} AccessesMeaning(c: Cache, ref: string, e: Entry)
    requires ref !in c
    ensures var none: Cache := map[]; Sum(none, Accesses) == 0 && Sum(none, WasAccessed) == 0
    ensures Sum(c[ref := e], Accesses) == Sum(c, Accesses) + e.accessCount
    ensures Sum(c[ref := e], WasAccessed) == Sum(c, WasAccessed) + if e.accessCount > 0 then 1 else 0
  {
    SumInsert(c, Accesses, ref, e);
    SumInsert(c, WasAccessed, ref, e);
  }

  function Accessed(c: Cache): set<string> { set r <- c | c[r].accessCount > 0 }

  lemma {:induction false} AccessedWithout(c: Cache, k: string)
    requires k in c
    ensures |Accessed(c)| == |Accessed(c - {k})| + WasAccessed(c[k])
  {
    var rest := Accessed(c - {k});
    if c[k].accessCount > 0 {
      assert Accessed(c) == rest + {k};
    } else {
      assert Accessed(c) == rest;
    }
  }

  lemma {:induction false} WasAccessedIsCount(c: Cache)
    ensures Sum(c, WasAccessed) == |Accessed(c)|
    decreases |c|
  {
    if c == map[] {
      assert Accessed(c) == {};
    } else {
      var k :| k in c;
      SizeWithout(c, k);
      SumRemove(c, WasAccessed, k);
      WasAccessedIsCount(c - {k});
      AccessedWithout(c, k);
    }
  }

  /** In per cent: of all accesses, those that were not the first of their entry. */
  lemma {:induction false} HitRateMeaning(c: Cache)
    requires CountsNonNegative(c) && Sum(c, Accesses) > 0
    ensures HitRate(c) * Sum(c, Accesses) as real
            == 100.0 * (Sum(c, Accesses) - |set r <- c | c[r].accessCount > 0|) as real
  {
    HitsFromAccesses(c);
    WasAccessedIsCount(c);
    PercentOf(Sum(c, RepeatAccesses) as real, Sum(c, Accesses) as real);
  }

  lemma PercentOf(h: real, t: real)
    requires t > 0.0
    ensures h / t * 100.0 * t == 100.0 * h
  {
    var q := h / t;
    assert q * t == h;
  }

  /** The hit rate is never negative and never reaches 100. */
  lemma {:induction false} HitRateRange(c: Cache)
    requires CountsNonNegative(c) && Sum(c, Accesses) > 0
    ensures 0.0 <= HitRate(c) < 100.0
  {
    HitsFromAccesses(c);
    var h, t := Sum(c, RepeatAccesses) as real, Sum(c, Accesses) as real;
    QuotientBelowOne(h, t);
  }

  lemma QuotientBelowOne(h: real, t: real)
    requires 0.0 <= h < t
    ensures 0.0 <= h / t < 1.0
  {
    var q := h / t;
    assert q * t == h;
    assert (1.0 - q) * t == t - h;
  }

  /** Access counts stay non-negative, so the bound on the rate holds in every reachable state. */
  lemma {:induction false} HitRateAlwaysInRange(cfg: Config, ops: seq<Op>, states: seq<Cache>)
    requires Run(cfg, ops, states)
    ensures CountsNonNegative(states[|ops|])
    ensures Sum(states[|ops|], Accesses) > 0 ==> 0.0 <= HitRate(states[|ops|]) < 100.0
  {
    var c := states[|ops|];
    forall ref | ref in c ensures Accesses(c[ref]) >= 0 {
      AccessCountsAreHits(cfg, ops, states, ref);
    }
    if Sum(c, Accesses) > 0 {
      HitRateRange(c);
    }
  }
}
