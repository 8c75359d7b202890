/**
 The image cache on values: which states an operation may lead to, and what therefore holds
 in every reachable state. Map iteration order makes eviction a relation: among entries
 accessed at the same time any may go first.
 */
module CacheModel {
  import opened Integers
  import opened Text
  import opened MapSum

  datatype Entry = Entry(size: int, cachedAt: int, lastAccessed: int, accessCount: int, ttl: int)
  type Cache = map<string, Entry>

  /** `ttl` is the configured duration, or None when it does not parse. */
  datatype Config = Config(cacheSizeGB: int, maxCachedImages: int, ttl: Option<int>)

  const WEEK := 604_800_000_000_000 // 168 hours in nanoseconds
  const GIB := 1024 * 1024 * 1024

  /** The configuration fields are 32-bit integers. */
  predicate ConfigInRange(cfg: Config) {
    -TWO31 <= cfg.cacheSizeGB < TWO31 && -TWO31 <= cfg.maxCachedImages < TWO31
  }

  function PutTTL(cfg: Config): int {
    if cfg.ttl.None? then WEEK else cfg.ttl.value
  }

  function PrepullTTL(cfg: Config): int {
    if cfg.ttl.None? || cfg.ttl.value == 0 then WEEK else cfg.ttl.value
  }

  // ---------------------------------------------------------------------------------------
  // Sizes

  const SizeOf: Entry -> int := (e: Entry) => e.size

  ghost function TotalSize(c: Cache): int { Sum(c, SizeOf) }

  function Budget(cfg: Config): int { cfg.cacheSizeGB * GIB }

  /** The loop's test, in int64 arithmetic. */
  ghost predicate Fits(cfg: Config, c: Cache, size: int) {
    Int64(Int64(TotalSize(c)) + size) <= Int64(Budget(cfg))
  }

  /** Sizes are non-negative and add up to at most the budget. */
  ghost predicate WithinBudget(cfg: Config, c: Cache) {
    NonNegative(c, SizeOf) && TotalSize(c) <= Budget(cfg)
  }

  /** The budget in bytes: 2^30 for each configured unit. */
  lemma {:induction false} BudgetMeaning(cfg: Config, c: Cache)
    ensures WithinBudget(cfg, c) <==>
      (forall r <- c :: c[r].size >= 0) && TotalSize(c) <= cfg.cacheSizeGB * 1_073_741_824
  {
  }

  /** The total: nothing for an empty cache, and each entry adds its size. */
  lemma {:induction false} TotalSizeMeaning(c: Cache, ref: string, e: Entry)
    requires ref !in c
    ensures TotalSize(map[]) == 0 && TotalSize(c[ref := e]) == TotalSize(c) + e.size
  {
    SumInsert(c, SizeOf, ref, e);
  }

  /** From a state within budget no sum the eviction pass forms leaves int64, so its test is exact. */
  lemma {:induction false} NoOverflow(cfg: Config, c: Cache, size: int, gone: set<string>)
    requires ConfigInRange(cfg) && WithinBudget(cfg, c)
    requires 0 <= size <= Budget(cfg)
    ensures InInt64(Budget(cfg)) && InInt64(TotalSize(c - gone)) && InInt64(TotalSize(c - gone) + size)
    ensures Fits(cfg, c - gone, size) <==> TotalSize(c - gone) + size <= Budget(cfg)
  {
    SumSubmap(c, SizeOf, gone);
    var total := TotalSize(c - gone);
    Int64Exact(total);
    Int64Exact(total + size);
    Int64Exact(Budget(cfg));
  }

  // ---------------------------------------------------------------------------------------
  // Least recently used eviction

  ghost predicate IsOldest(c: Cache, ref: string) {
    ref in c && forall r <- c :: c[ref].lastAccessed <= c[r].lastAccessed
  }

  function Elements(refs: seq<string>): set<string> { set r <- refs }

  /**
   Victims in order: each was an oldest entry of what was left, and what was left did not fit. An
   entry under the empty reference is never one: that reference means that nothing was chosen.
   */
  ghost predicate Evicts(cfg: Config, c: Cache, size: int, victims: seq<string>) {
    victims == [] ||
    var earlier := victims[..|victims| - 1];
    var left := c - Elements(earlier);
    && Evicts(cfg, c, size, earlier)
    && !Fits(cfg, left, size)
    && IsOldest(left, victims[|victims| - 1]) && victims[|victims| - 1] != ""
  }

  /** The size pass evicts until the first state that fits or is empty. */
  ghost predicate SizePass(cfg: Config, c: Cache, size: int, victims: seq<string>) {
    && Evicts(cfg, c, size, victims)
    && (Fits(cfg, c - Elements(victims), size) || c - Elements(victims) == map[])
  }

  /** The count pass chooses one oldest entry when the limit is reached, and otherwise none. */
  ghost predicate CountPass(cfg: Config, c: Cache, victim: Option<string>) {
    if Int32(|c|) >= cfg.maxCachedImages && c != map[]
    then victim.Some? && IsOldest(c, victim.value)
    else victim.None?
  }

  /** What goes when an entry is chosen: nothing if it is the one under the empty reference. */
  function Evicted(victim: Option<string>): set<string> {
    if victim.Some? && victim.value != "" then {victim.value} else {}
  }

  lemma {:induction false} EvictsStep(cfg: Config, c: Cache, size: int, victims: seq<string>, v: string)
    requires Evicts(cfg, c, size, victims)
    requires !Fits(cfg, c - Elements(victims), size) && IsOldest(c - Elements(victims), v) && v != ""
    ensures Evicts(cfg, c, size, victims + [v])
    ensures c - Elements(victims + [v]) == c - Elements(victims) - {v}
  {
    assert (victims + [v])[..|victims|] == victims;
    assert Elements(victims + [v]) == Elements(victims) + {v};
  }

  /** Victims are distinct resident entries, and each was accessed no later than every survivor. */
  lemma {:induction false} VictimsAreLeastRecent(cfg: Config, c: Cache, size: int, victims: seq<string>)
    requires Evicts(cfg, c, size, victims)
    ensures Elements(victims) <= c.Keys && |Elements(victims)| == |victims| && "" !in victims
    ensures forall v <- Elements(victims), s <- (c - Elements(victims)).Keys ::
              c[v].lastAccessed <= c[s].lastAccessed
  {
    if victims != [] {
      var n := |victims| - 1;
      var earlier, last := victims[..n], victims[n];
      VictimsAreLeastRecent(cfg, c, size, earlier);
      assert Elements(victims) == Elements(earlier) + {last};
      forall v <- Elements(victims), s <- (c - Elements(victims)).Keys
        ensures c[v].lastAccessed <= c[s].lastAccessed
      {
        assert s in c - Elements(earlier);
        if v in Elements(earlier) {
          assert c[v].lastAccessed <= c[s].lastAccessed;
        }
      }
    }
  }

  /** No victim is unnecessary: had the pass stopped before it, the new image would not have fit. */
  lemma {:induction false} EveryVictimWasNeeded(cfg: Config, c: Cache, size: int, victims: seq<string>, i: nat)
    requires Evicts(cfg, c, size, victims) && i < |victims|
    ensures !Fits(cfg, c - Elements(victims[..i]), size)
    ensures IsOldest(c - Elements(victims[..i]), victims[i])
    decreases |victims|
  {
    var n := |victims| - 1;
    if i < n {
      EveryVictimWasNeeded(cfg, c, size, victims[..n], i);
      assert victims[..n][..i] == victims[..i];
    }
  }

  lemma {:induction false} FirstVictimWasNeeded(cfg: Config, c: Cache, size: int, victims: seq<string>)
    requires Evicts(cfg, c, size, victims) && victims != []
    ensures !Fits(cfg, c, size) && c != map[]
  {
    EveryVictimWasNeeded(cfg, c, size, victims, 0);
    assert c - Elements(victims[..0]) == c;
  }

  lemma {:induction false} NoVictims(cfg: Config, c: Cache, size: int, victims: seq<string>)
    requires Evicts(cfg, c, size, victims) && (Fits(cfg, c, size) || c == map[])
    ensures victims == [] && c - Elements(victims) == c
  {
    if victims != [] {
      FirstVictimWasNeeded(cfg, c, size, victims);
    }
    assert c - Elements([]) == c;
  }

  // ---------------------------------------------------------------------------------------
  // Operations

  function Expired(e: Entry, now: int): bool { now - e.cachedAt > e.ttl }

  function Live(c: Cache, now: int): Cache {
    map r <- c | !Expired(c[r], now) :: c[r]
  }

  function Touched(e: Entry, now: int): Entry {
    e.(lastAccessed := now, accessCount := e.accessCount + 1)
  }

  function PutEntry(cfg: Config, size: int, now: int): Entry { Entry(size, now, now, 1, PutTTL(cfg)) }

  function PrepullEntry(cfg: Config, now: int): Entry { Entry(0, now, now, 0, PrepullTTL(cfg)) }

  /** Entries past their lifetime, and what a hit, a Put and a Prepull record; 168 hours in nanoseconds. */
  lemma {:induction false} EntryMeaning(cfg: Config, e: Entry, size: int, now: int)
    ensures Expired(e, now) <==> e.ttl < now - e.cachedAt
    ensures Touched(e, now) == Entry(e.size, e.cachedAt, now, e.accessCount + 1, e.ttl)
    ensures PutEntry(cfg, size, now)
            == Entry(size, now, now, 1, if cfg.ttl.Some? then cfg.ttl.value else 604_800_000_000_000)
    ensures PrepullEntry(cfg, now)
            == Entry(0, now, now, 0, if cfg.ttl.Some? && cfg.ttl.value != 0 then cfg.ttl.value else 604_800_000_000_000)
  {
  }

  /** The entries that remain of a cleanup. */
  lemma {:induction false} LiveMeaning(c: Cache, now: int, ref: string)
    ensures ref in Live(c, now) <==> ref in c && now - c[ref].cachedAt <= c[ref].ttl
    ensures ref in Live(c, now) ==> Live(c, now)[ref] == c[ref]
  {
  }

  /**
   One critical section. Get is two of them: a lookup, which changes nothing, and then either
   Drop or a touch; the entry looked up may be gone by then (StaleHit). Prepull locks per image.
   */
  datatype Op =
    | Hit(ref: string, now: int)
    | StaleHit
    | Drop(ref: string)
    | Put(ref: string, size: int, now: int)
    | Prepull(ref: string, now: int)
    | PrepullKnown(ref: string)
    | Cleanup(now: int)

  ghost predicate PutBy(cfg: Config, ref: string, size: int, now: int, c: Cache, c': Cache,
                        victims: seq<string>, more: Option<string>)
  {
    && SizePass(cfg, c, size, victims)
    && CountPass(cfg, c - Elements(victims), more)
    && c' == (c - Elements(victims) - Evicted(more))[ref := PutEntry(cfg, size, now)]
  }

  ghost predicate PutStep(cfg: Config, ref: string, size: int, now: int, c: Cache, c': Cache) {
    exists victims, more :: PutBy(cfg, ref, size, now, c, c', victims, more)
  }

  ghost predicate Step(cfg: Config, op: Op, c: Cache, c': Cache) {
    match op
    case Hit(ref, now) => ref in c && c' == c[ref := Touched(c[ref], now)]
    case StaleHit => c' == c
    case Drop(ref) => c' == c - {ref}
    case Put(ref, size, now) => PutStep(cfg, ref, size, now, c, c')
    case Prepull(ref, now) => ref !in c && c' == c[ref := PrepullEntry(cfg, now)]
    case PrepullKnown(ref) => ref in c && c' == c
    case Cleanup(now) => c' == Live(c, now)
  }

  /** A whole Prepull with nothing in between. */
  function Prepulled(cfg: Config, c: Cache, refs: seq<string>, now: int): Cache {
    if refs == [] then c else
    var d, ref := Prepulled(cfg, c, refs[..|refs| - 1], now), refs[|refs| - 1];
    if ref in d then d else d[ref := PrepullEntry(cfg, now)]
  }

  /** It adds what was missing, whatever the limits say, and leaves every resident entry alone. */
  lemma {:induction false} PrepulledMeaning(cfg: Config, c: Cache, refs: seq<string>, now: int)
    ensures var d := Prepulled(cfg, c, refs, now);
      && d.Keys == c.Keys + Elements(refs)
      && forall r <- d :: d[r] == if r in c then c[r] else PrepullEntry(cfg, now)
  {
    if refs != [] {
      var n := |refs| - 1;
      PrepulledMeaning(cfg, c, refs[..n], now);
      assert Elements(refs) == Elements(refs[..n]) + {refs[n]};
    }
  }

  /** A run from the empty cache; `states[i + 1]` follows `ops[i]`. */
  ghost predicate Run(cfg: Config, ops: seq<Op>, states: seq<Cache>) {
    && |states| == |ops| + 1
    && states[0] == map[]
    && forall i {:trigger ops[i]} :: 0 <= i < |ops| ==> Step(cfg, ops[i], states[i], states[i + 1])
  }

  lemma {:induction false} RunMore(cfg: Config, ops: seq<Op>, states: seq<Cache>, op: Op, c: Cache)
    requires Run(cfg, ops, states) && Step(cfg, op, states[|ops|], c)
    ensures Run(cfg, ops + [op], states + [c])
  {
  }

  lemma {:induction false} RunPrefix(cfg: Config, ops: seq<Op>, states: seq<Cache>, n: nat)
    requires Run(cfg, ops, states) && n <= |ops|
    ensures Run(cfg, ops[..n], states[..n + 1])
  {
  }

  // ---------------------------------------------------------------------------------------
  // The byte budget

  predicate AllowedSize(cfg: Config, op: Op) {
    op.Put? ==> 0 <= op.size <= Budget(cfg)
  }

  /** Adding an entry to what is left of a state within budget. */
  lemma {:induction false} SizeAfterInsert(c: Cache, gone: set<string>, ref: string, e: Entry)
    requires NonNegative(c, SizeOf) && e.size >= 0
    ensures var c' := (c - gone)[ref := e];
      && NonNegative(c', SizeOf)
      && e.size <= TotalSize(c') <= TotalSize(c - gone) + e.size
  {
    var rest := c - gone;
    SumSubmap(rest, SizeOf, {ref});
    SumInsert(rest - {ref}, SizeOf, ref, e);
    assert (rest - {ref})[ref := e] == rest[ref := e];
    SumSubmap(c, SizeOf, gone + {ref});
    assert c - (gone + {ref}) == rest - {ref};
  }

  /** When a Put of allowed size starts within budget, it ends within budget. */
  lemma {:induction false} PutKeepsBudget(cfg: Config, ref: string, size: int, now: int, c: Cache, c': Cache)
    requires ConfigInRange(cfg) && WithinBudget(cfg, c) && 0 <= size <= Budget(cfg)
    requires PutStep(cfg, ref, size, now, c, c')
    ensures WithinBudget(cfg, c')
  {
    var victims, more :| PutBy(cfg, ref, size, now, c, c', victims, more);
    var c1 := c - Elements(victims);
    NoOverflow(cfg, c, size, Elements(victims));
    SumSubmap(c, SizeOf, Elements(victims));
    assert TotalSize(c1) + size <= Budget(cfg);
    SumSubmap(c1, SizeOf, Evicted(more));
    SizeAfterInsert(c1, Evicted(more), ref, PutEntry(cfg, size, now));
  }

  /** The exact condition: a non-negative Put leaves the cache within budget iff it fits the budget itself. */
  lemma {:induction false} PutWithinBudgetIff(cfg: Config, ref: string, size: int, now: int, c: Cache, c': Cache)
    requires ConfigInRange(cfg) && WithinBudget(cfg, c) && size >= 0
    requires PutStep(cfg, ref, size, now, c, c')
    ensures WithinBudget(cfg, c') <==> size <= Budget(cfg)
  {
    if size <= Budget(cfg) {
      PutKeepsBudget(cfg, ref, size, now, c, c');
    } else {
      var victims, more :| PutBy(cfg, ref, size, now, c, c', victims, more);
      SizeAfterInsert(c - Elements(victims), Evicted(more), ref, PutEntry(cfg, size, now));
    }
  }

  /** For a size over the budget the test only passes when the int64 sum wraps. */
  lemma {:induction false} OversizedFitsIff(cfg: Config, c: Cache, size: int, gone: set<string>)
    requires ConfigInRange(cfg) && WithinBudget(cfg, c) && Budget(cfg) < size < TWO63
    ensures Fits(cfg, c - gone, size) <==> TotalSize(c - gone) + size >= TWO63
    ensures TotalSize(c - gone) <= TotalSize(c)
  {
    SumSubmap(c, SizeOf, gone);
    var total := TotalSize(c - gone);
    Int64Exact(total);
    Int64Exact(Budget(cfg));
    if total + size < TWO63 {
      Int64Exact(total + size);
    } else {
      Int64Period(total + size - TWO64);
      Int64Exact(total + size - TWO64);
    }
  }

  /**
   What a size over the budget does to the resident images, when the pass finishes: it evicts them
   all, unless the sum wraps at once; then it evicts none.
   */
  lemma {:induction false} OversizedPassIff(cfg: Config, c: Cache, size: int, victims: seq<string>)
    requires ConfigInRange(cfg) && WithinBudget(cfg, c) && Budget(cfg) < size < TWO63
    requires SizePass(cfg, c, size, victims)
    ensures if TotalSize(c) + size < TWO63 then c - Elements(victims) == map[] else victims == []
  {
    assert c - {} == c;
    OversizedFitsIff(cfg, c, size, {});
    OversizedFitsIff(cfg, c, size, Elements(victims));
    if TotalSize(c) + size >= TWO63 {
      NoVictims(cfg, c, size, victims);
    }
  }

  lemma {:induction false} StepKeepsBudget(cfg: Config, op: Op, c: Cache, c': Cache)
    requires ConfigInRange(cfg) && WithinBudget(cfg, c) && AllowedSize(cfg, op)
    requires Step(cfg, op, c, c')
    ensures WithinBudget(cfg, c')
  {
    match op
    case Hit(ref, now) => SumReplace(c, SizeOf, ref, Touched(c[ref], now));
    case StaleHit =>
    case Drop(ref) => SumSubmap(c, SizeOf, {ref});
    case Put(ref, size, now) => PutKeepsBudget(cfg, ref, size, now, c, c');
    case Prepull(ref, now) => SumInsert(c, SizeOf, ref, PrepullEntry(cfg, now));
    case PrepullKnown(ref) =>
    case Cleanup(now) =>
      var gone := set r <- c | Expired(c[r], now);
      assert Live(c, now) == c - gone;
      SumSubmap(c, SizeOf, gone);
  }

  /** The byte budget holds in every reachable state. */
  lemma {:induction false} BudgetAlwaysKept(cfg: Config, ops: seq<Op>, states: seq<Cache>)
    requires ConfigInRange(cfg) && Budget(cfg) >= 0
    requires Run(cfg, ops, states)
    requires forall op <- ops :: AllowedSize(cfg, op)
    ensures forall c <- states :: WithinBudget(cfg, c) && TotalSize(c) <= cfg.cacheSizeGB * 1_073_741_824
  {
    for i := 0 to |ops|
      invariant forall j :: 0 <= j <= i ==> WithinBudget(cfg, states[j])
    {
      StepKeepsBudget(cfg, ops[i], states[i], states[i + 1]);
    }
  }

  // ---------------------------------------------------------------------------------------
  // The empty reference

  /** Does not insert an image without a reference. */
  predicate Named(op: Op) { op.Put? || op.Prepull? ==> op.ref != "" }

  lemma {:induction false} NamedOnly(cfg: Config, ops: seq<Op>, states: seq<Cache>)
    requires Run(cfg, ops, states) && forall op <- ops :: Named(op)
    ensures "" !in states[|ops|]
    decreases |ops|
  {
    if ops != [] {
      var n := |ops| - 1;
      RunPrefix(cfg, ops, states, n);
      NamedOnly(cfg, ops[..n], states[..n + 1]);
      var op, c, c' := ops[n], states[n], states[n + 1];
      assert Named(op) && Step(cfg, op, c, c');
      if op.Put? {
        var victims, more :| PutBy(cfg, op.ref, op.size, op.now, c, c', victims, more);
      }
    }
  }

  /** The pass has come to a state that does not fit, and chooses the entry it will not delete. */
  ghost predicate Sticks(cfg: Config, c: Cache, size: int, victims: seq<string>) {
    && Evicts(cfg, c, size, victims)
    && !Fits(cfg, c - Elements(victims), size)
    && IsOldest(c - Elements(victims), "")
  }

  /** Accessed before the entry under the empty reference. */
  function Older(c: Cache): set<string> {
    set r <- c | "" in c && c[r].lastAccessed < c[""].lastAccessed
  }

  /** Accessed no later than the entry under the empty reference, and not it. */
  function NotNewer(c: Cache): set<string> {
    set r <- c | r != "" && "" in c && c[r].lastAccessed <= c[""].lastAccessed
  }

  /** What the size pass comes to in bytes: room for the image or nothing left, and no eviction when it fits at once. */
  lemma {:induction false} SizePassInBytes(cfg: Config, c: Cache, size: int, victims: seq<string>)
    requires ConfigInRange(cfg) && (SizePass(cfg, c, size, victims) || Sticks(cfg, c, size, victims))
    ensures var left := c - Elements(victims);
      || left == map[] || Sticks(cfg, c, size, victims)
      || Int64(Int64(TotalSize(left)) + size) <= cfg.cacheSizeGB * 1_073_741_824
    ensures Int64(Int64(TotalSize(c)) + size) <= cfg.cacheSizeGB * 1_073_741_824 ==>
      victims == [] && !Sticks(cfg, c, size, victims)
  {
    Int64Exact(Budget(cfg));
    if Fits(cfg, c, size) {
      NoVictims(cfg, c, size, victims);
    }
  }

  /** Within budget, dropping more entries fits whenever dropping fewer does. */
  lemma {:induction false} FitsMonotone(cfg: Config, c: Cache, size: int, gone: set<string>, more: set<string>)
    requires ConfigInRange(cfg) && WithinBudget(cfg, c) && 0 <= size <= Budget(cfg)
    requires gone <= more
    ensures Fits(cfg, c - gone, size) ==> Fits(cfg, c - more, size)
  {
    NoOverflow(cfg, c, size, gone);
    NoOverflow(cfg, c, size, more);
    SumSubmap(c - gone, SizeOf, more);
    assert c - gone - more == c - more;
  }

  /** Everything outside of `s` was accessed no earlier than anything in it. */
  ghost predicate Leading(c: Cache, s: set<string>) {
    && s <= c.Keys && "" !in s
    && forall r <- s, q <- c :: q !in s ==> c[r].lastAccessed <= c[q].lastAccessed
  }

  /** Some iteration order evicts from a leading set until the image fits or the set is used up. */
  lemma {:induction false} EvictThrough(cfg: Config, c: Cache, size: int, s: set<string>, victims: seq<string>)
    returns (all: seq<string>)
    requires Leading(c, s) && Evicts(cfg, c, size, victims) && Elements(victims) <= s
    ensures Evicts(cfg, c, size, all) && Elements(all) <= s
    ensures Fits(cfg, c - Elements(all), size) || Elements(all) == s
    decreases s - Elements(victims)
  {
    var left := c - Elements(victims);
    if Fits(cfg, left, size) || Elements(victims) == s {
      all := victims;
    } else {
      assert Elements(victims) + (s - Elements(victims)) == s;
      var v := OldestIn(c, s - Elements(victims));
      assert IsOldest(left, v);
      EvictsStep(cfg, c, size, victims, v);
      assert Elements(victims + [v]) == Elements(victims) + {v};
      all := EvictThrough(cfg, c, size, s, victims + [v]);
    }
  }

  lemma {:induction false} OldestIn(c: Cache, s: set<string>) returns (v: string)
    requires s <= c.Keys && s != {}
    ensures v in s && forall r <- s :: c[v].lastAccessed <= c[r].lastAccessed
    decreases |s|
  {
    v :| v in s;
    if s != {v} {
      var w := OldestIn(c, s - {v});
      if c[w].lastAccessed < c[v].lastAccessed {
        v := w;
      }
    }
  }

  /**
   The size pass can stick exactly when there is an entry under the empty reference and evicting
   everything older than it does not make room: then some iteration order comes to a state that does
   not fit and has that entry as its oldest, with the lock held.
   */
  lemma {:induction false} SizePassSticksIff(cfg: Config, c: Cache, size: int)
    requires ConfigInRange(cfg) && WithinBudget(cfg, c) && 0 <= size <= Budget(cfg)
    ensures (exists victims :: Sticks(cfg, c, size, victims)) <==> "" in c && !Fits(cfg, c - Older(c), size)
  {
    if victims :| Sticks(cfg, c, size, victims) {
      assert forall r <- c - Elements(victims) :: c[""].lastAccessed <= (c - Elements(victims))[r].lastAccessed;
      assert forall r <- c :: r !in Elements(victims) ==> r in c - Elements(victims);
      FitsMonotone(cfg, c, size, Older(c), Elements(victims));
    }
    if "" in c && !Fits(cfg, c - Older(c), size) {
      assert Evicts(cfg, c, size, []);
      var victims := EvictThrough(cfg, c, size, Older(c), []);
      FitsMonotone(cfg, c, size, Elements(victims), Older(c));
      assert Sticks(cfg, c, size, victims);
    }
  }

  /**
   The size pass can finish exactly when there is no such entry, or evicting everything accessed no
   later makes room. Otherwise no iteration order finishes.
   */
  lemma {:induction false} SizePassFinishesIff(cfg: Config, c: Cache, size: int)
    requires ConfigInRange(cfg) && WithinBudget(cfg, c) && 0 <= size <= Budget(cfg)
    ensures (exists victims :: SizePass(cfg, c, size, victims)) <==> "" !in c || Fits(cfg, c - NotNewer(c), size)
  {
    if victims :| SizePass(cfg, c, size, victims) {
      if "" in c {
        VictimsNotNewer(cfg, c, size, victims);
        assert "" in c - Elements(victims);
        FitsMonotone(cfg, c, size, Elements(victims), NotNewer(c));
      }
    }
    if "" !in c || Fits(cfg, c - NotNewer(c), size) {
      var s := if "" in c then NotNewer(c) else c.Keys;
      assert Evicts(cfg, c, size, []);
      var victims := EvictThrough(cfg, c, size, s, []);
      assert SizePass(cfg, c, size, victims);
    }
  }

  lemma {:induction false} VictimsNotNewer(cfg: Config, c: Cache, size: int, victims: seq<string>)
    requires Evicts(cfg, c, size, victims) && "" in c
    ensures Elements(victims) <= NotNewer(c)
  {
    VictimsAreLeastRecent(cfg, c, size, victims);
    assert "" in c - Elements(victims);
  }

  // ---------------------------------------------------------------------------------------
  // The entry count

  function Prepulls(ops: seq<Op>): nat {
    if ops == [] then 0 else Prepulls(ops[..|ops| - 1]) + if ops[|ops| - 1].Prepull? then 1 else 0
  }

  function CountLimit(cfg: Config, prepulls: nat): nat {
    prepulls + if cfg.maxCachedImages > 1 then cfg.maxCachedImages else 1
  }

  lemma {:induction false} SubmapSize(c: Cache, gone: set<string>)
    ensures |c - gone| <= |c|
    ensures gone <= c.Keys ==> |c - gone| == |c| - |gone|
  {
    assert (c - gone).Keys == c.Keys - gone;
    assert |c.Keys - gone| + |c.Keys * gone| == |c.Keys|;
    if gone <= c.Keys {
      assert c.Keys * gone == gone;
    }
  }

  lemma {:induction false} InsertSize(c: Cache, ref: string, e: Entry)
    ensures |c[ref := e]| <= |c| + 1
  {
    assert c[ref := e].Keys == c.Keys + {ref};
  }

  /** A Put keeps a count limit, unless the count pass chose the entry under the empty reference. */
  lemma {:induction false} PutKeepsCount(cfg: Config, ref: string, size: int, now: int, c: Cache, c': Cache, limit: nat)
    requires ConfigInRange(cfg) && |c| <= limit < TWO31
    requires limit >= 1 && limit >= cfg.maxCachedImages
    requires PutStep(cfg, ref, size, now, c, c') && "" !in c
    ensures |c'| <= limit
  {
    var victims, more :| PutBy(cfg, ref, size, now, c, c', victims, more);
    var c1 := c - Elements(victims);
    SubmapSize(c, Elements(victims));
    RoomAfterCountPass(cfg, c1, more, limit);
    InsertSize(c1 - Evicted(more), ref, PutEntry(cfg, size, now));
  }

  /** Exactly when the count pass leaves room for one more entry. */
  lemma {:induction false} RoomAfterCountPass(cfg: Config, c: Cache, victim: Option<string>, limit: nat)
    requires ConfigInRange(cfg) && |c| <= limit < TWO31
    requires limit >= 1 && limit >= cfg.maxCachedImages
    requires CountPass(cfg, c, victim)
    ensures |c - Evicted(victim)| < limit <==> |c| < limit || victim != Some("")
  {
    Int32Exact(|c|);
    SubmapSize(c, Evicted(victim));
  }

  /** What a Put leaves: the new entry, and of the others only ones that were there, as they were. */
  lemma {:induction false} PutMeaning(cfg: Config, ref: string, size: int, now: int, c: Cache, c': Cache)
    requires PutStep(cfg, ref, size, now, c, c')
    ensures ref in c'
    ensures c'[ref] == Entry(size, now, now, 1, if cfg.ttl.Some? then cfg.ttl.value else 604_800_000_000_000)
    ensures forall r <- c' :: r != ref ==> r in c && c'[r] == c[r]
  {
    var victims, more :| PutBy(cfg, ref, size, now, c, c', victims, more);
  }

  /** What it evicts was accessed no later than anything it keeps. */
  lemma {:induction false} PutLeavesRecent(cfg: Config, ref: string, size: int, now: int, c: Cache, c': Cache,
                                           v: string, s: string)
    requires PutStep(cfg, ref, size, now, c, c')
    requires v in c && v !in c' && s in c && s in c' && s != ref
    ensures c[v].lastAccessed <= c[s].lastAccessed
  {
    var victims, more :| PutBy(cfg, ref, size, now, c, c', victims, more);
    if v in Elements(victims) {
      VictimsAreLeastRecent(cfg, c, size, victims);
    } else {
      CountVictimIsLeastRecent(cfg, c - Elements(victims), more, v, s);
    }
  }

  lemma {:induction false} CountVictimIsLeastRecent(cfg: Config, c: Cache, victim: Option<string>, v: string, s: string)
    requires CountPass(cfg, c, victim)
    requires v in c && v in Evicted(victim) && s in c
    ensures c[v].lastAccessed <= c[s].lastAccessed
  {
  }

  /** The limits of a Put in numbers: bytes, and images when none is without a reference. */
  lemma {:induction false} PutLimits(cfg: Config, ref: string, size: int, now: int, c: Cache, c': Cache)
    requires ConfigInRange(cfg) && PutStep(cfg, ref, size, now, c, c')
    ensures (&& (forall r <- c :: c[r].size >= 0) && TotalSize(c) <= cfg.cacheSizeGB * 1_073_741_824
             && 0 <= size <= cfg.cacheSizeGB * 1_073_741_824)
            ==> (forall r <- c' :: c'[r].size >= 0) && TotalSize(c') <= cfg.cacheSizeGB * 1_073_741_824
    ensures "" !in c && 1 <= cfg.maxCachedImages && |c| <= cfg.maxCachedImages ==> |c'| <= cfg.maxCachedImages
  {
    BudgetMeaning(cfg, c);
    BudgetMeaning(cfg, c');
    if WithinBudget(cfg, c) && 0 <= size <= Budget(cfg) {
      PutKeepsBudget(cfg, ref, size, now, c, c');
    }
    if "" !in c && 1 <= cfg.maxCachedImages && |c| <= cfg.maxCachedImages {
      PutKeepsCount(cfg, ref, size, now, c, c', cfg.maxCachedImages);
    }
  }

  /**
   In every reachable state the entries number at most max(1, MaxCachedImages) plus the Prepull
   insertions, as long as no empty reference is inserted and that bound itself stays below 2^31,
   where int32(len) would wrap.
   */
  lemma {:induction false} CountAlwaysBounded(cfg: Config, ops: seq<Op>, states: seq<Cache>)
    requires ConfigInRange(cfg) && Run(cfg, ops, states)
    requires CountLimit(cfg, Prepulls(ops)) < TWO31
    requires forall op <- ops :: Named(op)
    ensures |states[|ops|]| <= CountLimit(cfg, Prepulls(ops))
    decreases |ops|
  {
    if ops != [] {
      var n := |ops| - 1;
      RunPrefix(cfg, ops, states, n);
      CountAlwaysBounded(cfg, ops[..n], states[..n + 1]);
      var c, c', limit := states[n], states[n + 1], CountLimit(cfg, Prepulls(ops));
      assert Step(cfg, ops[n], c, c');
      match ops[n]
      case Hit(ref, now) => assert c'.Keys == c.Keys;
      case StaleHit =>
      case Drop(ref) => SubmapSize(c, {ref});
      case Put(ref, size, now) =>
        NamedOnly(cfg, ops[..n], states[..n + 1]);
        PutKeepsCount(cfg, ref, size, now, c, c', limit);
      case Prepull(ref, now) => assert c'.Keys == c.Keys + {ref};
      case PrepullKnown(ref) =>
      case Cleanup(now) =>
        var gone := set r <- c | Expired(c[r], now);
        assert Live(c, now) == c - gone;
        SubmapSize(c, gone);
    }
  }
}
