/**
 The image cache as the runtime keeps it: a mutable map of mutable entries. Each critical
 section is shown to be one step of CacheModel, so that every claim made there about runs
 is a claim about this object.
 */
module ImageCaching {
  import opened Integers
  import opened Text
  import opened MapSum
  import opened CacheModel
  import opened CacheStatistics
  import CacheCleanup

  class CachedImage {
    const imageRef: string
    const sizeBytes: int
    const cachedAt: int
    const ttl: int
    var lastAccessed: int
    var accessCount: int

    constructor (imageRef: string, entry: Entry)
      ensures this.imageRef == imageRef && Value() == entry
    {
      this.imageRef, sizeBytes, cachedAt, ttl := imageRef, entry.size, entry.cachedAt, entry.ttl;
      lastAccessed, accessCount := entry.lastAccessed, entry.accessCount;
    }

    function Value(): Entry reads this {
      Entry(sizeBytes, cachedAt, lastAccessed, accessCount, ttl)
    }
  }

  /** The published statistics. */
  datatype Status = Status(cachedImages: int, totalSizeGB: real, hitRate: real, lastCleanup: int)

  /** The published size in units of 2^30 bytes, and the rate over entries accessed at all. */
  lemma {:induction false} DescribesMeaning(status: Status, c: Cache, now: int)
    requires Describes(status, c, now) && CountsNonNegative(c)
    ensures status.lastCleanup == now && (|c| < 0x8000_0000 ==> status.cachedImages == |c|)
    ensures status.totalSizeGB * 1_073_741_824.0 == Int64(TotalSize(c)) as real
    ensures Sum(c, Accesses) > 0 ==>
      status.hitRate * Sum(c, Accesses) as real
      == 100.0 * (Sum(c, Accesses) - |set r <- c | c[r].accessCount > 0|) as real
  {
    if |c| < 0x8000_0000 {
      Int32Exact(|c|);
    }
    if Sum(c, Accesses) > 0 {
      HitRateMeaning(c);
    }
  }

  ghost predicate Describes(status: Status, c: Cache, now: int) {
    && status.cachedImages == Int32(|c|)
    && status.totalSizeGB == Int64(TotalSize(c)) as real / GIB as real
    && status.lastCleanup == now
    && (Sum(c, Accesses) > 0 ==> status.hitRate == HitRate(c) && 0.0 <= status.hitRate < 100.0)
  }

  class ImageCache {
    const enabled: bool
    const config: Config
    var cachedImages: map<string, CachedImage>
    var status: Status
    ghost var contents: Cache // the same map, with the entries' values

    /** Entries are stored under their own reference and were accessed at a non-zero time. */
    ghost predicate Valid()
      reads this`cachedImages, this`contents, set r <- cachedImages :: cachedImages[r]
    {
      && ConfigInRange(config)
      && contents.Keys == cachedImages.Keys
      && forall r <- cachedImages ::
           && cachedImages[r].imageRef == r
           && cachedImages[r].Value() == contents[r]
           && cachedImages[r].lastAccessed > 0 && cachedImages[r].accessCount >= 0
    }

    constructor (enabled: bool, config: Config)
      requires ConfigInRange(config)
      ensures Valid() && contents == map[]
      ensures this.enabled == enabled && this.config == config
      ensures status.hitRate == 0.0
    {
      this.enabled, this.config := enabled, config;
      cachedImages, contents := map[], map[];
      status := Status(0, 0.0, 0.0, 0);
    }

    // -------------------------------------------------------------------------------------
    // Get, in its separate critical sections

    method Lookup(imageRef: string) returns (cached: CachedImage?)
      requires Valid()
      ensures imageRef in cachedImages <==> cached != null
      ensures imageRef in cachedImages ==> cached == cachedImages[imageRef]
    {
      cached := if imageRef in cachedImages then cachedImages[imageRef] else null;
    }

    method DropEntry(imageRef: string)
      requires Valid()
      modifies this`cachedImages, this`contents
      ensures Valid() && Step(config, Drop(imageRef), old(contents), contents)
      ensures cachedImages == old(cachedImages) - {imageRef}
    {
      cachedImages := cachedImages - {imageRef};
      contents := contents - {imageRef};
    }

    /** `cached` came from an earlier lookup and may have left the cache since. */
    method Touch(cached: CachedImage, now: int)
      requires Valid() && now > 0 && cached.accessCount >= 0
      modifies cached, this`contents
      ensures Valid()
      ensures var ref := cached.imageRef;
        if ref in cachedImages && cachedImages[ref] == cached
        then Step(config, Hit(ref, now), old(contents), contents)
        else Step(config, StaleHit, old(contents), contents)
    {
      cached.lastAccessed := now;
      cached.accessCount := cached.accessCount + 1;
      if cached.imageRef in cachedImages && cachedImages[cached.imageRef] == cached {
        contents := contents[cached.imageRef := cached.Value()];
      }
    }

    /** The three sections in a row, with nothing in between. */
    method Get(imageRef: string, now: int) returns (hit: bool)
      requires Valid() && now > 0
      modifies this`cachedImages, this`contents, set r <- cachedImages :: cachedImages[r]
      ensures Valid()
      ensures hit <==> && enabled && imageRef in old(contents)
                       && now - old(contents)[imageRef].cachedAt <= old(contents)[imageRef].ttl
      ensures hit ==> var e := old(contents)[imageRef];
        contents == old(contents)[imageRef := Entry(e.size, e.cachedAt, now, e.accessCount + 1, e.ttl)]
      ensures !hit && enabled ==> contents == old(contents) - {imageRef}
      ensures enabled ==>
        [hit] == CacheCleanup.Answer(old(contents), CacheCleanup.Timed(CacheCleanup.Get(imageRef), now))
      ensures enabled ==>
        contents == CacheCleanup.After(config, old(contents), CacheCleanup.Timed(CacheCleanup.Get(imageRef), now))
      ensures hit ==> Step(config, Hit(imageRef, now), old(contents), contents)
      ensures !hit && enabled ==> Step(config, Drop(imageRef), old(contents), contents)
      ensures !enabled ==> contents == old(contents)
    {
      if !enabled {
        return false;
      }
      var cached := Lookup(imageRef);
      if cached == null {
        assert contents - {imageRef} == contents;
        return false;
      }
      if now - cached.cachedAt > cached.ttl {
        DropEntry(imageRef);
        return false;
      }
      Touch(cached, now);
      return true;
    }

    // -------------------------------------------------------------------------------------
    // Eviction

    /** The int64 sum of the resident sizes, whatever they are. */
    method CalculateTotalSize() returns (total: int)
      requires Valid()
      ensures total == Int64(TotalSize(contents))
    {
      total := 0;
      var todo := cachedImages.Keys;
      ghost var seen: Cache := map[];
      Int64Exact(0);
      while todo != {}
        invariant todo <= cachedImages.Keys
        invariant seen == contents - todo
        invariant total == Int64(TotalSize(seen))
      {
        var ref :| ref in todo;
        var cached := cachedImages[ref];
        SumInsert(seen, SizeOf, ref, cached.Value());
        Int64Sum(TotalSize(seen), cached.sizeBytes);
        total := Int64(total + cached.sizeBytes);
        seen := seen[ref := cached.Value()];
        todo := todo - {ref};
      }
      assert contents - {} == contents;
    }

    /**
     Chooses an entry no other was accessed before and removes it, unless it is the one under the
     empty reference; does nothing to an empty cache.
     */
    method EvictOldest() returns (deleted: bool, ghost victim: Option<string>)
      requires Valid()
      modifies this`cachedImages, this`contents
      ensures Valid()
      ensures |old(cachedImages)| == 0 <==> victim.None?
      ensures victim.Some? ==> IsOldest(old(contents), victim.value)
      ensures deleted <==> victim.Some? && victim.value != ""
      ensures contents == old(contents) - Evicted(victim)
      ensures if deleted then |cachedImages| < |old(cachedImages)|
              else cachedImages == old(cachedImages) && contents == old(contents)
    {
      assert contents - {} == contents;
      if |cachedImages| == 0 {
        return false, None;
      }
      var oldestRef := OldestRef();
      victim := Some(oldestRef);
      deleted := oldestRef != "";
      if oldestRef != "" {
        SizeWithout(cachedImages, oldestRef);
        DropEntry(oldestRef);
      }
    }

    /** The scan, in any order, for an entry no other was accessed before; the zero time means none yet. */
    method OldestRef() returns (oldestRef: string)
      requires Valid() && |cachedImages| > 0
      ensures IsOldest(contents, oldestRef)
    {
      var oldestTime := 0;
      oldestRef := "";
      var todo := cachedImages.Keys;
      while todo != {}
        invariant todo <= cachedImages.Keys
        invariant todo == cachedImages.Keys ==> oldestRef == "" && oldestTime == 0
        invariant todo != cachedImages.Keys ==>
          && oldestRef in cachedImages.Keys - todo
          && oldestTime == cachedImages[oldestRef].lastAccessed
          && forall r :: r in cachedImages && r !in todo ==> oldestTime <= cachedImages[r].lastAccessed
      {
        var ref :| ref in todo;
        var cached := cachedImages[ref];
        if oldestTime == 0 || cached.lastAccessed < oldestTime {
          oldestRef := ref;
          oldestTime := cached.lastAccessed;
        }
        todo := todo - {ref};
      }
    }

    /**
     Evicts until the image fits or nothing is left. Choosing the entry under the empty reference
     makes no progress: `patience` is how often that is watched before the loop is called stuck.
     */
    method EnforceSizeLimits(newImageSize: int) returns (stuck: bool, ghost victims: seq<string>)
      requires Valid() && InInt64(newImageSize)
      modifies this`cachedImages, this`contents
      ensures Valid()
      ensures if stuck then Sticks(config, old(contents), newImageSize, victims)
              else SizePass(config, old(contents), newImageSize, victims)
      ensures contents == old(contents) - Elements(victims)
    {
      ghost var c0 := contents;
      stuck, victims := false, [];
      assert Elements(victims) == {} && c0 - {} == c0;
      var patience: nat := *;
      var over := OverBudget(newImageSize);
      while over && |cachedImages| > 0
        invariant Valid()
        invariant over <==> !Fits(config, contents, newImageSize)
        invariant Evicts(config, c0, newImageSize, victims) && contents == c0 - Elements(victims)
        decreases |cachedImages|, patience
      {
        var progress;
        progress, victims := EvictForSpace(newImageSize, c0, victims);
        if !progress {
          if patience == 0 {
            return true, victims;
          }
          patience := patience - 1;
        }
        over := OverBudget(newImageSize);
      }
    }

    method EvictForSpace(newImageSize: int, ghost c0: Cache, ghost earlier: seq<string>)
      returns (progress: bool, ghost victims: seq<string>)
      requires Valid() && |cachedImages| > 0
      requires Evicts(config, c0, newImageSize, earlier) && contents == c0 - Elements(earlier)
      requires !Fits(config, contents, newImageSize)
      modifies this`cachedImages, this`contents
      ensures Valid()
      ensures if progress then |cachedImages| < |old(cachedImages)|
              else cachedImages == old(cachedImages) && victims == earlier && IsOldest(contents, "")
      ensures Evicts(config, c0, newImageSize, victims) && contents == c0 - Elements(victims)
    {
      ghost var victim;
      progress, victim := EvictOldest();
      victims := earlier;
      if progress {
        EvictsStep(config, c0, newImageSize, earlier, victim.value);
        victims := earlier + [victim.value];
      }
    }

    /** Adds up the sizes afresh and compares, all in int64. */
    method OverBudget(newImageSize: int) returns (over: bool)
      requires Valid() && InInt64(newImageSize)
      ensures over <==> !Fits(config, contents, newImageSize)
      ensures over <==> Int64(Int64(TotalSize(contents)) + newImageSize) > config.cacheSizeGB * 1_073_741_824
    {
      var currentSize := CalculateTotalSize();
      var maxSizeBytes := Int64(config.cacheSizeGB * GIB);
      over := Int64(currentSize + newImageSize) > maxSizeBytes;
      Int64Exact(Budget(config));
    }

    // -------------------------------------------------------------------------------------
    // Put, Prepull, Invalidate and the cleanup

    /**
     A Put whose size pass is stuck never returns: the contents are what it has come to, with the
     lock held. Otherwise the image is stored, for 168 hours unless configured; what was evicted was
     accessed no later than what was kept; the budget of 2^30 bytes per unit is kept; and nothing is
     evicted when there was room for the image in bytes and in number.
     */
    method Put(imageRef: string, sizeBytes: int, now: int) returns (stuck: bool, ghost victims: seq<string>)
      requires Valid() && InInt64(sizeBytes) && now > 0
      modifies this`cachedImages, this`contents, this`status
      ensures Valid()
      ensures !enabled ==> !stuck && contents == old(contents)
      ensures enabled && !stuck ==>
        Step(config, CacheModel.Put(imageRef, sizeBytes, now), old(contents), contents) && StatusOf(now)
      ensures stuck ==> enabled && Sticks(config, old(contents), sizeBytes, victims)
                        && contents == old(contents) - Elements(victims)
      ensures enabled && !stuck ==>
        && imageRef in contents
        && contents[imageRef] == Entry(sizeBytes, now, now, 1, if config.ttl.Some? then config.ttl.value
                                                               else 604_800_000_000_000)
      ensures enabled && !stuck ==>
        forall r <- contents :: r != imageRef ==> r in old(contents) && contents[r] == old(contents)[r]
      ensures enabled && !stuck ==>
        forall v, s :: v in old(contents) && v !in contents && s in old(contents) && s in contents && s != imageRef
          ==> old(contents)[v].lastAccessed <= old(contents)[s].lastAccessed
      ensures (&& !stuck && (forall r <- old(contents) :: old(contents)[r].size >= 0)
               && TotalSize(old(contents)) <= config.cacheSizeGB * 1_073_741_824
               && 0 <= sizeBytes <= config.cacheSizeGB * 1_073_741_824)
              ==> TotalSize(contents) <= config.cacheSizeGB * 1_073_741_824
      ensures (&& enabled && (forall r <- old(contents) :: old(contents)[r].size >= 0)
               && sizeBytes >= 0 && TotalSize(old(contents)) + sizeBytes <= config.cacheSizeGB * 1_073_741_824
               && |old(contents)| < config.maxCachedImages)
              ==> !stuck && contents.Keys == old(contents).Keys + {imageRef}
      ensures enabled && !stuck ==> status.totalSizeGB * 1_073_741_824.0 == Int64(TotalSize(contents)) as real
      ensures "" !in old(contents) ==> !stuck
      ensures WithinBudget(config, old(contents)) && 0 <= sizeBytes <= Budget(config) ==>
        Fits(config, old(contents) - Older(old(contents)), sizeBytes) ==> !stuck
    {
      victims := [];
      if !enabled {
        return false, victims;
      }
      var ttl := if config.ttl.None? then WEEK else config.ttl.value;
      stuck, victims := EnforceSizeLimits(sizeBytes);
      if stuck {
        NeverStuck(old(contents), sizeBytes, victims);
        return;
      }
      ghost var more := EnforceCountLimit();
      Insert(imageRef, Entry(sizeBytes, now, now, 1, ttl));
      assert PutBy(config, imageRef, sizeBytes, now, old(contents), contents, victims, more);
      UpdateStatus(now);
      PutStored(old(contents), imageRef, sizeBytes, now, contents);
    }

    /** When the size pass is stuck. */
    lemma {:induction false} NeverStuck(c: Cache, size: int, victims: seq<string>)
      requires ConfigInRange(config) && Sticks(config, c, size, victims)
      ensures "" in c
      ensures WithinBudget(config, c) && 0 <= size <= Budget(config) ==> !Fits(config, c - Older(c), size)
      ensures (forall r <- c :: c[r].size >= 0) && size >= 0 && |c| < config.maxCachedImages
              ==> TotalSize(c) + size > config.cacheSizeGB * 1_073_741_824
    {
      if WithinBudget(config, c) && 0 <= size <= Budget(config) {
        SizePassSticksIff(config, c, size);
      }
      if CacheCleanup.Roomy(config, c, size) {
        CacheCleanup.RoomyNeverSticks(config, c, size, victims);
      }
    }

    /** What was stored and what was kept, in numbers. */
    lemma {:induction false} PutStored(c: Cache, ref: string, size: int, now: int, c': Cache)
      requires ConfigInRange(config) && PutStep(config, ref, size, now, c, c')
      ensures ref in c'
      ensures c'[ref] == Entry(size, now, now, 1, if config.ttl.Some? then config.ttl.value else 604_800_000_000_000)
      ensures forall r <- c' :: r != ref ==> r in c && c'[r] == c[r]
      ensures forall v, s :: v in c && v !in c' && s in c && s in c' && s != ref
                             ==> c[v].lastAccessed <= c[s].lastAccessed
      ensures (&& (forall r <- c :: c[r].size >= 0) && TotalSize(c) <= config.cacheSizeGB * 1_073_741_824
               && 0 <= size <= config.cacheSizeGB * 1_073_741_824)
              ==> TotalSize(c') <= config.cacheSizeGB * 1_073_741_824
      ensures (&& (forall r <- c :: c[r].size >= 0) && size >= 0
               && TotalSize(c) + size <= config.cacheSizeGB * 1_073_741_824 && |c| < config.maxCachedImages)
              ==> c'.Keys == c.Keys + {ref}
    {
      PutMeaning(config, ref, size, now, c, c');
      PutLimits(config, ref, size, now, c, c');
      forall v, s | v in c && v !in c' && s in c && s in c' && s != ref
        ensures c[v].lastAccessed <= c[s].lastAccessed
      {
        PutLeavesRecent(config, ref, size, now, c, c', v, s);
      }
      if && (forall r <- c :: c[r].size >= 0) && size >= 0
         && TotalSize(c) + size <= config.cacheSizeGB * 1_073_741_824 && |c| < config.maxCachedImages
      {
        CacheCleanup.RoomyPutInNumbers(config, ref, size, now, c, c');
      }
    }

    method EnforceCountLimit() returns (ghost victim: Option<string>)
      requires Valid()
      modifies this`cachedImages, this`contents
      ensures Valid()
      ensures CountPass(config, old(contents), victim)
      ensures contents == old(contents) - Evicted(victim)
    {
      victim := None;
      assert |cachedImages| == |contents| by { assert cachedImages.Keys == contents.Keys; }
      assert contents - {} == contents;
      if Int32(|cachedImages|) >= config.maxCachedImages {
        var deleted;
        deleted, victim := EvictOldest();
      }
    }

    method Insert(imageRef: string, entry: Entry)
      requires Valid() && entry.lastAccessed > 0 && entry.accessCount >= 0
      modifies this`cachedImages, this`contents
      ensures Valid() && contents == old(contents)[imageRef := entry]
    {
      var image := new CachedImage(imageRef, entry);
      cachedImages := cachedImages[imageRef := image];
      contents := contents[imageRef := entry];
    }

    /** One image of a Prepull: the lock is taken and released per image. */
    method PrepullOne(imageRef: string, now: int)
      requires Valid() && now > 0
      modifies this`cachedImages, this`contents
      ensures Valid()
      ensures imageRef in old(contents) ==> contents == old(contents)
      ensures imageRef !in old(contents) ==>
        contents == old(contents)[imageRef := Entry(0, now, now, 0, if config.ttl.Some? && config.ttl.value != 0
                                                                    then config.ttl.value else 604_800_000_000_000)]
      ensures imageRef in old(contents) ==> Step(config, PrepullKnown(imageRef), old(contents), contents)
      ensures imageRef !in old(contents) ==> Step(config, CacheModel.Prepull(imageRef, now), old(contents), contents)
      ensures contents
              == CacheCleanup.After(config, old(contents), CacheCleanup.Timed(CacheCleanup.Pull(imageRef), now))
    {
      if imageRef !in cachedImages {
        var ttl := if config.ttl.None? then 0 else config.ttl.value;
        if ttl == 0 {
          ttl := WEEK;
        }
        Insert(imageRef, Entry(0, now, now, 0, ttl));
      }
    }

    method Prepull(imageRefs: seq<string>, now: int)
      requires Valid() && now > 0
      modifies this`cachedImages, this`contents
      ensures Valid()
      ensures !enabled ==> contents == old(contents)
      ensures enabled ==> contents == Prepulled(config, old(contents), imageRefs, now)
      ensures enabled ==> contents.Keys == old(contents).Keys + set r <- imageRefs
      ensures forall r <- old(contents) :: contents[r] == old(contents)[r]
      ensures forall r <- contents :: r !in old(contents) ==>
        contents[r] == Entry(0, now, now, 0, if config.ttl.Some? && config.ttl.value != 0
                                             then config.ttl.value else 604_800_000_000_000)
    {
      if !enabled {
        return;
      }
      for i := 0 to |imageRefs|
        invariant Valid()
        invariant contents == Prepulled(config, old(contents), imageRefs[..i], now)
      {
        assert imageRefs[..i + 1][..i] == imageRefs[..i];
        PrepullOne(imageRefs[i], now);
      }
      assert imageRefs[..|imageRefs|] == imageRefs;
      PrepulledMeaning(config, old(contents), imageRefs, now);
    }

    method Invalidate(imageRef: string, now: int)
      requires Valid()
      modifies this`cachedImages, this`contents, this`status
      ensures Valid() && Step(config, Drop(imageRef), old(contents), contents) && StatusOf(now)
      ensures contents == old(contents) - {imageRef}
    {
      DropEntry(imageRef);
      UpdateStatus(now);
    }

    method CleanupExpired(now: int)
      requires Valid()
      modifies this`cachedImages, this`contents, this`status
      ensures Valid() && Step(config, Cleanup(now), old(contents), contents) && StatusOf(now)
      ensures contents == map r <- old(contents) | now - old(contents)[r].cachedAt <= old(contents)[r].ttl
                          :: old(contents)[r]
    {
      RemoveExpired(now);
      UpdateStatus(now);
    }

    method RemoveExpired(now: int)
      requires Valid()
      modifies this`cachedImages, this`contents
      ensures Valid() && contents == Live(old(contents), now)
    {
      var todo := cachedImages.Keys;
      while todo != {}
        invariant todo <= cachedImages.Keys <= old(cachedImages.Keys)
        invariant forall r <- cachedImages :: cachedImages[r] == old(cachedImages)[r]
        invariant contents == old(contents)
        invariant forall r <- contents :: r in cachedImages <==> r in todo || !Expired(contents[r], now)
      {
        var ref :| ref in todo;
        var cached := cachedImages[ref];
        if now - cached.cachedAt > cached.ttl {
          cachedImages := cachedImages - {ref};
        }
        todo := todo - {ref};
      }
      contents := Live(contents, now);
    }

    // -------------------------------------------------------------------------------------
    // Statistics

    /** The status describes the contents. The hit rate is left alone while nothing was accessed. */
    ghost predicate StatusOf(now: int)
      reads this`status, this`contents
    {
      Describes(status, contents, now)
    }

    method UpdateStatus(now: int)
      requires Valid()
      modifies this`status
      ensures Valid() && contents == old(contents)
      ensures StatusOf(now)
      ensures status.lastCleanup == now && (|contents| < 0x8000_0000 ==> status.cachedImages == |contents|)
      ensures status.totalSizeGB * 1_073_741_824.0 == Int64(TotalSize(contents)) as real
      ensures Sum(contents, Accesses) <= 0 ==> status.hitRate == old(status.hitRate)
    {
      status := ComputeStatus(now);
      DescribesMeaning(status, contents, now);
    }

    method ComputeStatus(now: int) returns (next: Status)
      requires Valid()
      ensures Describes(next, contents, now)
      ensures Sum(contents, Accesses) <= 0 ==> next.hitRate == status.hitRate
    {
      var size := CalculateTotalSize();
      var totalAccesses, cacheHits := CountAccesses();
      var hitRate := NextHitRate(status.hitRate, totalAccesses, cacheHits);
      next := Status(Int32(|cachedImages|), size as real / GIB as real, hitRate, now);
      assert contents.Keys == cachedImages.Keys;
    }

    /** The new rate, or the previous one while nothing was accessed. */
    method NextHitRate(previous: real, totalAccesses: int, cacheHits: int) returns (rate: real)
      requires Valid()
      requires totalAccesses == Sum(contents, Accesses) && cacheHits == Sum(contents, RepeatAccesses)
      ensures totalAccesses > 0 ==> rate == HitRate(contents) && 0.0 <= rate < 100.0
      ensures totalAccesses <= 0 ==> rate == previous
    {
      rate := previous;
      if totalAccesses > 0 {
        HitRateRange(contents);
        rate := cacheHits as real / totalAccesses as real * 100.0;
      }
    }

    method CountAccesses() returns (totalAccesses: int, cacheHits: int)
      requires Valid()
      ensures totalAccesses == Sum(contents, Accesses)
      ensures cacheHits == Sum(contents, RepeatAccesses)
    {
      totalAccesses, cacheHits := 0, 0;
      var todo := cachedImages.Keys;
      ghost var seen: Cache := map[];
      while todo != {}
        invariant todo <= cachedImages.Keys
        invariant seen == contents - todo
        invariant totalAccesses == Sum(seen, Accesses)
        invariant cacheHits == Sum(seen, RepeatAccesses)
      {
        var ref :| ref in todo;
        var cached := cachedImages[ref];
        SumInsert(seen, Accesses, ref, cached.Value());
        SumInsert(seen, RepeatAccesses, ref, cached.Value());
        totalAccesses := totalAccesses + cached.accessCount;
        if cached.accessCount > 1 {
          cacheHits := cacheHits + cached.accessCount - 1;
        }
        seen := seen[ref := cached.Value()];
        todo := todo - {ref};
      }
      assert contents - {} == contents;
    }
  }
}
