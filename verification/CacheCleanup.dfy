/**
 When the background cleanup is invisible: it only removes entries that no later Get would have
 answered from anyway. Two other operations can still tell: a Prepull that finds its image resident
 and expired, and a Put that has to evict while something expired is resident.
 */
module CacheCleanup {
  import opened Integers
  import opened Text
  import opened MapSum
  import opened CacheModel

  datatype Action =
    | Get(ref: string)
    | Invalidate(ref: string)
    | Pull(ref: string)
    | Store(ref: string, size: int)
    | Clean

  datatype Timed = Timed(action: Action, at: int)

  /** All actions but a Put have one outcome. */
  function After(cfg: Config, c: Cache, t: Timed): Cache
    requires !t.action.Store?
  {
    match t.action
    case Get(ref) =>
      if ref !in c then c
      else if Expired(c[ref], t.at) then c - {ref}
      else c[ref := Touched(c[ref], t.at)]
    case Invalidate(ref) => c - {ref}
    case Pull(ref) => if ref in c then c else c[ref := PrepullEntry(cfg, t.at)]
    case Clean => Live(c, t.at)
  }

  /** A Put has one for each eviction order, and none when its size pass is stuck. */
  ghost predicate StepAt(cfg: Config, c: Cache, t: Timed, c': Cache) {
    if t.action.Store? then PutStep(cfg, t.action.ref, t.action.size, t.at, c, c') else c' == After(cfg, c, t)
  }

  predicate Hits(c: Cache, ref: string, at: int) { ref in c && !Expired(c[ref], at) }

  /** What an action answers: only a Get does. */
  function Answer(c: Cache, t: Timed): seq<bool> {
    if t.action.Get? then [Hits(c, t.action.ref, t.at)] else []
  }

  /** Some execution of the run gives these answers. */
  ghost predicate Answered(cfg: Config, c: Cache, run: seq<Timed>, answers: seq<bool>)
    decreases |run|
  {
    if run == [] then answers == [] else
    && Answer(c, run[0]) <= answers
    && exists c' :: StepAt(cfg, c, run[0], c') && Answered(cfg, c', run[1..], answers[|Answer(c, run[0])|..])
  }

  function WithoutCleanup(run: seq<Timed>): seq<Timed> {
    if run == [] then []
    else (if run[0].action.Clean? then [] else [run[0]]) + WithoutCleanup(run[1..])
  }

  predicate Monotone(run: seq<Timed>) {
    forall i, j :: 0 <= i < j < |run| ==> run[i].at <= run[j].at
  }

  /** It is a homomorphism that leaves out the cleanups and keeps every other action. */
  lemma {:induction false} WithoutCleanupMeaning(a: seq<Timed>, t: Timed, b: seq<Timed>)
    ensures WithoutCleanup(a + b) == WithoutCleanup(a) + WithoutCleanup(b)
    ensures WithoutCleanup([t]) == if t.action.Clean? then [] else [t]
    decreases |a|
  {
    if a == [] {
      assert a + b == b;
    } else {
      assert (a + b)[1..] == a[1..] + b;
      WithoutCleanupMeaning(a[1..], t, b);
    }
  }

  /** Only a Get answers: whether its image is resident and within its lifetime. */
  lemma {:induction false} AnswerMeaning(c: Cache, t: Timed)
    ensures t.action.Get? ==>
      Answer(c, t) == [t.action.ref in c && t.at - c[t.action.ref].cachedAt <= c[t.action.ref].ttl]
    ensures !t.action.Get? ==> Answer(c, t) == []
  {
  }

  // ---------------------------------------------------------------------------------------
  // A Put that evicts nothing

  /** There is room in bytes and in number, or nothing to evict. */
  ghost predicate Roomy(cfg: Config, c: Cache, size: int) {
    || c == map[]
    || (&& NonNegative(c, SizeOf) && size >= 0 && TotalSize(c) + size <= Budget(cfg)
        && |c| < cfg.maxCachedImages)
  }

  lemma {:induction false} RoomyMeaning(cfg: Config, c: Cache, size: int)
    ensures Roomy(cfg, c, size) <==>
      || c == map[]
      || (&& (forall r <- c :: c[r].size >= 0) && size >= 0 && |c| < cfg.maxCachedImages
          && TotalSize(c) + size <= cfg.cacheSizeGB * 1_073_741_824)
  {
  }

  lemma {:induction false} RoomyFits(cfg: Config, c: Cache, size: int)
    requires ConfigInRange(cfg) && Roomy(cfg, c, size) && c != map[]
    ensures Fits(cfg, c, size) && Int32(|c|) < cfg.maxCachedImages
  {
    SumNonNegative(c, SizeOf);
    Int64Exact(TotalSize(c));
    Int64Exact(TotalSize(c) + size);
    Int64Exact(Budget(cfg));
    Int32Exact(|c|);
  }

  /** With room, a Put inserts its image and evicts nothing, whatever the order. */
  lemma {:induction false} RoomyPut(cfg: Config, ref: string, size: int, now: int, c: Cache, c': Cache)
    requires ConfigInRange(cfg) && Roomy(cfg, c, size)
    ensures PutStep(cfg, ref, size, now, c, c') <==> c' == c[ref := PutEntry(cfg, size, now)]
  {
    assert c - Elements([]) == c && c - Evicted(None) == c;
    if c != map[] {
      RoomyFits(cfg, c, size);
    }
    if victims, more :| PutBy(cfg, ref, size, now, c, c', victims, more) {
      NothingEvicted(cfg, c, size, victims, more);
    }
    if c' == c[ref := PutEntry(cfg, size, now)] {
      assert Evicts(cfg, c, size, []);
      assert PutBy(cfg, ref, size, now, c, c', [], None);
    }
  }

  /** In numbers: when the image fits and is one more than allowed at most, everything else stays. */
  lemma {:induction false} RoomyPutInNumbers(cfg: Config, ref: string, size: int, now: int, c: Cache, c': Cache)
    requires ConfigInRange(cfg) && PutStep(cfg, ref, size, now, c, c')
    requires (forall r <- c :: c[r].size >= 0) && size >= 0
    requires TotalSize(c) + size <= cfg.cacheSizeGB * 1_073_741_824 && |c| < cfg.maxCachedImages
    ensures c' == c[ref := PutEntry(cfg, size, now)] && c'.Keys == c.Keys + {ref}
  {
    RoomyMeaning(cfg, c, size);
    RoomyPut(cfg, ref, size, now, c, c');
  }

  /** Nor can its size pass stick. */
  lemma {:induction false} RoomyNeverSticks(cfg: Config, c: Cache, size: int, victims: seq<string>)
    requires ConfigInRange(cfg) && Roomy(cfg, c, size)
    ensures !Sticks(cfg, c, size, victims)
  {
    if Sticks(cfg, c, size, victims) {
      if c != map[] {
        RoomyFits(cfg, c, size);
      }
      NoVictims(cfg, c, size, victims);
    }
  }

  lemma {:induction false} NothingEvicted(cfg: Config, c: Cache, size: int, victims: seq<string>, more: Option<string>)
    requires ConfigInRange(cfg) && Roomy(cfg, c, size)
    requires SizePass(cfg, c, size, victims) && CountPass(cfg, c - Elements(victims), more)
    ensures victims == [] && more == None && c - Elements(victims) - Evicted(more) == c
  {
    if c != map[] {
      RoomyFits(cfg, c, size);
    }
    NoVictims(cfg, c, size, victims);
    assert c - {} == c;
  }

  // ---------------------------------------------------------------------------------------
  // Caches that differ in what is expired

  /** Two caches that agree on what is live at `now`. */
  predicate SameLive(c: Cache, d: Cache, now: int) {
    Live(c, now) == Live(d, now)
  }

  lemma {:induction false} SameLiveLookup(c: Cache, d: Cache, now: int, ref: string)
    requires SameLive(c, d, now)
    ensures Hits(c, ref, now) <==> Hits(d, ref, now)
    ensures Hits(c, ref, now) ==> c[ref] == d[ref]
  {
    assert ref in Live(c, now) <==> ref in c && !Expired(c[ref], now);
    assert ref in Live(d, now) <==> ref in d && !Expired(d[ref], now);
    assert ref in Live(c, now) ==> Live(c, now)[ref] == c[ref] && Live(d, now)[ref] == d[ref];
  }

  lemma {:induction false} SameLiveLookupFails(c: Cache, d: Cache, now: int, ref: string)
    requires Hits(c, ref, now) != Hits(d, ref, now)
    ensures !SameLive(c, d, now)
  {
    if SameLive(c, d, now) {
      SameLiveLookup(c, d, now, ref);
    }
  }

  /**
   `c` is `d` after some cleanups: the same live entries, and perhaps fewer expired ones, or an empty
   one that was prepulled with a lifetime that is negative.
   */
  ghost predicate Cleaner(c: Cache, d: Cache, now: int) {
    && SameLive(c, d, now)
    && forall r <- c ::
         && r in d
         && (c[r] == d[r] || (Expired(c[r], now) && Expired(d[r], now) && c[r].size == 0))
  }

  lemma {:induction false} CleanerLater(c: Cache, d: Cache, now: int, later: int)
    requires Cleaner(c, d, now) && now <= later
    ensures Cleaner(c, d, later)
  {
    forall ref ensures ref in Live(c, later) <==> ref in Live(d, later)
               ensures ref in Live(c, later) ==> c[ref] == d[ref]
    {
      SameLiveLookup(c, d, now, ref);
    }
  }

  lemma {:induction false} CleanerAfterClean(c: Cache, d: Cache, now: int)
    requires Cleaner(c, d, now)
    ensures Cleaner(Live(c, now), d, now)
  {
    assert Live(Live(c, now), now) == Live(c, now);
  }

  /** When nothing expired is resident, there was nothing to clean. */
  lemma {:induction false} NothingToClean(c: Cache, d: Cache, now: int)
    requires Cleaner(c, d, now) && forall r <- d :: !Expired(d[r], now)
    ensures c == d
  {
    forall r <- d ensures r in c && c[r] == d[r] {
      SameLiveLookup(c, d, now, r);
    }
  }

  /** Where there is room, there is room after a cleanup. */
  lemma {:induction false} CleanerIsRoomier(cfg: Config, c: Cache, d: Cache, now: int, size: int)
    requires Cleaner(c, d, now) && Roomy(cfg, d, size)
    ensures Roomy(cfg, c, size)
  {
    if c != map[] {
      var k :| k in c;
      assert k in d;
      SumPointwise(c, d, SizeOf);
      assert c.Keys <= d.Keys;
      SizeAtMost(c.Keys, d.Keys);
    }
  }

  // ---------------------------------------------------------------------------------------
  // Who can tell

  /** Something expired is resident. */
  predicate Stale(c: Cache, now: int) { exists r <- c :: Expired(c[r], now) }

  /**
   A Prepull that an expired entry keeps from inserting one that would be live, or a Put that may
   evict, with something expired in the way.
   */
  ghost predicate Notices(cfg: Config, c: Cache, t: Timed) {
    match t.action
    case Pull(ref) => ref in c && Expired(c[ref], t.at) && PrepullTTL(cfg) >= 0
    case Store(_, size) => Stale(c, t.at) && !Roomy(cfg, c, size)
    case _ => false
  }

  /** In numbers: which Prepulls and Puts notice; no Get, Invalidate or cleanup does. */
  lemma {:induction false} NoticesMeaning(cfg: Config, c: Cache, ref: string, size: int, now: int)
    ensures Notices(cfg, c, Timed(Pull(ref), now)) <==>
      ref in c && now - c[ref].cachedAt > c[ref].ttl && (cfg.ttl.None? || cfg.ttl.value >= 0)
    ensures Notices(cfg, c, Timed(Store(ref, size), now)) <==>
      && (exists r <- c :: now - c[r].cachedAt > c[r].ttl)
      && ((exists r <- c :: c[r].size < 0) || size < 0 || |c| >= cfg.maxCachedImages
          || TotalSize(c) + size > cfg.cacheSizeGB * 1_073_741_824)
    ensures !Notices(cfg, c, Timed(Get(ref), now)) && !Notices(cfg, c, Timed(Invalidate(ref), now))
    ensures !Notices(cfg, c, Timed(Clean, now))
  {
    RoomyMeaning(cfg, c, size);
  }

  /** No action notices, in any execution of the run. */
  ghost predicate NeverNotices(cfg: Config, c: Cache, run: seq<Timed>)
    decreases |run|
  {
    run != [] ==>
      && !Notices(cfg, c, run[0])
      && forall c' :: StepAt(cfg, c, run[0], c') ==> NeverNotices(cfg, c', run[1..])
  }

  /** Any action with one outcome, unless it notices in the cache without the cleanups. */
  lemma {:induction false} CleanerAfter(cfg: Config, c: Cache, d: Cache, t: Timed)
    requires Cleaner(c, d, t.at) && !Notices(cfg, d, t) && !t.action.Store?
    ensures Cleaner(After(cfg, c, t), After(cfg, d, t), t.at)
  {
    var c', d' := After(cfg, c, t), After(cfg, d, t);
    if !t.action.Clean? {
      SameLiveLookup(c, d, t.at, t.action.ref);
    }
    forall ref ensures ref in Live(c', t.at) <==> ref in Live(d', t.at)
               ensures ref in Live(c', t.at) ==> c'[ref] == d'[ref]
    {
      SameLiveLookup(c, d, t.at, ref);
    }
  }

  lemma {:induction false} CleanerAfterInsert(c: Cache, d: Cache, now: int, ref: string, e: Entry)
    requires Cleaner(c, d, now)
    ensures Cleaner(c[ref := e], d[ref := e], now)
  {
    var c', d' := c[ref := e], d[ref := e];
    forall r ensures r in Live(c', now) <==> r in Live(d', now)
             ensures r in Live(c', now) ==> c'[r] == d'[r]
    {
      SameLiveLookup(c, d, now, r);
    }
  }

  /** Whatever an unnoticing action does to one of the caches, it can do to the other. */
  lemma {:induction false} Follow(cfg: Config, c: Cache, d: Cache, t: Timed, fromCleaned: bool, x: Cache)
    returns (c': Cache, d': Cache)
    requires ConfigInRange(cfg) && Cleaner(c, d, t.at) && !Notices(cfg, d, t)
    requires StepAt(cfg, if fromCleaned then c else d, t, x)
    ensures StepAt(cfg, c, t, c') && StepAt(cfg, d, t, d') && Cleaner(c', d', t.at)
    ensures x == if fromCleaned then c' else d'
  {
    match t.action
    case Store(ref, size) =>
      if Roomy(cfg, d, size) {
        var e := PutEntry(cfg, size, t.at);
        c', d' := c[ref := e], d[ref := e];
        CleanerIsRoomier(cfg, c, d, t.at, size);
        RoomyPut(cfg, ref, size, t.at, c, c');
        RoomyPut(cfg, ref, size, t.at, d, d');
        RoomyPut(cfg, ref, size, t.at, if fromCleaned then c else d, x);
        CleanerAfterInsert(c, d, t.at, ref, e);
      } else {
        NothingToClean(c, d, t.at);
        c', d' := x, x;
      }
    case _ =>
      c', d' := After(cfg, c, t), After(cfg, d, t);
      CleanerAfter(cfg, c, d, t);
  }

  /**
   From a cache and one that was cleaned less, a run and the same run without cleanups can give the
   same answers if nothing in the run without cleanups notices.
   */
  lemma {:induction false} CleanupTransparentFrom(cfg: Config, c: Cache, d: Cache, run: seq<Timed>, answers: seq<bool>)
    requires ConfigInRange(cfg) && Monotone(run)
    requires run != [] ==> Cleaner(c, d, run[0].at)
    requires NeverNotices(cfg, d, WithoutCleanup(run))
    ensures Answered(cfg, c, run, answers) <==> Answered(cfg, d, WithoutCleanup(run), answers)
    decreases |run|, 3
  {
    if run != [] {
      var t, rest := run[0], run[1..];
      if t.action.Clean? {
        assert WithoutCleanup(run) == WithoutCleanup(rest);
        assert StepAt(cfg, c, t, Live(c, t.at)) && answers[0..] == answers;
        CleanerAfterClean(c, d, t.at);
        TransparentRest(cfg, Live(c, t.at), d, run, answers);
      } else {
        TransparentHead(cfg, c, d, run, answers);
      }
    }
  }

  lemma {:induction false} TransparentHead(cfg: Config, c: Cache, d: Cache, run: seq<Timed>, answers: seq<bool>)
    requires ConfigInRange(cfg) && Monotone(run) && run != [] && !run[0].action.Clean?
    requires Cleaner(c, d, run[0].at) && NeverNotices(cfg, d, WithoutCleanup(run))
    ensures Answered(cfg, c, run, answers) <==> Answered(cfg, d, WithoutCleanup(run), answers)
    decreases |run|, 2
  {
    var t, bare := run[0], WithoutCleanup(run);
    assert bare == [t] + WithoutCleanup(run[1..]) && bare[1..] == WithoutCleanup(run[1..]);
    if !t.action.Store? {
      SameLiveLookup(c, d, t.at, t.action.ref);
    }
    assert Answer(c, t) == Answer(d, t);
    if Answered(cfg, c, run, answers) {
      var more := answers[|Answer(c, t)|..];
      var x :| StepAt(cfg, c, t, x) && Answered(cfg, x, run[1..], more);
      TransparentAction(cfg, c, d, run, true, x, more);
    } else if Answered(cfg, d, bare, answers) {
      var more := answers[|Answer(d, t)|..];
      var x :| StepAt(cfg, d, t, x) && Answered(cfg, x, bare[1..], more);
      TransparentAction(cfg, c, d, run, false, x, more);
    }
  }

  /** One action that is not a cleanup: what it does in one of the runs, it can do in the other. */
  lemma {:induction false} TransparentAction(cfg: Config, c: Cache, d: Cache, run: seq<Timed>, fromCleaned: bool,
                                             x: Cache, answers: seq<bool>)
    requires ConfigInRange(cfg) && Monotone(run) && run != [] && !run[0].action.Clean?
    requires Cleaner(c, d, run[0].at) && !Notices(cfg, d, run[0])
    requires forall d' :: StepAt(cfg, d, run[0], d') ==> NeverNotices(cfg, d', WithoutCleanup(run[1..]))
    requires StepAt(cfg, if fromCleaned then c else d, run[0], x)
    requires Answered(cfg, x, if fromCleaned then run[1..] else WithoutCleanup(run[1..]), answers)
    ensures exists c' :: StepAt(cfg, c, run[0], c') && Answered(cfg, c', run[1..], answers)
    ensures exists d' :: StepAt(cfg, d, run[0], d') && Answered(cfg, d', WithoutCleanup(run[1..]), answers)
    decreases |run|, 1
  {
    var c', d' := Follow(cfg, c, d, run[0], fromCleaned, x);
    TransparentRest(cfg, c', d', run, answers);
  }

  /** The rest of a run, from the time of its first action. */
  lemma {:induction false} TransparentRest(cfg: Config, c: Cache, d: Cache, run: seq<Timed>, answers: seq<bool>)
    requires ConfigInRange(cfg) && Monotone(run) && run != []
    requires Cleaner(c, d, run[0].at) && NeverNotices(cfg, d, WithoutCleanup(run[1..]))
    ensures Answered(cfg, c, run[1..], answers) <==> Answered(cfg, d, WithoutCleanup(run[1..]), answers)
    decreases |run|, 0
  {
    if |run| > 1 {
      CleanerLater(c, d, run[0].at, run[1].at);
    }
    CleanupTransparentFrom(cfg, c, d, run[1..], answers);
  }

  /**
   Under a monotone clock, runs of Get, Invalidate, Put, Prepull and cleanup that differ only in their
   cleanups can give the same answers, as long as no action notices in the run without cleanups.
   */
  lemma {:induction false} CleanupTransparent(cfg: Config, c: Cache, run: seq<Timed>, run': seq<Timed>,
                                              answers: seq<bool>)
    requires ConfigInRange(cfg) && Monotone(run) && Monotone(run')
    requires WithoutCleanup(run) == WithoutCleanup(run')
    requires NeverNotices(cfg, c, WithoutCleanup(run))
    ensures Answered(cfg, c, run, answers) <==> Answered(cfg, c, run', answers)
  {
    CleanupTransparentFrom(cfg, c, c, run, answers);
    CleanupTransparentFrom(cfg, c, c, run', answers);
  }

  /** In particular without any Prepull or Put. */
  lemma {:induction false} OnlyInsertionsNotice(cfg: Config, c: Cache, run: seq<Timed>)
    requires forall t <- run :: !t.action.Pull? && !t.action.Store?
    ensures NeverNotices(cfg, c, run)
    decreases |run|
  {
    if run != [] {
      assert run[0] in run;
      forall c' | StepAt(cfg, c, run[0], c') ensures NeverNotices(cfg, c', run[1..]) {
        OnlyInsertionsNotice(cfg, c', run[1..]);
      }
    }
  }

  // ---------------------------------------------------------------------------------------
  // That they can tell

  /** A cleanup right before a Prepull is invisible afterwards exactly when the Prepull does not notice. */
  lemma {:induction false} PrepullKeepsSameLiveIff(cfg: Config, c: Cache, ref: string, now: int)
    ensures var t := Timed(Pull(ref), now);
      SameLive(After(cfg, c, t), After(cfg, Live(c, now), t), now)
      <==> !(ref in c && now - c[ref].cachedAt > c[ref].ttl && (cfg.ttl.None? || cfg.ttl.value >= 0))
  {
    var t := Timed(Pull(ref), now);
    var d := Live(c, now);
    assert Live(d, now) == d;
    if Notices(cfg, c, t) {
      SameLiveLookupFails(After(cfg, c, t), After(cfg, d, t), now, ref);
    } else {
      CleanerAfter(cfg, d, c, t);
    }
  }

  lemma {:induction false} AnsweredOnce(cfg: Config, c: Cache, t: Timed, rest: seq<Timed>, answers: seq<bool>)
    requires !t.action.Store?
    ensures Answered(cfg, c, [t] + rest, answers)
            <==> Answer(c, t) <= answers && Answered(cfg, After(cfg, c, t), rest, answers[|Answer(c, t)|..])
  {
    var run := [t] + rest;
    assert run[1..] == rest;
    assert StepAt(cfg, c, t, After(cfg, c, t));
  }

  lemma {:induction false} GetAnswered(cfg: Config, c: Cache, ref: string, now: int, answers: seq<bool>)
    ensures Answered(cfg, c, [Timed(Get(ref), now)], answers) <==> answers == [Hits(c, ref, now)]
  {
    var get := Timed(Get(ref), now);
    assert [get] + [] == [get];
    AnsweredOnce(cfg, c, get, [], answers);
    if [Hits(c, ref, now)] <= answers && answers[1..] == [] {
      assert answers == answers[..1] + answers[1..];
    }
  }

  lemma {:induction false} PulledAnswer(cfg: Config, c: Cache, ref: string, now: int, answers: seq<bool>)
    ensures Answered(cfg, c, [Timed(Pull(ref), now), Timed(Get(ref), now)], answers)
            <==> answers == [if ref in c then !Expired(c[ref], now) else PrepullTTL(cfg) >= 0]
  {
    var pull, get := Timed(Pull(ref), now), Timed(Get(ref), now);
    assert [pull] + [get] == [pull, get] && answers[0..] == answers;
    AnsweredOnce(cfg, c, pull, [get], answers);
    GetAnswered(cfg, After(cfg, c, pull), ref, now, answers);
  }

  /**
   Exactly when a Prepull shows a cleanup: in any state, a cleanup right before it changes what a Get
   of the image then answers if and only if the image is resident and expired at that moment, and the
   configured lifetime, if any, is not negative.
   */
  lemma {:induction false} PrepullSeesCleanup(cfg: Config, c: Cache, ref: string, now: int)
    ensures var pulled := [Timed(Pull(ref), now), Timed(Get(ref), now)];
      (exists answers :: Answered(cfg, c, pulled, answers) != Answered(cfg, c, [Timed(Clean, now)] + pulled, answers))
      <==> ref in c && now - c[ref].cachedAt > c[ref].ttl && (cfg.ttl.None? || cfg.ttl.value >= 0)
  {
    var pulled := [Timed(Pull(ref), now), Timed(Get(ref), now)];
    forall answers
      ensures Answered(cfg, c, pulled, answers)
              <==> answers == [if ref in c then !Expired(c[ref], now) else PrepullTTL(cfg) >= 0]
      ensures Answered(cfg, c, [Timed(Clean, now)] + pulled, answers)
              <==> answers == [Hits(c, ref, now) || (!Hits(c, ref, now) && PrepullTTL(cfg) >= 0)]
    {
      assert answers[0..] == answers;
      PulledAnswer(cfg, c, ref, now, answers);
      AnsweredOnce(cfg, c, Timed(Clean, now), pulled, answers);
      PulledAnswer(cfg, Live(c, now), ref, now, answers);
    }
    if Notices(cfg, c, Timed(Pull(ref), now)) {
      assert Answered(cfg, c, pulled, [false]) != Answered(cfg, c, [Timed(Clean, now)] + pulled, [false]);
    }
  }

  /** At the count limit, with one entry accessed before all others, a Put evicts that one. */
  lemma {:induction false} CountPut(cfg: Config, c: Cache, ref: string, size: int, now: int, v: string, c': Cache)
    requires ConfigInRange(cfg) && Fits(cfg, c, size) && cfg.maxCachedImages <= |c| < TWO31
    requires OldestAlone(c, v)
    ensures PutStep(cfg, ref, size, now, c, c') <==> c' == (c - {v})[ref := PutEntry(cfg, size, now)]
  {
    Int32Exact(|c|);
    if PutStep(cfg, ref, size, now, c, c') {
      var victims, more :| PutBy(cfg, ref, size, now, c, c', victims, more);
      NoVictims(cfg, c, size, victims);
      assert more == Some(v);
    }
    if c' == (c - {v})[ref := PutEntry(cfg, size, now)] {
      CountPutHappens(cfg, c, ref, size, now, v);
    }
  }

  lemma {:induction false} CountPutHappens(cfg: Config, c: Cache, ref: string, size: int, now: int, v: string)
    requires ConfigInRange(cfg) && Fits(cfg, c, size) && Int32(|c|) >= cfg.maxCachedImages && OldestAlone(c, v)
    ensures PutStep(cfg, ref, size, now, c, (c - {v})[ref := PutEntry(cfg, size, now)])
  {
    assert c - Elements([]) == c;
    assert Evicts(cfg, c, size, []) && CountPass(cfg, c, Some(v));
    assert PutBy(cfg, ref, size, now, c, (c - {v})[ref := PutEntry(cfg, size, now)], [], Some(v));
  }

  ghost predicate OldestAlone(c: Cache, v: string) {
    v in c && v != "" && forall r <- c :: r != v ==> c[v].lastAccessed < c[r].lastAccessed
  }

  /** A Put with one outcome, and a Get of another image. */
  lemma {:induction false} StoredAnswer(cfg: Config, c: Cache, ref: string, asked: string, now: int, c': Cache,
                                        answers: seq<bool>)
    requires forall x :: PutStep(cfg, ref, 0, now, c, x) <==> x == c'
    ensures Answered(cfg, c, [Timed(Store(ref, 0), now), Timed(Get(asked), now)], answers)
            <==> answers == [Hits(c', asked, now)]
  {
    var run := [Timed(Store(ref, 0), now), Timed(Get(asked), now)];
    assert run[1..] == [Timed(Get(asked), now)] && answers[0..] == answers;
    assert StepAt(cfg, c, run[0], c');
    GetAnswered(cfg, c', asked, now, answers);
  }

  const TWO_IMAGES := Config(1, 2, Some(60))

  /** What is left after a Put of `busy` at 0, a Put of `idle` at 40 and a hit on `busy` at 50. */
  function TwoImages(busy: string, idle: string): Cache {
    map[busy := Entry(0, 0, 50, 2, 60), idle := Entry(0, 40, 40, 1, 60)]
  }

  lemma {:induction false} ReachesTwoImages(busy: string, idle: string) returns (states: seq<Cache>)
    requires busy != idle
    ensures Run(TWO_IMAGES, [Put(busy, 0, 0), Put(idle, 0, 40), Hit(busy, 50)], states)
    ensures states[3] == TwoImages(busy, idle)
  {
    var a: Cache := map[busy := Entry(0, 0, 0, 1, 60)];
    var b := a[idle := Entry(0, 40, 40, 1, 60)];
    SmallPut(busy, 0, map[]);
    assert a.Keys == {busy};
    SmallPut(idle, 40, a);
    RunMore(TWO_IMAGES, [], [map[]], Put(busy, 0, 0), a);
    RunMore(TWO_IMAGES, [Put(busy, 0, 0)], [map[], a], Put(idle, 0, 40), b);
    states := UsesBusy(busy, idle, [map[], a, b]);
  }

  lemma {:induction false} UsesBusy(busy: string, idle: string, stored: seq<Cache>) returns (states: seq<Cache>)
    requires busy != idle && Run(TWO_IMAGES, [Put(busy, 0, 0), Put(idle, 0, 40)], stored)
    requires stored[2] == map[busy := Entry(0, 0, 0, 1, 60)][idle := Entry(0, 40, 40, 1, 60)]
    ensures Run(TWO_IMAGES, [Put(busy, 0, 0), Put(idle, 0, 40), Hit(busy, 50)], states)
    ensures states[3] == TwoImages(busy, idle)
  {
    var c := stored[2];
    assert TwoImages(busy, idle) == c[busy := Touched(c[busy], 50)];
    RunMore(TWO_IMAGES, [Put(busy, 0, 0), Put(idle, 0, 40)], stored, Hit(busy, 50), TwoImages(busy, idle));
    states := stored + [TwoImages(busy, idle)];
  }

  lemma {:induction false} SmallPut(ref: string, now: int, c: Cache)
    requires |c| < 2 && forall r <- c :: c[r].size == 0
    ensures PutStep(TWO_IMAGES, ref, 0, now, c, c[ref := Entry(0, now, now, 1, 60)])
  {
    SumZero(c);
    RoomyPut(TWO_IMAGES, ref, 0, now, c, c[ref := Entry(0, now, now, 1, 60)]);
  }

  lemma {:induction false} SumZero(c: Cache)
    requires forall r <- c :: c[r].size == 0
    ensures NonNegative(c, SizeOf) && TotalSize(c) == 0
    decreases |c|
  {
    if c != map[] {
      var k :| k in c;
      assert (c - {k}).Keys == c.Keys - {k};
      SumRemove(c, SizeOf, k);
      SumZero(c - {k});
    }
  }

  /**
   A Put can tell too. With room for two images, `busy` stored at 0 and used at 50, and `idle` stored at
   40: by 70 `busy` is expired but the least recently used is `idle`. A Put of a third image then
   evicts `idle`, and a Get of it misses; after a cleanup the Put evicts nothing and the Get hits.
   */
  lemma {:induction false} PutSeesCleanup(busy: string, idle: string, third: string, answers: seq<bool>)
    requires busy != idle && idle != third && third != busy && idle != ""
    ensures var c := TwoImages(busy, idle);
      var last := [Timed(Store(third, 0), 70), Timed(Get(idle), 70)];
      && Notices(TWO_IMAGES, c, last[0])
      && (Answered(TWO_IMAGES, c, last, answers) <==> answers == [false])
      && (Answered(TWO_IMAGES, c, [Timed(Clean, 70)] + last, answers) <==> answers == [true])
  {
    var c := TwoImages(busy, idle);
    assert Expired(c[busy], 70);
    assert c.Keys == {busy, idle};
    assert Live(c, 70) == map[idle := c[idle]] && answers[0..] == answers;
    MissesIdle(busy, idle, third, answers);
    HitsIdle(busy, idle, third, answers);
    AnsweredOnce(TWO_IMAGES, c, Timed(Clean, 70), [Timed(Store(third, 0), 70), Timed(Get(idle), 70)], answers);
  }

  lemma {:induction false} MissesIdle(busy: string, idle: string, third: string, answers: seq<bool>)
    requires busy != idle && idle != third && idle != ""
    ensures Answered(TWO_IMAGES, TwoImages(busy, idle), [Timed(Store(third, 0), 70), Timed(Get(idle), 70)], answers)
            <==> answers == [false]
  {
    var c := TwoImages(busy, idle);
    var c' := (c - {idle})[third := PutEntry(TWO_IMAGES, 0, 70)];
    assert c.Keys == {busy, idle};
    SumZero(c);
    Int64Exact(0);
    Int64Exact(Budget(TWO_IMAGES));
    forall x ensures PutStep(TWO_IMAGES, third, 0, 70, c, x) <==> x == c' {
      CountPut(TWO_IMAGES, c, third, 0, 70, idle, x);
    }
    StoredAnswer(TWO_IMAGES, c, third, idle, 70, c', answers);
  }

  lemma {:induction false} HitsIdle(busy: string, idle: string, third: string, answers: seq<bool>)
    requires busy != idle && idle != third
    ensures Answered(TWO_IMAGES, map[idle := TwoImages(busy, idle)[idle]],
                     [Timed(Store(third, 0), 70), Timed(Get(idle), 70)], answers)
            <==> answers == [true]
  {
    var c: Cache := map[idle := TwoImages(busy, idle)[idle]];
    var c' := c[third := PutEntry(TWO_IMAGES, 0, 70)];
    assert c.Keys == {idle};
    SumZero(c);
    forall x ensures PutStep(TWO_IMAGES, third, 0, 70, c, x) <==> x == c' {
      RoomyPut(TWO_IMAGES, third, 0, 70, c, x);
    }
    StoredAnswer(TWO_IMAGES, c, third, idle, 70, c', answers);
  }
}
