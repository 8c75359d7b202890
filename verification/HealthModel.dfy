/**
 Health tracking on values: the window of samples that should count at a given moment, and
 the score computed from it. Times and latencies are exact (integers and reals).
 */
module HealthModel {

  datatype Sample = Sample(latencyMs: real, failed: bool, at: int)

  function Min(a: nat, b: nat): nat { if a < b then a else b }

  // ---------------------------------------------------------------------------------------
  // The window, as a function of everything ever recorded

  /** Every sample recorded, the latest outermost. */
  datatype History = Nothing | Then(earlier: History, latest: Sample) {
    function Length(): nat {
      match this
      case Nothing => 0
      case Then(h, _) => h.Length() + 1
    }

    /** How many samples are newer than the cutoff. */
    function Newer(cutoff: int): (n: nat)
      ensures n <= Length()
    {
      match this
      case Nothing => 0
      case Then(h, s) => h.Newer(cutoff) + if s.at > cutoff then 1 else 0
    }

    /** The last `n` samples, oldest first. */
    function Last(n: nat): (r: seq<Sample>)
      requires n <= Length()
      ensures |r| == n
    {
      if n == 0 then [] else earlier.Last(n - 1) + [latest]
    }

    /** Recorded under a clock that does not go back, the last time not after `asOf`. */
    predicate InOrder(asOf: int) {
      match this
      case Nothing => true
      case Then(h, s) => s.at <= asOf && h.InOrder(s.at)
    }
  }

  /** The last min(maxSamples, samples newer than the cutoff) samples. */
  function Window(h: History, maxSamples: nat, cutoff: int): seq<Sample> {
    h.Last(Min(h.Newer(cutoff), maxSamples))
  }

  /** In order, the newer samples are the last ones and the window is exactly the newest of them. */
  lemma {:induction false} NewerAreLast(h: History, asOf: int, cutoff: int)
    requires h.InOrder(asOf)
    ensures forall s <- h.Last(h.Newer(cutoff)) :: s.at > cutoff
    ensures forall k :: h.Newer(cutoff) < k <= h.Length() ==> h.Last(k)[0].at <= cutoff
  {
    match h
    case Nothing =>
    case Then(init, s) =>
      NewerAreLast(init, s.at, cutoff);
      if s.at <= cutoff {
        NoneNewer(init, s.at, cutoff);
      }
      forall k | h.Newer(cutoff) < k <= h.Length() ensures h.Last(k)[0].at <= cutoff {
        if k > 1 {
          assert h.Last(k)[0] == init.Last(k - 1)[0];
        }
      }
  }

  lemma {:induction false} NoneNewer(h: History, asOf: int, cutoff: int)
    requires h.InOrder(asOf) && asOf <= cutoff
    ensures h.Newer(cutoff) == 0
  {
    if h.Then? {
      NoneNewer(h.earlier, h.latest.at, cutoff);
    }
  }

  /** Everything recorded, oldest first. */
  function All(h: History): (r: seq<Sample>)
    ensures |r| == h.Length()
  {
    match h
    case Nothing => []
    case Then(earlier, s) => All(earlier) + [s]
  }

  lemma {:induction false} LastIsSuffix(h: History, n: nat)
    requires n <= h.Length()
    ensures h.Last(n) == All(h)[h.Length() - n..]
  {
    if n > 0 {
      LastIsSuffix(h.earlier, n - 1);
    }
  }

  /** The newest samples there are: all newer than the cutoff, at most so many, and no more to be had. */
  ghost predicate NewestOf(w: seq<Sample>, all: seq<Sample>, maxSamples: nat, cutoff: int) {
    && |w| <= |all| && w == all[|all| - |w|..]
    && |w| <= maxSamples && (forall s <- w :: s.at > cutoff)
    && (|w| < maxSamples ==> forall i :: 0 <= i < |all| - |w| ==> all[i].at <= cutoff)
  }

  /** By position. */
  lemma {:induction false} NewestOfMeaning(w: seq<Sample>, all: seq<Sample>, maxSamples: nat, cutoff: int)
    ensures NewestOf(w, all, maxSamples, cutoff) <==>
      && |w| <= |all| && (forall i :: 0 <= i < |w| ==> w[i] == all[|all| - |w| + i] && w[i].at > cutoff)
      && (|w| == maxSamples || (|w| < maxSamples && forall i :: 0 <= i < |all| - |w| ==> all[i].at <= cutoff))
  {
  }

  /** The window is the newest of everything recorded. */
  lemma {:induction false} WindowMeaning(h: History, asOf: int, maxSamples: nat, cutoff: int)
    requires h.InOrder(asOf)
    ensures NewestOf(Window(h, maxSamples, cutoff), All(h), maxSamples, cutoff)
  {
    LastIsSuffix(h, Min(h.Newer(cutoff), maxSamples));
    OlderAreFirst(h, asOf, cutoff);
  }

  lemma {:induction false} OlderAreFirst(h: History, asOf: int, cutoff: int)
    requires h.InOrder(asOf)
    ensures forall i :: 0 <= i < h.Length() ==> (All(h)[i].at > cutoff <==> i >= h.Length() - h.Newer(cutoff))
  {
    if h.Then? {
      OlderAreFirst(h.earlier, h.latest.at, cutoff);
      if h.latest.at <= cutoff {
        NoneNewer(h.earlier, h.latest.at, cutoff);
      }
    }
  }

  // ---------------------------------------------------------------------------------------
  // What pruning does to a buffer, and why it keeps the window

  /** The samples newer than the cutoff, in order. */
  function Pruned(s: seq<Sample>, cutoff: int): seq<Sample> {
    if s == [] then []
    else Pruned(s[..|s| - 1], cutoff) + if s[|s| - 1].at > cutoff then [s[|s| - 1]] else []
  }

  lemma {:induction false} PrunedAppend(s: seq<Sample>, x: Sample, cutoff: int)
    ensures Pruned(s + [x], cutoff) == Pruned(s, cutoff) + if x.at > cutoff then [x] else []
  {
    assert (s + [x])[..|s|] == s;
  }

  /** Pruning the last `k` samples keeps the newer ones among them. */
  lemma {:induction false} PruneLast(h: History, asOf: int, cutoff: int, k: nat)
    requires h.InOrder(asOf) && k <= h.Length()
    ensures Pruned(h.Last(k), cutoff) == h.Last(Min(h.Newer(cutoff), k))
  {
    if k > 0 {
      var init, s := h.earlier, h.latest;
      PruneLast(init, s.at, cutoff, k - 1);
      PrunedAppend(init.Last(k - 1), s, cutoff);
      if s.at <= cutoff {
        NoneNewer(init, s.at, cutoff);
      }
    }
  }

  /** A later cutoff counts fewer samples. */
  lemma {:induction false} NewerAntitone(h: History, cutoff: int, later: int)
    requires cutoff <= later
    ensures h.Newer(later) <= h.Newer(cutoff)
  {
    if h.Then? {
      NewerAntitone(h.earlier, cutoff, later);
    }
  }

  /** The buffer after one append and trim, before it is pruned. */
  function Appended(recent: seq<Sample>, s: Sample, maxSamples: nat): seq<Sample> {
    var b := recent + [s];
    if |b| > maxSamples then b[|b| - maxSamples..] else b
  }

  lemma {:induction false} LastDropsOldest(h: History, k: nat)
    requires 0 < k <= h.Length()
    ensures h.Last(k)[1..] == h.Last(k - 1)
  {
    if k > 1 {
      LastDropsOldest(h.earlier, k - 1);
      assert h.Last(k)[1..] == h.earlier.Last(k - 1)[1..] + [h.latest];
    }
  }

  lemma {:induction false} AppendLast(h: History, k: nat, s: Sample, maxSamples: nat)
    requires k <= h.Length() && k <= maxSamples && maxSamples > 0
    ensures Appended(h.Last(k), s, maxSamples) == Then(h, s).Last(Min(k + 1, maxSamples))
  {
    if k == maxSamples {
      LastDropsOldest(h, k);
      assert (h.Last(k) + [s])[1..] == h.Last(k)[1..] + [s];
    }
  }

  // ---------------------------------------------------------------------------------------
  // The tracker's state

  /** `recent` is what a tracker pruned at `asOf` should hold after recording `h`. */
  predicate Tracks(recent: seq<Sample>, h: History, maxSamples: nat, window: int, asOf: int) {
    h.InOrder(asOf) && recent == Window(h, maxSamples, asOf - window)
  }

  /** What it then holds, without a count of what is newer. */
  lemma {:induction false} TracksMeaning(recent: seq<Sample>, h: History, maxSamples: nat, window: int, asOf: int)
    requires Tracks(recent, h, maxSamples, window, asOf)
    ensures NewestOf(recent, All(h), maxSamples, asOf - window)
  {
    WindowMeaning(h, asOf, maxSamples, asOf - window);
  }

  /** Pruning an old window later gives the later window. */
  lemma {:induction false} PruneTracks(recent: seq<Sample>, h: History, maxSamples: nat, window: int,
                                       asOf: int, now: int)
    requires Tracks(recent, h, maxSamples, window, asOf) && asOf <= now
    ensures Tracks(Pruned(recent, now - window), h, maxSamples, window, now)
  {
    NewerAntitone(h, asOf - window, now - window);
    PruneLast(h, asOf, now - window, Min(h.Newer(asOf - window), maxSamples));
  }

  /** Appending to a window and trimming it to `maxSamples` before pruning gives the next window. */
  lemma {:induction false} RecordTracks(recent: seq<Sample>, h: History, maxSamples: nat, window: int,
                                        asOf: int, s: Sample, now: int)
    requires Tracks(recent, h, maxSamples, window, asOf) && asOf <= s.at <= now && maxSamples > 0
    ensures Tracks(Pruned(Appended(recent, s, maxSamples), now - window), Then(h, s), maxSamples, window, now)
  {
    InOrderLater(h, asOf, s.at);
    AppendAndPruneLast(h, Min(h.Newer(asOf - window), maxSamples), s, maxSamples, now, now - window);
    NewerAfterAppend(h, asOf - window, now - window, s, maxSamples);
  }

  lemma {:induction false} AppendAndPruneLast(h: History, k: nat, s: Sample, maxSamples: nat, now: int, cutoff: int)
    requires k <= h.Length() && k <= maxSamples && maxSamples > 0
    requires Then(h, s).InOrder(now)
    ensures Pruned(Appended(h.Last(k), s, maxSamples), cutoff)
            == Then(h, s).Last(Min(Then(h, s).Newer(cutoff), Min(k + 1, maxSamples)))
  {
    AppendLast(h, k, s, maxSamples);
    PruneLast(Then(h, s), now, cutoff, Min(k + 1, maxSamples));
  }

  lemma {:induction false} NewerAfterAppend(h: History, cutoff: int, later: int, s: Sample, maxSamples: nat)
    requires cutoff <= later
    ensures var n := Then(h, s).Newer(later);
      Min(n, Min(Min(h.Newer(cutoff), maxSamples) + 1, maxSamples)) == Min(n, maxSamples)
  {
    NewerAntitone(h, cutoff, later);
  }

  lemma InOrderLater(h: History, asOf: int, later: int)
    requires h.InOrder(asOf) && asOf <= later
    ensures h.InOrder(later)
  {
  }

  // ---------------------------------------------------------------------------------------
  // The statistics of a window

  function TotalLatency(s: seq<Sample>): real {
    if s == [] then 0.0 else TotalLatency(s[..|s| - 1]) + s[|s| - 1].latencyMs
  }

  function Failures(s: seq<Sample>): nat {
    if s == [] then 0 else Failures(s[..|s| - 1]) + if s[|s| - 1].failed then 1 else 0
  }

  /** How many of the samples failed. */
  lemma {:induction false} FailuresMeaning(s: seq<Sample>)
    ensures Failures(s) == |set i | 0 <= i < |s| && s[i].failed|
  {
    var failed := set i | 0 <= i < |s| && s[i].failed;
    if s != [] {
      var n := |s| - 1;
      FailuresMeaning(s[..n]);
      var earlier := set i | 0 <= i < |s[..n]| && s[..n][i].failed;
      assert failed == if s[n].failed then earlier + {n} else earlier;
    }
  }

  /** The sum of the latencies: nothing for none, the latency of one sample, and additive. */
  lemma {:induction false} TotalLatencyMeaning(s: seq<Sample>, t: seq<Sample>, x: Sample)
    ensures TotalLatency([]) == 0.0 && TotalLatency([x]) == x.latencyMs
    ensures TotalLatency(s + t) == TotalLatency(s) + TotalLatency(t)
    decreases |t|
  {
    assert [x][..0] == [];
    if t == [] {
      assert s + t == s;
    } else {
      var n := |t| - 1;
      TotalLatencyMeaning(s, t[..n], x);
      assert (s + t)[..|s + t| - 1] == s + t[..n];
    }
  }

  /** The averages times the number of samples; zero on an empty window. */
  lemma {:induction false} AveragesMeaning(s: seq<Sample>)
    ensures MeanLatency(s) * |s| as real == TotalLatency(s)
    ensures FailureFraction(s) * |s| as real == |set i | 0 <= i < |s| && s[i].failed| as real
    ensures s == [] ==> MeanLatency(s) == 0.0 && FailureFraction(s) == 0.0
  {
    FailuresMeaning(s);
    if s != [] {
      QuotientTimes(TotalLatency(s), |s| as real);
      QuotientTimes(Failures(s) as real, |s| as real);
    }
  }

  lemma QuotientTimes(x: real, n: real)
    requires n > 0.0
    ensures x / n * n == x
  {
  }

  function MeanLatency(s: seq<Sample>): real {
    if s == [] then 0.0 else TotalLatency(s) / |s| as real
  }

  function FailureFraction(s: seq<Sample>): real {
    if s == [] then 0.0 else Failures(s) as real / |s| as real
  }

  lemma {:induction false} FailuresBound(s: seq<Sample>)
    ensures Failures(s) <= |s|
  {
    if s != [] {
      FailuresBound(s[..|s| - 1]);
    }
  }

  // ---------------------------------------------------------------------------------------
  // Scores

  /** math.Round on non-negative values, then the clamp to 0..100. */
  function ClampScore(v: real): (score: int)
    ensures 0 <= score <= 100
  {
    if v < 0.0 then 0 else if v > 100.0 then 100 else (v + 0.5).Floor
  }

  function LatencyPenalty(latencyMs: real): real {
    if latencyMs > 2000.0 then 40.0
    else if latencyMs > 1000.0 then 25.0
    else if latencyMs > 500.0 then 15.0
    else if latencyMs > 200.0 then 8.0
    else if latencyMs > 100.0 then 4.0
    else 0.0
  }

  function ScoreFromSignals(latencyMs: real, errorRate: real): (score: int)
    ensures 0 <= score <= 100
  {
    var score := 100.0 - LatencyPenalty(latencyMs) - errorRate * 100.0;
    ClampScore(if errorRate > 0.5 then score - 20.0 else score)
  }

  /** Within half a point of the value, in 0..100; integers stay as they are. */
  lemma ClampMeaning(v: real, n: int)
    ensures 0.0 <= v <= 100.0 ==> v - 0.5 < ClampScore(v) as real <= v + 0.5
    ensures v < 0.0 ==> ClampScore(v) == 0
    ensures v > 100.0 ==> ClampScore(v) == 100
    ensures ClampScore(n as real) == if n < 0 then 0 else if n > 100 then 100 else n
  {
  }

  /** The score in numbers: one hundred, less the penalties, to the nearest integer. */
  lemma ScoreMeaning(latencyMs: real, errorRate: real)
    requires 0.0 <= errorRate <= 1.0
    ensures var score := ScoreFromSignals(latencyMs, errorRate) as real;
      var exact := 100.0 - 100.0 * errorRate - (if errorRate > 0.5 then 20.0 else 0.0)
        - (if latencyMs > 2000.0 then 40.0 else if latencyMs > 1000.0 then 25.0 else if latencyMs > 500.0 then 15.0
           else if latencyMs > 200.0 then 8.0 else if latencyMs > 100.0 then 4.0 else 0.0);
      if exact < 0.0 then score == 0.0 else exact - 0.5 < score <= exact + 0.5
  {
    var exact := 100.0 - LatencyPenalty(latencyMs) - errorRate * 100.0 - if errorRate > 0.5 then 20.0 else 0.0;
    ClampMeaning(exact, 0);
  }

  lemma ClampMonotone(v: real, w: real)
    requires v <= w
    ensures ClampScore(v) <= ClampScore(w)
  {
    assert (v + 0.5).Floor <= (w + 0.5).Floor;
  }

  /** More latency or more errors never raise the score. */
  lemma ScoreAntitone(latency: real, latency': real, errorRate: real, errorRate': real)
    requires latency <= latency' && errorRate <= errorRate'
    ensures ScoreFromSignals(latency', errorRate') <= ScoreFromSignals(latency, errorRate)
  {
    var a := 100.0 - LatencyPenalty(latency') - errorRate' * 100.0 - if errorRate' > 0.5 then 20.0 else 0.0;
    var b := 100.0 - LatencyPenalty(latency) - errorRate * 100.0 - if errorRate > 0.5 then 20.0 else 0.0;
    assert a <= b;
    ClampMonotone(a, b);
  }

  /**
   A score is passing exactly when the error rate, in thousandths, is within what the latency leaves
   room for.
   */
  lemma PassingIff(latencyMs: real, errorRate: real)
    requires 0.0 <= errorRate
    ensures ScoreFromSignals(latencyMs, errorRate) >= 50 <==>
      1000.0 * errorRate <= if latencyMs > 2000.0 then 105.0 else if latencyMs > 1000.0 then 255.0
                            else if latencyMs > 500.0 then 355.0 else if latencyMs > 200.0 then 425.0
                            else if latencyMs > 100.0 then 465.0 else 500.0
  {
    var v := 100.0 - LatencyPenalty(latencyMs) - errorRate * 100.0 - if errorRate > 0.5 then 20.0 else 0.0;
    assert ScoreFromSignals(latencyMs, errorRate) == ClampScore(v);
    assert ClampScore(v) >= 50 <==> v >= 49.5;
  }

  function ScoreNodeReady(base: int, ready: bool, memoryPressure: bool, diskPressure: bool, pidPressure: bool,
                          unschedulable: bool, draining: bool): (score: int)
    ensures 0 <= score <= 100
  {
    ClampScore(base as real
      - (if ready then 0.0 else 50.0) - (if memoryPressure then 15.0 else 0.0)
      - (if diskPressure then 15.0 else 0.0) - (if pidPressure then 10.0 else 0.0)
      - (if unschedulable then 10.0 else 0.0) - (if draining then 25.0 else 0.0))
  }

  /** On integers nothing is rounded: the base less the penalties, in 0..100. */
  lemma NodeScoreMeaning(base: int, ready: bool, memoryPressure: bool, diskPressure: bool, pidPressure: bool,
                         unschedulable: bool, draining: bool)
    ensures
      var score :=
        ScoreNodeReady(base, ready, memoryPressure, diskPressure, pidPressure, unschedulable, draining);
      var exact := base - (if ready then 0 else 50) - (if memoryPressure then 15 else 0)
        - (if diskPressure then 15 else 0) - (if pidPressure then 10 else 0)
        - (if unschedulable then 10 else 0) - (if draining then 25 else 0);
      score == if exact < 0 then 0 else if exact > 100 then 100 else exact
  {
    var exact := base - (if ready then 0 else 50) - (if memoryPressure then 15 else 0)
      - (if diskPressure then 15 else 0) - (if pidPressure then 10 else 0)
      - (if unschedulable then 10 else 0) - (if draining then 25 else 0);
    ClampMeaning(exact as real, exact);
  }
}
