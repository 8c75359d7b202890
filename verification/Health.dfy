/**
 The backend health tracker: a slice of recent samples, appended to, resliced and compacted
 in place, and the health report built from it.
 */
module Health {
  import opened HealthModel

  const DEFAULT_WINDOW := 300_000_000_000 // five minutes in nanoseconds

  /** The write index `i` trails the read index `k`; what is kept moves down over what is not. */
  method Compact(a: array<Sample>, lo: nat, hi: nat, cutoff: int) returns (i: nat)
    requires lo <= hi <= a.Length
    modifies a
    ensures lo <= i <= hi
    ensures a[lo..i] == Pruned(old(a[lo..hi]), cutoff)
  {
    i := lo;
    ghost var was, kept: seq<Sample> := a[lo..hi], [];
    for k := lo to hi
      invariant lo <= i <= k
      invariant kept == Pruned(was[..k - lo], cutoff)
      invariant |kept| == i - lo && forall j :: lo <= j < i ==> a[j] == kept[j - lo]
      invariant forall j :: k <= j < hi ==> a[j] == was[j - lo]
    {
      var s := a[k];
      assert was[..k + 1 - lo] == was[..k - lo] + [s];
      PrunedAppend(was[..k - lo], s, cutoff);
      if s.at > cutoff {
        a[i] := s;
        i := i + 1;
        kept := kept + [s];
      }
    }
    assert was[..hi - lo] == was;
  }

  /** A larger array that begins with the slice and one more sample. */
  method Larger(a: array<Sample>, lo: nat, hi: nat, s: Sample) returns (bigger: array<Sample>)
    requires lo <= hi <= a.Length
    ensures fresh(bigger) && bigger.Length > hi - lo && bigger[..hi - lo + 1] == a[lo..hi] + [s]
  {
    var n := hi - lo;
    bigger := new Sample[2 * n + 1](_ => s);
    for i := 0 to n
      invariant forall j :: 0 <= j < i ==> bigger[j] == a[lo + j]
      invariant bigger[n] == s
    {
      bigger[i] := a[lo + i];
    }
  }

  /**
   The slice is `samples[lo..hi]`; `history` remembers everything ever recorded and `asOf` the
   time of the last pruning. Valid says that the slice is the window they determine.
   */
  class BackendTracker {
    const window: int
    const maxSamples: nat
    var samples: array<Sample>
    var lo: nat
    var hi: nat
    ghost var recent: seq<Sample> // the slice
    ghost var history: History
    ghost var asOf: int

    ghost predicate Sliced()
      reads this`samples, this`lo, this`hi, this`recent, samples
    {
      lo <= hi <= samples.Length && recent == samples[lo..hi]
    }

    ghost predicate Valid()
      reads this, samples
    {
      && window > 0 && maxSamples > 0
      && Sliced()
      && Tracks(recent, history, maxSamples, window, asOf)
    }

    constructor (window: int, maxSamples: int, now: int)
      ensures Valid() && history == Nothing && asOf == now && fresh(samples)
      ensures this.window == if window <= 0 then 300_000_000_000 else window
      ensures this.maxSamples == if maxSamples <= 0 then 100 else maxSamples
    {
      this.window := if window <= 0 then DEFAULT_WINDOW else window;
      this.maxSamples := if maxSamples <= 0 then 100 else maxSamples;
      samples := new Sample[0];
      lo, hi := 0, 0;
      recent, history, asOf := [], Nothing, now;
    }

    /** The slice after `append`, which reuses spare capacity or moves to a larger array. */
    method Append(s: Sample)
      requires Sliced()
      modifies this`samples, this`lo, this`hi, this`recent, samples
      ensures samples == old(samples) || fresh(samples)
      ensures Sliced() && recent == old(recent) + [s]
    {
      if hi < samples.Length {
        samples[hi] := s;
        hi := hi + 1;
      } else {
        samples := Larger(samples, lo, hi, s);
        lo, hi := 0, hi - lo + 1;
      }
      recent := recent + [s];
    }

    /** Compacts the slice in place, keeping the samples newer than the cutoff. */
    method PruneLocked(now: int)
      requires Sliced()
      modifies this`hi, this`recent, samples
      ensures Sliced() && recent == Pruned(old(recent), now - window)
    {
      var i := Compact(samples, lo, hi, now - window);
      hi, recent := i, samples[lo..i];
    }

    /** `at` and `now` are the two clock readings of one call. */
    method Record(latencyMs: real, failed: bool, at: int, now: int)
      requires Valid() && asOf <= at <= now
      modifies this`samples, this`lo, this`hi, this`recent, this`history, this`asOf, samples
      ensures Valid() && asOf == now && history == Then(old(history), Sample(latencyMs, failed, at))
      ensures All(history) == old(All(history)) + [Sample(latencyMs, failed, at)]
      ensures samples == old(samples) || fresh(samples)
    {
      var s := Sample(latencyMs, failed, at);
      Store(s, now);
      Remember(old(recent), s, now);
    }

    ghost method Remember(was: seq<Sample>, s: Sample, now: int)
      requires window > 0 && maxSamples > 0 && Sliced()
      requires Tracks(was, history, maxSamples, window, asOf) && asOf <= s.at <= now
      requires recent == Pruned(Appended(was, s, maxSamples), now - window)
      modifies this`history, this`asOf
      ensures Valid() && asOf == now && history == Then(old(history), s)
    {
      RecordTracks(was, history, maxSamples, window, asOf, s, now);
      history, asOf := Then(history, s), now;
    }

    method Store(s: Sample, now: int)
      requires Sliced()
      modifies this`samples, this`lo, this`hi, this`recent, samples
      ensures samples == old(samples) || fresh(samples)
      ensures Sliced() && recent == Pruned(Appended(old(recent), s, maxSamples), now - window)
    {
      AppendAndTrim(s);
      PruneLocked(now);
    }

    method AppendAndTrim(s: Sample)
      requires Sliced()
      modifies this`samples, this`lo, this`hi, this`recent, samples
      ensures samples == old(samples) || fresh(samples)
      ensures Sliced() && recent == Appended(old(recent), s, maxSamples)
    {
      ghost var w := recent;
      Append(s);
      if hi - lo > maxSamples {
        assert recent == w + [s];
        lo := hi - maxSamples;
        recent := samples[lo..hi];
      }
    }

    /** Prunes to the window at `now`. */
    method PruneTo(now: int)
      requires Valid() && asOf <= now
      modifies this`hi, this`recent, this`asOf, samples
      ensures Valid() && asOf == now && history == old(history)
    {
      PruneLocked(now);
      PruneTracks(old(recent), history, maxSamples, window, asOf, now);
      asOf := now;
    }

    /**
     The mean latency and failure fraction of the window at `now`: the newest of everything recorded, at
     most `maxSamples`, no older than the window; zero when there is none.
     */
    method Snapshot(now: int) returns (avgLatencyMs: real, errorRate: real, ghost w: seq<Sample>)
      requires Valid() && asOf <= now
      modifies this`hi, this`recent, this`asOf, samples
      ensures Valid() && asOf == now && history == old(history) && w == recent
      ensures avgLatencyMs == MeanLatency(w) && errorRate == FailureFraction(w)
      ensures NewestOf(w, All(history), maxSamples, now - window)
      ensures w == [] ==> avgLatencyMs == 0.0 && errorRate == 0.0
      ensures w != [] ==>
        && avgLatencyMs == TotalLatency(w) / |w| as real
        && errorRate == |set i | 0 <= i < |w| && w[i].failed| as real / |w| as real
    {
      PruneTo(now);
      avgLatencyMs, errorRate := Averages();
      w := recent;
      TracksMeaning(w, history, maxSamples, window, now);
      FailuresMeaning(w);
    }

    method Averages() returns (avgLatencyMs: real, errorRate: real)
      requires Sliced()
      ensures avgLatencyMs == MeanLatency(recent) && errorRate == FailureFraction(recent)
    {
      if hi == lo {
        return 0.0, 0.0;
      }
      var totalLatency, failures := 0.0, 0;
      ghost var w := recent;
      for k := lo to hi
        invariant totalLatency == TotalLatency(w[..k - lo])
        invariant failures == Failures(w[..k - lo])
      {
        var s := samples[k];
        assert w[..k + 1 - lo][..k - lo] == w[..k - lo];
        totalLatency := totalLatency + s.latencyMs;
        if s.failed {
          failures := failures + 1;
        }
      }
      assert w[..hi - lo] == w;
      return totalLatency / (hi - lo) as real, failures as real / (hi - lo) as real;
    }
  }

  datatype Report = Report(score: int, latencyMs: real, errorRate: real, healthy: bool)

  /**
   ListBackendHealth. `failed` is the outcome of the ping, `latency` its duration; the clock is
   read when the sample is stored, when the buffer is pruned and when the snapshot is taken.
   */
  method BackendHealth(tracker: BackendTracker?, latency: real, failed: bool, at: int, now: int, later: int)
    returns (report: Report, ghost w: seq<Sample>)
    requires tracker != null ==> tracker.Valid() && tracker.asOf <= at <= now <= later
    modifies if tracker == null then {} else {tracker, tracker.samples}
    ensures tracker == null ==>
      report == ReportOf(latency, if failed then 1.0 else 0.0, failed)
    ensures tracker == null ==>
      && report.latencyMs == latency && report.errorRate == (if failed then 1.0 else 0.0)
      && (report.healthy <==> !failed)
      && report.score == if failed then 0 else if latency > 2000.0 then 60 else if latency > 1000.0 then 75
                         else if latency > 500.0 then 85 else if latency > 200.0 then 92
                         else if latency > 100.0 then 96 else 100
    ensures tracker != null ==>
      && tracker.Valid() && tracker.asOf == later
      && tracker.history == Then(old(tracker.history), Sample(latency, failed, at))
      && report == ReportOf(MeanLatency(w), FailureFraction(w), failed)
    ensures tracker != null ==>
      && w == tracker.recent
      && NewestOf(w, old(All(tracker.history)) + [Sample(latency, failed, at)], tracker.maxSamples,
                  later - tracker.window)
      && (w != [] ==>
            && report.latencyMs == TotalLatency(w) / |w| as real
            && report.errorRate == |set i | 0 <= i < |w| && w[i].failed| as real / |w| as real)
      && (report.healthy <==>
            && !failed
            && var failures := 1000 * |set i | 0 <= i < |w| && w[i].failed|;
               if report.latencyMs > 2000.0 then failures <= 105 * |w|
               else if report.latencyMs > 1000.0 then failures <= 255 * |w|
               else if report.latencyMs > 500.0 then failures <= 355 * |w|
               else if report.latencyMs > 200.0 then failures <= 425 * |w|
               else if report.latencyMs > 100.0 then failures <= 465 * |w|
               else failures <= 500 * |w|)
  {
    var latencyMs, errorRate := latency, 0.0;
    w := [];
    if failed {
      errorRate := 1.0;
    }
    if tracker != null {
      tracker.Record(latencyMs, failed, at, now);
      latencyMs, errorRate, w := tracker.Snapshot(later);
    }
    var score := ScoreFromSignals(latencyMs, errorRate);
    report := Report(score, latencyMs, errorRate, score >= 50 && !failed);
    if tracker != null {
      VerdictIff(w, failed);
    }
  }

  function ReportOf(latencyMs: real, errorRate: real, failed: bool): Report {
    var score := ScoreFromSignals(latencyMs, errorRate);
    Report(score, latencyMs, errorRate, score >= 50 && !failed)
  }

  /**
   What a verdict says about the samples it was computed from: healthy exactly when the ping succeeded
   and at most so many thousandths of the samples failed, by mean latency.
   */
  lemma {:induction false} VerdictIff(w: seq<Sample>, failed: bool)
    ensures var r := ReportOf(MeanLatency(w), FailureFraction(w), failed);
      && 0 <= r.score <= 100
      && (r.healthy <==>
            && !failed
            && var failures := 1000 * |set i | 0 <= i < |w| && w[i].failed|;
               if r.latencyMs > 2000.0 then failures <= 105 * |w|
               else if r.latencyMs > 1000.0 then failures <= 255 * |w|
               else if r.latencyMs > 500.0 then failures <= 355 * |w|
               else if r.latencyMs > 200.0 then failures <= 425 * |w|
               else if r.latencyMs > 100.0 then failures <= 465 * |w|
               else failures <= 500 * |w|)
  {
    var l := MeanLatency(w);
    var bound := if l > 2000.0 then 105 else if l > 1000.0 then 255 else if l > 500.0 then 355
                 else if l > 200.0 then 425 else if l > 100.0 then 465 else 500;
    FailuresMeaning(w);
    FractionAtMost(w, bound);
    PassingIff(l, FailureFraction(w));
  }

  /** In particular at most half of the window's samples failed, and at most 10.5% of them over 2000 ms. */
  lemma {:induction false} VerdictSound(history: History, maxSamples: nat, cutoff: int, failed: bool)
    ensures var w := Window(history, maxSamples, cutoff);
      var r := ReportOf(MeanLatency(w), FailureFraction(w), failed);
      && (r.healthy ==> !failed && 2 * |set i | 0 <= i < |w| && w[i].failed| <= |w|)
      && (r.healthy && TotalLatency(w) > 2000.0 * |w| as real ==>
            1000 * |set i | 0 <= i < |w| && w[i].failed| <= 105 * |w|)
  {
    var w := Window(history, maxSamples, cutoff);
    VerdictIff(w, failed);
    AveragesMeaning(w);
    if TotalLatency(w) > 2000.0 * |w| as real {
      assert w != [];
      QuotientAtMost(TotalLatency(w), |w| as real, 2000.0);
    }
  }

  /** Reading a bound on the fraction, in thousandths, as a bound on the count. */
  lemma {:induction false} FractionAtMost(w: seq<Sample>, bound: nat)
    ensures FailureFraction(w) >= 0.0
    ensures 1000.0 * FailureFraction(w) <= bound as real <==> 1000 * Failures(w) <= bound * |w|
  {
    FailuresBound(w);
    if w != [] {
      var f, n := Failures(w) as real, |w| as real;
      QuotientAtMost(f, n, bound as real / 1000.0);
      assert bound as real / 1000.0 * n * 1000.0 == bound as real * n;
    }
  }

  lemma QuotientAtMost(f: real, n: real, bound: real)
    requires n > 0.0
    ensures f >= 0.0 ==> f / n >= 0.0
    ensures f / n <= bound <==> f <= bound * n
  {
    var q := f / n;
    assert q * n == f;
    if q <= bound {
      assert (bound - q) * n >= 0.0;
    } else {
      assert (q - bound) * n > 0.0;
    }
  }
}
