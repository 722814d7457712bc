/**
 * PerformanceMonitor: timed metrics grouped by name, and named counters for cache
 * hits, generated variants and processed textures. The clock is a parameter: each
 * operation that reads the time is given the current time in milliseconds.
 */
module PerformanceMonitor {
  import opened Wrappers
  import opened JavaNumbers
  import opened ListMaps

  /** A metric: started when built, completed by `Complete`; a later call restamps it. */
  class Metric {
    var name: string
    var startTime: int
    var endTime: int
    var duration: int
    var completed: bool

    /** `new Metric(name)` at time `now`: started, not completed. */
    constructor (name: string, now: int)
      ensures this.name == name && startTime == now && endTime == 0 && duration == 0 && !completed
    {
      this.name := name;
      startTime := now;
      endTime := 0;
      duration := 0;
      completed := false;
    }

    /** `complete()` at time `now`: the duration is the time since the start. */
    method Complete(now: int)
      modifies this
      ensures endTime == now && duration == now - startTime && completed
      ensures name == old(name) && startTime == old(startTime)
    {
      endTime := now;
      duration := endTime - startTime;
      completed := true;
    }
  }

  /** The durations of the completed metrics, added up; unfinished ones add nothing. */
  function CompletedTotal(ms: seq<Metric>): int
    reads ms
    decreases |ms|
  {
    if ms == [] then 0
    else
      var last := ms[|ms| - 1];
      CompletedTotal(ms[..|ms| - 1]) + (if last.completed then last.duration else 0)
  }

  /** The completed total over the number of metrics, finished or not, truncated; 0 for no metrics. */
  function AverageDuration(ms: seq<Metric>): (avg: int)
    reads ms
    ensures ms == [] ==> avg == 0
    ensures ms != [] && CompletedTotal(ms) >= 0 ==> avg * |ms| <= CompletedTotal(ms) < (avg + 1) * |ms|
  {
    if ms == [] then 0 else JavaDiv(CompletedTotal(ms), |ms|)
  }

  /** When every completed duration lies in [0, d], the total lies in [0, |ms| * d]. */
  lemma {:induction false} CompletedTotalBounds(ms: seq<Metric>, d: int)
    requires d >= 0
    requires forall i :: 0 <= i < |ms| && ms[i].completed ==> 0 <= ms[i].duration <= d
    ensures 0 <= CompletedTotal(ms) <= |ms| * d
    decreases |ms|
  {
    if ms != [] {
      var init := ms[..|ms| - 1];
      assert forall i :: 0 <= i < |init| ==> init[i] == ms[i];
      CompletedTotalBounds(init, d);
      assert |ms| * d == |init| * d + d;
    }
  }

  /** When every completed duration lies in [0, d], so does the average. */
  lemma AverageBounds(ms: seq<Metric>, d: int)
    requires d >= 0
    requires forall i :: 0 <= i < |ms| && ms[i].completed ==> 0 <= ms[i].duration <= d
    ensures 0 <= AverageDuration(ms) <= d
  {
    if ms != [] {
      CompletedTotalBounds(ms, d);
      var avg := AverageDuration(ms);
      if avg > d {
        assert avg * |ms| >= (d + 1) * |ms| by {
          MulMonotoneNat(d + 1, avg, |ms|);
        }
        assert false;
      }
      if avg < 0 {
        assert (avg + 1) * |ms| <= 0 by {
          MulMonotoneNat(avg + 1, 0, |ms|);
        }
        assert false;
      }
    }
  }

  /** `a <= b` scaled by a count `n`. */
  lemma MulMonotoneNat(a: int, b: int, n: nat)
    requires a <= b
    ensures a * n <= b * n
  {
    assert b * n - a * n == (b - a) * n;
  }

  /** Metrics all completed after the same non-negative duration average exactly that duration. */
  lemma {:induction false} CompletedTotalUniform(ms: seq<Metric>, d: int)
    requires forall i :: 0 <= i < |ms| ==> ms[i].completed && ms[i].duration == d
    ensures CompletedTotal(ms) == |ms| * d
    decreases |ms|
  {
    if ms != [] {
      var init := ms[..|ms| - 1];
      assert forall i :: 0 <= i < |init| ==> init[i] == ms[i];
      CompletedTotalUniform(init, d);
      assert |ms| * d == |init| * d + d;
    }
  }

  /** ... and so their average is that duration. */
  lemma AverageOfUniform(ms: seq<Metric>, d: nat)
    requires ms != []
    requires forall i :: 0 <= i < |ms| ==> ms[i].completed && ms[i].duration == d
    ensures AverageDuration(ms) == d
  {
    CompletedTotalUniform(ms, d);
    AverageBounds(ms, d);
    var avg := AverageDuration(ms);
    if avg < d {
      assert (avg + 1) * |ms| <= d * |ms| by {
        MulMonotoneNat(avg + 1, d, |ms|);
      }
      assert false;
    }
  }

  /** An unfinished metric adds nothing to the total, but counts in the average's divisor. */
  lemma UnfinishedMetricDilutes(ms: seq<Metric>, m: Metric)
    requires !m.completed
    ensures CompletedTotal(ms + [m]) == CompletedTotal(ms)
    ensures CompletedTotal(ms) >= 0 ==> AverageDuration(ms + [m]) <= AverageDuration(ms)
  {
    var ms' := ms + [m];
    assert ms'[..|ms'| - 1] == ms;
    var total := CompletedTotal(ms);
    if total >= 0 && ms != [] {
      var n, a, a' := |ms|, AverageDuration(ms), AverageDuration(ms');
      assert a' * (n + 1) <= total < (a + 1) * n;
      if a' > a {
        if a + 1 < 0 {
          MulMonotoneNat(a + 1, 0, n);
        } else {
          MulMonotoneNat(a + 1, a', n + 1);
        }
        assert false;
      }
    }
  }

  /** `map.getOrDefault(key, 0L)`. */
  function CountAt(counts: map<string, int>, key: string): (r: int)
    ensures key in counts ==> r == counts[key]
    ensures key !in counts ==> r == 0
  {
    if key in counts then counts[key] else 0
  }

  /** The counter a cache type's hits are kept under. */
  function CacheHitKey(cacheType: string): (key: string)
    ensures |key| == |cacheType| + 11 && key[..|cacheType|] == cacheType && key[|cacheType|..] == "_cache_hits"
  {
    cacheType + "_cache_hits"
  }

  /** The keys of the two cache types the monitor starts with. */
  lemma CacheHitKeys()
    ensures CacheHitKey("color") == "color_cache_hits" && CacheHitKey("stat") == "stat_cache_hits"
  {
    assert "color" + "_cache_hits" == "color_cache_hits";
    assert "stat" + "_cache_hits" == "stat_cache_hits";
  }

  const InitialCounts := map["color_cache_hits" := 0, "stat_cache_hits" := 0, "total_variants_generated" := 0,
                             "total_textures_processed" := 0]

  /** The metric lists and the counters. The constructor is the static initializer. */
  class Monitor {
    var metrics: map<string, seq<Metric>>
    var cacheStats: map<string, int>

    /** No metrics; the four counters, all 0. */
    constructor ()
      ensures metrics == map[] && cacheStats == InitialCounts
      ensures GetCacheHitCount("color") == 0 && GetCacheHitCount("stat") == 0
      ensures GetTotalVariantsGenerated() == 0 && GetTotalTexturesProcessed() == 0
    {
      metrics := map[];
      cacheStats := InitialCounts;
      new;
      CacheHitKeys();
    }

    /** `startMetric(name)` at time `now`: a new, unfinished metric at the end of the name's list. */
    method StartMetric(name: string, now: int) returns (metric: Metric)
      modifies this
      ensures fresh(metric) && metric.name == name && metric.startTime == now && !metric.completed
      ensures metrics == Append(old(metrics), name, metric) && cacheStats == old(cacheStats)
      ensures GetMetricsCount() == old(GetMetricsCount()) + (if name in old(metrics) then 0 else 1)
    {
      metric := new Metric(name, now);
      metrics := Append(metrics, name, metric);
    }

    /** `recordCacheHit(type)`: one more on the type's counter, which starts from 0. */
    method RecordCacheHit(cacheType: string)
      modifies this
      ensures cacheStats == old(cacheStats)[CacheHitKey(cacheType) := old(GetCacheHitCount(cacheType)) + 1]
      ensures GetCacheHitCount(cacheType) == old(GetCacheHitCount(cacheType)) + 1
      ensures metrics == old(metrics)
    {
      var key := CacheHitKey(cacheType);
      cacheStats := cacheStats[key := CountAt(cacheStats, key) + 1];
    }

    /**
     * One more on a counter that must be present: `map.get(key) + 1` unboxes null and
     * throws when the key is missing, leaving the counters as they were.
     */
    method Increment(key: string) returns (outcome: Result<()>)
      modifies this
      ensures outcome.Err? <==> key !in old(cacheStats)
      ensures outcome.Err? ==> outcome.error == NullPointer && cacheStats == old(cacheStats)
      ensures outcome.Ok? ==> cacheStats == old(cacheStats)[key := old(cacheStats)[key] + 1]
      ensures metrics == old(metrics)
    {
      if key !in cacheStats {
        return Err(NullPointer);
      }
      cacheStats := cacheStats[key := cacheStats[key] + 1];
      outcome := Ok(());
    }

    /** `recordVariantGenerated`: fails once `clear` has removed the counter. */
    method RecordVariantGenerated() returns (outcome: Result<()>)
      modifies this
      ensures outcome.Err? <==> "total_variants_generated" !in old(cacheStats)
      ensures outcome.Ok? ==> GetTotalVariantsGenerated() == old(GetTotalVariantsGenerated()) + 1
      ensures outcome.Err? ==> outcome.error == NullPointer && cacheStats == old(cacheStats)
      ensures metrics == old(metrics)
    {
      outcome := Increment("total_variants_generated");
    }

    /** `recordTextureProcessed`: fails once `clear` has removed the counter. */
    method RecordTextureProcessed() returns (outcome: Result<()>)
      modifies this
      ensures outcome.Err? <==> "total_textures_processed" !in old(cacheStats)
      ensures outcome.Ok? ==> GetTotalTexturesProcessed() == old(GetTotalTexturesProcessed()) + 1
      ensures outcome.Err? ==> outcome.error == NullPointer && cacheStats == old(cacheStats)
      ensures metrics == old(metrics)
    {
      outcome := Increment("total_textures_processed");
    }

    /** `getAverageDuration(name)`: 0 for an unknown name, else the average over the name's metrics. */
    function GetAverageDuration(metricName: string): int
      reads this, ListAt(metrics, metricName)
    {
      AverageDuration(ListAt(metrics, metricName))
    }

    /** `getCacheHitCount(type)`. */
    function GetCacheHitCount(cacheType: string): int
      reads this
    {
      CountAt(cacheStats, CacheHitKey(cacheType))
    }

    /** `getTotalVariantsGenerated`. */
    function GetTotalVariantsGenerated(): int
      reads this
    {
      CountAt(cacheStats, "total_variants_generated")
    }

    /** `getTotalTexturesProcessed`. */
    function GetTotalTexturesProcessed(): int
      reads this
    {
      CountAt(cacheStats, "total_textures_processed")
    }

    /** `clear`: no metrics and no counters; every getter then answers 0. */
    method Clear()
      modifies this
      ensures metrics == map[] && cacheStats == map[]
      ensures forall name :: GetAverageDuration(name) == 0
      ensures forall cacheType :: GetCacheHitCount(cacheType) == 0
      ensures GetTotalVariantsGenerated() == 0 && GetTotalTexturesProcessed() == 0 && GetMetricsCount() == 0
    {
      metrics := map[];
      cacheStats := map[];
    }

    /** `getMetricsCount`: the number of distinct metric names. */
    function GetMetricsCount(): nat
      reads this
    {
      |metrics|
    }
  }
}
