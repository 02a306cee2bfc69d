/**
  One pass over the samples, then the figures. `Summarized` says what the summary of a list of
  samples is; the lemmas say how its figures relate and that the order of samples is immaterial.
 */
module BenchmarkSummary {
  import opened Rounding
  import opened Percentiles

  datatype Sample = Sample(index: int, latency: real, ttft: real, promptTokens: int, outputTokens: int,
                           tokensPerSec: real, success: bool, error: string)

  datatype Summary = Summary(total: nat, successes: nat, errors: int, successRate: real, qps: real,
                             p50: real, p95: real, p99: real, avgLatency: real, minLatency: real, maxLatency: real,
                             avgTtft: real, avgTokensPerSec: real, runtimeSec: real)

  function SafeDiv(a: real, b: real): real {
    if b <= 0.0 then 0.0 else a / b
  }

  function MinFloat(s: seq<real>): real {
    if |s| == 0 then 0.0 else Round(s[0], 2)
  }

  function MaxFloat(s: seq<real>): real {
    if |s| == 0 then 0.0 else Round(s[|s| - 1], 2)
  }

  // ----- sorting -----

  function Insert(s: seq<real>, x: real): (r: seq<real>)
    requires Ascending(s)
    ensures Ascending(r) && multiset(r) == multiset(s) + multiset{x}
    ensures forall k | 0 <= k < |r| :: r[k] in s || r[k] == x
  {
    if s == [] || s[|s| - 1] <= x then s + [x]
    else
      var last := s[|s| - 1];
      assert s == s[..|s| - 1] + [last];
      var rest := Insert(s[..|s| - 1], x);
      LastStaysLast(s, x, rest);
      rest + [last]
  }

  lemma LastStaysLast(s: seq<real>, x: real, rest: seq<real>)
    requires Ascending(s) && s != [] && x <= s[|s| - 1] && Ascending(rest)
    requires forall k | 0 <= k < |rest| :: rest[k] in s[..|s| - 1] || rest[k] == x
    ensures Ascending(rest + [s[|s| - 1]])
  {
    forall k | 0 <= k < |rest| ensures rest[k] <= s[|s| - 1] {
      if rest[k] != x {
        var i :| 0 <= i < |s| - 1 && s[i] == rest[k];
        assert s[i] <= s[|s| - 1];
      }
    }
  }

  /** The library's sort, known by its contract alone. */
  function Sorted(s: seq<real>): (r: seq<real>)
    ensures Ascending(r) && multiset(r) == multiset(s) && |r| == |s|
  {
    if s == [] then []
    else
      assert s == s[..|s| - 1] + [s[|s| - 1]];
      var r := Insert(Sorted(s[..|s| - 1]), s[|s| - 1]);
      assert |multiset(r)| == |r| && |multiset(s)| == |s|;
      r
  }

  lemma SameLength(s: seq<real>, t: seq<real>)
    requires multiset(s) == multiset(t)
    ensures |s| == |t|
  {
    assert |multiset(s)| == |s| && |multiset(t)| == |t|;
  }

  lemma LastAgrees(s: seq<real>, t: seq<real>)
    requires Ascending(s) && Ascending(t) && multiset(s) == multiset(t) && s != [] && t != []
    ensures s[|s| - 1] == t[|t| - 1]
  {
    assert s[|s| - 1] in multiset(t);
    assert t[|t| - 1] in multiset(s);
  }

  lemma DropLast(s: seq<real>)
    requires s != []
    ensures multiset(s[..|s| - 1]) == multiset(s) - multiset{s[|s| - 1]}
  {
    assert s == s[..|s| - 1] + [s[|s| - 1]];
  }

  /** A multiset has one ascending arrangement. */
  lemma {:induction false} AscendingIsUnique(s: seq<real>, t: seq<real>)
    requires Ascending(s) && Ascending(t) && multiset(s) == multiset(t)
    ensures s == t
  {
    SameLength(s, t);
    if s != [] {
      var n := |s| - 1;
      LastAgrees(s, t);
      DropLast(s);
      DropLast(t);
      AscendingIsUnique(s[..n], t[..n]);
      assert s == s[..n] + [s[n]] && t == t[..n] + [t[n]];
    }
  }

  // ----- what one pass collects -----

  datatype Totals = Totals(successes: nat, latency: real, tokens: real, ttft: real, ttftCount: nat, latencies: multiset<real>)

  function Add(t: Totals, s: Sample): Totals {
    if !s.success then t
    else
      Totals(t.successes + 1, t.latency + s.latency, t.tokens + s.tokensPerSec,
             if s.ttft > 0.0 then t.ttft + s.ttft else t.ttft,
             if s.ttft > 0.0 then t.ttftCount + 1 else t.ttftCount,
             t.latencies + multiset{s.latency})
  }

  function Collect(samples: seq<Sample>): Totals {
    if samples == [] then Totals(0, 0.0, 0.0, 0.0, 0, multiset{})
    else Add(Collect(samples[..|samples| - 1]), samples[|samples| - 1])
  }

  /** The latencies of the successful samples, in sample order. */
  function Latencies(samples: seq<Sample>): seq<real> {
    if samples == [] then []
    else
      var last := samples[|samples| - 1];
      Latencies(samples[..|samples| - 1]) + if last.success then [last.latency] else []
  }

  function Summarized(samples: seq<Sample>, runtimeSec: real): Summary {
    if samples == [] then Summary(0, 0, 0, 0.0, 0.0, 0.0, 0.0, 0.0, 0.0, 0.0, 0.0, 0.0, 0.0, runtimeSec)
    else
      var t, s := Collect(samples), Sorted(Latencies(samples));
      Figures(|samples|, t, s, runtimeSec)
  }

  function Figures(total: nat, t: Totals, s: seq<real>, runtimeSec: real): Summary
    requires 0 < total
  {
    Summary(total, t.successes, total - t.successes,
            Round(t.successes as real / total as real, 4),
            Round(SafeDiv(t.successes as real, runtimeSec), 2),
            Percentile(s, 0.50), Percentile(s, 0.95), Percentile(s, 0.99),
            Round(SafeDiv(t.latency, t.successes as real), 2), MinFloat(s), MaxFloat(s),
            Round(SafeDiv(t.ttft, t.ttftCount as real), 2),
            Round(SafeDiv(t.tokens, t.successes as real), 2),
            Round(runtimeSec, 3))
  }

  // ----- the order of the samples is immaterial -----

  lemma AddCommutes(t: Totals, a: Sample, b: Sample)
    ensures Add(Add(t, a), b) == Add(Add(t, b), a)
  {
  }

  lemma CollectSnoc(samples: seq<Sample>, s: Sample)
    ensures Collect(samples + [s]) == Add(Collect(samples), s)
  {
    hide Add;
    assert (samples + [s])[..|samples|] == samples;
  }

  /** A sample may be moved to the end. */
  lemma {:induction false} MoveToEnd(front: seq<Sample>, s: Sample, back: seq<Sample>)
    ensures Collect(front + [s] + back) == Add(Collect(front + back), s)
    decreases |back|
  {
    hide Add, Collect;
    if back == [] {
      assert front + [s] + back == front + [s] && front + back == front;
      CollectSnoc(front, s);
    } else {
      var rest, last := back[..|back| - 1], back[|back| - 1];
      assert back == rest + [last];
      MoveToEnd(front, s, rest);
      assert front + [s] + back == front + [s] + rest + [last] && front + back == front + rest + [last];
      CollectSnoc(front + [s] + rest, last);
      CollectSnoc(front + rest, last);
      AddCommutes(Collect(front + rest), s, last);
    }
  }

  lemma RemoveOne(a: seq<Sample>, front: seq<Sample>, s: Sample, back: seq<Sample>)
    requires multiset(a + [s]) == multiset(front + [s] + back)
    ensures multiset(a) == multiset(front + back)
  {
    assert multiset(a + [s]) == multiset(a) + multiset{s};
    assert multiset(front + [s] + back) == multiset(front + back) + multiset{s};
    assert multiset(a) == multiset(a + [s]) - multiset{s};
    assert multiset(front + back) == multiset(front + [s] + back) - multiset{s};
  }

  lemma {:induction false} CollectIgnoresOrder(a: seq<Sample>, b: seq<Sample>)
    requires multiset(a) == multiset(b)
    ensures Collect(a) == Collect(b)
    decreases |a|
  {
    hide Add, Collect;
    assert |multiset(a)| == |a| && |multiset(b)| == |b|;
    if a == [] {
      assert b == [];
    } else {
      var rest, last := a[..|a| - 1], a[|a| - 1];
      assert a == rest + [last];
      assert last in multiset(b);
      var k :| 0 <= k < |b| && b[k] == last;
      assert b == b[..k] + [last] + b[k + 1..];
      RemoveOne(rest, b[..k], last, b[k + 1..]);
      CollectIgnoresOrder(rest, b[..k] + b[k + 1..]);
      MoveToEnd(b[..k], last, b[k + 1..]);
      CollectSnoc(rest, last);
    }
  }

  lemma {:induction false} LatenciesAreCollected(samples: seq<Sample>)
    ensures multiset(Latencies(samples)) == Collect(samples).latencies
    ensures |Latencies(samples)| == Collect(samples).successes <= |samples|
  {
    if samples != [] {
      LatenciesAreCollected(samples[..|samples| - 1]);
    }
  }

  /** Main result: the summary depends on which samples there are, not on their order. */
  lemma SummaryIgnoresOrder(a: seq<Sample>, b: seq<Sample>, runtimeSec: real)
    requires multiset(a) == multiset(b)
    ensures Summarized(a, runtimeSec) == Summarized(b, runtimeSec)
  {
    hide Figures, Collect, Latencies, Sorted;
    assert |multiset(a)| == |a| && |multiset(b)| == |b|;
    CollectIgnoresOrder(a, b);
    LatenciesAreCollected(a);
    LatenciesAreCollected(b);
    AscendingIsUnique(Sorted(Latencies(a)), Sorted(Latencies(b)));
  }

  // ----- how the figures relate -----

  function Sum(s: seq<real>): real {
    if s == [] then 0.0 else Sum(s[..|s| - 1]) + s[|s| - 1]
  }

  lemma {:induction false} SumIsCollected(samples: seq<Sample>)
    ensures Sum(Latencies(samples)) == Collect(samples).latency
  {
    if samples != [] {
      var n := |samples| - 1;
      SumIsCollected(samples[..n]);
      var rest := Latencies(samples[..n]);
      assert (rest + [samples[n].latency])[..|rest|] == rest;
      assert rest + [] == rest;
    }
  }

  function Times(n: nat, x: real): real {
    n as real * x
  }

  lemma TimesStep(n: nat, x: real)
    ensures Times(n + 1, x) == Times(n, x) + x
  {
  }

  lemma {:induction false} SumBounds(s: seq<real>, lo: real, hi: real)
    requires forall k | 0 <= k < |s| :: lo <= s[k] <= hi
    ensures Times(|s|, lo) <= Sum(s) <= Times(|s|, hi)
  {
    if s != [] {
      var n := |s| - 1;
      SumBounds(s[..n], lo, hi);
      TimesStep(n, lo);
      TimesStep(n, hi);
      hide Times;
    }
  }

  lemma MeanBounds(total: real, n: nat, lo: real, hi: real)
    requires n > 0 && Times(n, lo) <= total <= Times(n, hi)
    ensures lo <= SafeDiv(total, n as real) <= hi
  {
    DivOrder(Times(n, lo), total, n as real);
    DivOrder(total, Times(n, hi), n as real);
    CancelTimes(n, lo);
    CancelTimes(n, hi);
  }

  lemma CancelTimes(n: nat, x: real)
    requires n > 0
    ensures Times(n, x) / n as real == x
  {
  }

  /** The ends of the sorted list are the least and the greatest latency. */
  lemma EndsAreExtremes(s: seq<real>)
    requires s != []
    ensures var r := Sorted(s);
            r[0] in s && r[|s| - 1] in s && forall k | 0 <= k < |s| :: r[0] <= s[k] <= r[|s| - 1]
  {
    hide Sorted;
    var r := Sorted(s);
    assert r[0] in multiset(r) && r[|s| - 1] in multiset(r);
    forall k | 0 <= k < |s| ensures r[0] <= s[k] <= r[|s| - 1] {
      assert s[k] in multiset(s);
      assert s[k] in r;
    }
  }

  lemma MeanIsBetween(samples: seq<Sample>)
    requires Latencies(samples) != []
    ensures var s, t := Sorted(Latencies(samples)), Collect(samples);
            s[0] <= SafeDiv(t.latency, t.successes as real) <= s[|s| - 1]
  {
    hide Sorted, Collect, Latencies, SafeDiv, Times, Sum, Ascending;
    var l := Latencies(samples);
    var s := Sorted(l);
    LatenciesAreCollected(samples);
    SumIsCollected(samples);
    EndsAreExtremes(l);
    SumBounds(l, s[0], s[|s| - 1]);
    MeanBounds(Collect(samples).latency, |l|, s[0], s[|s| - 1]);
  }

  /** Main result: with at least one success the figures are ordered, after rounding, and the
      ends are the rounded extremes. */
  lemma FiguresAreOrdered(samples: seq<Sample>, runtimeSec: real)
    requires exists k :: 0 <= k < |samples| && samples[k].success
    ensures var r := Summarized(samples, runtimeSec);
            && r.minLatency <= r.p50 <= r.p95 <= r.p99 <= r.maxLatency
            && r.minLatency <= r.avgLatency <= r.maxLatency
            && 0 < r.successes && r.successes + r.errors == r.total == |samples|
    ensures var r, l := Summarized(samples, runtimeSec), Latencies(samples);
            && (exists x :: x in l && r.minLatency == Round(x, 2) && forall k | 0 <= k < |l| :: x <= l[k])
            && (exists x :: x in l && r.maxLatency == Round(x, 2) && forall k | 0 <= k < |l| :: l[k] <= x)
  {
    var k :| 0 <= k < |samples| && samples[k].success;
    SuccessHasLatency(samples, k);
    LatenciesAreCollected(samples);
    MeanIsBetween(samples);
    EndsAreExtremes(Latencies(samples));
    var s := Sorted(Latencies(samples));
    hide Sorted, Collect, Latencies, SafeDiv, Round, Percentile, Ascending;
    PercentilesAreOrdered(s, 0.50, 0.95);
    PercentilesAreOrdered(s, 0.95, 0.99);
    var t := Collect(samples);
    var mean := SafeDiv(t.latency, t.successes as real);
    RoundIsMonotone(s[0], mean, 2);
    RoundIsMonotone(mean, s[|s| - 1], 2);
  }

  lemma {:induction false} SuccessHasLatency(samples: seq<Sample>, k: nat)
    requires k < |samples| && samples[k].success
    ensures samples[k].latency in Latencies(samples)
  {
    if k < |samples| - 1 {
      SuccessHasLatency(samples[..|samples| - 1], k);
    }
  }

  // ----- the figures in terms of the samples -----

  /** The sum of a measure over all samples. */
  function Total(samples: seq<Sample>, measure: Sample -> real): real {
    if samples == [] then 0.0 else Total(samples[..|samples| - 1], measure) + measure(samples[|samples| - 1])
  }

  lemma {:induction false} CollectIsTotal(samples: seq<Sample>)
    ensures var t := Collect(samples);
            && t.successes as real == Total(samples, (s: Sample) => if s.success then 1.0 else 0.0)
            && t.ttftCount as real == Total(samples, (s: Sample) => if s.success && s.ttft > 0.0 then 1.0 else 0.0)
            && t.latency == Total(samples, (s: Sample) => if s.success then s.latency else 0.0)
            && t.tokens == Total(samples, (s: Sample) => if s.success then s.tokensPerSec else 0.0)
            && t.ttft == Total(samples, (s: Sample) => if s.success && s.ttft > 0.0 then s.ttft else 0.0)
  {
    if samples != [] {
      CollectIsTotal(samples[..|samples| - 1]);
    }
  }

  /** Rates, averages and counts of a summary; an average over nothing, or a rate over no time, is 0. */
  lemma FiguresInFull(samples: seq<Sample>, runtimeSec: real)
    requires samples != []
    ensures var r := Summarized(samples, runtimeSec);
            && r.total == |samples| && r.errors == r.total - r.successes
            && r.successes as real == Total(samples, (s: Sample) => if s.success then 1.0 else 0.0)
            && r.successRate == Round(r.successes as real / r.total as real, 4)
            && r.qps == Round(if runtimeSec <= 0.0 then 0.0 else r.successes as real / runtimeSec, 2)
            && r.runtimeSec == Round(runtimeSec, 3)
    ensures var r, n := Summarized(samples, runtimeSec), Total(samples, (s: Sample) => if s.success then 1.0 else 0.0);
            && r.avgLatency == Round(if n == 0.0 then 0.0
                                     else Total(samples, (s: Sample) => if s.success then s.latency else 0.0) / n, 2)
            && r.avgTokensPerSec == Round(if n == 0.0 then 0.0
                                          else Total(samples, (s: Sample) => if s.success then s.tokensPerSec else 0.0) / n, 2)
    ensures var n := Total(samples, (s: Sample) => if s.success && s.ttft > 0.0 then 1.0 else 0.0);
            Summarized(samples, runtimeSec).avgTtft
            == Round(if n == 0.0 then 0.0
                     else Total(samples, (s: Sample) => if s.success && s.ttft > 0.0 then s.ttft else 0.0) / n, 2)
    ensures var r, l := Summarized(samples, runtimeSec), Sorted(Latencies(samples));
            r.p50 == Percentile(l, 0.50) && r.p95 == Percentile(l, 0.95) && r.p99 == Percentile(l, 0.99)
  {
    CollectIsTotal(samples);
    hide Round, Percentile, Sorted, Collect, Total, Latencies;
  }

  /** One pass, one sort, then the figures. */
  method Summarize(samples: seq<Sample>, runtimeSec: real) returns (r: Summary)
    ensures r == Summarized(samples, runtimeSec)
    ensures samples == [] ==> r == Summary(0, 0, 0, 0.0, 0.0, 0.0, 0.0, 0.0, 0.0, 0.0, 0.0, 0.0, 0.0, runtimeSec)
  {
    hide Round, Percentile, Sorted;
    var total := |samples|;
    if total == 0 {
      return Summary(0, 0, 0, 0.0, 0.0, 0.0, 0.0, 0.0, 0.0, 0.0, 0.0, 0.0, 0.0, runtimeSec);
    }
    var successCount, ttftCount: nat := 0, 0;
    var latencies: seq<real> := [];
    var totalLatency, totalTPS, totalTTFT := 0.0, 0.0, 0.0;
    for i := 0 to total
      invariant latencies == Latencies(samples[..i])
      invariant var t := Collect(samples[..i]);
                && t.successes == successCount && t.latency == totalLatency && t.tokens == totalTPS
                && t.ttft == totalTTFT && t.ttftCount == ttftCount
    {
      var s := samples[i];
      assert samples[..i + 1][..i] == samples[..i];
      if !s.success {
        continue;
      }
      successCount := successCount + 1;
      latencies := latencies + [s.latency];
      totalLatency := totalLatency + s.latency;
      totalTPS := totalTPS + s.tokensPerSec;
      if s.ttft > 0.0 {
        totalTTFT := totalTTFT + s.ttft;
        ttftCount := ttftCount + 1;
      }
    }
    assert samples[..total] == samples;
    LatenciesAreCollected(samples);
    latencies := Sorted(latencies);
    var errorCount := total - successCount;
    var successRate := successCount as real / total as real;
    var qps := SafeDiv(successCount as real, runtimeSec);
    var avgLatency := SafeDiv(totalLatency, successCount as real);
    var avgTPS := SafeDiv(totalTPS, successCount as real);
    var avgTTFT := SafeDiv(totalTTFT, ttftCount as real);
    r := Summary(total, successCount, errorCount, Round(successRate, 4), Round(qps, 2),
                 Percentile(latencies, 0.50), Percentile(latencies, 0.95), Percentile(latencies, 0.99),
                 Round(avgLatency, 2), MinFloat(latencies), MaxFloat(latencies),
                 Round(avgTTFT, 2), Round(avgTPS, 2), Round(runtimeSec, 3));
  }
}
