/**
 * backend/main.py `run_performance_test`: the metrics computed over the
 * results of `num_requests` consecutive tests of one API. The tests
 * themselves are network calls; their results are an input here.
 */
module Performance {
  import opened Wrappers
  import opened Apis

  /** The `metrics` dictionary of the response. */
  datatype Metrics = Metrics(
    avgResponseTime: real,
    minResponseTime: real,
    maxResponseTime: real,
    successRate: real,
    totalRequests: int,
    successfulRequests: nat)

  /** The 404 for an unknown id, and the `ZeroDivisionError` of a run without requests. */
  datatype PerformanceError = NotFound | ZeroDivision

  /** `sum(xs)` */
  function Sum(xs: seq<real>): real {
    if xs == [] then 0.0 else Sum(xs[..|xs| - 1]) + xs[|xs| - 1]
  }

  /** `min(xs)` */
  function Min(xs: seq<real>): (m: real)
    requires xs != []
    ensures m in xs && forall i :: 0 <= i < |xs| ==> m <= xs[i]
  {
    if |xs| == 1 then xs[0]
    else
      var m := Min(xs[..|xs| - 1]);
      assert forall i :: 0 <= i < |xs| - 1 ==> xs[..|xs| - 1][i] == xs[i];
      if xs[|xs| - 1] < m then xs[|xs| - 1] else m
  }

  /** `max(xs)` */
  function Max(xs: seq<real>): (m: real)
    requires xs != []
    ensures m in xs && forall i :: 0 <= i < |xs| ==> xs[i] <= m
  {
    if |xs| == 1 then xs[0]
    else
      var m := Max(xs[..|xs| - 1]);
      assert forall i :: 0 <= i < |xs| - 1 ==> xs[..|xs| - 1][i] == xs[i];
      if xs[|xs| - 1] > m then xs[|xs| - 1] else m
  }

  /** `[r["response_time"] for r in results]` */
  function ResponseTimes(results: seq<TestResult>): (times: seq<real>)
    ensures |times| == |results|
    ensures forall i :: 0 <= i < |results| ==> times[i] == results[i].responseTime
  {
    seq(|results|, i requires 0 <= i < |results| => results[i].responseTime)
  }

  /** `sum(1 for r in results if r["success"])` */
  function SuccessCount(results: seq<TestResult>): (n: nat)
    ensures n <= |results|
  {
    if results == [] then 0
    else SuccessCount(results[..|results| - 1]) + if results[|results| - 1].success then 1 else 0
  }

  /**
   * The metrics over the results of `numRequests` tests; `range` of a
   * non-positive count runs no test, and the average then divides by zero.
   */
  function ComputeMetrics(numRequests: int, results: seq<TestResult>): (r: Result<Metrics, PerformanceError>)
    requires |results| == if numRequests > 0 then numRequests else 0
    ensures r.Err? <==> numRequests <= 0
    ensures r.Err? ==> r.error == ZeroDivision
    ensures r.Ok? ==>
      var m := r.value;
      m.minResponseTime <= m.avgResponseTime <= m.maxResponseTime
      && m.minResponseTime in ResponseTimes(results) && m.maxResponseTime in ResponseTimes(results)
      && 0.0 <= m.successRate <= 100.0
      && m.totalRequests == numRequests && m.successfulRequests <= numRequests
      && (m.successRate == 100.0 <==> m.successfulRequests == numRequests)
    ensures r.Ok? ==>
      var m := r.value;
      m.avgResponseTime == Sum(ResponseTimes(results)) / |results| as real
      && m.minResponseTime == Min(ResponseTimes(results)) && m.maxResponseTime == Max(ResponseTimes(results))
      && m.successfulRequests == SuccessCount(results)
  {
    var times := ResponseTimes(results);
    var count := |times|;
    if count == 0 then Err(ZeroDivision)
    else
      var s := SuccessCount(results);
      SumBounds(times, count);
      RatioBounds(s, numRequests);
      Ok(Metrics(Sum(times) / count as real, Min(times), Max(times),
                 (s as real / numRequests as real) * 100.0, numRequests, s))
  }

  /** A lower bound on every element bounds the sum from below. */
  lemma {:induction false} SumAtLeast(xs: seq<real>, lo: real)
    requires forall i :: 0 <= i < |xs| ==> lo <= xs[i]
    ensures |xs| as real * lo <= Sum(xs)
  {
    if xs != [] {
      var init := xs[..|xs| - 1];
      assert forall i :: 0 <= i < |init| ==> init[i] == xs[i];
      SumAtLeast(init, lo);
      assert |xs| as real * lo == |init| as real * lo + lo;
    }
  }

  /** An upper bound on every element bounds the sum from above. */
  lemma {:induction false} SumAtMost(xs: seq<real>, hi: real)
    requires forall i :: 0 <= i < |xs| ==> xs[i] <= hi
    ensures Sum(xs) <= |xs| as real * hi
  {
    if xs != [] {
      var init := xs[..|xs| - 1];
      assert forall i :: 0 <= i < |init| ==> init[i] == xs[i];
      SumAtMost(init, hi);
      assert |xs| as real * hi == |init| as real * hi + hi;
    }
  }

  /** The mean of `k` elements lies between the smallest and the largest element. */
  lemma SumBounds(xs: seq<real>, k: nat)
    requires xs != [] && k == |xs|
    ensures Min(xs) <= Sum(xs) / k as real <= Max(xs)
  {
    MeanAtLeastMin(xs, k);
    MeanAtMostMax(xs, k);
  }

  /** The mean is at least the smallest element. */
  lemma MeanAtLeastMin(xs: seq<real>, k: nat)
    requires xs != [] && k == |xs|
    ensures Min(xs) <= Sum(xs) / k as real
  {
    SumAtLeast(xs, Min(xs));
    DivLower(Sum(xs), k as real, Min(xs));
  }

  /** The mean is at most the largest element. */
  lemma MeanAtMostMax(xs: seq<real>, k: nat)
    requires xs != [] && k == |xs|
    ensures Sum(xs) / k as real <= Max(xs)
  {
    SumAtMost(xs, Max(xs));
    DivUpper(Sum(xs), k as real, Max(xs));
  }

  /** Dividing `n * lo <= s` by a positive `n`. */
  lemma DivLower(s: real, n: real, lo: real)
    requires n > 0.0 && n * lo <= s
    ensures lo <= s / n
  {
    assert s / n * n == s;
  }

  /** Dividing `s <= n * hi` by a positive `n`. */
  lemma DivUpper(s: real, n: real, hi: real)
    requires n > 0.0 && s <= n * hi
    ensures s / n <= hi
  {
    assert s / n * n == s;
  }

  /** A success count out of a positive total gives a percentage in [0, 100], reaching 100 only when all succeed. */
  lemma RatioBounds(s: nat, n: int)
    requires 0 < n && s <= n
    ensures 0.0 <= (s as real / n as real) * 100.0 <= 100.0
    ensures (s as real / n as real) * 100.0 == 100.0 <==> s == n
  {
    DivLower(s as real, n as real, 0.0);
    DivUpper(s as real, n as real, 1.0);
    if (s as real / n as real) * 100.0 == 100.0 {
      assert s as real / n as real == 1.0;
      assert s as real == n as real;
    }
  }

  /** `run_performance_test`: 404 for an unknown id, the metrics otherwise. */
  function RunPerformanceTest(apis: seq<ApiRecord>, id: string, numRequests: int, results: seq<TestResult>)
    : (r: Result<Metrics, PerformanceError>)
    requires |results| == if numRequests > 0 then numRequests else 0
    ensures r == Err(NotFound) <==> !HasId(apis, id)
    ensures HasId(apis, id) ==> r == ComputeMetrics(numRequests, results)
  {
    if FirstIndex(apis, id).None? then Err(NotFound) else ComputeMetrics(numRequests, results)
  }

  /** Every test succeeding gives a success rate of exactly 100, and every test failing gives 0. */
  lemma {:induction false} AllSucceed(results: seq<TestResult>)
    ensures (forall i :: 0 <= i < |results| ==> results[i].success) ==> SuccessCount(results) == |results|
    ensures (forall i :: 0 <= i < |results| ==> !results[i].success) ==> SuccessCount(results) == 0
  {
    if results != [] {
      AllSucceed(results[..|results| - 1]);
    }
  }

  /** The success count reaches the number of results exactly when every test succeeded. */
  lemma {:induction false} SuccessCountFull(results: seq<TestResult>)
    ensures SuccessCount(results) == |results| <==> forall i :: 0 <= i < |results| ==> results[i].success
  {
    if results != [] {
      var init := results[..|results| - 1];
      SuccessCountFull(init);
      assert forall i :: 0 <= i < |init| ==> init[i] == results[i];
    }
  }

  /** A run reports a success rate of 100 exactly when every one of its tests succeeded. */
  lemma FullRateIffAllSucceed(numRequests: int, results: seq<TestResult>)
    requires |results| == if numRequests > 0 then numRequests else 0
    requires numRequests > 0
    ensures ComputeMetrics(numRequests, results).value.successRate == 100.0
            <==> forall i :: 0 <= i < |results| ==> results[i].success
  {
    SuccessCountFull(results);
  }
}
