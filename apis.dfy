/**
 * backend/main.py: the API records the dashboard keeps in its module-level
 * `apis` list, the handlers that append to, filter and clear that list, the
 * status transitions of a single API test, and the per-status summary every
 * listing returns.
 */
module Apis {
  import opened Wrappers
  import opened Text

  /** The `status` field of an API record. */
  datatype Status = Pending | Running | Completed | Failed

  /** The dictionary a single API test returns; the response body and headers are not modelled. */
  datatype TestResult = TestResult(success: bool, error: Option<string>, responseTime: real, statusCode: Option<int>)

  /** One entry of the `apis` list. */
  datatype ApiRecord = ApiRecord(
    id: string,
    name: string,
    url: string,
    httpMethod: string,
    headers: map<string, string>,
    body: Option<string>,
    status: Status,
    testResults: Option<TestResult>)

  const UnnamedApi: string := "Unnamed API"

  /** `url.split('/')[-1] or 'Unnamed API'`, the name given to an API parsed from Burp or cURL input. */
  function ApiName(url: string): (name: string)
    ensures name != []
  {
    var parts := Split(url, '/');
    if parts[|parts| - 1] == [] then UnnamedApi else parts[|parts| - 1]
  }

  /**
   * The name is the placeholder exactly when the URL is empty or ends with
   * `/`; otherwise it is the URL's longest suffix without `/`.
   */
  lemma ApiNameRule(url: string)
    ensures url == [] || url[|url| - 1] == '/' ==> ApiName(url) == UnnamedApi
    ensures url != [] && url[|url| - 1] != '/' ==>
      var name := ApiName(url);
      '/' !in name && EndsWith(url, name) && (|name| == |url| || url[|url| - |name| - 1] == '/')
  {
    SplitLast(url, '/');
    SplitLastEmpty(url, '/');
  }

  /**
   * `key, value = line.split(':', 1)` followed by stripping both halves: the
   * header entry a cURL `-H` argument or a Burp header line contributes, or
   * `None` for a line without `:`, which the parsers drop.
   */
  function HeaderEntry(line: string): (r: Option<(string, string)>)
    ensures r.None? <==> ':' !in line
  {
    match SplitOnce(line, ':')
    case None => None
    case Some((k, v)) => Some((Strip(k), Strip(v)))
  }

  /**
   * `headers[key.strip()] = value.strip()` when the line holds `:`, the key
   * being what precedes the first `:` and the value what follows it; the
   * headers unchanged otherwise.
   */
  function AddHeader(headers: map<string, string>, line: string): (r: map<string, string>)
    ensures ':' !in line ==> r == headers
    ensures ':' in line ==> var k := IndexOf(line, ':');
      r == headers[Strip(line[..k]) := Strip(line[k + 1..])]
  {
    match SplitOnce(line, ':')
    case None => headers
    case Some((k, v)) =>
      IndexOfConcat(k, ':', v);
      assert line[..|k|] == k && line[|k| + 1..] == v;
      headers[Strip(k) := Strip(v)]
  }

  /** `if ':' in line`: split at the first `:` and store the stripped key and value. */
  method StoreHeader(headers: map<string, string>, line: string) returns (r: map<string, string>)
    ensures r == AddHeader(headers, line)
  {
    r := headers;
    if ':' in line {
      var (k, v) := HeaderEntry(line).value;
      r := headers[k := v];
    }
  }

  /** A header written `key: value` is read back as the stripped key and value. */
  lemma HeaderEntryRoundTrip(key: string, value: string)
    requires ':' !in key
    ensures HeaderEntry(key + [':'] + value) == Some((Strip(key), Strip(value)))
  {
    SplitOnceConcat(key, ':', value);
  }

  /** Adding the line `key: value` sets the stripped key to the stripped value. */
  lemma AddHeaderLine(headers: map<string, string>, key: string, value: string)
    requires ':' !in key
    ensures AddHeader(headers, key + [':'] + value) == headers[Strip(key) := Strip(value)]
  {
    HeaderEntryRoundTrip(key, value);
  }

  /** The later of two header lines with the same key wins. */
  lemma HeaderOverwrite(headers: map<string, string>, key: string, v1: string, v2: string)
    requires ':' !in key
    ensures AddHeader(AddHeader(headers, key + [':'] + v1), key + [':'] + v2) == headers[Strip(key) := Strip(v2)]
  {
    AddHeaderLine(headers, key, v1);
    AddHeaderLine(headers[Strip(key) := Strip(v1)], key, v2);
    MapOverwrite(headers, Strip(key), Strip(v1), Strip(v2));
  }

  lemma MapOverwrite<K, V>(m: map<K, V>, k: K, a: V, b: V)
    ensures m[k := a][k := b] == m[k := b]
  {
  }

  /** The outcome of awaiting the test of one API: the tester's result, or an exception with its message. */
  datatype TestOutcome = Returned(result: TestResult) | Raised(message: string)

  /** `test_result.get("error")` is truthy. */
  predicate HasError(r: TestResult) {
    r.error.Some? && r.error.value != []
  }

  /** The status `run_api_test` leaves behind once the test has finished. */
  function FinalStatus(outcome: TestOutcome): (s: Status)
    ensures s == Completed || s == Failed
    ensures s == Completed <==> outcome.Returned? && !HasError(outcome.result) && outcome.result.success
  {
    match outcome
    case Raised(_) => Failed
    case Returned(r) => if HasError(r) then Failed else if r.success then Completed else Failed
  }

  /** The `test_results` `run_api_test` stores once the test has finished. */
  function FinalResults(outcome: TestOutcome): (r: TestResult)
    ensures outcome.Returned? ==> r == outcome.result
    ensures outcome.Raised? ==> !r.success && r.error == Some(outcome.message) && r.responseTime == 0.0 && r.statusCode == None
  {
    match outcome
    case Raised(msg) => TestResult(false, Some(msg), 0.0, None)
    case Returned(r) => r
  }

  /** Some entry carries this id. */
  predicate HasId(apis: seq<ApiRecord>, id: string) {
    exists i :: 0 <= i < |apis| && apis[i].id == id
  }

  /** `next((a for a in apis if a["id"] == api_id), None)`, as a position. */
  function FirstIndex(apis: seq<ApiRecord>, id: string): (k: Option<nat>)
    ensures k.None? <==> !HasId(apis, id)
    ensures k.Some? ==> k.value < |apis| && apis[k.value].id == id
                        && forall j :: 0 <= j < k.value ==> apis[j].id != id
  {
    if apis == [] then None
    else if apis[0].id == id then Some(0)
    else
      match FirstIndex(apis[1..], id)
      case None => None
      case Some(k) => Some(k + 1)
  }

  /** `[api for api in apis if api["id"] != api_id]` */
  function WithoutId(apis: seq<ApiRecord>, id: string): (r: seq<ApiRecord>)
    ensures forall i :: 0 <= i < |r| ==> r[i].id != id
    ensures forall a :: a in apis && a.id != id ==> a in r
    ensures forall a :: a in r ==> a in apis
    ensures |r| <= |apis|
    ensures |r| == |apis| <==> !HasId(apis, id)
  {
    if apis == [] then []
    else
      var rest := WithoutId(apis[1..], id);
      assert HasId(apis, id) <==> apis[0].id == id || HasId(apis[1..], id) by {
        if HasId(apis, id) && apis[0].id != id {
          var i :| 0 <= i < |apis| && apis[i].id == id;
          assert apis[1..][i - 1].id == id;
        }
        if HasId(apis[1..], id) {
          var i :| 0 <= i < |apis[1..]| && apis[1..][i].id == id;
          assert apis[i + 1].id == id;
        }
      }
      if apis[0].id != id then [apis[0]] + rest else rest
  }

  /** Filtering keeps the survivors in their original order: it distributes over concatenation. */
  lemma {:induction false} WithoutIdConcat(a: seq<ApiRecord>, b: seq<ApiRecord>, id: string)
    ensures WithoutId(a + b, id) == WithoutId(a, id) + WithoutId(b, id)
  {
    if a == [] {
      assert a + b == b;
    } else {
      assert (a + b)[0] == a[0];
      assert (a + b)[1..] == a[1..] + b;
      WithoutIdConcat(a[1..], b, id);
    }
  }

  /** When no entry carries the id, filtering changes nothing. */
  lemma {:induction false} WithoutIdNoMatch(apis: seq<ApiRecord>, id: string)
    requires !HasId(apis, id)
    ensures WithoutId(apis, id) == apis
  {
    if apis != [] {
      assert apis[0].id != id;
      forall i | 0 <= i < |apis[1..]| ensures apis[1..][i].id != id {
        assert apis[1..][i] == apis[i + 1];
      }
      WithoutIdNoMatch(apis[1..], id);
      assert [apis[0]] + apis[1..] == apis;
    }
  }

  /** `len([api for api in apis if api["status"] == s])` */
  function CountStatus(apis: seq<ApiRecord>, s: Status): (n: nat)
    ensures n <= |apis|
  {
    if apis == [] then 0 else (if apis[0].status == s then 1 else 0) + CountStatus(apis[1..], s)
  }

  /** The `status_summary` object the listing and upload handlers return. */
  datatype StatusSummary = StatusSummary(pending: nat, running: nat, completed: nat, failed: nat)

  function Summarize(apis: seq<ApiRecord>): StatusSummary {
    StatusSummary(CountStatus(apis, Pending), CountStatus(apis, Running),
                  CountStatus(apis, Completed), CountStatus(apis, Failed))
  }

  /** Every entry is counted under exactly one status. */
  lemma {:induction false} SummaryTotal(apis: seq<ApiRecord>)
    ensures var s := Summarize(apis); s.pending + s.running + s.completed + s.failed == |apis|
  {
    if apis != [] {
      SummaryTotal(apis[1..]);
    }
  }

  /** Counting is additive over concatenation, so an upload adds its own counts. */
  lemma {:induction false} CountStatusConcat(a: seq<ApiRecord>, b: seq<ApiRecord>, s: Status)
    ensures CountStatus(a + b, s) == CountStatus(a, s) + CountStatus(b, s)
  {
    if a == [] {
      assert a + b == b;
    } else {
      assert (a + b)[1..] == a[1..] + b;
      CountStatusConcat(a[1..], b, s);
    }
  }

  /** An appended entry adds one to the count of its own status. */
  lemma CountStatusSnoc(apis: seq<ApiRecord>, a: ApiRecord, s: Status)
    ensures CountStatus(apis + [a], s) == CountStatus(apis, s) + (if a.status == s then 1 else 0)
  {
    CountStatusConcat(apis, [a], s);
  }

  /** Changing the status of one entry moves exactly one unit between two counts. */
  lemma {:induction false} CountStatusAfterUpdate(apis: seq<ApiRecord>, k: nat, r: ApiRecord, s: Status)
    requires k < |apis|
    ensures CountStatus(apis[k := r], s)
         == CountStatus(apis, s) - (if apis[k].status == s then 1 else 0) + (if r.status == s then 1 else 0)
  {
    if k > 0 {
      assert apis[k := r][1..] == apis[1..][k - 1 := r];
      CountStatusAfterUpdate(apis[1..], k - 1, r, s);
    } else {
      assert apis[k := r][1..] == apis[1..];
    }
  }

  /** No entry has the status: it is not counted. */
  lemma {:induction false} CountStatusAbsent(apis: seq<ApiRecord>, s: Status)
    requires forall i :: 0 <= i < |apis| ==> apis[i].status != s
    ensures CountStatus(apis, s) == 0
  {
    if apis != [] {
      assert forall i :: 0 <= i < |apis[1..]| ==> apis[1..][i] == apis[i + 1];
      CountStatusAbsent(apis[1..], s);
    }
  }

  /** What `run_all_apis` does to one entry: one already running is left alone, every other one goes through the tester. */
  function RunAllRecord(a: ApiRecord, outcome: TestOutcome): (r: ApiRecord)
    ensures a.status == Running ==> r == a
    ensures a.status != Running ==> (r.status == FinalStatus(outcome) && r.testResults == Some(FinalResults(outcome))
                                     && r.(status := a.status, testResults := a.testResults) == a)
  {
    if a.status == Running then a
    else a.(status := FinalStatus(outcome), testResults := Some(FinalResults(outcome)))
  }

  /** The positions of the entries `run_all_apis` queues: those not already running, in list order. */
  function Queued(apis: seq<ApiRecord>): (q: seq<nat>)
    ensures forall j :: 0 <= j < |q| ==> q[j] < |apis|
    ensures forall j, k :: 0 <= j < k < |q| ==> q[j] < q[k]
    ensures forall i :: 0 <= i < |apis| ==> (i in q <==> apis[i].status != Running)
  {
    if apis == [] then []
    else
      var n := |apis| - 1;
      var front := apis[..n];
      var q := Queued(front);
      assert forall i :: 0 <= i < n ==> front[i] == apis[i];
      if apis[n].status != Running then q + [n] else q
  }

  /** The results `run_all_apis` returns: one finished record per queued entry, in queue order. */
  function Finished(apis: seq<ApiRecord>, outcomes: seq<TestOutcome>): (results: seq<ApiRecord>)
    requires |outcomes| == |apis|
  {
    var q := Queued(apis);
    seq(|q|, j requires 0 <= j < |q| => RunAllRecord(apis[q[j]], outcomes[q[j]]))
  }

  /** One more entry extends the queue by its position, unless it is already running. */
  lemma QueuedStep(apis: seq<ApiRecord>, i: nat)
    requires i < |apis|
    ensures Queued(apis[..i + 1]) == if apis[i].status != Running then Queued(apis[..i]) + [i] else Queued(apis[..i])
    ensures forall j :: 0 <= j < |Queued(apis[..i])| ==> Queued(apis[..i])[j] < i
  {
    assert apis[..i + 1][..i] == apis[..i];
  }

  /** Exactly the entries that were not running are queued. */
  lemma {:induction false} QueuedCount(apis: seq<ApiRecord>)
    ensures |Queued(apis)| + CountStatus(apis, Running) == |apis|
  {
    if apis != [] {
      var n := |apis| - 1;
      QueuedCount(apis[..n]);
      QueuedLength(apis, n);
      CountStatusLast(apis, n);
    }
  }

  /** The last entry adds one to the queue unless it is running. */
  lemma QueuedLength(apis: seq<ApiRecord>, n: nat)
    requires n + 1 == |apis|
    ensures |Queued(apis)| == |Queued(apis[..n])| + (if apis[n].status != Running then 1 else 0)
  {
    QueuedStep(apis, n);
    assert apis[..n + 1] == apis;
  }

  /** The last entry adds one to the running count when it is running. */
  lemma CountStatusLast(apis: seq<ApiRecord>, n: nat)
    requires n + 1 == |apis|
    ensures CountStatus(apis, Running) == CountStatus(apis[..n], Running) + (if apis[n].status == Running then 1 else 0)
  {
    CountStatusSnoc(apis[..n], apis[n], Running);
    assert apis[..n] + [apis[n]] == apis;
  }

  /** Every returned record has finished, as passed or failed, and keeps the id of the entry it came from. */
  lemma FinishedRecords(apis: seq<ApiRecord>, outcomes: seq<TestOutcome>)
    requires |outcomes| == |apis|
    ensures |Finished(apis, outcomes)| + CountStatus(apis, Running) == |apis|
    ensures forall j :: 0 <= j < |Finished(apis, outcomes)| ==>
              Finished(apis, outcomes)[j].status in {Completed, Failed}
              && Finished(apis, outcomes)[j].id == apis[Queued(apis)[j]].id
  {
    QueuedCount(apis);
  }

  /** Every entry that was not running has its finished record among the results. */
  lemma FinishedHas(apis: seq<ApiRecord>, outcomes: seq<TestOutcome>, i: nat)
    requires |outcomes| == |apis| && i < |apis| && apis[i].status != Running
    ensures RunAllRecord(apis[i], outcomes[i]) in Finished(apis, outcomes)
  {
    var q := Queued(apis);
    var j :| 0 <= j < |q| && q[j] == i;
    assert Finished(apis, outcomes)[j] == RunAllRecord(apis[i], outcomes[i]);
  }

  datatype StoreError = ApiNotFound

  /** The module-level `apis` list (line 39) and the handlers that change it. */
  class ApiStore {
    var apis: seq<ApiRecord>

    constructor ()
      ensures apis == []
    {
      apis := [];
    }

    /** The upload handlers: every parsed record is appended, in order. */
    method Append(batch: seq<ApiRecord>)
      modifies this
      ensures apis == old(apis) + batch
    {
      apis := apis + batch;
    }

    /** `delete_all_apis` */
    method DeleteAll()
      modifies this
      ensures apis == []
    {
      apis := [];
    }

    /** `delete_api`: drop every entry with the id; 404 when nothing was dropped. */
    method Delete(id: string) returns (r: Result<string, StoreError>)
      modifies this
      ensures apis == WithoutId(old(apis), id)
      ensures r.Ok? <==> HasId(old(apis), id)
      ensures r.Ok? ==> r.value == id
      ensures r.Err? ==> apis == old(apis)
    {
      var initialCount := |apis|;
      var before := apis;
      apis := WithoutId(apis, id);
      if |apis| == initialCount {
        WithoutIdNoMatch(before, id);
        r := Err(ApiNotFound);
      } else {
        r := Ok(id);
      }
    }

    /** `run_api_test` up to the await: the first entry with the id becomes `running`. */
    method MarkRunning(id: string) returns (r: Result<ApiRecord, StoreError>)
      modifies this
      ensures r.Err? <==> !HasId(old(apis), id)
      ensures r.Err? ==> apis == old(apis)
      ensures r.Ok? ==> var k := FirstIndex(old(apis), id).value;
                        r.value == old(apis)[k].(status := Running) && apis == old(apis)[k := r.value]
    {
      match FirstIndex(apis, id)
      case None =>
        r := Err(ApiNotFound);
      case Some(k) =>
        var updated := apis[k].(status := Running);
        apis := apis[k := updated];
        r := Ok(updated);
    }

    /**
     * `run_api_test` after the await, on the record `found` that the lookup
     * before the await returned: that record takes the final status and the
     * test results and is returned. Records are told apart by their ids,
     * which are fresh: while the record is still listed, its entry is
     * updated; once a concurrent `delete_api` has removed it, the list is
     * left as it is and the detached record is still updated and returned.
     */
    method RecordOutcome(found: ApiRecord, outcome: TestOutcome) returns (updated: ApiRecord)
      modifies this
      ensures updated == found.(status := FinalStatus(outcome), testResults := Some(FinalResults(outcome)))
      ensures !HasId(old(apis), found.id) ==> apis == old(apis)
      ensures HasId(old(apis), found.id) ==> var k := FirstIndex(old(apis), found.id).value;
                apis == old(apis)[k := old(apis)[k].(status := updated.status, testResults := updated.testResults)]
    {
      updated := found.(status := FinalStatus(outcome), testResults := Some(FinalResults(outcome)));
      match FirstIndex(apis, found.id)
      case None =>
      case Some(k) =>
        apis := apis[k := apis[k].(status := updated.status, testResults := updated.testResults)];
    }

    /**
     * `run_all_apis`, with the concurrent tests run one after the other and
     * `outcomes[i]` the outcome of testing entry `i`: every entry not already
     * running is marked running, then takes its final status and results;
     * the finished entries are returned in list order.
     */
    method RunAll(outcomes: seq<TestOutcome>) returns (results: seq<ApiRecord>)
      requires |outcomes| == |apis|
      modifies this
      ensures |apis| == |old(apis)|
      ensures forall i :: 0 <= i < |apis| ==> apis[i] == RunAllRecord(old(apis)[i], outcomes[i])
      ensures forall r :: r in results ==> r.status == Completed || r.status == Failed
      ensures forall i :: 0 <= i < |apis| && old(apis)[i].status != Running ==> apis[i] in results
      ensures CountStatus(apis, Pending) == 0
      ensures results == Finished(old(apis), outcomes)
    {
      ghost var original := apis;
      var tasks := StartTasks();
      results := FinishTasks(tasks, outcomes, original);
      forall i | 0 <= i < |apis| && original[i].status != Running
        ensures apis[i] in results
      {
        FinishedHas(original, outcomes, i);
      }
      CountStatusAbsent(apis, Pending);
    }

    /** The first loop of `run_all_apis`: every entry not yet running is marked running and queued, in list order. */
    method StartTasks() returns (tasks: seq<nat>)
      modifies this
      ensures |apis| == |old(apis)|
      ensures tasks == Queued(old(apis))
      ensures forall j :: 0 <= j < |tasks| ==> tasks[j] < |apis|
      ensures forall j, k :: 0 <= j < k < |tasks| ==> tasks[j] < tasks[k]
      ensures forall j :: 0 <= j < |apis| ==> (j in tasks <==> old(apis)[j].status != Running)
      ensures forall j :: 0 <= j < |apis| ==> apis[j] == if j in tasks then old(apis)[j].(status := Running) else old(apis)[j]
    {
      ghost var original := apis;
      tasks := [];
      for i := 0 to |apis|
        invariant |apis| == |original|
        invariant tasks == Queued(original[..i])
        invariant forall j :: 0 <= j < |apis| ==> apis[j] == if j < i && original[j].status != Running then original[j].(status := Running) else original[j]
      {
        QueuedStep(original, i);
        if apis[i].status != Running {
          apis := apis[i := apis[i].(status := Running)];
          tasks := tasks + [i];
        }
      }
      assert original[..|original|] == original;
    }

    /** The awaited tasks of `run_all_apis`: each queued entry receives its final status and results, in queue order. */
    method FinishTasks(tasks: seq<nat>, outcomes: seq<TestOutcome>, ghost original: seq<ApiRecord>) returns (results: seq<ApiRecord>)
      requires |outcomes| == |apis| == |original|
      requires forall j :: 0 <= j < |tasks| ==> tasks[j] < |apis|
      requires forall j, k :: 0 <= j < k < |tasks| ==> tasks[j] < tasks[k]
      requires forall j :: 0 <= j < |apis| ==> (j in tasks <==> original[j].status != Running)
      requires forall j :: 0 <= j < |apis| ==> apis[j] == if j in tasks then original[j].(status := Running) else original[j]
      modifies this
      ensures |apis| == |original| && |results| == |tasks|
      ensures forall j :: 0 <= j < |apis| ==> apis[j] == RunAllRecord(original[j], outcomes[j])
      ensures forall j :: 0 <= j < |tasks| ==> results[j] == RunAllRecord(original[tasks[j]], outcomes[tasks[j]])
    {
      results := [];
      for t := 0 to |tasks|
        invariant |apis| == |original| && |results| == t
        invariant forall j :: 0 <= j < |apis| ==>
                    apis[j] == if j in tasks[..t] then RunAllRecord(original[j], outcomes[j])
                               else if j in tasks then original[j].(status := Running) else original[j]
        invariant forall j :: 0 <= j < t ==> results[j] == RunAllRecord(original[tasks[j]], outcomes[tasks[j]])
      {
        var k := tasks[t];
        assert forall j :: 0 <= j < |apis| && j != k ==> (j in tasks[..t + 1] <==> j in tasks[..t]) by {
          assert tasks[..t + 1] == tasks[..t] + [k];
        }
        assert k !in tasks[..t] && k in tasks[..t + 1] by {
          assert tasks[..t + 1] == tasks[..t] + [k];
        }
        apis := apis[k := apis[k].(status := FinalStatus(outcomes[k]), testResults := Some(FinalResults(outcomes[k])))];
        results := results + [apis[k]];
      }
      assert tasks[..|tasks|] == tasks;
    }

    /** The `status_summary` of the current list. */
    function Summary(): (s: StatusSummary)
      reads this
      ensures s.pending + s.running + s.completed + s.failed == |apis|
    {
      SummaryTotal(apis);
      Summarize(apis)
    }
  }

  /**
   * A client run through the handlers: upload two records, test one, delete
   * the other. Afterwards one record is left, and it has passed.
   */
  method UploadTestDelete(a: ApiRecord, b: ApiRecord, result: TestResult) returns (summary: StatusSummary)
    requires a.id != b.id && a.status == Pending && b.status == Pending
    requires result.success && !HasError(result)
    ensures summary == StatusSummary(0, 0, 1, 0)
  {
    var store := new ApiStore();
    store.Append([a, b]);
    assert store.apis[0].id == a.id;
    var started := store.MarkRunning(a.id);
    assert store.apis == [a.(status := Running), b];
    var finished := store.RecordOutcome(started.value, Returned(result));
    assert store.apis == [a.(status := Completed, testResults := Some(result)), b];
    var deleted := store.Delete(b.id);
    assert store.apis == WithoutId([a.(status := Completed, testResults := Some(result))], b.id) + WithoutId([b], b.id) by {
      WithoutIdConcat([a.(status := Completed, testResults := Some(result))], [b], b.id);
      assert [a.(status := Completed, testResults := Some(result)), b]
          == [a.(status := Completed, testResults := Some(result))] + [b];
    }
    summary := store.Summary();
  }

  /**
   * A `delete_api` that runs while `run_api_test` awaits the tester: the
   * handler still answers with the record it found, now completed, and the
   * list stays empty.
   */
  method DeleteDuringTest(a: ApiRecord, result: TestResult) returns (answer: ApiRecord, left: seq<ApiRecord>)
    requires result.success && !HasError(result)
    ensures answer.id == a.id && answer.status == Completed
    ensures left == []
  {
    var store := new ApiStore();
    store.Append([a]);
    assert store.apis[0].id == a.id;
    var started := store.MarkRunning(a.id);
    var deleted := store.Delete(a.id);
    assert store.apis == [] by {
      assert WithoutId([], a.id) == [];
    }
    answer := store.RecordOutcome(started.value, Returned(result));
    left := store.apis;
  }
}
