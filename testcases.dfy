/**
 * backend/app/testcases.py: the file name and stored path of a saved test
 * case, the status and reason `run_testcases` records for each pytest run,
 * and the pass of `repair_testcase_paths` over the stored paths. The
 * database, the temporary files and the pytest process are not modelled:
 * the folder row, the recording and the process results are inputs.
 */
module TestCases {
  import opened Wrappers
  import opened Text
  import Playwright

  /** `name if name.endswith('.py') else f"{name}.py"` */
  function PyFileName(name: string): (filename: string)
    ensures EndsWith(filename, ".py") && StartsWith(filename, name)
    ensures filename == name || filename == name + ".py"
  {
    if EndsWith(name, ".py") then name else name + ".py"
  }

  /** The rule applied twice is the rule applied once. */
  lemma PyFileNameIdempotent(name: string)
    ensures PyFileName(PyFileName(name)) == PyFileName(name)
  {
  }

  /** The test function is named after the file without its `.py`, which is the name the user gave unless it already ended with `.py`. */
  lemma TestNameOfFileName(name: string)
    ensures !EndsWith(name, ".py") ==> Playwright.TestName(PyFileName(name)) == name
    ensures EndsWith(name, ".py") ==> Playwright.TestName(PyFileName(name)) + ".py" == name
  {
    if !EndsWith(name, ".py") {
      var f := name + ".py";
      assert f[|f| - 3..] == ".py";
      assert f[..|f| - 3] == name;
    }
  }

  /** The folder row `save_testcase` looks up. */
  datatype Folder = Folder(id: int, name: string)

  /** The test-case row `save_testcase` stores. */
  datatype TestCaseRow = TestCaseRow(name: string, folderId: int, path: string, code: string)

  datatype SaveTestcaseError = FolderNotFound | SaveFailed(cause: Playwright.SaveError)

  /**
   * `save_testcase`: 404 without the folder, 500 with the cause when saving
   * the recording fails, otherwise the row with the path `folder/filename`
   * (always with a forward slash) and the generated code. `recording` is as
   * for `save_recorded_testcase`.
   */
  function SaveTestcase(folder: Option<Folder>, name: string, recording: Option<Option<seq<string>>>)
    : (r: Result<TestCaseRow, SaveTestcaseError>)
    ensures r == Err(FolderNotFound) <==> folder.None?
    ensures r.Ok? ==> folder.Some? && r.value.name == name && r.value.folderId == folder.value.id
                      && r.value.path == folder.value.name + "/" + PyFileName(name)
                      && Playwright.SafeName(folder.value.name) && Playwright.SafeName(PyFileName(name))
    ensures folder.Some? ==>
              var saved := Playwright.SaveRecordedTestcase(folder.value.name, PyFileName(name), recording);
              (saved.Err? ==> r == Err(SaveFailed(saved.error))) && (saved.Ok? ==> r.Ok? && r.value.code == saved.value.code)
  {
    match folder
    case None => Err(FolderNotFound)
    case Some(f) =>
      var filename := PyFileName(name);
      match Playwright.SaveRecordedTestcase(f.name, filename, recording)
      case Err(e) => Err(SaveFailed(e))
      case Ok(saved) => Ok(TestCaseRow(name, f.id, f.name + "/" + filename, saved.code))
  }

  /** The verdict of one pytest run. */
  datatype Verdict = Pass | Fail | Warning

  /** What `run_testcases` records about one run. */
  datatype Classification = Classification(status: Verdict, reason: Option<string>)

  const CollectedNone: string := "collected 0 items"
  const NoTestsReason: string := "No tests were collected in this file. Ensure your test function/class is named with 'test_'."

  /**
   * `re.search(r'FAILED.*?\n(.*?)\n', stdout, re.DOTALL).group(1)`: the line
   * after the line holding the first `FAILED`, when that line is ended by a
   * newline. A later `FAILED` has fewer newlines after it than the first, so
   * it cannot match when the first does not.
   */
  function FailedReason(stdout: string): (r: Option<string>)
    ensures r.Some? ==> '\n' !in r.value
  {
    match Find(stdout, "FAILED")
    case None => None
    case Some(p) => SecondLine(stdout[p + 6..])
  }

  /** The text between the first and the second newline, when there are two. */
  function SecondLine(s: string): (r: Option<string>)
    ensures r.Some? ==> '\n' !in r.value
  {
    var q := IndexOf(s, '\n');
    if q == |s| then None
    else
      var rest := s[q + 1..];
      var e := IndexOf(rest, '\n');
      if e == |rest| then None
      else
        assert forall j :: 0 <= j < e ==> rest[..e][j] == rest[j];
        Some(rest[..e])
  }

  lemma SecondLineOf(mid: string, line: string, post: string)
    requires '\n' !in mid && '\n' !in line
    ensures SecondLine(mid + ['\n'] + (line + ['\n'] + post)) == Some(line)
  {
    var s := mid + ['\n'] + (line + ['\n'] + post);
    IndexOfConcat(mid, '\n', line + ['\n'] + post);
    assert s[|mid| + 1..] == line + ['\n'] + post;
    IndexOfConcat(line, '\n', post);
    assert (line + ['\n'] + post)[..|line|] == line;
  }

  /**
   * In a report whose first `FAILED` is followed by the rest of its line and
   * then a complete line, the reason is that complete line.
   */
  lemma FailedReasonOfReport(pre: string, mid: string, line: string, post: string)
    requires !Contains(pre + "FAILE", "FAILED") && '\n' !in mid && '\n' !in line
    ensures FailedReason(pre + "FAILED" + mid + "\n" + line + "\n" + post) == Some(line)
  {
    var after := mid + ['\n'] + (line + ['\n'] + post);
    var tail := "FAILED" + after;
    var s := pre + tail;
    assert s == pre + "FAILED" + mid + "\n" + line + "\n" + post;
    assert tail[..6] == "FAILED";
    assert "FAILED"[..5] == "FAILE";
    FindFirstAt(pre, tail, "FAILED");
    assert s[|pre| + 6..] == after;
    SecondLineOf(mid, line, post);
  }

  /** The status and reason for a run with this return code and output. */
  function Classify(returnCode: int, stdout: string, stderr: string): (c: Classification)
    ensures c.status == Warning <==> Contains(stdout, CollectedNone)
    ensures c.status == Warning ==> c.reason == Some(NoTestsReason)
    ensures c.status == Pass <==> !Contains(stdout, CollectedNone) && returnCode == 0
    ensures c.status == Pass ==> c.reason == None
    ensures c.status == Fail ==> c.reason.Some?
    ensures c.status == Fail && FailedReason(stdout).Some? ==> c.reason == Some(Strip(FailedReason(stdout).value))
    ensures c.status == Fail && FailedReason(stdout).None? ==>
              c.reason == Some(Take(Strip(stderr), 500)) && |c.reason.value| <= 500
  {
    var status := if returnCode == 0 then Pass else Fail;
    if Contains(stdout, CollectedNone) then Classification(Warning, Some(NoTestsReason))
    else if status == Fail then
      match FailedReason(stdout)
      case Some(g) => Classification(Fail, Some(Strip(g)))
      case None => Classification(Fail, Some(Take(Strip(stderr), 500)))
    else Classification(status, None)
  }

  /** A stored test case as `run_testcases` reads it; empty `code` stands for missing code. */
  datatype StoredCase = StoredCase(id: int, name: string, folderId: int, code: string)

  /** What the pytest process returned for one test case. */
  datatype ProcessResult = ProcessResult(returnCode: int, stdout: string, stderr: string)

  /** One entry of `results`. */
  datatype CaseResult = CaseResult(testCaseId: int, folderId: int, status: Verdict, reason: Option<string>,
                                   stdout: string, stderr: string)

  datatype RunError = NoTestCases | NoCode(name: string)

  function ResultOf(tc: StoredCase, run: ProcessResult): (r: CaseResult)
    ensures r.testCaseId == tc.id && r.folderId == tc.folderId
    ensures Classification(r.status, r.reason) == Classify(run.returnCode, run.stdout, run.stderr)
  {
    var c := Classify(run.returnCode, run.stdout, run.stderr);
    CaseResult(tc.id, tc.folderId, c.status, c.reason, run.stdout, run.stderr)
  }

  /** The first test case without code, if any. */
  function FirstWithoutCode(cases: seq<StoredCase>): (k: Option<nat>)
    ensures k.None? <==> forall i :: 0 <= i < |cases| ==> cases[i].code != []
    ensures k.Some? ==> k.value < |cases| && cases[k.value].code == []
                        && forall i :: 0 <= i < k.value ==> cases[i].code != []
  {
    if cases == [] then None
    else if cases[0].code == [] then Some(0)
    else
      match FirstWithoutCode(cases[1..])
      case None => None
      case Some(k) => Some(k + 1)
  }

  /**
   * `run_testcases` for the selected cases, with `runs[i]` the result of
   * running `cases[i]`: 404 when nothing is selected, 400 naming the first
   * case without code before anything runs, otherwise one classified result
   * per case, in order.
   */
  method RunTestcases(cases: seq<StoredCase>, runs: seq<ProcessResult>) returns (r: Result<seq<CaseResult>, RunError>)
    requires |runs| == |cases|
    ensures r == Err(NoTestCases) <==> cases == []
    ensures cases != [] && FirstWithoutCode(cases).Some? ==> r == Err(NoCode(cases[FirstWithoutCode(cases).value].name))
    ensures r.Ok? <==> cases != [] && FirstWithoutCode(cases).None?
    ensures r.Ok? ==> |r.value| == |cases| && forall i :: 0 <= i < |cases| ==> r.value[i] == ResultOf(cases[i], runs[i])
  {
    if |cases| == 0 {
      return Err(NoTestCases);
    }
    for i := 0 to |cases|
      invariant forall j :: 0 <= j < i ==> cases[j].code != []
    {
      if cases[i].code == [] {
        return Err(NoCode(cases[i].name));
      }
    }
    var results: seq<CaseResult> := [];
    for i := 0 to |cases|
      invariant |results| == i
      invariant forall j :: 0 <= j < i ==> results[j] == ResultOf(cases[j], runs[j])
    {
      var result := RunOne(cases[i], runs[i]);
      results := results + [result];
    }
    r := Ok(results);
  }

  /** The body of the loop over the cases: the run of one case classified and recorded. */
  method RunOne(tc: StoredCase, run: ProcessResult) returns (result: CaseResult)
    ensures result == ResultOf(tc, run)
  {
    var c := Classify(run.returnCode, run.stdout, run.stderr);
    result := CaseResult(tc.id, tc.folderId, c.status, c.reason, run.stdout, run.stderr);
  }

  /** A stored test case as `repair_testcase_paths` reads it: its id, path and the name of its folder, if it has one. */
  datatype TestCase = TestCase(id: int, path: string, folder: Option<string>)

  /** The path the repair computes, or `None` when the path has three or more parts and is skipped. */
  function RepairedPath(tc: TestCase): (r: Option<string>)
    ensures r.Some? ==> EndsWith(r.value, ".py")
  {
    var parts := Split(ReplaceChar(tc.path, '\\', '/'), '/');
    if |parts| == 1 then
      var folder := if tc.folder.Some? then tc.folder.value else "test";
      EndsWithAppend(folder + "/", PyFileName(parts[0]), ".py");
      Some(folder + "/" + PyFileName(parts[0]))
    else if |parts| == 2 then
      EndsWithAppend(parts[0] + "/", PyFileName(parts[1]), ".py");
      Some(parts[0] + "/" + PyFileName(parts[1]))
    else None
  }

  /** The path a test case has after the repair. */
  function NewPath(tc: TestCase): string {
    match RepairedPath(tc)
    case None => tc.path
    case Some(p) => p
  }

  function Repair(tc: TestCase): TestCase {
    tc.(path := NewPath(tc))
  }

  /** Every test case after the repair, in order. */
  function RepairAll(cases: seq<TestCase>): (repaired: seq<TestCase>)
    ensures |repaired| == |cases|
  {
    if cases == [] then []
    else RepairAll(cases[..|cases| - 1]) + [Repair(cases[|cases| - 1])]
  }

  /** The repair treats each test case on its own and keeps ids and folders. */
  lemma {:induction false} RepairAllAt(cases: seq<TestCase>, k: nat)
    requires k < |cases|
    ensures RepairAll(cases)[k] == Repair(cases[k])
    ensures RepairAll(cases)[k].id == cases[k].id && RepairAll(cases)[k].folder == cases[k].folder
    decreases |cases|
  {
    var init := cases[..|cases| - 1];
    var repaired := RepairAll(init) + [Repair(cases[|cases| - 1])];
    assert RepairAll(cases) == repaired;
    if k < |cases| - 1 {
      RepairAllAt(init, k);
      assert init[k] == cases[k];
      assert repaired[k] == RepairAll(init)[k];
    }
    RepairKeepsIdentity(cases[k]);
  }

  /** The repair changes only the path. */
  lemma RepairKeepsIdentity(tc: TestCase)
    ensures Repair(tc).id == tc.id && Repair(tc).folder == tc.folder
  {
  }

  /** The ids of the test cases whose path differs between `before` and `after`, in order. */
  function ChangedIds(before: seq<TestCase>, after: seq<TestCase>): (ids: seq<int>)
    requires |before| == |after|
    ensures |ids| <= |before|
  {
    if before == [] then []
    else
      var n := |before| - 1;
      ChangedIds(before[..n], after[..n]) + if after[n].path != before[n].path then [before[n].id] else []
  }

  /** A test case's id is listed exactly when its path changed. */
  lemma {:induction false} ChangedIdsExact(before: seq<TestCase>, after: seq<TestCase>)
    requires |before| == |after|
    ensures forall i :: 0 <= i < |before| && after[i].path != before[i].path ==> before[i].id in ChangedIds(before, after)
    ensures forall x :: x in ChangedIds(before, after) ==>
              exists i :: 0 <= i < |before| && before[i].id == x && after[i].path != before[i].path
  {
    if before != [] {
      var n := |before| - 1;
      ChangedIdsExact(before[..n], after[..n]);
      assert forall i :: 0 <= i < n ==> before[..n][i] == before[i] && after[..n][i] == after[i];
    }
  }

  /** Nothing is listed when nothing changed. */
  lemma {:induction false} ChangedIdsNone(cases: seq<TestCase>)
    ensures ChangedIds(cases, cases) == []
  {
    if cases != [] {
      ChangedIdsNone(cases[..|cases| - 1]);
    }
  }

  lemma ChangedIdsSnoc(before: seq<TestCase>, after: seq<TestCase>, x: TestCase, y: TestCase)
    requires |before| == |after|
    ensures ChangedIds(before + [x], after + [y]) == ChangedIds(before, after) + if y.path != x.path then [x.id] else []
  {
    assert (before + [x])[..|before|] == before;
    assert (after + [y])[..|after|] == after;
  }

  /** `repair_testcase_paths`: every path is repaired in place and the ids of the changed ones are returned. */
  method RepairTestcasePaths(cases: array<TestCase>) returns (updated: seq<int>)
    modifies cases
    ensures cases[..] == RepairAll(old(cases[..]))
    ensures updated == ChangedIds(old(cases[..]), cases[..])
  {
    ghost var original := cases[..];
    updated := [];
    for i := 0 to cases.Length
      invariant cases[..i] == RepairAll(original[..i])
      invariant cases[i..] == original[i..]
      invariant updated == ChangedIds(original[..i], cases[..i])
    {
      ghost var before := cases[..];
      var changed := RepairAt(cases, i);
      RepairPrefix(original, before, cases[..], i);
      ChangedIdsSnoc(original[..i], before[..i], original[i], cases[i]);
      updated := updated + changed;
    }
    assert original[..cases.Length] == original;
    assert cases[..cases.Length] == cases[..];
  }

  /** The body of the repair loop: repairs `cases[i]` and gives its id when the path changed. */
  method RepairAt(cases: array<TestCase>, i: nat) returns (changed: seq<int>)
    requires i < cases.Length
    modifies cases
    ensures cases[..] == old(cases[..])[i := Repair(old(cases[i]))]
    ensures changed == if cases[i].path != old(cases[i]).path then [old(cases[i]).id] else []
  {
    var tc := cases[i];
    var parts := Split(ReplaceChar(tc.path, '\\', '/'), '/');
    var newPath;
    if |parts| == 1 {
      var folder := if tc.folder.Some? then tc.folder.value else "test";
      newPath := folder + "/" + PyFileName(parts[0]);
    } else if |parts| == 2 {
      newPath := parts[0] + "/" + PyFileName(parts[1]);
    } else {
      return [];
    }
    changed := [];
    if tc.path != newPath {
      cases[i] := tc.(path := newPath);
      changed := [tc.id];
    }
  }

  /** One turn of the repair loop extends the repaired prefix by one element. */
  lemma RepairPrefix(original: seq<TestCase>, before: seq<TestCase>, after: seq<TestCase>, i: nat)
    requires i < |original| == |before|
    requires before[..i] == RepairAll(original[..i]) && before[i..] == original[i..]
    requires after == before[i := Repair(before[i])]
    ensures before[i] == original[i]
    ensures original[..i + 1] == original[..i] + [original[i]] && after[..i + 1] == before[..i] + [after[i]]
    ensures after[..i + 1] == RepairAll(original[..i + 1]) && after[i + 1..] == original[i + 1..]
  {
    UpdateAt(original, before, i, Repair(before[i]));
    assert original[..i + 1][..i] == original[..i];
  }

  /** Writing `x` at the first unprocessed index of an array whose suffix is untouched. */
  lemma UpdateAt<T>(original: seq<T>, before: seq<T>, i: nat, x: T)
    requires i < |original| == |before| && before[i..] == original[i..]
    ensures before[i] == original[i]
    ensures before[i := x][..i + 1] == before[..i] + [x]
    ensures before[i := x][i + 1..] == original[i + 1..]
    ensures original[..i + 1] == original[..i] + [original[i]]
  {
    assert before[i..][0] == original[i..][0];
    assert before[i := x][i + 1..] == before[i..][1..];
  }

  /** Neither kind of path separator occurs. */
  predicate NoSeparator(s: string) {
    '/' !in s && '\\' !in s
  }

  /** `.py` file names hold a path separator only when the name does. */
  lemma PyFileNameNoSeparator(name: string)
    ensures NoSeparator(PyFileName(name)) <==> NoSeparator(name)
  {
    var f := PyFileName(name);
    if f != name {
      assert f == name + ".py";
      assert forall k :: |name| <= k < |f| ==> f[k] == ".py"[k - |name|];
    }
  }

  /** The pieces of a repaired path are free of separators. */
  lemma RepairedParts(path: string)
    ensures forall i :: 0 <= i < |Split(ReplaceChar(path, '\\', '/'), '/')| ==> NoSeparator(Split(ReplaceChar(path, '\\', '/'), '/')[i])
  {
    SplitAbsent(ReplaceChar(path, '\\', '/'), '/', '\\');
  }

  /** A `folder/file` path of separator-free pieces is repaired by giving the file its `.py`. */
  lemma RepairedTwoParts(tc: TestCase, folder: string, file: string)
    requires NoSeparator(folder) && NoSeparator(file) && tc.path == folder + "/" + file
    ensures RepairedPath(tc) == Some(folder + "/" + PyFileName(file))
  {
    ReplaceCharConcat(folder + "/", file, '\\', '/');
    ReplaceCharConcat(folder, "/", '\\', '/');
    ReplaceCharAbsent(folder, '\\', '/');
    ReplaceCharAbsent(file, '\\', '/');
    assert ReplaceChar("/", '\\', '/') == "/";
    SplitAround(folder, '/', file);
    SplitNoSeparator(folder, '/');
    SplitNoSeparator(file, '/');
  }

  /** The number of path separators, of either kind, in a stored path. */
  function Separators(path: string): nat {
    multiset(path)['/'] + multiset(path)['\\']
  }

  /** The repair sees one piece more than the path has separators. */
  lemma RepairedPartCount(path: string)
    ensures |Split(ReplaceChar(path, '\\', '/'), '/')| == 1 + Separators(path)
  {
    ReplaceCharCount(path, '\\', '/');
    SplitCount(ReplaceChar(path, '\\', '/'), '/');
  }

  /** A bare file name is placed in the case's folder, or in `test` without one, and given its `.py`. */
  lemma RepairedOnePart(tc: TestCase)
    requires NoSeparator(tc.path)
    ensures RepairedPath(tc) == Some((if tc.folder.Some? then tc.folder.value else "test") + "/" + PyFileName(tc.path))
  {
    ReplaceCharAbsent(tc.path, '\\', '/');
    SplitNoSeparator(tc.path, '/');
  }

  /**
   * The repair skips exactly the paths with two or more separators; such a
   * test case is left as it is.
   */
  lemma RepairSkipsDeep(tc: TestCase)
    ensures RepairedPath(tc).None? <==> Separators(tc.path) >= 2
    ensures Separators(tc.path) >= 2 ==> Repair(tc) == tc
  {
    RepairedPartCount(tc.path);
  }

  /**
   * A repaired path needs no further repair. A bare file name placed in a
   * folder whose name holds a separator gets three or more parts, which the
   * second pass skips.
   */
  lemma RepairIdempotent(tc: TestCase)
    ensures Repair(Repair(tc)) == Repair(tc)
    ensures NewPath(Repair(tc)) == Repair(tc).path
  {
    var parts := Split(ReplaceChar(tc.path, '\\', '/'), '/');
    RepairedParts(tc.path);
    if |parts| == 1 {
      var folder := if tc.folder.Some? then tc.folder.value else "test";
      assert NoSeparator("test");
      PyFileNameNoSeparator(parts[0]);
      if NoSeparator(folder) {
        RepairedTwoParts(Repair(tc), folder, PyFileName(parts[0]));
      } else {
        DeepFolderSkipped(Repair(tc), folder, PyFileName(parts[0]));
      }
    } else if |parts| == 2 {
      PyFileNameNoSeparator(parts[1]);
      RepairedTwoParts(Repair(tc), parts[0], PyFileName(parts[1]));
    }
  }

  /** A path `folder/file` whose folder holds a separator has two or more separators and is left as it is. */
  lemma DeepFolderSkipped(tc: TestCase, folder: string, file: string)
    requires !NoSeparator(folder) && tc.path == folder + "/" + file
    ensures RepairedPath(tc).None? && Repair(tc) == tc
  {
    assert multiset(tc.path) == multiset(folder) + multiset("/") + multiset(file);
    assert '/' in multiset("/");
    if '/' in folder {
      assert '/' in multiset(folder);
    } else {
      assert '\\' in multiset(folder);
    }
    RepairSkipsDeep(tc);
  }

  /** A second repair pass changes nothing. */
  lemma {:induction false} RepairAllIdempotent(cases: seq<TestCase>)
    ensures RepairAll(RepairAll(cases)) == RepairAll(cases)
    ensures ChangedIds(RepairAll(cases), RepairAll(RepairAll(cases))) == []
  {
    if cases != [] {
      var init := cases[..|cases| - 1];
      var last := cases[|cases| - 1];
      RepairAllIdempotent(init);
      RepairIdempotent(last);
      var r := RepairAll(cases);
      assert r == RepairAll(init) + [Repair(last)];
      assert r[..|r| - 1] == RepairAll(init);
    }
    ChangedIdsNone(RepairAll(cases));
  }

  /** The path `save_testcase` stores is one the repair leaves as it is. */
  lemma SavedPathIsRepaired(folder: Option<Folder>, name: string, recording: Option<Option<seq<string>>>, id: int)
    requires SaveTestcase(folder, name, recording).Ok?
    ensures var row := SaveTestcase(folder, name, recording).value;
            NewPath(TestCase(id, row.path, Some(folder.value.name))) == row.path
  {
    var row := SaveTestcase(folder, name, recording).value;
    Playwright.SafeNameChars(folder.value.name);
    Playwright.SafeNameChars(PyFileName(name));
    PyFileNameIdempotent(name);
    RepairedTwoParts(TestCase(id, row.path, Some(folder.value.name)), folder.value.name, PyFileName(name));
  }
}
