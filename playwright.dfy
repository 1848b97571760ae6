/**
 * backend/services/playwright_runner.py: the name check of
 * `save_recorded_testcase`, the test name it derives from the file name, and
 * `convert_playwright_to_pytest`, which dedents the body of the recorded
 * `run` function and wraps it into a pytest test function. Recording,
 * parsing the recorded file into a syntax tree and the file operations are
 * not modelled: the recording is an input, given as the lines of the body of
 * its `run` function, or `None` when it has no such function.
 */
module Playwright {
  import opened Wrappers
  import opened Text

  /** A character of the class `[\w\-.]`, with `\w` taken over ASCII. */
  predicate IsNameChar(c: char) {
    ('a' <= c <= 'z') || ('A' <= c <= 'Z') || ('0' <= c <= '9') || c == '_' || c == '-' || c == '.'
  }

  /** A non-empty run of name characters. */
  predicate NameChars(s: string) {
    s != [] && forall i :: 0 <= i < |s| ==> IsNameChar(s[i])
  }

  /**
   * `SAFE_NAME_RE.match(s)` for `^[\w\-.]+$`: a non-empty run of name
   * characters, optionally followed by one newline, since `$` also matches
   * just before a final newline.
   */
  predicate SafeName(s: string) {
    NameChars(s) || (|s| >= 2 && s[|s| - 1] == '\n' && NameChars(s[..|s| - 1]))
  }

  /** A safe name holds no path separator and no newline except a final one. */
  lemma SafeNameChars(s: string)
    requires SafeName(s)
    ensures '/' !in s && '\\' !in s
    ensures forall i :: 0 <= i < |s| - 1 ==> s[i] != '\n'
  {
    if !NameChars(s) {
      assert forall i :: 0 <= i < |s| - 1 ==> s[i] == s[..|s| - 1][i];
    }
  }

  /** The errors `save_recorded_testcase` raises before and while converting. */
  datatype SaveError =
    | InvalidFolderName   // folder fails the name check
    | InvalidFileName     // file name fails the name check
    | NoRecording         // the temporary recording does not exist
    | NoRunFunction       // the recording has no top-level `run`

  /** `filename[:-3] if filename.endswith('.py') else filename` */
  function TestName(filename: string): (name: string)
    ensures EndsWith(filename, ".py") ==> filename == name + ".py"
    ensures !EndsWith(filename, ".py") ==> name == filename
  {
    if EndsWith(filename, ".py") then filename[..|filename| - 3] else filename
  }

  /** The smallest indentation over the non-blank lines, `None` when every line is blank. */
  function MinIndent(lines: seq<string>): (m: Option<nat>)
    ensures m.None? <==> forall i :: 0 <= i < |lines| ==> IsBlank(lines[i])
    ensures m.Some? ==> (exists i :: 0 <= i < |lines| && !IsBlank(lines[i]) && LeadingSpace(lines[i]) == m.value)
                        && forall i :: 0 <= i < |lines| && !IsBlank(lines[i]) ==> m.value <= LeadingSpace(lines[i])
  {
    if lines == [] then None
    else
      var rest := MinIndent(lines[1..]);
      assert forall i :: 1 <= i < |lines| ==> lines[i] == lines[1..][i - 1];
      if IsBlank(lines[0]) then rest
      else
        var here := LeadingSpace(lines[0]);
        match rest
        case None => Some(here)
        case Some(r) => if here <= r then Some(here) else Some(r)
  }

  /** `min(..., default=0)` */
  function Indent(lines: seq<string>): nat {
    match MinIndent(lines)
    case None => 0
    case Some(m) => m
  }

  /** `line[m:]` */
  function Drop(line: string, m: nat): (r: string)
    ensures |r| == if m <= |line| then |line| - m else 0
  {
    if m <= |line| then line[m..] else []
  }

  /** The lines of the `run` body with the common indentation removed. */
  function Dedent(lines: seq<string>): (r: seq<string>)
    ensures |r| == |lines|
  {
    var m := Indent(lines);
    seq(|lines|, i requires 0 <= i < |lines| => Drop(lines[i], m))
  }

  /**
   * Dedenting removes the same number of characters, all whitespace, from
   * the front of every non-blank line, and keeps every blank line blank and
   * every other line non-blank.
   */
  lemma DedentRemovesIndent(lines: seq<string>)
    ensures var m := Indent(lines);
            var r := Dedent(lines);
            forall i :: 0 <= i < |lines| && !IsBlank(lines[i]) ==>
              m < |lines[i]| && lines[i] == lines[i][..m] + r[i] && IsBlank(lines[i][..m]) && !IsBlank(r[i])
    ensures var r := Dedent(lines);
            forall i :: 0 <= i < |lines| ==> (IsBlank(r[i]) <==> IsBlank(lines[i]))
  {
    var m := Indent(lines);
    var r := Dedent(lines);
    forall i | 0 <= i < |lines| && !IsBlank(lines[i])
      ensures m < |lines[i]| && lines[i] == lines[i][..m] + r[i] && IsBlank(lines[i][..m]) && !IsBlank(r[i])
    {
      DedentLine(lines[i], m);
    }
    forall i | 0 <= i < |lines| && IsBlank(lines[i]) ensures IsBlank(r[i]) {
      DedentBlankLine(lines[i], m);
    }
  }

  /** Removing at most the indentation of a non-blank line removes only whitespace and leaves it non-blank. */
  lemma DedentLine(line: string, m: nat)
    requires !IsBlank(line) && m <= LeadingSpace(line)
    ensures m < |line| && line == line[..m] + Drop(line, m) && IsBlank(line[..m]) && !IsBlank(Drop(line, m))
  {
    NonBlankIndent(line);
    IndentPrefixBlank(line, m);
    var n := LeadingSpace(line);
    var rest := line[m..];
    assert Drop(line, m) == rest;
    PrefixAndRest(line, m);
    assert rest[n - m] == line[n] && !IsSpace(line[n]);
  }

  /** A sequence is its first `m` elements followed by the others. */
  lemma PrefixAndRest<T>(s: seq<T>, m: nat)
    requires m <= |s|
    ensures s == s[..m] + s[m..]
  {
  }

  /** Any prefix of the indentation is whitespace. */
  lemma IndentPrefixBlank(line: string, m: nat)
    requires m <= LeadingSpace(line)
    ensures IsBlank(line[..m])
  {
    assert forall k :: 0 <= k < m ==> line[..m][k] == line[k];
  }

  /** A blank line stays blank whatever is removed from its front. */
  lemma DedentBlankLine(line: string, m: nat)
    requires IsBlank(line)
    ensures IsBlank(Drop(line, m))
  {
    if m <= |line| {
      assert forall k :: 0 <= k < |line| - m ==> Drop(line, m)[k] == line[k + m];
    }
  }

  /** A non-blank line is longer than its indentation. */
  lemma NonBlankIndent(line: string)
    requires !IsBlank(line)
    ensures LeadingSpace(line) < |line|
  {
  }

  /** After dedenting, some non-blank line, if any, starts at the left margin. */
  lemma DedentFlush(lines: seq<string>)
    requires exists i :: 0 <= i < |lines| && !IsBlank(lines[i])
    ensures exists i :: 0 <= i < |lines| && !IsBlank(Dedent(lines)[i]) && !IsSpace(Dedent(lines)[i][0])
  {
    var m := Indent(lines);
    var i :| 0 <= i < |lines| && !IsBlank(lines[i]) && LeadingSpace(lines[i]) == m;
    DedentRemovesIndent(lines);
    NonBlankIndent(lines[i]);
    assert Dedent(lines)[i][0] == lines[i][m];
  }

  /** A body of blank lines only keeps its lines unchanged, since the indentation is then 0. */
  lemma DedentAllBlank(lines: seq<string>)
    requires forall i :: 0 <= i < |lines| ==> IsBlank(lines[i])
    ensures Dedent(lines) == lines
  {
    assert Indent(lines) == 0;
  }

  /** `extract_run_body_ast` once the syntax tree has given the body lines of `run`. */
  function ExtractRunBody(run: Option<seq<string>>): (r: Result<string, SaveError>)
    ensures r.Err? <==> run.None?
    ensures r.Err? ==> r.error == NoRunFunction
  {
    match run
    case None => Err(NoRunFunction)
    case Some(lines) => Ok(Join(Dedent(lines), '\n'))
  }

  /** `s.splitlines()` for text whose only line boundary is `\n`. */
  function SplitLines(s: string): (lines: seq<string>)
  {
    if s == [] then []
    else
      var parts := Split(s, '\n');
      if parts[|parts| - 1] == [] then parts[..|parts| - 1] else parts
  }

  /** Splitting the lines of a `\n`-join gives back the lines unless the last one is empty. */
  lemma SplitLinesJoin(lines: seq<string>)
    requires forall i :: 0 <= i < |lines| ==> '\n' !in lines[i]
    requires lines == [] || lines[|lines| - 1] != []
    ensures SplitLines(Join(lines, '\n')) == lines
  {
    if lines != [] {
      var j := Join(lines, '\n');
      SplitJoin(lines, '\n');
      JoinEndsWithLast(lines, '\n');
      assert |j| >= |lines[|lines| - 1]| > 0;
      assert Split(j, '\n') == lines;
    }
  }

  /** One line of the generated test: eight spaces of indentation, or empty for a blank line. */
  function Wrap(line: string): (r: string)
    ensures IsBlank(line) ==> r == []
    ensures !IsBlank(line) ==> r == "        " + line
  {
    if Strip(line) != [] then "        " + line else ""
  }

  function WrapAll(lines: seq<string>): (r: seq<string>)
    ensures |r| == |lines| && forall i :: 0 <= i < |lines| ==> r[i] == Wrap(lines[i])
  {
    seq(|lines|, i requires 0 <= i < |lines| => Wrap(lines[i]))
  }

  const ImportLine: string := "from playwright.sync_api import sync_playwright, expect"
  const WithLine: string := "    with sync_playwright() as playwright:"

  function DefLine(testName: string): string {
    "def " + testName + "():"
  }

  /** The header every generated test starts with. */
  function Header(testName: string): string {
    ImportLine + "\n\n" + DefLine(testName) + "\n" + WithLine + "\n"
  }

  /** `pytest_code`: the header, the wrapped lines of the run body, and a final newline. */
  function PytestCode(testName: string, runBody: string): string {
    Header(testName) + Join(WrapAll(SplitLines(runBody)), '\n') + "\n"
  }

  /** `convert_playwright_to_pytest` from the recording to the text written to the destination. */
  function ConvertToPytest(run: Option<seq<string>>, testName: string): (r: Result<string, SaveError>)
    ensures r.Err? <==> run.None?
  {
    match ExtractRunBody(run)
    case Err(e) => Err(e)
    case Ok(body) => Ok(PytestCode(testName, body))
  }

  /**
   * For a body whose lines hold no newline and whose last line is not
   * empty, the generated file is the header, the wrapped body lines joined
   * by newlines, and a final newline.
   */
  lemma PytestCodeBody(testName: string, body: seq<string>)
    requires forall i :: 0 <= i < |body| ==> '\n' !in body[i]
    requires body == [] || body[|body| - 1] != []
    ensures PytestCode(testName, Join(body, '\n')) == Header(testName) + Join(WrapAll(body), '\n') + "\n"
  {
    SplitLinesJoin(body);
  }

  /** The wrapped body lines of the generated file split back apart. */
  lemma WrappedLines(body: seq<string>)
    requires body != []
    requires forall i :: 0 <= i < |body| ==> '\n' !in body[i]
    ensures Split(Join(WrapAll(body), '\n'), '\n') == WrapAll(body)
  {
    var w := WrapAll(body);
    forall i | 0 <= i < |w| ensures '\n' !in w[i] {
      WrapNoNewline(body[i]);
    }
    SplitJoin(w, '\n');
  }

  /** Wrapping adds no newline. */
  lemma WrapNoNewline(line: string)
    requires '\n' !in line
    ensures '\n' !in Wrap(line)
  {
    if !IsBlank(line) {
      assert Wrap(line) == "        " + line;
      assert forall k :: 0 <= k < 8 ==> Wrap(line)[k] == ' ';
      assert forall k :: 8 <= k < |Wrap(line)| ==> Wrap(line)[k] == line[k - 8];
    }
  }

  /** What the move and conversion leave behind: the destination folder and file and the text written there. */
  datatype SavedTestcase = SavedTestcase(folder: string, filename: string, code: string)

  /**
   * `save_recorded_testcase`: both names are checked before anything else,
   * then the recording must exist and contain a `run` function. `recording`
   * is `None` when the temporary file does not exist.
   */
  function SaveRecordedTestcase(folder: string, filename: string, recording: Option<Option<seq<string>>>)
    : (r: Result<SavedTestcase, SaveError>)
    ensures r == Err(InvalidFolderName) <==> !SafeName(folder)
    ensures r == Err(InvalidFileName) <==> SafeName(folder) && !SafeName(filename)
    ensures r == Err(NoRecording) <==> SafeName(folder) && SafeName(filename) && recording.None?
    ensures r.Ok? <==> SafeName(folder) && SafeName(filename) && recording.Some? && recording.value.Some?
    ensures r.Ok? ==> r.value.folder == folder && r.value.filename == filename
                      && recording.Some? && recording.value.Some?
                      && r.value.code == PytestCode(TestName(filename), Join(Dedent(recording.value.value), '\n'))
  {
    if !SafeName(folder) then Err(InvalidFolderName)
    else if !SafeName(filename) then Err(InvalidFileName)
    else
      match recording
      case None => Err(NoRecording)
      case Some(run) =>
        match ConvertToPytest(run, TestName(filename))
        case Err(e) => Err(e)
        case Ok(code) => Ok(SavedTestcase(folder, filename, code))
  }
}
