/**
 * backend/main.py `parse_burp_xml` from the decoded request text onward, and
 * `convert_burp_to_api`: the request line is split into method, path and
 * version, the lines up to the first whitespace-only line are header
 * candidates, the non-blank lines after it form the body, and the parsed
 * request becomes a pending API record.
 */
module Burp {
  import opened Wrappers
  import opened Text
  import opened Apis

  /** The `request` dictionary of one parsed item; its URL is `None` for a `<url>` element without text. */
  datatype BurpRequest = BurpRequest(httpMethod: string, url: Option<string>, headers: map<string, string>, body: Option<string>)

  /** The position of the first whitespace-only line, or `|lines|` when there is none. */
  function FirstBlank(lines: seq<string>): (k: nat)
    ensures k <= |lines|
    ensures forall j :: 0 <= j < k ==> !IsBlank(lines[j])
    ensures k < |lines| ==> IsBlank(lines[k])
  {
    if lines == [] then 0
    else if IsBlank(lines[0]) then 0
    else 1 + FirstBlank(lines[1..])
  }

  /** The headers the candidate lines produce, each line applied in order. */
  function HeadersOf(lines: seq<string>): (headers: map<string, string>)
    ensures (forall j :: 0 <= j < |lines| ==> ':' !in lines[j]) ==> headers == map[]
  {
    if lines == [] then map[] else AddHeader(HeadersOf(lines[..|lines| - 1]), lines[|lines| - 1])
  }

  /** The lines that are not whitespace-only, in order. */
  function NonBlank(lines: seq<string>): (r: seq<string>)
    ensures forall j :: 0 <= j < |r| ==> !IsBlank(r[j])
  {
    if lines == [] then []
    else NonBlank(lines[..|lines| - 1]) + (if IsBlank(lines[|lines| - 1]) then [] else [lines[|lines| - 1]])
  }

  /** The body the body lines produce: `None` without a non-blank line, their `\n`-join otherwise. */
  function BodyOf(lines: seq<string>): (body: Option<string>)
    ensures body.None? <==> forall j :: 0 <= j < |lines| ==> IsBlank(lines[j])
  {
    NonBlankEmpty(lines);
    var kept := NonBlank(lines);
    if kept == [] then None else Some(Join(kept, '\n'))
  }

  /**
   * The request part of one item, or `None` when the item is skipped: the
   * first line is empty or does not split on single spaces into exactly
   * three parts.
   */
  function ParseRequest(text: string, url: Option<string>): (r: Option<BurpRequest>)
    ensures r.Some? <==> |Split(Split(text, '\n')[0], ' ')| == 3
    ensures r.Some? ==> r.value.httpMethod == Split(Split(text, '\n')[0], ' ')[0] && r.value.url == url
  {
    var lines := Split(text, '\n');
    var parts := Split(lines[0], ' ');
    if lines[0] == [] || |parts| != 3 then None
    else
      var rest := lines[1..];
      var fb := FirstBlank(rest);
      Some(BurpRequest(parts[0], url, HeadersOf(rest[..fb]), BodyOf(rest[fb..])))
  }

  /** The loop of `parse_burp_xml` over one request text. */
  method ParseRequestText(text: string, url: Option<string>) returns (r: Option<BurpRequest>)
    ensures r == ParseRequest(text, url)
  {
    var requestLines := Split(text, '\n');
    var firstLine := requestLines[0];
    if firstLine == [] {
      return None;
    }
    var parts := Split(firstLine, ' ');
    if |parts| < 3 {
      return None;
    }
    if |parts| > 3 {
      // the three-name unpacking raises and the item is skipped
      return None;
    }
    var rest := requestLines[1..];
    var headers, body := ScanLines(rest);
    r := Some(BurpRequest(parts[0], url, headers, body));
  }

  /** The `for line in request_lines[1:]` loop: header candidates up to the first blank line, body lines after it. */
  method ScanLines(rest: seq<string>) returns (headers: map<string, string>, body: Option<string>)
    ensures headers == HeadersOf(rest[..FirstBlank(rest)])
    ensures body == BodyOf(rest[FirstBlank(rest)..])
  {
    headers := map[];
    body := None;
    var bodyStarted := false;
    var j := 0;
    while j < |rest|
      invariant 0 <= j <= |rest|
      invariant bodyStarted <==> FirstBlank(rest) < j
      invariant headers == HeadersOf(HeaderPart(rest, j))
      invariant body == BodyOf(BodyPart(rest, j))
    {
      bodyStarted, headers, body := ScanLine(rest, j, bodyStarted, headers, body);
      j := j + 1;
    }
    SliceAll(rest, FirstBlank(rest));
  }

  /** One pass of the loop body: the line at `j` is skipped, taken as a header candidate or added to the body. */
  method ScanLine(rest: seq<string>, j: nat, bodyStarted: bool, headers: map<string, string>, body: Option<string>)
    returns (bodyStarted': bool, headers': map<string, string>, body': Option<string>)
    requires j < |rest|
    requires bodyStarted <==> FirstBlank(rest) < j
    requires headers == HeadersOf(HeaderPart(rest, j))
    requires body == BodyOf(BodyPart(rest, j))
    ensures bodyStarted' <==> FirstBlank(rest) < j + 1
    ensures headers' == HeadersOf(HeaderPart(rest, j + 1))
    ensures body' == BodyOf(BodyPart(rest, j + 1))
  {
    var line := rest[j];
    bodyStarted', headers', body' := bodyStarted, headers, body;
    var blank := LineIsBlank(line);
    if blank {
      StepBlank(rest, j);
      bodyStarted' := true;
    } else if !bodyStarted {
      StepHeader(rest, j);
      headers' := StoreHeader(headers, line);
    } else {
      StepBody(rest, j);
      if body.None? {
        body' := Some(line);
      } else {
        body' := Some(body.value + "\n" + line);
      }
    }
  }

  /** `not line.strip()` */
  method LineIsBlank(line: string) returns (blank: bool)
    ensures blank <==> IsBlank(line)
  {
    blank := Strip(line) == [];
  }

  /** The header candidates among the first `j` lines. */
  function HeaderPart(rest: seq<string>, j: nat): seq<string>
    requires j <= |rest|
  {
    var fb := FirstBlank(rest);
    if j <= fb then rest[..j] else rest[..fb]
  }

  /** The body lines among the first `j` lines. */
  function BodyPart(rest: seq<string>, j: nat): seq<string>
    requires j <= |rest|
  {
    var fb := FirstBlank(rest);
    if j <= fb then [] else rest[fb..j]
  }

  /** A whitespace-only line starts the body, or is skipped inside it. */
  lemma StepBlank(rest: seq<string>, j: nat)
    requires j < |rest| && IsBlank(rest[j])
    ensures FirstBlank(rest) < j + 1
    ensures HeaderPart(rest, j + 1) == HeaderPart(rest, j)
    ensures BodyOf(BodyPart(rest, j + 1)) == BodyOf(BodyPart(rest, j))
  {
    var fb := FirstBlank(rest);
    SliceSnoc(rest, fb, j);
    NonBlankSnoc(BodyPart(rest, j), rest[j]);
    assert NonBlank(BodyPart(rest, j + 1)) == NonBlank(BodyPart(rest, j));
  }

  lemma SliceAll<T>(s: seq<T>, lo: nat)
    requires lo <= |s|
    ensures s[lo..|s|] == s[lo..] && s[..|s|] == s
  {
  }

  lemma SliceSnoc<T>(s: seq<T>, lo: nat, hi: nat)
    requires lo <= hi < |s|
    ensures s[lo..hi + 1] == s[lo..hi] + [s[hi]]
  {
  }

  /** Appending a line to the body lines keeps it when it is not blank. */
  lemma NonBlankSnoc(lines: seq<string>, line: string)
    ensures NonBlank(lines + [line]) == NonBlank(lines) + (if IsBlank(line) then [] else [line])
  {
    assert (lines + [line])[..|lines|] == lines;
  }

  /** A non-blank line before the first blank one is a header candidate. */
  lemma StepHeader(rest: seq<string>, j: nat)
    requires j < |rest| && !IsBlank(rest[j]) && j <= FirstBlank(rest)
    ensures j + 1 <= FirstBlank(rest)
    ensures HeadersOf(HeaderPart(rest, j + 1)) == AddHeader(HeadersOf(HeaderPart(rest, j)), rest[j])
    ensures BodyPart(rest, j + 1) == BodyPart(rest, j) == []
  {
    assert rest[..j + 1][..j] == rest[..j];
  }

  /** A non-blank line after the first blank one extends the body. */
  lemma StepBody(rest: seq<string>, j: nat)
    requires j < |rest| && !IsBlank(rest[j]) && FirstBlank(rest) < j
    ensures HeaderPart(rest, j + 1) == HeaderPart(rest, j)
    ensures BodyOf(BodyPart(rest, j + 1)) == if BodyOf(BodyPart(rest, j)).None? then Some(rest[j])
                                             else Some(BodyOf(BodyPart(rest, j)).value + "\n" + rest[j])
  {
    var before := BodyPart(rest, j);
    SliceSnoc(rest, FirstBlank(rest), j);
    NonBlankSnoc(before, rest[j]);
    assert NonBlank(BodyPart(rest, j + 1)) == NonBlank(before) + [rest[j]];
    if NonBlank(before) != [] {
      JoinSnoc(NonBlank(before), '\n', rest[j]);
    }
  }

  /** Nothing is kept exactly when every line is blank. */
  lemma {:induction false} NonBlankEmpty(lines: seq<string>)
    ensures NonBlank(lines) == [] <==> forall j :: 0 <= j < |lines| ==> IsBlank(lines[j])
  {
    if lines != [] {
      var init := lines[..|lines| - 1];
      NonBlankEmpty(init);
      assert forall j :: 0 <= j < |init| ==> init[j] == lines[j];
    }
  }

  /** Filtering blank lines distributes over concatenation. */
  lemma {:induction false} NonBlankConcat(a: seq<string>, b: seq<string>)
    ensures NonBlank(a + b) == NonBlank(a) + NonBlank(b)
    decreases |b|
  {
    if b == [] {
      assert a + b == a;
    } else {
      var c := a + b;
      assert c[..|c| - 1] == a + b[..|b| - 1];
      assert c[|c| - 1] == b[|b| - 1];
      NonBlankConcat(a, b[..|b| - 1]);
    }
  }

  /** Lines that are all non-blank are kept as they are. */
  lemma {:induction false} NonBlankAll(lines: seq<string>)
    requires forall j :: 0 <= j < |lines| ==> !IsBlank(lines[j])
    ensures NonBlank(lines) == lines
  {
    if lines != [] {
      NonBlankAll(lines[..|lines| - 1]);
    }
  }

  /** The first blank line of header lines, a blank line and anything after is that blank line. */
  lemma {:induction false} FirstBlankAfter(hs: seq<string>, tail: seq<string>)
    requires forall j :: 0 <= j < |hs| ==> !IsBlank(hs[j])
    ensures FirstBlank(hs + [""] + tail) == |hs|
  {
    if hs != [] {
      assert (hs + [""] + tail)[1..] == hs[1..] + [""] + tail;
      FirstBlankAfter(hs[1..], tail);
    }
  }

  /** A request line of three space-free words splits back into them. */
  lemma RequestLineSplit(m: string, p: string, v: string)
    requires ' ' !in m && ' ' !in p && ' ' !in v
    ensures Split(m + [' '] + p + [' '] + v, ' ') == [m, p, v]
  {
    SplitNoSeparator(m, ' ');
    SplitNoSeparator(p, ' ');
    SplitNoSeparator(v, ' ');
    SplitAround(p, ' ', v);
    assert m + [' '] + p + [' '] + v == m + [' '] + (p + [' '] + v);
    SplitAround(m, ' ', p + [' '] + v);
  }

  /** No written line holds a newline. */
  lemma WrittenLines(first: string, hs: seq<string>, bs: seq<string>)
    requires '\n' !in first
    requires forall j :: 0 <= j < |hs| ==> '\n' !in hs[j]
    requires forall j :: 0 <= j < |bs| ==> '\n' !in bs[j]
    ensures var lines := [first] + hs + [""] + bs;
            forall j :: 0 <= j < |lines| ==> '\n' !in lines[j]
  {
    var lines := [first] + hs + [""] + bs;
    forall j | 0 <= j < |lines| ensures '\n' !in lines[j] {
      if 1 <= j < 1 + |hs| {
        assert lines[j] == hs[j - 1];
      } else if j > 1 + |hs| {
        assert lines[j] == bs[j - 2 - |hs|];
      }
    }
  }

  /** The header lines that follow the request line are read back as the header candidates. */
  lemma HeadersWritten(hs: seq<string>, bs: seq<string>)
    requires forall j :: 0 <= j < |hs| ==> !IsBlank(hs[j])
    ensures var rest := hs + [""] + bs;
            rest[..FirstBlank(rest)] == hs
  {
    FirstBlankAfter(hs, bs);
    AroundMiddle(hs, "", bs);
  }

  /** The body lines after the blank line are read back as the body. */
  lemma BodyWritten(hs: seq<string>, bs: seq<string>)
    requires forall j :: 0 <= j < |hs| ==> !IsBlank(hs[j])
    requires forall j :: 0 <= j < |bs| ==> !IsBlank(bs[j])
    ensures var rest := hs + [""] + bs;
            NonBlank(rest[FirstBlank(rest)..]) == bs
  {
    FirstBlankAfter(hs, bs);
    AroundMiddle(hs, "", bs);
    NonBlankConcat([""], bs);
    NonBlankOfBlank();
    NonBlankAll(bs);
  }

  lemma NonBlankOfBlank()
    ensures NonBlank([""]) == []
  {
    assert [""][..0] == [];
  }

  lemma AroundMiddle<T>(a: seq<T>, x: T, b: seq<T>)
    ensures (a + [x] + b)[..|a|] == a && (a + [x] + b)[|a|..] == [x] + b
  {
  }

  lemma FirstAndRest<T>(x: T, a: seq<T>, y: T, b: seq<T>)
    ensures [x] + a + [y] + b == [x] + (a + [y] + b)
    ensures ([x] + (a + [y] + b))[0] == x && ([x] + (a + [y] + b))[1..] == a + [y] + b
  {
  }

  /** A text whose first line splits into three words parses to those lines' headers and body. */
  lemma ParseRequestLines(text: string, url: Option<string>, first: string, rest: seq<string>)
    requires Split(text, '\n') == [first] + rest
    requires |Split(first, ' ')| == 3
    ensures ParseRequest(text, url)
         == Some(BurpRequest(Split(first, ' ')[0], url, HeadersOf(rest[..FirstBlank(rest)]), BodyOf(rest[FirstBlank(rest)..])))
  {
    assert ([first] + rest)[0] == first && ([first] + rest)[1..] == rest;
  }

  /**
   * Parsing a request written as a request line, header lines, a blank line
   * and body lines gives back the method, the headers those lines produce and
   * the body lines joined with `\n`.
   */
  lemma ParseWrittenRequest(m: string, p: string, v: string, hs: seq<string>, bs: seq<string>, url: Option<string>)
    requires ' ' !in m && ' ' !in p && ' ' !in v
    requires '\n' !in m && '\n' !in p && '\n' !in v
    requires forall j :: 0 <= j < |hs| ==> '\n' !in hs[j] && !IsBlank(hs[j])
    requires forall j :: 0 <= j < |bs| ==> '\n' !in bs[j] && !IsBlank(bs[j])
    ensures ParseRequest(Join([m + [' '] + p + [' '] + v] + hs + [""] + bs, '\n'), url)
         == Some(BurpRequest(m, url, HeadersOf(hs), if bs == [] then None else Some(Join(bs, '\n'))))
  {
    var first := m + [' '] + p + [' '] + v;
    assert '\n' !in first;
    var rest := hs + [""] + bs;
    var lines := [first] + hs + [""] + bs;
    WrittenLines(first, hs, bs);
    SplitJoin(lines, '\n');
    FirstAndRest(first, hs, "", bs);
    RequestLineSplit(m, p, v);
    ParseRequestLines(Join(lines, '\n'), url, first, rest);
    HeadersWritten(hs, bs);
    BodyWritten(hs, bs);
  }

  /** An element's text, or a dictionary value: absent, present as `None`, or a string. */
  datatype Field = Absent | Null | Text(text: string)

  /** The value `.text` gives for a present element: `None` unless the element has text. */
  function TextOf(f: Field): Option<string> {
    if f.Text? then Some(f.text) else None
  }

  /**
   * One item of the export:
   * - its request text, decoded when marked base64, or `None` when the item
   *   has no `<request>`, the decoding fails or the element has no text;
   * - whether it has a `<response>` whose text decodes where marked base64;
   * - its `<url>` element;
   * - the value `int()` gives for the text of its `<status>` element, or
   *   `None` where that raises (no element, no text, or not an integer).
   */
  datatype BurpItem = BurpItem(request: Option<string>, responseOk: bool, url: Field, status: Option<int>)

  /**
   * The `request` dictionary an item contributes, or `None` when the item is
   * skipped: its request or response is missing or does not decode, its
   * request line does not split into three parts, it has no `<url>` element
   * (`.text` of `None` raises), or its status is not an integer. The last
   * two raise inside the `try` and are skipped by its `except`.
   */
  function ParseItem(item: BurpItem): (r: Option<BurpRequest>)
    ensures r.Some? <==> item.request.Some? && item.responseOk
                         && |Split(Split(item.request.value, '\n')[0], ' ')| == 3
                         && !item.url.Absent? && item.status.Some?
    ensures r.Some? ==> r.value.url == (if item.url.Text? then Some(item.url.text) else None)
  {
    if item.request.None? || !item.responseOk || item.url.Absent? || item.status.None? then None
    else ParseRequest(item.request.value, TextOf(item.url))
  }

  /** The parsed requests of the items that are not skipped, in order. */
  function KeptRequests(items: seq<BurpItem>): (r: seq<BurpRequest>)
    ensures |r| <= |items|
  {
    if items == [] then []
    else
      var last := items[|items| - 1];
      KeptRequests(items[..|items| - 1])
        + match ParseItem(last) case None => [] case Some(q) => [q]
  }

  /** An item is kept, as the next request, exactly when it parses. */
  lemma KeptRequestsSnoc(items: seq<BurpItem>, item: BurpItem)
    ensures KeptRequests(items + [item])
         == KeptRequests(items) + (if ParseItem(item).Some? then [ParseItem(item).value] else [])
  {
    assert (items + [item])[..|items|] == items;
  }

  /** The `for item in root.findall('.//item')` loop: skipped items are dropped, the rest appended in order. */
  method ParseItems(items: seq<BurpItem>) returns (parsed: seq<BurpRequest>)
    ensures parsed == KeptRequests(items)
  {
    parsed := [];
    for i := 0 to |items|
      invariant parsed == KeptRequests(items[..i])
    {
      assert items[..i + 1] == items[..i] + [items[i]];
      KeptRequestsSnoc(items[..i], items[i]);
      if items[i].request.Some? && items[i].responseOk {
        var request := ParseRequestText(items[i].request.value, TextOf(items[i].url));
        if request.Some? && !items[i].url.Absent? && items[i].status.Some? {
          parsed := parsed + [request.value];
        }
      }
    }
    assert items[..|items|] == items;
  }

  /** A request dictionary as `convert_burp_to_api` reads it: `None` for a key that is absent. */
  datatype RequestDict = RequestDict(url: Field, httpMethod: Option<string>,
                                     headers: Option<map<string, string>>, body: Option<string>)

  /** The dictionary a parsed item carries: every key is present, the URL possibly as `None`. */
  function AsDict(q: BurpRequest): RequestDict {
    RequestDict(if q.url.Some? then Text(q.url.value) else Null, Some(q.httpMethod), Some(q.headers), q.body)
  }

  /**
   * `convert_burp_to_api`; `id` stands for the fresh `uuid4`. A URL that is
   * present as `None` makes `.split('/')` raise, and no record is made.
   */
  function ConvertBurpToApi(request: RequestDict, id: string): (api: Option<ApiRecord>)
    ensures api.None? <==> request.url.Null?
    ensures api.Some? ==> api.value.url == (if request.url.Text? then request.url.text else "")
    ensures api.Some? ==> api.value.name == ApiName(api.value.url) && api.value.status == Pending && api.value.testResults == None
  {
    if request.url.Null? then None
    else
      var url := if request.url.Text? then request.url.text else "";
      Some(ApiRecord(id, ApiName(url),
                     url,
                     if request.httpMethod.Some? then request.httpMethod.value else "GET",
                     if request.headers.Some? then request.headers.value else map[],
                     request.body, Pending, None))
  }

  /**
   * A request dictionary with no keys becomes an unnamed `GET` of the empty
   * URL; a parsed item with a URL keeps its own method, URL, headers and
   * body, and one whose `<url>` had no text makes the conversion fail.
   */
  lemma ConvertDefaults(q: BurpRequest, id: string)
    ensures ConvertBurpToApi(RequestDict(Absent, None, None, None), id)
         == Some(ApiRecord(id, UnnamedApi, "", "GET", map[], None, Pending, None))
    ensures q.url.Some? ==> var api := ConvertBurpToApi(AsDict(q), id);
            api.Some? && api.value.httpMethod == q.httpMethod && api.value.url == q.url.value
            && api.value.headers == q.headers && api.value.body == q.body
    ensures q.url.None? ==> ConvertBurpToApi(AsDict(q), id).None?
  {
    ApiNameRule("");
  }
}
