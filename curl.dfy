/**
 * backend/main.py `parse_curl_command`: the walk over the tokens of a cURL
 * command line that picks out the method, the URL, the headers and the body
 * and builds a pending API record from them. Tokenising the command line is
 * not modelled: the walk starts from the token list.
 */
module Curl {
  import opened Wrappers
  import opened Text
  import opened Apis

  /** The `ValueError`s and the `IndexError` the parser can raise. */
  datatype CurlError =
    | NotCurl                          // empty token list, or first token not `curl`
    | MissingArgument(flag: string)    // a recognised flag is the last token
    | NoUrl                            // no token supplied a URL

  predicate IsMethodFlag(t: string) { t == "-X" || t == "--request" }

  predicate IsHeaderFlag(t: string) { t == "-H" || t == "--header" }

  predicate IsDataFlag(t: string) {
    t == "-d" || t == "--data" || t == "--data-raw" || t == "--data-binary" || t == "--data-ascii"
  }

  /** The flags that consume the next token as their argument. */
  predicate IsFlag(t: string) { IsMethodFlag(t) || IsHeaderFlag(t) || IsDataFlag(t) }

  /** The loop variables `method`, `url`, `headers` and `body`. */
  datatype Fields = Fields(httpMethod: string, url: string, headers: map<string, string>, body: Option<string>)

  const Start: Fields := Fields("GET", "", map[], None)

  /** The effect of a recognised flag and its argument on the loop variables. */
  function ApplyFlag(f: Fields, flag: string, arg: string): (r: Fields)
    requires IsFlag(flag)
    ensures r.url == f.url
  {
    if IsMethodFlag(flag) then f.(httpMethod := Upper(arg))
    else if IsHeaderFlag(flag) then f.(headers := AddHeader(f.headers, arg))
    else f.(body := Some(arg), httpMethod := if f.httpMethod == "GET" then "POST" else f.httpMethod)
  }

  /** The effect of any other token: the first bare token becomes the URL. */
  function ApplyOther(f: Fields, t: string): (r: Fields)
    ensures f.url != [] ==> r == f
  {
    if !StartsWith(t, "-") && f.url == [] then f.(url := t) else f
  }

  /** The rest of the walk from position `i`: the final loop variables, or the error it raises. */
  function Scan(tokens: seq<string>, i: nat, f: Fields): (r: Result<Fields, CurlError>)
    ensures r.Err? ==> r.error.MissingArgument?
    decreases |tokens| - i
  {
    if i >= |tokens| then Ok(f)
    else if IsFlag(tokens[i]) then
      if i + 1 == |tokens| then Err(MissingArgument(tokens[i]))
      else Scan(tokens, i + 2, ApplyFlag(f, tokens[i], tokens[i + 1]))
    else Scan(tokens, i + 1, ApplyOther(f, tokens[i]))
  }

  /** The record the parser returns; `id` stands for the fresh `uuid4`. */
  function ToRecord(f: Fields, id: string): (api: ApiRecord)
    ensures api.status == Pending && api.testResults == None && api.name == ApiName(f.url)
  {
    ApiRecord(id, ApiName(f.url), f.url, f.httpMethod, f.headers, f.body, Pending, None)
  }

  /** What `parse_curl_command` computes. */
  function ParseCurl(tokens: seq<string>, id: string): (r: Result<ApiRecord, CurlError>)
    ensures r.Ok? ==> |tokens| >= 1 && r.value.url != [] && !StartsWith(r.value.url, "-") && r.value.url in tokens[1..]
                      && r.value.name == ApiName(r.value.url) && r.value.status == Pending && r.value.testResults == None
  {
    if tokens == [] || Lower(tokens[0]) != "curl" then Err(NotCurl)
    else
      match Scan(tokens, 1, Start)
      case Err(e) => Err(e)
      case Ok(f) =>
        ScanUrl(tokens, 1, Start);
        if f.url == [] then Err(NoUrl) else Ok(ToRecord(f, id))
  }

  /** The token walk of `parse_curl_command`, with the loop variables of the source. */
  method ParseCurlCommand(tokens: seq<string>, id: string) returns (r: Result<ApiRecord, CurlError>)
    ensures r == ParseCurl(tokens, id)
  {
    if |tokens| == 0 || Lower(tokens[0]) != "curl" {
      return Err(NotCurl);
    }
    var httpMethod := "GET";
    var url := "";
    var headers: map<string, string> := map[];
    var body: Option<string> := None;
    var i := 1;
    while i < |tokens|
      invariant 1 <= i <= |tokens|
      invariant Scan(tokens, 1, Start) == Scan(tokens, i, Fields(httpMethod, url, headers, body))
      decreases |tokens| - i
    {
      var token := tokens[i];
      if IsMethodFlag(token) {
        i := i + 1;
        if i >= |tokens| {
          return Err(MissingArgument(token));
        }
        httpMethod := Upper(tokens[i]);
      } else if IsHeaderFlag(token) {
        i := i + 1;
        if i >= |tokens| {
          return Err(MissingArgument(token));
        }
        headers := StoreHeader(headers, tokens[i]);
      } else if IsDataFlag(token) {
        i := i + 1;
        if i >= |tokens| {
          return Err(MissingArgument(token));
        }
        body := Some(tokens[i]);
        if httpMethod == "GET" {
          httpMethod := "POST";
        }
      } else if !StartsWith(token, "-") && url == [] {
        url := token;
      }
      i := i + 1;
    }
    if url == [] {
      return Err(NoUrl);
    }
    r := Ok(ToRecord(Fields(httpMethod, url, headers, body), id));
  }

  /** The only failure of the walk is a recognised flag left without its argument at the very end. */
  lemma {:induction false} ScanError(tokens: seq<string>, i: nat, f: Fields)
    ensures Scan(tokens, i, f).Err? ==>
      |tokens| >= 1 && IsFlag(tokens[|tokens| - 1]) && Scan(tokens, i, f).error == MissingArgument(tokens[|tokens| - 1])
    decreases |tokens| - i
  {
    if i < |tokens| {
      if IsFlag(tokens[i]) {
        if i + 1 < |tokens| {
          ScanError(tokens, i + 2, ApplyFlag(f, tokens[i], tokens[i + 1]));
        }
      } else {
        ScanError(tokens, i + 1, ApplyOther(f, tokens[i]));
      }
    }
  }

  /**
   * Once set, the URL never changes; and a URL set by the walk is one of the
   * tokens from position `i` on that does not start with `-`.
   */
  lemma {:induction false} ScanUrl(tokens: seq<string>, i: nat, f: Fields)
    ensures Scan(tokens, i, f).Ok? ==>
      var r := Scan(tokens, i, f).value;
      (f.url != [] ==> r.url == f.url)
      && (r.url == f.url || (r.url in tokens[i..] && !StartsWith(r.url, "-")))
    decreases |tokens| - i
  {
    if i < |tokens| {
      if IsFlag(tokens[i]) {
        if i + 1 < |tokens| {
          ScanUrl(tokens, i + 2, ApplyFlag(f, tokens[i], tokens[i + 1]));
          assert tokens[i + 2..] == tokens[i..][2..];
        }
      } else {
        ScanUrl(tokens, i + 1, ApplyOther(f, tokens[i]));
        assert tokens[i + 1..] == tokens[i..][1..];
        assert tokens[i] == tokens[i..][0];
      }
    }
  }

  /** The method an unset `-X` leaves: `POST` when a body is present, `GET` otherwise. */
  function DefaultMethod(body: Option<string>): string {
    if body.Some? then "POST" else "GET"
  }

  /**
   * Without an explicit method flag, the method ends as `POST` when a data
   * flag gave a body and `GET` otherwise; without a header flag the headers
   * are untouched; without a data flag the body is untouched; and the method
   * never holds a lower-case letter.
   */
  lemma {:induction false} ScanFlags(tokens: seq<string>, i: nat, f: Fields)
    ensures Scan(tokens, i, f).Ok? ==>
      var r := Scan(tokens, i, f).value;
      (((forall j :: i <= j < |tokens| ==> !IsMethodFlag(tokens[j])) && f.httpMethod == DefaultMethod(f.body))
        ==> r.httpMethod == DefaultMethod(r.body))
      && ((forall j :: i <= j < |tokens| ==> !IsHeaderFlag(tokens[j])) ==> r.headers == f.headers)
      && ((forall j :: i <= j < |tokens| ==> !IsDataFlag(tokens[j])) ==> r.body == f.body)
      && (NoLowercase(f.httpMethod) ==> NoLowercase(r.httpMethod))
    decreases |tokens| - i
  {
    if i < |tokens| {
      if IsFlag(tokens[i]) {
        if i + 1 < |tokens| {
          ScanFlags(tokens, i + 2, ApplyFlag(f, tokens[i], tokens[i + 1]));
        }
      } else {
        ScanFlags(tokens, i + 1, ApplyOther(f, tokens[i]));
      }
    }
  }

  /** The position after the token at `i` and, for a recognised flag, its argument. */
  function Next(tokens: seq<string>, i: nat): (n: nat)
    requires i < |tokens|
    ensures i < n
  {
    if IsFlag(tokens[i]) then i + 2 else i + 1
  }

  /** Position `j` is one the walk from `i` reads as a token of its own, not as a flag's argument. */
  predicate Reached(tokens: seq<string>, i: nat, j: nat)
    decreases |tokens| - i
  {
    i < |tokens| && (j == i || (j > i && Reached(tokens, Next(tokens, i), j)))
  }

  lemma {:induction false} ReachedBounds(tokens: seq<string>, i: nat, j: nat)
    ensures Reached(tokens, i, j) ==> i <= j < |tokens|
    decreases |tokens| - i
  {
    if i < |tokens| && j > i {
      ReachedBounds(tokens, Next(tokens, i), j);
    }
  }

  /** Past its first position, the walk from `i` reads what the walk from the next position reads. */
  lemma ReachedShift(tokens: seq<string>, i: nat)
    requires i < |tokens|
    ensures Reached(tokens, i, i) && !Reached(tokens, Next(tokens, i), i)
    ensures forall j: nat :: j != i ==> (Reached(tokens, i, j) <==> Reached(tokens, Next(tokens, i), j))
  {
    ReachedBounds(tokens, Next(tokens, i), i);
    forall j: nat | j != i
      ensures Reached(tokens, i, j) <==> Reached(tokens, Next(tokens, i), j)
    {
      ReachedBounds(tokens, Next(tokens, i), j);
    }
  }

  /** Every recognised flag starts with `-`. */
  lemma FlagIsDashed(t: string)
    requires IsFlag(t)
    ensures StartsWith(t, "-")
  {
  }

  /** The walk from `i` reads the token at `j`, and it can become the URL: it is non-empty and does not start with `-`. */
  predicate UrlCandidate(tokens: seq<string>, i: nat, j: nat) {
    j < |tokens| && Reached(tokens, i, j) && tokens[j] != [] && !StartsWith(tokens[j], "-")
  }

  /** The first such token. */
  ghost predicate FirstUrlCandidate(tokens: seq<string>, i: nat, j: nat) {
    UrlCandidate(tokens, i, j) && forall k: nat :: k < j ==> !UrlCandidate(tokens, i, k)
  }

  /** The walk from `i` reads a method flag at `j`, and its argument follows. */
  predicate MethodAt(tokens: seq<string>, i: nat, j: nat) {
    j + 1 < |tokens| && Reached(tokens, i, j) && IsMethodFlag(tokens[j])
  }

  ghost predicate LastMethodAt(tokens: seq<string>, i: nat, j: nat) {
    MethodAt(tokens, i, j) && forall k: nat :: j < k ==> !MethodAt(tokens, i, k)
  }

  /** The walk from `i` reads a data flag at `j`, and its argument follows. */
  predicate DataAt(tokens: seq<string>, i: nat, j: nat) {
    j + 1 < |tokens| && Reached(tokens, i, j) && IsDataFlag(tokens[j])
  }

  ghost predicate LastDataAt(tokens: seq<string>, i: nat, j: nat) {
    DataAt(tokens, i, j) && forall k: nat :: j < k ==> !DataAt(tokens, i, k)
  }

  /** The walk from `i` reads a header flag at `j`, and its argument follows. */
  predicate HeaderAt(tokens: seq<string>, i: nat, j: nat) {
    j + 1 < |tokens| && Reached(tokens, i, j) && IsHeaderFlag(tokens[j])
  }

  /** The method after a data flag was seen or not: a data flag turns `GET` into `POST`. */
  function AfterData(m: string, data: bool): string {
    if data && m == "GET" then "POST" else m
  }

  /** The arguments of the header flags the walk from `i` reads, in order. */
  function HeaderArgs(tokens: seq<string>, i: nat): seq<string>
    decreases |tokens| - i
  {
    if i >= |tokens| then []
    else if IsHeaderFlag(tokens[i]) && i + 1 < |tokens| then [tokens[i + 1]] + HeaderArgs(tokens, i + 2)
    else HeaderArgs(tokens, Next(tokens, i))
  }

  /** The header arguments are exactly those of the header flags the walk reads. */
  lemma {:induction false} HeaderArgsAt(tokens: seq<string>, i: nat)
    ensures forall x :: x in HeaderArgs(tokens, i) <==> exists j: nat :: HeaderAt(tokens, i, j) && tokens[j + 1] == x
    decreases |tokens| - i
  {
    if i < |tokens| {
      HeaderArgsAt(tokens, Next(tokens, i));
      forall x
        ensures x in HeaderArgs(tokens, i) <==> exists j: nat :: HeaderAt(tokens, i, j) && tokens[j + 1] == x
      {
        HeaderArgsStep(tokens, i, x);
      }
    }
  }

  /** One argument is among those from `i` exactly as it is among those from the next position, or is the one at `i`. */
  lemma HeaderArgsStep(tokens: seq<string>, i: nat, x: string)
    requires i < |tokens|
    requires x in HeaderArgs(tokens, Next(tokens, i)) <==>
             exists j: nat :: HeaderAt(tokens, Next(tokens, i), j) && tokens[j + 1] == x
    ensures x in HeaderArgs(tokens, i) <==> exists j: nat :: HeaderAt(tokens, i, j) && tokens[j + 1] == x
  {
    var n := Next(tokens, i);
    ReachedShift(tokens, i);
    var here := IsHeaderFlag(tokens[i]) && i + 1 < |tokens|;
    assert HeaderAt(tokens, i, i) <==> here;
    assert HeaderArgs(tokens, i) == if here then [tokens[i + 1]] + HeaderArgs(tokens, n) else HeaderArgs(tokens, n);
    if x in HeaderArgs(tokens, i) && !(here && x == tokens[i + 1]) {
      var j: nat :| HeaderAt(tokens, n, j) && tokens[j + 1] == x;
      assert HeaderAt(tokens, i, j);
    }
    if exists j: nat :: HeaderAt(tokens, i, j) && tokens[j + 1] == x {
      var j: nat :| HeaderAt(tokens, i, j) && tokens[j + 1] == x;
      if j != i {
        assert HeaderAt(tokens, n, j);
      }
    }
  }

  /** `headers` after each line in turn, as the `-H` branch applies them. */
  function FoldHeaders(headers: map<string, string>, lines: seq<string>): map<string, string>
    decreases |lines|
  {
    if lines == [] then headers else FoldHeaders(AddHeader(headers, lines[0]), lines[1..])
  }

  /** The walk fails exactly when the last token is a recognised flag that the walk reads as one. */
  lemma {:induction false} ScanFails(tokens: seq<string>, i: nat, f: Fields)
    ensures Scan(tokens, i, f).Err? <==> |tokens| >= 1 && Reached(tokens, i, |tokens| - 1) && IsFlag(tokens[|tokens| - 1])
    decreases |tokens| - i
  {
    if i < |tokens| {
      ReachedShift(tokens, i);
      if IsFlag(tokens[i]) {
        if i + 1 < |tokens| {
          ScanFails(tokens, i + 2, ApplyFlag(f, tokens[i], tokens[i + 1]));
        }
      } else {
        ScanFails(tokens, i + 1, ApplyOther(f, tokens[i]));
        ReachedBounds(tokens, i + 1, |tokens| - 1);
      }
    }
  }

  /**
   * The URL rule, for a walk from `i` with no URL yet: the URL stays empty
   * exactly when the walk reads no candidate token, and otherwise it is the
   * first candidate.
   */
  lemma {:induction false} ScanUrlRule(tokens: seq<string>, i: nat, f: Fields)
    requires f.url == []
    ensures Scan(tokens, i, f).Ok? ==>
      var r := Scan(tokens, i, f).value;
      (r.url == [] <==> forall j: nat :: !UrlCandidate(tokens, i, j))
      && (r.url != [] ==> exists j: nat :: FirstUrlCandidate(tokens, i, j) && r.url == tokens[j])
      && (forall j: nat :: FirstUrlCandidate(tokens, i, j) ==> r.url == tokens[j])
    decreases |tokens| - i
  {
    if i < |tokens| {
      var n := Next(tokens, i);
      ReachedShift(tokens, i);
      if IsFlag(tokens[i]) || tokens[i] == [] || StartsWith(tokens[i], "-") {
        var g := if IsFlag(tokens[i]) then (if i + 1 < |tokens| then ApplyFlag(f, tokens[i], tokens[i + 1]) else f)
                 else ApplyOther(f, tokens[i]);
        assert g.url == [];
        if IsFlag(tokens[i]) {
          FlagIsDashed(tokens[i]);
        }
        assert !UrlCandidate(tokens, i, i) && !UrlCandidate(tokens, n, i);
        assert forall j: nat :: UrlCandidate(tokens, i, j) <==> UrlCandidate(tokens, n, j);
        if !IsFlag(tokens[i]) || i + 1 < |tokens| {
          assert Scan(tokens, i, f) == Scan(tokens, n, g);
          ScanUrlRule(tokens, n, g);
        }
      } else {
        var g := ApplyOther(f, tokens[i]);
        ScanUrl(tokens, n, g);
        assert UrlCandidate(tokens, i, i);
        forall k: nat | k < i
          ensures !UrlCandidate(tokens, i, k)
        {
          ReachedBounds(tokens, i, k);
        }
        forall j: nat | FirstUrlCandidate(tokens, i, j)
          ensures j == i
        {
          ReachedBounds(tokens, i, j);
        }
      }
    }
  }

  /**
   * The method rule for a walk from `i` that starts with method `m0` and
   * ends with `m`: after the last method flag the walk reads, the method is
   * that flag's argument upper-cased, turned into `POST` if it is `GET` and a
   * data flag follows; without a method flag, it is `m0`, turned into `POST`
   * if it is `GET` and a data flag is read.
   */
  ghost predicate MethodRule(tokens: seq<string>, i: nat, m0: string, m: string) {
    (forall j: nat :: LastMethodAt(tokens, i, j) ==>
       m == AfterData(Upper(tokens[j + 1]), exists d: nat :: j < d && DataAt(tokens, i, d)))
    && ((forall j: nat :: !MethodAt(tokens, i, j)) ==>
       m == AfterData(m0, exists d: nat :: DataAt(tokens, i, d)))
  }

  /** The walk ends with the method the method rule gives. */
  lemma {:induction false} ScanMethodRule(tokens: seq<string>, i: nat, f: Fields)
    ensures Scan(tokens, i, f).Ok? ==> MethodRule(tokens, i, f.httpMethod, Scan(tokens, i, f).value.httpMethod)
    decreases |tokens| - i
  {
    if i < |tokens| && (!IsFlag(tokens[i]) || i + 1 < |tokens|) {
      var n := Next(tokens, i);
      var g := if IsFlag(tokens[i]) then ApplyFlag(f, tokens[i], tokens[i + 1]) else ApplyOther(f, tokens[i]);
      assert Scan(tokens, i, f) == Scan(tokens, n, g);
      ScanMethodRule(tokens, n, g);
      if Scan(tokens, n, g).Ok? {
        MethodStep(tokens, i, f.httpMethod, g.httpMethod, Scan(tokens, n, g).value.httpMethod);
      }
    }
  }

  /** The method rule from `i` follows from the method rule from the next position. */
  lemma MethodStep(tokens: seq<string>, i: nat, m0: string, m1: string, m: string)
    requires i < |tokens| && (!IsFlag(tokens[i]) || i + 1 < |tokens|)
    requires m1 == if IsMethodFlag(tokens[i]) then Upper(tokens[i + 1])
                   else if IsDataFlag(tokens[i]) then AfterData(m0, true) else m0
    requires MethodRule(tokens, Next(tokens, i), m1, m)
    ensures MethodRule(tokens, i, m0, m)
  {
    var n := Next(tokens, i);
    ShiftMethodData(tokens, i);
    forall j: nat | LastMethodAt(tokens, i, j)
      ensures m == AfterData(Upper(tokens[j + 1]), exists d: nat :: j < d && DataAt(tokens, i, d))
    {
      if j == i {
        assert forall k: nat :: !MethodAt(tokens, n, k);
      } else {
        assert LastMethodAt(tokens, n, j);
      }
    }
  }

  /** Past its first position, the walk from `i` reads the method and data flags the walk from the next position reads. */
  lemma ShiftMethodData(tokens: seq<string>, i: nat)
    requires i < |tokens|
    ensures !MethodAt(tokens, Next(tokens, i), i) && !DataAt(tokens, Next(tokens, i), i)
    ensures forall j: nat :: j != i ==> (MethodAt(tokens, i, j) <==> MethodAt(tokens, Next(tokens, i), j))
    ensures forall j: nat :: j != i ==> (DataAt(tokens, i, j) <==> DataAt(tokens, Next(tokens, i), j))
    ensures MethodAt(tokens, i, i) <==> i + 1 < |tokens| && IsMethodFlag(tokens[i])
    ensures DataAt(tokens, i, i) <==> i + 1 < |tokens| && IsDataFlag(tokens[i])
  {
    ReachedShift(tokens, i);
  }

  /** The body rule: the argument of the last data flag the walk reads, or the body it starts with when it reads none. */
  lemma {:induction false} ScanBodyRule(tokens: seq<string>, i: nat, f: Fields)
    ensures Scan(tokens, i, f).Ok? ==>
      var r := Scan(tokens, i, f).value;
      (forall j: nat :: LastDataAt(tokens, i, j) ==> r.body == Some(tokens[j + 1]))
      && ((forall j: nat :: !DataAt(tokens, i, j)) ==> r.body == f.body)
    decreases |tokens| - i
  {
    if i < |tokens| && (!IsFlag(tokens[i]) || i + 1 < |tokens|) {
      var n := Next(tokens, i);
      var g := if IsFlag(tokens[i]) then ApplyFlag(f, tokens[i], tokens[i + 1]) else ApplyOther(f, tokens[i]);
      assert Scan(tokens, i, f) == Scan(tokens, n, g);
      ScanBodyRule(tokens, n, g);
      ShiftMethodData(tokens, i);
      if Scan(tokens, n, g).Ok? {
        var r := Scan(tokens, n, g).value;
        forall j: nat | LastDataAt(tokens, i, j)
          ensures r.body == Some(tokens[j + 1])
        {
          if j == i {
            assert forall k: nat :: !DataAt(tokens, n, k);
          } else {
            assert LastDataAt(tokens, n, j);
          }
        }
      }
    }
  }

  /** The header rule: the headers the walk starts with, updated by each header argument it reads, in order. */
  lemma {:induction false} ScanHeadersRule(tokens: seq<string>, i: nat, f: Fields)
    ensures Scan(tokens, i, f).Ok? ==> Scan(tokens, i, f).value.headers == FoldHeaders(f.headers, HeaderArgs(tokens, i))
    decreases |tokens| - i
  {
    if i < |tokens| && (!IsFlag(tokens[i]) || i + 1 < |tokens|) {
      var n := Next(tokens, i);
      var g := if IsFlag(tokens[i]) then ApplyFlag(f, tokens[i], tokens[i + 1]) else ApplyOther(f, tokens[i]);
      ScanHeadersRule(tokens, n, g);
      if IsHeaderFlag(tokens[i]) {
        assert HeaderArgs(tokens, i) == [tokens[i + 1]] + HeaderArgs(tokens, n);
      }
    }
  }

  /** The errors of the parser, each with the input that causes it. */
  lemma ParseCurlErrors(tokens: seq<string>, id: string)
    ensures ParseCurl(tokens, id) == Err(NotCurl) <==> tokens == [] || Lower(tokens[0]) != "curl"
    ensures ParseCurl(tokens, id).Err? && ParseCurl(tokens, id).error.MissingArgument? ==>
      IsFlag(tokens[|tokens| - 1]) && ParseCurl(tokens, id).error.flag == tokens[|tokens| - 1]
  {
    if tokens != [] && Lower(tokens[0]) == "curl" {
      ScanError(tokens, 1, Start);
    }
  }

  /** The walk from the first argument reads the last token as a recognised flag, which then lacks its argument. */
  ghost predicate EndsInFlag(tokens: seq<string>) {
    |tokens| >= 1 && Reached(tokens, 1, |tokens| - 1) && IsFlag(tokens[|tokens| - 1])
  }

  /**
   * The URL is the first token the walk reads that is non-empty and does
   * not start with `-`; there is no URL, and the parser raises, exactly when
   * the walk completes without reading such a token.
   */
  lemma ParseCurlUrl(tokens: seq<string>, id: string)
    ensures ParseCurl(tokens, id).Err? && ParseCurl(tokens, id).error.MissingArgument? <==>
      |tokens| >= 1 && Lower(tokens[0]) == "curl" && EndsInFlag(tokens)
    ensures ParseCurl(tokens, id) == Err(NoUrl) <==>
      |tokens| >= 1 && Lower(tokens[0]) == "curl" && !EndsInFlag(tokens) && forall j: nat :: !UrlCandidate(tokens, 1, j)
    ensures ParseCurl(tokens, id).Ok? ==>
      exists j: nat :: FirstUrlCandidate(tokens, 1, j) && ParseCurl(tokens, id).value.url == tokens[j]
  {
    if tokens != [] && Lower(tokens[0]) == "curl" {
      ScanFails(tokens, 1, Start);
      ScanError(tokens, 1, Start);
      ScanUrlRule(tokens, 1, Start);
    }
  }

  /**
   * The method follows the method rule from `GET`; the body is the argument
   * of the last data flag the walk reads, or `None`; the headers are the
   * header arguments the walk reads, applied in order to an empty map.
   */
  lemma ParseCurlFlags(tokens: seq<string>, id: string)
    ensures ParseCurl(tokens, id).Ok? ==>
      var api := ParseCurl(tokens, id).value;
      MethodRule(tokens, 1, "GET", api.httpMethod)
      && (forall j: nat :: LastDataAt(tokens, 1, j) ==> api.body == Some(tokens[j + 1]))
      && ((forall j: nat :: !DataAt(tokens, 1, j)) ==> api.body == None)
      && api.headers == FoldHeaders(map[], HeaderArgs(tokens, 1))
  {
    if tokens != [] && Lower(tokens[0]) == "curl" {
      ScanMethodRule(tokens, 1, Start);
      ScanBodyRule(tokens, 1, Start);
      ScanHeadersRule(tokens, 1, Start);
    }
  }

  /** A command whose first argument is a bare token takes that token as its URL, whatever follows. */
  lemma ParseCurlUrlFirst(tokens: seq<string>, id: string)
    requires |tokens| >= 2 && Lower(tokens[0]) == "curl"
    requires tokens[1] != [] && !StartsWith(tokens[1], "-")
    ensures ParseCurl(tokens, id).Ok? ==> ParseCurl(tokens, id).value.url == tokens[1]
    ensures ParseCurl(tokens, id).Err? ==> ParseCurl(tokens, id).error.MissingArgument?
  {
    assert !IsFlag(tokens[1]);
    var f := ApplyOther(Start, tokens[1]);
    assert f.url == tokens[1];
    assert Scan(tokens, 1, Start) == Scan(tokens, 2, f);
    ScanUrl(tokens, 2, f);
    ScanError(tokens, 2, f);
  }

  /**
   * Without any flag, the method is `GET`, there are no headers and no body;
   * a method flag anywhere still leaves the method free of lower-case letters.
   */
  lemma ParseCurlDefaults(tokens: seq<string>, id: string)
    ensures ParseCurl(tokens, id).Ok? ==> NoLowercase(ParseCurl(tokens, id).value.httpMethod)
    ensures ParseCurl(tokens, id).Ok? && (forall j :: 1 <= j < |tokens| ==> !IsMethodFlag(tokens[j])) ==>
      var api := ParseCurl(tokens, id).value;
      api.httpMethod == (if api.body.Some? then "POST" else "GET")
    ensures ParseCurl(tokens, id).Ok? && (forall j :: 1 <= j < |tokens| ==> !IsFlag(tokens[j])) ==>
      var api := ParseCurl(tokens, id).value;
      api.httpMethod == "GET" && api.headers == map[] && api.body == None
  {
    if tokens != [] && Lower(tokens[0]) == "curl" {
      ScanFlags(tokens, 1, Start);
    }
  }
}
