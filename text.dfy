/**
 * The Python `str` operations the backend relies on, over `seq<char>`:
 * whitespace stripping, splitting on one character, joining, prefix and
 * suffix tests, substring search, truncation, character replacement and
 * case mapping.
 */
module Text {
  import opened Wrappers

  /** `c.isspace()`: exactly the code points Python classifies as whitespace. */
  predicate IsSpace(c: char) {
    var n := c as int;
    (9 <= n <= 13) || (28 <= n <= 32) || n == 0x85 || n == 0xA0 || n == 0x1680
    || (0x2000 <= n <= 0x200A) || n == 0x2028 || n == 0x2029 || n == 0x202F
    || n == 0x205F || n == 0x3000
  }

  /** `not s.strip()`: the string is empty or holds only whitespace. */
  predicate IsBlank(s: string) {
    forall i :: 0 <= i < |s| ==> IsSpace(s[i])
  }

  /** `len(s) - len(s.lstrip())`: the width of the leading whitespace. */
  function LeadingSpace(s: string): (n: nat)
    ensures n <= |s|
    ensures forall i :: 0 <= i < n ==> IsSpace(s[i])
    ensures n < |s| ==> !IsSpace(s[n])
  {
    if |s| == 0 || !IsSpace(s[0]) then 0 else 1 + LeadingSpace(s[1..])
  }

  /** `len(s) - len(s.rstrip())`: the width of the trailing whitespace. */
  function TrailingSpace(s: string): (n: nat)
    ensures n <= |s|
    ensures forall i :: |s| - n <= i < |s| ==> IsSpace(s[i])
    ensures n < |s| ==> !IsSpace(s[|s| - 1 - n])
  {
    if |s| == 0 || !IsSpace(s[|s| - 1]) then 0 else 1 + TrailingSpace(s[..|s| - 1])
  }

  /** `s.strip()`: the middle of `s` between its leading and trailing whitespace. */
  function Strip(s: string): (r: string)
    ensures LeadingSpace(s) + |r| <= |s| && r == s[LeadingSpace(s)..LeadingSpace(s) + |r|]
    ensures r == [] <==> IsBlank(s)
    ensures r != [] ==> !IsSpace(r[0]) && !IsSpace(r[|r| - 1])
  {
    var t := s[LeadingSpace(s)..];
    assert IsBlank(s) ==> LeadingSpace(s) == |s|;
    assert t != [] ==> !IsSpace(t[0]);
    t[..|t| - TrailingSpace(t)]
  }

  /** A string with no whitespace at either end is its own strip. */
  lemma StripUnchanged(s: string)
    requires s == [] || (!IsSpace(s[0]) && !IsSpace(s[|s| - 1]))
    ensures Strip(s) == s
  {
    if s != [] {
      assert LeadingSpace(s) == 0;
      assert TrailingSpace(s) == 0;
    }
  }

  /** Stripping twice is stripping once. */
  lemma StripIdempotent(s: string)
    ensures Strip(Strip(s)) == Strip(s)
  {
    StripUnchanged(Strip(s));
  }

  /** A line read from a file keeps its newline; stripping gives back the text. */
  lemma StripNewline(s: string)
    requires forall i :: 0 <= i < |s| ==> !IsSpace(s[i])
    ensures Strip(s + "\n") == s
  {
    var t := s + "\n";
    if s == [] {
      assert IsBlank(t);
    } else {
      assert t[0] == s[0];
      assert LeadingSpace(t) == 0;
      assert t[..|t| - 1] == s;
      assert TrailingSpace(t) == 1 + TrailingSpace(s);
      assert TrailingSpace(s) == 0;
    }
  }

  /** `s.split(sep)` for a one-character separator: never empty, and no piece holds `sep`. */
  function Split(s: string, sep: char): (parts: seq<string>)
    ensures |parts| >= 1
    ensures forall i :: 0 <= i < |parts| ==> sep !in parts[i]
  {
    if s == [] then [[]]
    else
      var rest := Split(s[1..], sep);
      if s[0] == sep then [[]] + rest else [[s[0]] + rest[0]] + rest[1..]
  }

  /** `sep.join(parts)` for a one-character separator. */
  function Join(parts: seq<string>, sep: char): string
  {
    if |parts| == 0 then []
    else if |parts| == 1 then parts[0]
    else parts[0] + [sep] + Join(parts[1..], sep)
  }

  /** Joining the pieces of a split with the same separator gives back the string. */
  lemma {:induction false} JoinSplit(s: string, sep: char)
    ensures Join(Split(s, sep), sep) == s
  {
    if s != [] {
      var rest := Split(s[1..], sep);
      JoinSplit(s[1..], sep);
      if s[0] == sep {
        assert Split(s, sep) == [[]] + rest;
        assert Join([[]] + rest, sep) == [] + [sep] + Join(rest, sep);
      } else {
        var parts := Split(s, sep);
        assert parts == [[s[0]] + rest[0]] + rest[1..];
        if |rest| == 1 {
          assert Join(parts, sep) == [s[0]] + rest[0];
        } else {
          assert parts[1..] == rest[1..];
          assert Join(rest, sep) == rest[0] + [sep] + Join(rest[1..], sep);
        }
      }
    }
  }

  /**
   * The last piece of a split is the longest separator-free suffix: it ends
   * the string and is either all of it or preceded by the separator.
   */
  lemma {:induction false} SplitLast(s: string, sep: char)
    ensures var parts := Split(s, sep);
            var last := parts[|parts| - 1];
            EndsWith(s, last) && (|last| == |s| || s[|s| - |last| - 1] == sep)
            && (|parts| > 1 ==> |last| < |s|)
  {
    if s != [] {
      var tail := s[1..];
      var rest := Split(tail, sep);
      SplitLast(tail, sep);
      var parts := Split(s, sep);
      var last := rest[|rest| - 1];
      SuffixOfTail(s, |last|);
      if s[0] == sep {
        assert parts == [[]] + rest;
        LastAfterHead([], rest);
      } else if |rest| == 1 {
        JoinSplit(tail, sep);
        assert parts == [[s[0]] + tail];
        HeadAndTail(s);
      } else {
        assert parts == [[s[0]] + rest[0]] + rest[1..];
        LastAfterHead([s[0]] + rest[0], rest[1..]);
      }
    }
  }

  /** The last element is unchanged by putting one in front. */
  lemma LastAfterHead<T>(x: T, s: seq<T>)
    requires s != []
    ensures ([x] + s)[|s|] == s[|s| - 1]
  {
  }

  /** A non-empty sequence is its head followed by its tail. */
  lemma HeadAndTail<T>(s: seq<T>)
    requires s != []
    ensures [s[0]] + s[1..] == s
  {
  }

  /** The last `n` elements of a sequence are the last `n` of its tail, as is the one before them. */
  lemma SuffixOfTail<T>(s: seq<T>, n: nat)
    requires n < |s|
    ensures s[|s| - n..] == s[1..][|s| - 1 - n..]
    ensures n < |s| - 1 ==> s[|s| - n - 1] == s[1..][|s| - 2 - n]
    ensures n == |s| - 1 ==> s[|s| - n - 1] == s[0]
  {
  }

  /** The last piece is empty exactly when the string is empty or ends with the separator. */
  lemma SplitLastEmpty(s: string, sep: char)
    ensures var parts := Split(s, sep);
            parts[|parts| - 1] == [] <==> s == [] || s[|s| - 1] == sep
  {
    SplitLast(s, sep);
    var parts := Split(s, sep);
    var last := parts[|parts| - 1];
    if last != [] && s != [] {
      assert s[|s| - 1] == last[|last| - 1];
      assert last[|last| - 1] in last;
    }
  }

  /** A string without the separator splits into itself alone. */
  lemma {:induction false} SplitNoSeparator(s: string, sep: char)
    requires sep !in s
    ensures Split(s, sep) == [s]
  {
    if s != [] {
      SplitNoSeparator(s[1..], sep);
      assert [s[0]] + s[1..] == s;
    }
  }

  /** A split has one piece more than the text has separators. */
  lemma {:induction false} SplitCount(s: string, sep: char)
    ensures |Split(s, sep)| == 1 + multiset(s)[sep]
  {
    if s != [] {
      SplitCount(s[1..], sep);
      assert s == [s[0]] + s[1..];
    }
  }

  /** A character absent from the text is absent from every piece. */
  lemma {:induction false} SplitAbsent(s: string, sep: char, c: char)
    requires c !in s
    ensures forall i :: 0 <= i < |Split(s, sep)| ==> c !in Split(s, sep)[i]
  {
    if s != [] {
      SplitAbsent(s[1..], sep, c);
    }
  }

  /** Splitting at one occurrence of the separator splits each side independently. */
  lemma {:induction false} SplitAround(x: string, sep: char, y: string)
    ensures Split(x + [sep] + y, sep) == Split(x, sep) + Split(y, sep)
  {
    var s := x + [sep] + y;
    if x == [] {
      assert s[1..] == y;
    } else {
      assert s[1..] == x[1..] + [sep] + y;
      SplitAround(x[1..], sep, y);
    }
  }

  /** Splitting a join of separator-free pieces gives back the pieces. */
  lemma {:induction false} SplitJoin(parts: seq<string>, sep: char)
    requires |parts| >= 1
    requires forall i :: 0 <= i < |parts| ==> sep !in parts[i]
    ensures Split(Join(parts, sep), sep) == parts
  {
    SplitNoSeparator(parts[0], sep);
    if |parts| > 1 {
      SplitJoin(parts[1..], sep);
      SplitAround(parts[0], sep, Join(parts[1..], sep));
      assert [parts[0]] + parts[1..] == parts;
    }
  }

  /** Joining one more piece appends the separator and the piece. */
  lemma {:induction false} JoinSnoc(parts: seq<string>, sep: char, last: string)
    requires |parts| >= 1
    ensures Join(parts + [last], sep) == Join(parts, sep) + [sep] + last
  {
    if |parts| > 1 {
      assert (parts + [last])[1..] == parts[1..] + [last];
      JoinSnoc(parts[1..], sep, last);
    }
  }

  /** A join ends with its last piece. */
  lemma {:induction false} JoinEndsWithLast(parts: seq<string>, sep: char)
    requires |parts| >= 1
    ensures EndsWith(Join(parts, sep), parts[|parts| - 1])
  {
    if |parts| > 1 {
      JoinEndsWithLast(parts[1..], sep);
      var tail := Join(parts[1..], sep);
      var s := parts[0] + [sep] + tail;
      assert s[|s| - |tail|..] == tail;
    }
  }

  /** A join of whitespace-free pieces with a non-whitespace separator holds no whitespace. */
  lemma {:induction false} JoinNoSpace(parts: seq<string>, sep: char)
    requires !IsSpace(sep)
    requires forall i, j :: 0 <= i < |parts| && 0 <= j < |parts[i]| ==> !IsSpace(parts[i][j])
    ensures forall k :: 0 <= k < |Join(parts, sep)| ==> !IsSpace(Join(parts, sep)[k])
  {
    if |parts| > 1 {
      JoinNoSpace(parts[1..], sep);
      var tail := Join(parts[1..], sep);
      var s := parts[0] + [sep] + tail;
      forall k | 0 <= k < |s| ensures !IsSpace(s[k]) {
        if k < |parts[0]| {
          assert s[k] == parts[0][k];
        } else if k > |parts[0]| {
          assert s[k] == tail[k - |parts[0]| - 1];
        }
      }
    } else if |parts| == 1 {
      assert Join(parts, sep) == parts[0];
    }
  }

  /** The position of the first `c` in `s`, or `|s|` when there is none. */
  function IndexOf(s: string, c: char): (k: nat)
    ensures k <= |s|
    ensures k < |s| ==> s[k] == c
    ensures forall j :: 0 <= j < k ==> s[j] != c
  {
    if s == [] then 0
    else if s[0] == c then 0
    else 1 + IndexOf(s[1..], c)
  }

  /** The first `c` after a `c`-free prefix is the one that ends the prefix. */
  lemma IndexOfConcat(x: string, c: char, y: string)
    requires c !in x
    ensures IndexOf(x + [c] + y, c) == |x|
  {
    var s := x + [c] + y;
    assert s[|x|] == c;
    assert forall j :: 0 <= j < |x| ==> s[j] == x[j];
  }

  /** `s.split(sep, 1)` unpacked into two names: `None` where Python raises because `sep` is absent. */
  function SplitOnce(s: string, sep: char): (r: Option<(string, string)>)
    ensures r.None? <==> sep !in s
    ensures r.Some? ==> sep !in r.value.0 && s == r.value.0 + [sep] + r.value.1
  {
    var k := IndexOf(s, sep);
    if k == |s| then None
    else
      assert s == s[..k] + [sep] + s[k + 1..];
      Some((s[..k], s[k + 1..]))
  }

  /** Splitting at the first separator undoes putting a separator after a separator-free prefix. */
  lemma SplitOnceConcat(x: string, sep: char, y: string)
    requires sep !in x
    ensures SplitOnce(x + [sep] + y, sep) == Some((x, y))
  {
    var s := x + [sep] + y;
    var k := IndexOf(s, sep);
    IndexOfConcat(x, sep, y);
    assert s[..k] == x;
    assert s[k + 1..] == y;
  }

  /** `s.startswith(prefix)` */
  predicate StartsWith(s: string, prefix: string) {
    |prefix| <= |s| && s[..|prefix|] == prefix
  }

  /** `s.endswith(suffix)` */
  predicate EndsWith(s: string, suffix: string) {
    |suffix| <= |s| && s[|s| - |suffix|..] == suffix
  }

  /** A suffix of `s` is a suffix of anything ending in `s`. */
  lemma EndsWithAppend(prefix: string, s: string, suffix: string)
    requires EndsWith(s, suffix)
    ensures EndsWith(prefix + s, suffix)
  {
    assert (prefix + s)[|prefix + s| - |suffix|..] == s[|s| - |suffix|..];
  }

  /** `sub in s` */
  predicate Contains(s: string, sub: string)
    decreases |s|
  {
    StartsWith(s, sub) || (s != [] && Contains(s[1..], sub))
  }

  /**
   * The position where `sub` first occurs in `s` (`s.find(sub)`), or `None`
   * exactly when `sub in s` is false.
   */
  function Find(s: string, sub: string): (r: Option<nat>)
    ensures r.None? <==> !Contains(s, sub)
    ensures r.Some? ==> r.value + |sub| <= |s| && s[r.value..r.value + |sub|] == sub
    ensures r.Some? ==> forall j :: 0 <= j < r.value ==> !StartsWith(s[j..], sub)
    decreases |s|
  {
    if StartsWith(s, sub) then Some(0)
    else if s == [] then None
    else
      match Find(s[1..], sub)
      case None => None
      case Some(k) =>
        assert forall j :: 1 <= j <= k ==> s[j..] == s[1..][j - 1..];
        Some(k + 1)
  }

  /**
   * A string occurs first right after a prefix when it does not occur in that
   * prefix, nor across its end into all but its last character.
   */
  lemma {:induction false} FindFirstAt(pre: string, rest: string, sub: string)
    requires sub != [] && StartsWith(rest, sub)
    requires !Contains(pre + sub[..|sub| - 1], sub)
    ensures Find(pre + rest, sub) == Some(|pre|)
    decreases |pre|
  {
    var s := pre + rest;
    var front := pre + sub[..|sub| - 1];
    if pre == [] {
      assert s == rest;
    } else {
      StartsWithFront(pre, rest, sub);
      assert s[1..] == pre[1..] + rest;
      assert front[1..] == pre[1..] + sub[..|sub| - 1];
      FindFirstAt(pre[1..], rest, sub);
    }
  }

  /** With `sub` starting `rest`, an occurrence at the start of `pre + rest` lies within `pre` and all but the last character of `sub`. */
  lemma StartsWithFront(pre: string, rest: string, sub: string)
    requires pre != [] && sub != [] && StartsWith(rest, sub)
    ensures StartsWith(pre + rest, sub) ==> StartsWith(pre + sub[..|sub| - 1], sub)
  {
    var s := pre + rest;
    var front := pre + sub[..|sub| - 1];
    if StartsWith(s, sub) {
      assert front[..|sub|] == s[..|sub|];
    }
  }

  /** `s[:n]` for a non-negative `n`. */
  function Take(s: string, n: nat): (r: string)
    ensures |r| <= n && StartsWith(s, r)
    ensures |s| <= n ==> r == s
  {
    if |s| <= n then s else s[..n]
  }

  /** `s.replace(old, new)` for single characters. */
  function ReplaceChar(s: string, target: char, replacement: char): (r: string)
    ensures |r| == |s|
    ensures target != replacement ==> target !in r
  {
    seq(|s|, i requires 0 <= i < |s| => if s[i] == target then replacement else s[i])
  }

  /** Replacing distributes over concatenation. */
  lemma ReplaceCharConcat(a: string, b: string, target: char, replacement: char)
    ensures ReplaceChar(a + b, target, replacement) == ReplaceChar(a, target, replacement) + ReplaceChar(b, target, replacement)
  {
  }

  /** Replacing a character that does not occur changes nothing. */
  lemma ReplaceCharAbsent(s: string, target: char, replacement: char)
    requires target !in s
    ensures ReplaceChar(s, target, replacement) == s
  {
  }

  /** Every replaced character becomes one more occurrence of its replacement. */
  lemma {:induction false} ReplaceCharCount(s: string, target: char, replacement: char)
    requires target != replacement
    ensures multiset(ReplaceChar(s, target, replacement))[replacement] == multiset(s)[replacement] + multiset(s)[target]
  {
    if s != [] {
      ReplaceCharConcat([s[0]], s[1..], target, replacement);
      ReplaceCharCount(s[1..], target, replacement);
      assert [s[0]] + s[1..] == s;
    }
  }

  /** `c.upper()` restricted to the ASCII letters. */
  function UpperChar(c: char): char {
    if 'a' <= c <= 'z' then (c as int - 32) as char else c
  }

  /** `c.lower()` restricted to the ASCII letters. */
  function LowerChar(c: char): char {
    if 'A' <= c <= 'Z' then (c as int + 32) as char else c
  }

  /** `s.upper()` restricted to the ASCII letters. */
  function Upper(s: string): (r: string)
    ensures |r| == |s|
    ensures NoLowercase(r)
  {
    seq(|s|, i requires 0 <= i < |s| => UpperChar(s[i]))
  }

  /** No ASCII lower-case letter occurs: `s.upper() == s` for ASCII text. */
  predicate NoLowercase(s: string) {
    forall i :: 0 <= i < |s| ==> !('a' <= s[i] <= 'z')
  }

  /** `s.lower()` restricted to the ASCII letters. */
  function Lower(s: string): (r: string)
    ensures |r| == |s|
  {
    seq(|s|, i requires 0 <= i < |s| => LowerChar(s[i]))
  }
}
