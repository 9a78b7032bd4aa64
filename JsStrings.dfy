/**
 * The JavaScript string operations and regular-expression character classes the
 * indexing code is built from, each stated over `seq<char>`.
 *
 * Regular expressions of the source are not interpreted generically: every module
 * hand-codes the regexes it uses on top of these building blocks.
 */
module JsStrings {
  import opened Wrappers

  /** The characters the regex `.` does not match. */
  predicate IsLineTerminator(c: char) {
    c == '\n' || c == '\r' || c == '\U{2028}' || c == '\U{2029}'
  }

  /** The regex class `\s`; `String.prototype.trim` strips exactly these characters. */
  predicate IsSpace(c: char) {
    || IsLineTerminator(c)
    || c == ' ' || c == '\t' || c == '\U{B}' || c == '\U{C}'
    || c == '\U{A0}' || c == '\U{1680}' || ('\U{2000}' <= c <= '\U{200A}')
    || c == '\U{202F}' || c == '\U{205F}' || c == '\U{3000}' || c == '\U{FEFF}'
  }

  /** The regex class `[A-Z]`. */
  predicate IsUpper(c: char) {
    'A' <= c <= 'Z'
  }

  predicate NoLineTerminator(s: string) {
    forall i :: 0 <= i < |s| ==> !IsLineTerminator(s[i])
  }

  predicate NoSpace(s: string) {
    forall i :: 0 <= i < |s| ==> !IsSpace(s[i])
  }

  /** `sub` occurs in `s` starting at position `i`. */
  predicate OccursAt(s: string, sub: string, i: nat) {
    i + |sub| <= |s| && s[i..i + |sub|] == sub
  }

  predicate StartsWith(s: string, p: string) {
    OccursAt(s, p, 0)
  }

  predicate EndsWith(s: string, p: string) {
    |p| <= |s| && OccursAt(s, p, |s| - |p|)
  }

  /** `s.indexOf(sub, from)`, with `None` for -1. */
  function IndexOfFrom(s: string, sub: string, from: nat): (r: Option<nat>)
    ensures r.Some? ==> from <= r.value && OccursAt(s, sub, r.value)
    ensures forall j :: from <= j && (r.None? || j < r.value) ==> !OccursAt(s, sub, j)
    decreases |s| - from
  {
    if from + |sub| > |s| then None
    else if OccursAt(s, sub, from) then Some(from)
    else IndexOfFrom(s, sub, from + 1)
  }

  /** `s.indexOf(sub)`, with `None` for -1. */
  function IndexOf(s: string, sub: string): (r: Option<nat>)
    ensures r.Some? ==> OccursAt(s, sub, r.value)
    ensures forall j: nat :: (r.None? || j < r.value) ==> !OccursAt(s, sub, j)
  {
    IndexOfFrom(s, sub, 0)
  }

  /** An occurrence with none before it is what `indexOf` finds. */
  lemma FirstOccurrence(s: string, sub: string, a: nat)
    requires OccursAt(s, sub, a)
    requires forall i: nat :: i < a ==> !OccursAt(s, sub, i)
    ensures IndexOf(s, sub) == Some(a)
  {
  }

  /** `s.indexOf(sub) !== -1`; the empty string occurs in every string. */
  predicate Contains(s: string, sub: string) {
    IndexOf(s, sub).Some?
  }

  /** A one-character `indexOf` finds something exactly when the character occurs. */
  lemma ContainsChar(s: string, c: char)
    ensures Contains(s, [c]) <==> c in s
  {
    if c in s {
      var j :| 0 <= j < |s| && s[j] == c;
      assert OccursAt(s, [c], j) by { assert s[j..j + 1] == [c]; }
    }
    if Contains(s, [c]) {
      var j := IndexOf(s, [c]).value;
      assert s[j] == s[j..j + 1][0];
    }
  }

  /** `s.replace(pat, rep)` with a string pattern: only the first occurrence is replaced. */
  function ReplaceFirst(s: string, pat: string, rep: string): string {
    match IndexOf(s, pat)
    case None => s
    case Some(i) => s[..i] + rep + s[i + |pat|..]
  }

  /** `s.replace(/c/g, rep)` for a single character `c`: every occurrence, inserted text not re-scanned. */
  function ReplaceAll(s: string, c: char, rep: string): string {
    if s == [] then []
    else (if s[0] == c then rep else [s[0]]) + ReplaceAll(s[1..], c, rep)
  }

  /** Text without `c` is left as it is. */
  lemma {:induction false} ReplaceAllAbsent(s: string, c: char, rep: string)
    requires c !in s
    ensures ReplaceAll(s, c, rep) == s
  {
    if s != [] {
      ReplaceAllAbsent(s[1..], c, rep);
      assert s == [s[0]] + s[1..];
    }
  }

  /** A replacement without `c` leaves no `c` behind. */
  lemma {:induction false} ReplaceAllRemoves(s: string, c: char, rep: string)
    requires c !in rep
    ensures c !in ReplaceAll(s, c, rep)
  {
    if s != [] {
      ReplaceAllRemoves(s[1..], c, rep);
    }
  }

  /** The first occurrence decides what a string-pattern `replace` changes. */
  lemma ReplaceFirstAt(s: string, pat: string, rep: string, i: nat)
    requires OccursAt(s, pat, i)
    requires forall j: nat :: j < i ==> !OccursAt(s, pat, j)
    ensures ReplaceFirst(s, pat, rep) == s[..i] + rep + s[i + |pat|..]
  {
    assert IndexOf(s, pat) == Some(i);
  }

  /** Replacing every `c` works piece by piece. */
  lemma {:induction false} ReplaceAllAppend(a: string, b: string, c: char, rep: string)
    ensures ReplaceAll(a + b, c, rep) == ReplaceAll(a, c, rep) + ReplaceAll(b, c, rep)
  {
    if a == [] {
      assert a + b == b;
    } else {
      assert (a + b)[0] == a[0];
      assert (a + b)[1..] == a[1..] + b;
      ReplaceAllAppend(a[1..], b, c, rep);
    }
  }

  /** `s.lastIndexOf(c)` for a single character. */
  function LastIndexOfChar(s: string, c: char): (r: int)
    ensures -1 <= r < |s|
    ensures r >= 0 ==> s[r] == c
    ensures forall j :: r < j < |s| ==> s[j] != c
  {
    if s == [] then -1
    else if s[|s| - 1] == c then |s| - 1
    else LastIndexOfChar(s[..|s| - 1], c)
  }

  /** The end of the line that contains position `from`: the first line terminator at or after it. */
  function LineEnd(s: string, from: nat): (r: nat)
    requires from <= |s|
    ensures from <= r <= |s|
    ensures NoLineTerminator(s[from..r])
    ensures r < |s| ==> IsLineTerminator(s[r])
    decreases |s| - from
  {
    if from == |s| || IsLineTerminator(s[from]) then from else LineEnd(s, from + 1)
  }

  /** A span lies within one line exactly when it ends at or before that line's end. */
  lemma WithinLine(s: string, from: nat, j: nat)
    requires from <= j <= |s|
    ensures NoLineTerminator(s[from..j]) <==> j <= LineEnd(s, from)
  {
    var e := LineEnd(s, from);
    if j > e {
      assert s[from..j][e - from] == s[e];
    } else {
      forall k | 0 <= k < j - from ensures !IsLineTerminator(s[from..j][k]) {
        assert s[from..j][k] == s[from..e][k];
      }
    }
  }

  /** A segment without line breaks followed by a line break or the end: its line ends right after it. */
  lemma LineEndPast(prefix: string, seg: string, rest: string)
    requires NoLineTerminator(seg)
    requires rest == [] || IsLineTerminator(rest[0])
    ensures LineEnd(prefix + seg + rest, |prefix|) == |prefix| + |seg|
  {
    var text := prefix + seg + rest;
    var from := |prefix|;
    var stop := from + |seg|;
    assert text[from..stop] == seg;
    WithinLine(text, from, stop);
    if stop < |text| {
      WithinLine(text, from, stop + 1);
      assert text[from..stop + 1][|seg|] == rest[0];
    }
  }

  /** The last position in `lo..hi` (both inclusive) where `sub` occurs. */
  function LastOccurrence(s: string, sub: string, lo: nat, hi: nat): (r: Option<nat>)
    ensures r.Some? ==> lo <= r.value <= hi && OccursAt(s, sub, r.value)
    ensures forall j: nat :: lo <= j <= hi && (r.None? || r.value < j) ==> !OccursAt(s, sub, j)
    decreases hi
  {
    if hi < lo then None
    else if OccursAt(s, sub, hi) then Some(hi)
    else if hi == lo then None
    else LastOccurrence(s, sub, lo, hi - 1)
  }

  /**
   * A match of the regex `OPEN.*CLOSE` for literal texts OPEN and CLOSE: OPEN at `i`,
   * and CLOSE at `j` no later than the end of the line OPEN ends on.
   */
  predicate Span(s: string, open: string, close: string, i: nat, j: nat) {
    && OccursAt(s, open, i)
    && i + |open| <= j <= LineEnd(s, i + |open|)
    && OccursAt(s, close, j)
  }

  /** `.*` matches what lies between the texts: a span is exactly a match with no line terminator inside. */
  lemma SpanOneLine(s: string, open: string, close: string, i: nat, j: nat)
    ensures Span(s, open, close, i, j) <==>
      && OccursAt(s, open, i) && i + |open| <= j && OccursAt(s, close, j)
      && NoLineTerminator(s[i + |open|..j])
  {
    if OccursAt(s, open, i) && i + |open| <= j && OccursAt(s, close, j) {
      WithinLine(s, i + |open|, j);
    }
  }

  /** No match of `OPEN.*CLOSE` starts at or after `k`. */
  ghost predicate NoSpanFrom(s: string, open: string, close: string, k: nat) {
    forall i: nat, j: nat :: k <= i ==> !Span(s, open, close, i, j)
  }

  /** `(i, j)` is the match JavaScript finds searching from `k`: the leftmost start, and the greedy end for it. */
  ghost predicate FirstSpanFrom(s: string, open: string, close: string, k: nat, i: nat, j: nat) {
    && k <= i && Span(s, open, close, i, j)
    && (forall i': nat, j': nat :: k <= i' < i ==> !Span(s, open, close, i', j'))
    && (forall j': nat :: j < j' ==> !Span(s, open, close, i, j'))
  }

  /** The match of `OPEN.*CLOSE` searching from `k`, if there is one. */
  function SpanFrom(s: string, open: string, close: string, k: nat): (r: Option<(nat, nat)>)
    ensures r.None? ==> NoSpanFrom(s, open, close, k)
    ensures r.Some? ==> FirstSpanFrom(s, open, close, k, r.value.0, r.value.1)
    decreases |s| - k
  {
    if k + |open| > |s| then
      None
    else
      var here := if OccursAt(s, open, k) then LastOccurrence(s, close, k + |open|, LineEnd(s, k + |open|)) else None;
      if here.Some? then
        Some((k, here.value))
      else
        var rest := SpanFrom(s, open, close, k + 1);
        SkipStart(s, open, close, k, rest);
        rest
  }

  /** A start with no match on its line does not change the result of the search from the next position. */
  lemma SkipStart(s: string, open: string, close: string, k: nat, rest: Option<(nat, nat)>)
    requires k + |open| <= |s|
    requires OccursAt(s, open, k) ==> LastOccurrence(s, close, k + |open|, LineEnd(s, k + |open|)).None?
    requires rest.None? ==> NoSpanFrom(s, open, close, k + 1)
    requires rest.Some? ==> FirstSpanFrom(s, open, close, k + 1, rest.value.0, rest.value.1)
    ensures rest.None? ==> NoSpanFrom(s, open, close, k)
    ensures rest.Some? ==> FirstSpanFrom(s, open, close, k, rest.value.0, rest.value.1)
  {
    assert forall j: nat :: !Span(s, open, close, k, j);
  }

  /** The leftmost-greedy match of `OPEN.*CLOSE` in the whole string. */
  function FirstSpan(s: string, open: string, close: string): (r: Option<(nat, nat)>)
    ensures r.None? ==> forall i: nat, j: nat :: !Span(s, open, close, i, j)
    ensures r.Some? ==> Span(s, open, close, r.value.0, r.value.1)
    ensures r.Some? ==> forall i: nat, j: nat :: i < r.value.0 ==> !Span(s, open, close, i, j)
    ensures r.Some? ==> forall j: nat :: r.value.1 < j ==> !Span(s, open, close, r.value.0, j)
  {
    SpanFrom(s, open, close, 0)
  }

  /** The match the search finds is the only one that is leftmost and greedy. */
  lemma FirstSpanIs(s: string, open: string, close: string, i: nat, j: nat)
    requires FirstSpanFrom(s, open, close, 0, i, j)
    ensures FirstSpan(s, open, close) == Some((i, j))
  {
    var r := FirstSpan(s, open, close);
    assert r.Some?;
    assert r.value.0 == i;
  }

  /** `s.replace(/OPEN.*CLOSE/, '')`: the first match is cut out. */
  function CutSpan(s: string, open: string, close: string): (r: string)
    ensures FirstSpan(s, open, close).None? ==> r == s
    ensures FirstSpan(s, open, close).Some? ==>
      var (i, j) := FirstSpan(s, open, close).value;
      r == s[..i] + s[j + |close|..]
  {
    match FirstSpan(s, open, close)
    case None => s
    case Some((i, j)) => s[..i] + s[j + |close|..]
  }

  /** `s.split(sep)` for a single-character separator: `"".split(sep)` is `[""]`. */
  function Split(s: string, sep: char): (r: seq<string>)
    ensures |r| >= 1
    ensures forall k :: 0 <= k < |r| ==> sep !in r[k]
  {
    if s == [] then [""]
    else
      var rest := Split(s[1..], sep);
      if s[0] == sep then [""] + rest
      else [[s[0]] + rest[0]] + rest[1..]
  }

  /** `parts.join(sep)`, the inverse of `Split`. */
  function Join(parts: seq<string>, sep: char): string
    requires |parts| >= 1
  {
    if |parts| == 1 then parts[0] else parts[0] + [sep] + Join(parts[1..], sep)
  }

  /** Splitting loses nothing: joining the pieces gives back the input. */
  lemma {:induction false} JoinSplit(s: string, sep: char)
    ensures Join(Split(s, sep), sep) == s
  {
    if s != [] {
      JoinSplit(s[1..], sep);
      var rest := Split(s[1..], sep);
      if s[0] != sep && |rest| > 1 {
        assert Split(s, sep)[1..] == rest[1..];
      }
    }
  }

  /** A string without the separator splits into itself alone. */
  lemma {:induction false} SplitWithoutSeparator(s: string, sep: char)
    requires sep !in s
    ensures Split(s, sep) == [s]
  {
    if s != [] {
      SplitWithoutSeparator(s[1..], sep);
      assert s == [s[0]] + s[1..];
    }
  }

  /** Splitting at a separator splits the two sides independently. */
  lemma {:induction false} SplitAppend(a: string, b: string, sep: char)
    ensures Split(a + [sep] + b, sep) == Split(a, sep) + Split(b, sep)
  {
    if a == [] {
      assert a + [sep] + b == [sep] + b;
      assert ([sep] + b)[1..] == b;
    } else {
      var s := a + [sep] + b;
      assert s[0] == a[0];
      assert s[1..] == a[1..] + [sep] + b;
      SplitAppend(a[1..], b, sep);
    }
  }

  /** Leading-whitespace removal of `String.prototype.trim`. */
  function TrimStart(s: string): (r: string)
    ensures |r| <= |s|
    ensures r == [] || !IsSpace(r[0])
    ensures forall k :: 0 <= k < |s| - |r| ==> IsSpace(s[k])
  {
    if |s| > 0 && IsSpace(s[0]) then TrimStart(s[1..]) else s
  }

  /** Trailing-whitespace removal of `String.prototype.trim`. */
  function TrimEnd(s: string): (r: string)
    ensures |r| <= |s|
    ensures r == [] || !IsSpace(r[|r| - 1])
    ensures forall k :: |r| <= k < |s| ==> IsSpace(s[k])
  {
    if |s| > 0 && IsSpace(s[|s| - 1]) then TrimEnd(s[..|s| - 1]) else s
  }

  /** `s.trim()`: the result is the input with its whitespace ends cut off. */
  function Trim(s: string): (r: string)
    ensures |r| <= |s|
    ensures r == [] || (!IsSpace(r[0]) && !IsSpace(r[|r| - 1]))
  {
    var t := TrimStart(s);
    TrimEndPrefix(t);
    TrimEnd(t)
  }

  /** Leading-whitespace removal keeps a suffix of the input. */
  lemma {:induction false} TrimStartSuffix(s: string)
    ensures TrimStart(s) == s[|s| - |TrimStart(s)|..]
    decreases |s|
  {
    if |s| > 0 && IsSpace(s[0]) {
      TrimStartSuffix(s[1..]);
    }
  }

  /** Trailing-whitespace removal keeps a prefix of the input. */
  lemma {:induction false} TrimEndPrefix(s: string)
    ensures TrimEnd(s) == s[..|TrimEnd(s)|]
    decreases |s|
  {
    if |s| > 0 && IsSpace(s[|s| - 1]) {
      TrimEndPrefix(s[..|s| - 1]);
    }
  }

  /** A string with no whitespace at its ends is its own trim. */
  lemma TrimKeeps(s: string)
    requires s == [] || (!IsSpace(s[0]) && !IsSpace(s[|s| - 1]))
    ensures Trim(s) == s
  {
  }

  /** Number of occurrences of `c` in `s`. */
  function Count(s: string, c: char): nat {
    if s == [] then 0 else (if s[0] == c then 1 else 0) + Count(s[1..], c)
  }

  lemma {:induction false} CountAppend(a: string, b: string, c: char)
    ensures Count(a + b, c) == Count(a, c) + Count(b, c)
  {
    if a != [] {
      assert (a + b)[0] == a[0];
      assert (a + b)[1..] == a[1..] + b;
      CountAppend(a[1..], b, c);
    } else {
      assert a + b == b;
    }
  }

  lemma {:induction false} CountAbsent(s: string, c: char)
    ensures c !in s <==> Count(s, c) == 0
  {
    if s != [] {
      CountAbsent(s[1..], c);
      assert s == [s[0]] + s[1..];
    }
  }

  /** A decimal digit. */
  function Digit(d: nat): (c: char)
    requires d < 10
    ensures '0' <= c <= '9'
  {
    ['0', '1', '2', '3', '4', '5', '6', '7', '8', '9'][d]
  }

  /** The decimal text JavaScript's `+` produces for a non-negative integer. */
  function NatToString(n: nat): (r: string)
    ensures |r| >= 1
    ensures forall k :: 0 <= k < |r| ==> '0' <= r[k] <= '9'
    ensures r[0] == '0' ==> n == 0
  {
    if n < 10 then [Digit(n)] else NatToString(n / 10) + [Digit(n % 10)]
  }
}
