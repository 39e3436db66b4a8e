/**
 * Python `str` operations used by the agents, with the semantics CPython gives
 * them: `find`/`rfind`, `split(sep)`, `join`, `replace`, `strip`, `lower`,
 * `capitalize`, `splitlines`, and the slices `s[3:-3]` / `s[:k]` with negative
 * bounds. Characters are Unicode scalar values; case mapping covers ASCII only.
 */
module Text {
  import opened Wrappers

  /** Characters for which Python's `str.isspace()` holds, i.e. what `strip()` removes. */
  predicate IsSpace(c: char) {
    c == ' ' || ('\t' <= c <= '\r') || ('\U{1c}' <= c <= '\U{1f}') || c == '\U{85}' || c == '\U{a0}'
    || c == '\U{1680}' || ('\U{2000}' <= c <= '\U{200a}') || c == '\U{2028}' || c == '\U{2029}'
    || c == '\U{202f}' || c == '\U{205f}' || c == '\U{3000}'
  }

  predicate StartsWith(s: string, p: string) {
    |p| <= |s| && s[..|p|] == p
  }

  predicate EndsWith(s: string, p: string) {
    |p| <= |s| && s[|s| - |p|..] == p
  }

  /** `t` occurs in `s` starting at index `j`. */
  predicate OccursAt(s: string, t: string, j: int) {
    0 <= j && j + |t| <= |s| && s[j..j + |t|] == t
  }

  /** Leftmost occurrence of `t` in `s` at or after `i`, or -1 (Python `s.find(t, i)`). */
  function FindFrom(s: string, t: string, i: nat): (k: int)
    ensures k == -1 || (i <= k && OccursAt(s, t, k))
    ensures forall j :: i <= j && (k < 0 || j < k) ==> !OccursAt(s, t, j)
    decreases |s| - i
  {
    if i + |t| > |s| then -1
    else if s[i..i + |t|] == t then i
    else FindFrom(s, t, i + 1)
  }

  /** Python `s.find(t)`. */
  function Find(s: string, t: string): (k: int)
    ensures k == -1 || OccursAt(s, t, k)
    ensures forall j :: 0 <= j && (k < 0 || j < k) ==> !OccursAt(s, t, j)
  {
    FindFrom(s, t, 0)
  }

  /** Python `t in s`. */
  predicate Contains(s: string, t: string) {
    Find(s, t) >= 0
  }

  /** Rightmost occurrence of `t` in `s` starting at or before `i`, or -1. */
  function RFindFrom(s: string, t: string, i: int): (k: int)
    ensures k == -1 || (0 <= k <= i && OccursAt(s, t, k))
    ensures forall j :: k < j <= i ==> !OccursAt(s, t, j)
    decreases i + 1
  {
    if i < 0 then -1
    else if OccursAt(s, t, i) then i
    else RFindFrom(s, t, i - 1)
  }

  /** Python `s.rfind(t)`. */
  function RFind(s: string, t: string): (k: int)
    ensures k == -1 || OccursAt(s, t, k)
    ensures forall j :: k < j ==> !OccursAt(s, t, j)
  {
    RFindFrom(s, t, |s| - |t|)
  }

  /** Python `s.split(sep)` for a non-empty separator. */
  function Split(s: string, sep: string): (parts: seq<string>)
    requires |sep| > 0
    ensures |parts| >= 1
    decreases |s|
  {
    var k := Find(s, sep);
    if k < 0 then [s] else [s[..k]] + Split(s[k + |sep|..], sep)
  }

  /** Python `sep.join(parts)`. */
  function Join(parts: seq<string>, sep: string): string
  {
    if |parts| == 0 then ""
    else if |parts| == 1 then parts[0]
    else parts[0] + sep + Join(parts[1..], sep)
  }

  /** Python `s.replace(old, new)` (every non-overlapping occurrence, left to right). */
  function Replace(s: string, pat: string, sub: string): string
    requires |pat| > 0
  {
    Join(Split(s, pat), sub)
  }

  /** `s[len(p):]` once `s.startswith(p)` has been checked: what
      `s.replace(p, "", 1)` leaves, since the first occurrence is the prefix. */
  function DropPrefix(s: string, p: string): (r: string)
    requires StartsWith(s, p)
    ensures s == p + r
  {
    s[|p|..]
  }

  /** What `s[::-1].replace(p[::-1], "", 1)[::-1]` leaves once `s.endswith(p)` holds:
      the last occurrence of `p` is the suffix, and it is removed. */
  function DropSuffix(s: string, p: string): (r: string)
    requires EndsWith(s, p)
    ensures s == r + p
  {
    s[..|s| - |p|]
  }

  /** Python `s[3:-3]`: empty when the two bounds cross. */
  function Inner3(s: string): (r: string)
    ensures |s| >= 6 ==> s == s[..3] + r + s[|s| - 3..]
    ensures |s| < 6 ==> r == ""
  {
    if |s| >= 6 then s[3..|s| - 3] else ""
  }

  /** Python `s[:k]` where `k` may be -1 (the "not found" result of `rfind`). */
  function PrefixTo(s: string, k: int): (r: string)
    requires -1 <= k <= |s|
    ensures k >= 0 ==> r == s[..k]
    ensures k < 0 ==> r == (if |s| == 0 then "" else s[..|s| - 1])
  {
    if k >= 0 then s[..k] else if |s| == 0 then "" else s[..|s| - 1]
  }

  /** Index of the first non-space character at or after `i`, or `|s|`. */
  function SkipSpaces(s: string, i: nat): (k: nat)
    requires i <= |s|
    ensures i <= k <= |s| && (k < |s| ==> !IsSpace(s[k]))
    decreases |s| - i
  {
    if i < |s| && IsSpace(s[i]) then SkipSpaces(s, i + 1) else i
  }

  /** End of `s[..j]` once trailing white space is dropped. */
  function TrimEnd(s: string, j: nat): (k: nat)
    requires j <= |s|
    ensures k <= j && (k > 0 ==> !IsSpace(s[k - 1]))
    decreases j
  {
    if j > 0 && IsSpace(s[j - 1]) then TrimEnd(s, j - 1) else j
  }

  function LStrip(s: string): (r: string)
    ensures |r| <= |s|
    ensures |r| > 0 ==> !IsSpace(r[0])
  {
    s[SkipSpaces(s, 0)..]
  }

  function RStrip(s: string): (r: string)
    ensures |r| <= |s| && (|r| > 0 ==> r[0] == s[0])
    ensures |r| > 0 ==> !IsSpace(r[|r| - 1])
  {
    s[..TrimEnd(s, |s|)]
  }

  /** Python `s.strip()`. */
  function Strip(s: string): (r: string)
    ensures |r| <= |s|
    ensures |r| > 0 ==> !IsSpace(r[0]) && !IsSpace(r[|r| - 1])
  {
    RStrip(LStrip(s))
  }

  /** Python `s.strip(chars)` for a single character `c`. */
  function StripChar(s: string, c: char): (r: string)
    ensures |r| <= |s|
    ensures |r| > 0 ==> r[0] != c && r[|r| - 1] != c
    decreases |s|
  {
    if |s| > 0 && s[0] == c then StripChar(s[1..], c)
    else if |s| > 0 && s[|s| - 1] == c then StripChar(s[..|s| - 1], c)
    else s
  }

  function LowerChar(c: char): char {
    if 'A' <= c <= 'Z' then (c as int + 32) as char else c
  }

  function UpperChar(c: char): char {
    if 'a' <= c <= 'z' then (c as int - 32) as char else c
  }

  /** Python `s.lower()` (ASCII letters). */
  function Lower(s: string): (r: string)
    ensures |r| == |s|
    ensures forall i :: 0 <= i < |s| ==> r[i] == LowerChar(s[i])
  {
    seq(|s|, i requires 0 <= i < |s| => LowerChar(s[i]))
  }

  /** Text without capitals is its own lower case. */
  lemma LowerKeeps(s: string)
    requires forall i :: 0 <= i < |s| ==> !('A' <= s[i] <= 'Z')
    ensures Lower(s) == s
  {
  }

  /** Python `s.capitalize()`: first character upper case, the rest lower case (ASCII letters). */
  function Capitalize(s: string): (r: string)
    ensures |r| == |s|
    ensures |s| > 0 ==> r[0] == UpperChar(s[0]) && r[1..] == Lower(s[1..])
  {
    if |s| == 0 then "" else [UpperChar(s[0])] + Lower(s[1..])
  }

  /** Line boundaries recognised by Python's `str.splitlines()`. */
  predicate IsLineBreak(c: char) {
    c == '\n' || c == '\r' || c == '\U{0b}' || c == '\U{0c}' || ('\U{1c}' <= c <= '\U{1e}')
    || c == '\U{85}' || c == '\U{2028}' || c == '\U{2029}'
  }

  /** Index of the first line boundary at or after `i`, or `|s|`. */
  function LineEnd(s: string, i: nat): (k: nat)
    requires i <= |s|
    ensures i <= k <= |s|
    ensures k < |s| ==> IsLineBreak(s[k])
    ensures forall j :: i <= j < k ==> !IsLineBreak(s[j])
    decreases |s| - i
  {
    if i == |s| || IsLineBreak(s[i]) then i else LineEnd(s, i + 1)
  }

  /** Python `s.splitlines()`: "\r\n" is one boundary and a final boundary adds no empty line. */
  function SplitLines(s: string): (lines: seq<string>)
    ensures forall i :: 0 <= i < |lines| ==> forall j :: 0 <= j < |lines[i]| ==> !IsLineBreak(lines[i][j])
    ensures |lines| == 0 <==> |s| == 0
    decreases |s|
  {
    if |s| == 0 then []
    else
      var k := LineEnd(s, 0);
      if k == |s| then [s]
      else
        var w := if s[k] == '\r' && k + 1 < |s| && s[k + 1] == '\n' then 2 else 1;
        [s[..k]] + SplitLines(s[k + w..])
  }

  /** The only line boundary `s` holds is "\n". */
  predicate OnlyNewlines(s: string) {
    forall i :: 0 <= i < |s| && IsLineBreak(s[i]) ==> s[i] == '\n'
  }

  /** No character of `s` is a line boundary. */
  predicate NoLineBreak(s: string) {
    forall j :: 0 <= j < |s| ==> !IsLineBreak(s[j])
  }

  /** Text whose only line boundaries are "\n", and that does not end with one, is its
      lines joined again by "\n". */
  lemma {:induction false} SplitLinesJoin(s: string)
    requires OnlyNewlines(s)
    requires |s| == 0 || s[|s| - 1] != '\n'
    ensures Join(SplitLines(s), "\n") == s
    decreases |s|
  {
    if |s| > 0 {
      var k := LineEnd(s, 0);
      if k < |s| {
        var rest := s[k + 1..];
        SplitAtNewline(s, k);
        SplitLinesJoin(rest);
        JoinCons(s[..k], SplitLines(rest));
      }
    }
  }

  /** The first line boundary of text with only "\n" boundaries, not at its end. */
  lemma SplitAtNewline(s: string, k: nat)
    requires OnlyNewlines(s) && |s| > 0 && s[|s| - 1] != '\n'
    requires k == LineEnd(s, 0) && k < |s|
    ensures k + 1 < |s| && s == s[..k] + "\n" + s[k + 1..]
    ensures SplitLines(s) == [s[..k]] + SplitLines(s[k + 1..])
    ensures OnlyNewlines(s[k + 1..]) && s[k + 1..][|s[k + 1..]| - 1] != '\n'
  {
    assert s[k] == '\n';
    var rest := s[k + 1..];
    forall i | 0 <= i < |rest| && IsLineBreak(rest[i]) ensures rest[i] == '\n' {
      assert rest[i] == s[k + 1 + i];
    }
  }

  /** Joining a first line before at least one more puts "\n" after it. */
  lemma JoinCons(a: string, tail: seq<string>)
    requires |tail| > 0
    ensures Join([a] + tail, "\n") == a + "\n" + Join(tail, "\n")
  {
    assert ([a] + tail)[1..] == tail;
  }

  /** Lines free of boundaries, the last one non-empty, joined by "\n", split back into
      the same lines. */
  lemma {:induction false} JoinSplitLines(lines: seq<string>)
    requires forall i :: 0 <= i < |lines| ==> NoLineBreak(lines[i])
    requires |lines| > 0 ==> |lines[|lines| - 1]| > 0
    ensures SplitLines(Join(lines, "\n")) == lines
    decreases |lines|
  {
    if |lines| == 1 {
      LineEndPast(lines[0], lines[0], 0);
    } else if |lines| > 1 {
      var rest := lines[1..];
      JoinSplitLines(rest);
      JoinNonEmpty(rest);
      JoinCons(lines[0], rest);
      SplitAfterLine(lines[0], Join(rest, "\n"));
      assert lines == [lines[0]] + rest;
    }
  }

  /** A boundary-free line, "\n" and a non-empty remainder split at that "\n". */
  lemma SplitAfterLine(a: string, t: string)
    requires NoLineBreak(a) && |t| > 0
    ensures SplitLines(a + "\n" + t) == [a] + SplitLines(t)
  {
    var s := a + "\n" + t;
    assert s[..|a|] == a;
    LineEndPast(s, a, 0);
    assert s[|a|] == '\n';
    assert s[|a| + 1..] == t;
  }

  /** A boundary-free prefix is crossed by the search for the line end. */
  lemma {:induction false} LineEndPast(s: string, p: string, i: nat)
    requires |p| <= |s| && s[..|p|] == p && i <= |p|
    requires NoLineBreak(p)
    ensures LineEnd(s, i) == LineEnd(s, |p|)
    decreases |p| - i
  {
    if i < |p| {
      assert s[i] == p[i];
      LineEndPast(s, p, i + 1);
    }
  }

  /** Joined lines whose last one is non-empty are non-empty. */
  lemma {:induction false} JoinNonEmpty(lines: seq<string>)
    requires |lines| > 0 && |lines[|lines| - 1]| > 0
    ensures |Join(lines, "\n")| > 0
    decreases |lines|
  {
    if |lines| > 1 {
      JoinNonEmpty(lines[1..]);
    }
  }

  /** `Find` is the least occurrence: any occurrence with none before it is the answer. */
  lemma FindIsFirst(s: string, t: string, k: nat)
    requires OccursAt(s, t, k)
    requires forall j :: 0 <= j < k ==> !OccursAt(s, t, j)
    ensures Find(s, t) == k
  {
  }

  /** A character absent from `s` is not found in it. */
  lemma FindAbsentChar(s: string, c: char)
    requires c !in s
    ensures Find(s, [c]) == -1
  {
    AbsentCharNowhere(s, c, Find(s, [c]));
  }

  /** A character absent from `s` occurs at no position of it. */
  lemma AbsentCharNowhere(s: string, c: char, j: int)
    requires c !in s
    ensures !OccursAt(s, [c], j)
  {
    if 0 <= j < |s| {
      assert s[j..j + 1] == [s[j]];
    }
  }

  /** A separator character absent from `s` leaves it whole. */
  lemma SplitNoSep(s: string, c: char)
    requires c !in s
    ensures Split(s, [c]) == [s]
  {
    FindAbsentChar(s, c);
  }

  /** Splitting on a one-character separator distributes over an occurrence of it. */
  lemma {:induction false} SplitConcat(x: string, c: char, y: string)
    ensures Split(x + [c] + y, [c]) == Split(x, [c]) + Split(y, [c])
    decreases |x|
  {
    var k := Find(x, [c]);
    if k < 0 {
      SplitConcatFirst(x, c, y);
    } else {
      var rest := x[k + 1..];
      assert |rest| < |x|;
      SplitConcatLater(x, c, y, k);
      SplitConcat(rest, c, y);
      var a, b := Split(rest, [c]), Split(y, [c]);
      SeqAssoc([x[..k]], a, b);
    }
  }

  lemma SeqAssoc<T>(p: seq<T>, q: seq<T>, r: seq<T>)
    ensures p + (q + r) == (p + q) + r
  {
  }

  lemma SplitConcatFirst(x: string, c: char, y: string)
    requires Find(x, [c]) < 0
    ensures Split(x + [c] + y, [c]) == Split(x, [c]) + Split(y, [c])
  {
    var s := x + [c] + y;
    forall j | 0 <= j < |x| ensures !OccursAt(s, [c], j) {
      assert !OccursAt(x, [c], j);
      assert s[j..j + 1] == x[j..j + 1];
    }
    assert s[|x|..|x| + 1] == [c];
    FindIsFirst(s, [c], |x|);
    assert s[..|x|] == x;
    assert s[|x| + 1..] == y;
  }

  lemma SplitConcatLater(x: string, c: char, y: string, k: nat)
    requires Find(x, [c]) == k
    ensures Split(x + [c] + y, [c]) == [x[..k]] + Split(x[k + 1..] + [c] + y, [c])
    ensures Split(x, [c]) == [x[..k]] + Split(x[k + 1..], [c])
  {
    var s := x + [c] + y;
    forall j | 0 <= j <= k ensures OccursAt(s, [c], j) == OccursAt(x, [c], j) {
      assert s[j..j + 1] == x[j..j + 1];
    }
    FindIsFirst(s, [c], k);
    assert s[..k] == x[..k];
    assert s[k + 1..] == x[k + 1..] + [c] + y;
  }

  /** Joining what `split` returns gives the text back. */
  lemma {:induction false} JoinSplit(s: string, c: char)
    ensures Join(Split(s, [c]), [c]) == s
    decreases |s|
  {
    var k := Find(s, [c]);
    if k >= 0 {
      var rest := s[k + 1..];
      JoinSplit(rest, c);
      assert s[k..k + 1] == [c];
      assert s == s[..k] + [c] + rest;
    }
  }

  /** Splitting a join gives the parts back when no part contains the separator. */
  lemma {:induction false} SplitJoin(parts: seq<string>, c: char)
    requires |parts| > 0
    requires forall i :: 0 <= i < |parts| ==> c !in parts[i]
    ensures Split(Join(parts, [c]), [c]) == parts
    decreases |parts|
  {
    SplitNoSep(parts[0], c);
    if |parts| > 1 {
      SplitJoin(parts[1..], c);
      SplitConcat(parts[0], c, Join(parts[1..], [c]));
    }
  }

  /** A one-character separator never occurs inside the pieces `split` returns. */
  lemma {:induction false} SplitPartsFree(s: string, c: char)
    ensures forall i :: 0 <= i < |Split(s, [c])| ==> c !in Split(s, [c])[i]
    decreases |s|
  {
    var k := Find(s, [c]);
    if k < 0 {
      if c in s {
        var j :| 0 <= j < |s| && s[j] == c;
        assert s[j..j + 1] == [c];
        assert OccursAt(s, [c], j);
      }
    } else {
      SplitPartsFree(s[k + 1..], c);
      if c in s[..k] {
        var j :| 0 <= j < k && s[..k][j] == c;
        assert s[j..j + 1] == [c];
        assert OccursAt(s, [c], j);
      }
    }
  }

  /** `strip` removes surrounding white space and nothing else. */
  lemma StripSurrounded(a: string, x: string, b: string)
    requires forall i :: 0 <= i < |a| ==> IsSpace(a[i])
    requires forall i :: 0 <= i < |b| ==> IsSpace(b[i])
    requires |x| > 0 && !IsSpace(x[0]) && !IsSpace(x[|x| - 1])
    ensures Strip(a + x + b) == x
  {
    assert a + x + b == a + (x + b);
    assert (x + b)[0] == x[0];
    LStripSpaces(a, x + b);
    RStripSpaces(x, b);
  }

  lemma {:induction false} SkipLeadingSpaces(a: string, y: string, i: nat)
    requires i <= |a|
    requires forall j :: 0 <= j < |a| ==> IsSpace(a[j])
    requires |y| > 0 && !IsSpace(y[0])
    ensures SkipSpaces(a + y, i) == |a|
    decreases |a| - i
  {
    if i < |a| {
      assert (a + y)[i] == a[i];
      SkipLeadingSpaces(a, y, i + 1);
    } else {
      assert (a + y)[i] == y[0];
    }
  }

  lemma LStripSpaces(a: string, y: string)
    requires forall i :: 0 <= i < |a| ==> IsSpace(a[i])
    requires |y| > 0 && !IsSpace(y[0])
    ensures LStrip(a + y) == y
  {
    SkipLeadingSpaces(a, y, 0);
    assert (a + y)[|a|..] == y;
  }

  lemma {:induction false} TrimTrailingSpaces(x: string, b: string, j: nat)
    requires |x| <= j <= |x| + |b|
    requires forall i :: 0 <= i < |b| ==> IsSpace(b[i])
    requires |x| > 0 && !IsSpace(x[|x| - 1])
    ensures TrimEnd(x + b, j) == |x|
    decreases j
  {
    if j > |x| {
      assert (x + b)[j - 1] == b[j - 1 - |x|];
      TrimTrailingSpaces(x, b, j - 1);
    } else {
      assert (x + b)[j - 1] == x[|x| - 1];
    }
  }

  lemma RStripSpaces(x: string, b: string)
    requires forall i :: 0 <= i < |b| ==> IsSpace(b[i])
    requires |x| > 0 && !IsSpace(x[|x| - 1])
    ensures RStrip(x + b) == x
  {
    TrimTrailingSpaces(x, b, |x + b|);
    assert (x + b)[..|x|] == x;
  }

  /** Text with no surrounding white space is its own `strip`. */
  lemma StripTrimmed(x: string)
    requires |x| > 0 ==> !IsSpace(x[0]) && !IsSpace(x[|x| - 1])
    ensures Strip(x) == x
  {
    if |x| > 0 {
      StripSurrounded("", x, "");
      assert "" + x + "" == x;
    }
  }

  /** `strip` only removes characters: a character absent from `s` is absent from `s.strip()`. */
  lemma StripKeepsAbsent(s: string, c: char)
    requires c !in s
    ensures c !in Strip(s)
  {
    var l := LStrip(s);
    assert l == s[SkipSpaces(s, 0)..];
    assert c !in l by {
      forall i | 0 <= i < |l| ensures l[i] != c {
        assert l[i] == s[SkipSpaces(s, 0) + i];
      }
    }
    var r := RStrip(l);
    assert r == l[..TrimEnd(l, |l|)];
    forall i | 0 <= i < |r| ensures r[i] != c {
      assert r[i] == l[i];
    }
  }

  /** Python `s.replace(c, d)` for one character by another, position by position. */
  function MapChar(s: string, c: char, d: char): (r: string)
    ensures |r| == |s|
  {
    seq(|s|, i requires 0 <= i < |s| => if s[i] == c then d else s[i])
  }

  lemma MapCharAppend(a: string, b: string, c: char, d: char)
    ensures MapChar(a + b, c, d) == MapChar(a, c, d) + MapChar(b, c, d)
  {
    assert forall i :: 0 <= i < |a| ==> (a + b)[i] == a[i];
    assert forall i :: |a| <= i < |a + b| ==> (a + b)[i] == b[i - |a|];
  }

  lemma MapCharAbsent(a: string, c: char, d: char)
    requires c !in a
    ensures MapChar(a, c, d) == a
  {
  }

  /** Before the first occurrence of a character there is none of it. */
  lemma FindCharFirst(s: string, c: char)
    ensures Find(s, [c]) < 0 ==> c !in s
    ensures Find(s, [c]) >= 0 ==> Find(s, [c]) < |s| && s[Find(s, [c])] == c && c !in s[..Find(s, [c])]
  {
    var k := Find(s, [c]);
    forall i | 0 <= i < |s| && (k < 0 || i < k) ensures s[i] != c {
      assert s[i..i + 1] == [s[i]];
      assert !OccursAt(s, [c], i);
    }
    if k >= 0 {
      assert s[k..k + 1] == [c];
    }
  }

  /** Replacing one character by another changes exactly the positions holding it. */
  lemma {:induction false} ReplaceCharIsMap(s: string, c: char, d: char)
    ensures Replace(s, [c], [d]) == MapChar(s, c, d)
    decreases |s|
  {
    var k := Find(s, [c]);
    FindCharFirst(s, c);
    if k < 0 {
      MapCharAbsent(s, c, d);
    } else {
      var rest := s[k + 1..];
      ReplaceCharIsMap(rest, c, d);
      ReplaceAtFirst(s, c, d, k);
      MapCharAbsent(s[..k], c, d);
      MapCharAround(s[..k], c, rest, d);
      assert s == s[..k] + [c] + rest;
    }
  }

  /** The first replaced occurrence splits off the text before it. */
  lemma ReplaceAtFirst(s: string, c: char, d: char, k: int)
    requires k == Find(s, [c]) && k >= 0
    ensures Replace(s, [c], [d]) == s[..k] + [d] + Replace(s[k + 1..], [c], [d])
  {
    var tail := Split(s[k + 1..], [c]);
    assert Split(s, [c]) == [s[..k]] + tail;
    assert ([s[..k]] + tail)[1..] == tail;
  }

  lemma MapCharAround(a: string, c: char, b: string, d: char)
    ensures MapChar(a + [c] + b, c, d) == MapChar(a, c, d) + [d] + MapChar(b, c, d)
  {
    MapCharAppend(a + [c], b, c, d);
    MapCharAppend(a, [c], c, d);
  }

  /** The first character of a join is that of the first part. */
  lemma JoinFirst(parts: seq<string>, sep: string)
    requires |parts| > 0 && |parts[0]| > 0
    ensures |Join(parts, sep)| > 0 && Join(parts, sep)[0] == parts[0][0]
  {
  }

  /** The last character of a join is that of the last part. */
  lemma {:induction false} JoinLast(parts: seq<string>, sep: string)
    requires |parts| > 0 && |parts[|parts| - 1]| > 0
    ensures |Join(parts, sep)| > 0
    ensures Join(parts, sep)[|Join(parts, sep)| - 1] == parts[|parts| - 1][|parts[|parts| - 1]| - 1]
    decreases |parts|
  {
    if |parts| > 1 {
      JoinLast(parts[1..], sep);
    }
  }

  /** Splitting a join on a one-character separator splits each part and concatenates. */
  lemma {:induction false} SplitJoinParts(parts: seq<string>, c: char)
    requires |parts| > 0
    ensures Split(Join(parts, [c]), [c]) == SplitEach(parts, c)
    decreases |parts|
  {
    if |parts| > 1 {
      SplitJoinParts(parts[1..], c);
      SplitConcat(parts[0], c, Join(parts[1..], [c]));
    }
  }

  /** The pieces of every part, in order. */
  function SplitEach(parts: seq<string>, c: char): seq<string>
    decreases |parts|
  {
    if |parts| == 0 then [] else Split(parts[0], [c]) + SplitEach(parts[1..], c)
  }

  predicate IsDigit(c: char) {
    '0' <= c <= '9'
  }

  predicate AllDigits(s: string) {
    forall i :: 0 <= i < |s| ==> IsDigit(s[i])
  }

  /** The value of a run of decimal digits. */
  function DigitsValue(ds: string): nat
    requires AllDigits(ds)
  {
    if |ds| == 0 then 0
    else DigitsValue(ds[..|ds| - 1]) * 10 + (ds[|ds| - 1] as int - '0' as int)
  }

  /** Python `str(n)` for a natural number. */
  function NatToDecimal(n: nat): (ds: string)
    ensures |ds| > 0 && AllDigits(ds)
  {
    if n < 10 then [('0' as int + n) as char]
    else NatToDecimal(n / 10) + [('0' as int + n % 10) as char]
  }

  /** Python `str(n)` for an integer. */
  function IntToDecimal(n: int): (s: string)
    ensures |s| > 0
  {
    if n < 0 then "-" + NatToDecimal(-n) else NatToDecimal(n)
  }

  /** Python `int(s)` on ASCII decimal text: surrounding white space and one sign are allowed. */
  function ParseInt(s: string): (r: Option<int>)
    ensures r.Some? ==> exists t :: |t| > 0 && AllDigits(t) && StripSign(Strip(s)) == t
  {
    var t := Strip(s);
    var body := StripSign(t);
    if |body| > 0 && AllDigits(body) then
      Some(if |t| > 0 && t[0] == '-' then -(DigitsValue(body) as int) else DigitsValue(body) as int)
    else None
  }

  /** `t` without one leading sign character. */
  function StripSign(t: string): string {
    if |t| > 0 && (t[0] == '-' || t[0] == '+') then t[1..] else t
  }

  lemma {:induction false} NatToDecimalValue(n: nat)
    ensures DigitsValue(NatToDecimal(n)) == n
  {
    var ds := NatToDecimal(n);
    if n >= 10 {
      NatToDecimalValue(n / 10);
      assert ds[..|ds| - 1] == NatToDecimal(n / 10);
    }
  }

  /** `int(str(n)) == n`. */
  lemma ParseIntDecimal(n: int)
    ensures ParseInt(IntToDecimal(n)) == Some(n)
  {
    var s := IntToDecimal(n);
    var ds := NatToDecimal(if n < 0 then -n else n);
    NatToDecimalValue(if n < 0 then -n else n);
    StripTrimmed(s);
    if n < 0 {
      assert s[1..] == ds;
    } else {
      assert s == ds;
    }
  }

  /** An occurrence of `t` after a prefix free of `t`'s first character is the first one. */
  lemma FindAfterFree(a: string, t: string, b: string)
    requires |t| > 0 && t[0] !in a
    ensures Find(a + t + b, t) == |a|
  {
    var s := a + t + b;
    assert s[|a|..|a| + |t|] == t;
    FindIsFirst(s, t, |a|);
  }

  /** An occurrence of `t` before a suffix free of `t`'s last character is the last one. */
  lemma RFindBeforeFree(a: string, t: string, b: string)
    requires |t| > 0 && t[|t| - 1] !in b
    ensures RFind(a + t + b, t) == |a|
  {
    var s := a + t + b;
    assert s[|a|..|a| + |t|] == t;
    assert OccursAt(s, t, |a|);
  }

  /** Without `t` in `s`, `rfind` finds nothing either. */
  lemma RFindAbsent(s: string, t: string)
    requires !Contains(s, t)
    ensures RFind(s, t) == -1
  {
  }

  /** Replacing a pattern that does not occur changes nothing. */
  lemma ReplaceAbsent(s: string, p: string, q: string)
    requires |p| > 0 && !Contains(s, p)
    ensures Replace(s, p, q) == s
  {
  }

  /** A leading occurrence of the pattern becomes a leading replacement. */
  lemma ReplaceLeading(p: string, y: string, q: string)
    requires |p| > 0
    ensures Replace(p + y, p, q) == q + Replace(y, p, q)
  {
    var s := p + y;
    assert s[0..|p|] == p;
    FindIsFirst(s, p, 0);
    assert s[|p|..] == y;
    var parts := Split(y, p);
    assert Split(s, p) == [""] + parts;
    assert ([""] + parts)[1..] == parts;
  }

  /** `strip` is idempotent. */
  lemma StripStrip(s: string)
    ensures Strip(Strip(s)) == Strip(s)
  {
    StripTrimmed(Strip(s));
  }

  /** A text lacking the first character of `t` does not contain `t`. */
  lemma AbsentFirstChar(s: string, t: string)
    requires |t| > 0 && t[0] !in s
    ensures !Contains(s, t)
  {
  }

  /** Python `s.split(sep, 1)[1]`: the text after the first `sep`; `None` where the index
      raises `IndexError` because `sep` does not occur. */
  function AfterFirst(s: string, sep: string): (r: Option<string>)
    requires |sep| > 0
    ensures r.Some? <==> Contains(s, sep)
    ensures r.Some? ==> s == s[..Find(s, sep)] + sep + r.value
  {
    var k := Find(s, sep);
    if k < 0 then None else Some(s[k + |sep|..])
  }

  /** `split(sep)` gives at least two parts exactly when `sep` occurs. */
  lemma SplitParts(s: string, sep: string)
    requires |sep| > 0
    ensures |Split(s, sep)| >= 2 <==> Contains(s, sep)
  {
  }

  /** When `t`'s first character does not recur in `t`, an occurrence of `t` cannot overlap
      a text that lacks `t`: the first occurrence in `a + t + b` is the one after `a`. */
  lemma FindAfterAbsent(a: string, t: string, b: string)
    requires |t| > 0 && t[0] !in t[1..] && !Contains(a, t)
    ensures Find(a + t + b, t) == |a|
  {
    var s := a + t + b;
    forall j | 0 <= j < |a| ensures !OccursAt(s, t, j) {
      if OccursAt(s, t, j) {
        if j + |t| <= |a| {
          assert a[j..j + |t|] == s[j..j + |t|];
          assert OccursAt(a, t, j);
        }
      }
    }
    assert s[|a|..|a| + |t|] == t;
    FindIsFirst(s, t, |a|);
  }

  /** Under the same condition, `split` cuts `a + t + b` right after `a`. */
  lemma SplitAfterAbsent(a: string, t: string, b: string)
    requires |t| > 0 && t[0] !in t[1..] && !Contains(a, t)
    ensures Split(a + t + b, t) == [a] + Split(b, t)
  {
    var s := a + t + b;
    FindAfterAbsent(a, t, b);
    assert s[..|a|] == a && s[|a| + |t|..] == b;
  }

  /** The second piece of a split is the text between the first two separators, when the
      separator's first character occurs in neither the text before nor the text between. */
  lemma SplitSecond(a: string, x: string, b: string, t: string)
    requires |t| > 0 && t[0] !in a && t[0] !in x
    ensures |Split(a + t + x + t + b, t)| >= 2 && Split(a + t + x + t + b, t)[1] == x
  {
    var s := a + t + x + t + b;
    var rest := x + t + b;
    assert s == a + t + rest;
    FindAfterFree(a, t, rest);
    assert s[..|a|] == a && s[|a| + |t|..] == rest;
    assert Split(s, t) == [a] + Split(rest, t);
    FindAfterFree(x, t, b);
    assert rest[..|x|] == x;
  }
}
