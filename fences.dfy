/**
 * The fence handling the agents apply to a model reply before they use it: removing the
 * "~~~", "```" or "'''" markers around a block, in the three variants the source carries.
 */
module Fences {
  import opened Text

  const Backticks := "```"
  const Tildes := "~~~"
  const Quotes := "'''"
  const JsonFence := "```json"

  /** Strip, drop one leading `fence`, drop one trailing `fence`, strip again (the coder,
      patcher, feature and planner `validate_response`). */
  function Unfence(response: string, fence: string): (r: string)
    ensures |r| <= |response|
    ensures Strip(r) == r
  {
    var a := Strip(response);
    var b := if StartsWith(a, fence) then DropPrefix(a, fence) else a;
    var c := if EndsWith(b, fence) then DropSuffix(b, fence) else b;
    StripStrip(c);
    Strip(c)
  }

  /** A block wrapped in the fence comes back stripped. */
  lemma UnfenceFenced(fence: string, x: string)
    requires |fence| > 0 && !IsSpace(fence[0]) && !IsSpace(fence[|fence| - 1])
    ensures Unfence(fence + x + fence, fence) == Strip(x)
  {
    var s := fence + x + fence;
    assert s[0] == fence[0] && s[|s| - 1] == fence[|fence| - 1];
    StripTrimmed(s);
    assert s[..|fence|] == fence;
    var b := DropPrefix(s, fence);
    assert b == x + fence;
    assert b[|b| - |fence|..] == fence;
  }

  /** A reply with no fence at either end is only stripped. */
  lemma UnfenceBare(response: string, fence: string)
    requires !StartsWith(Strip(response), fence) && !EndsWith(Strip(response), fence)
    ensures Unfence(response, fence) == Strip(response)
  {
    StripStrip(response);
  }

  /** `s.split(d, 1)[1][:rfind(d)]`: the text after the first `d`, up to the last `d`
      after it; with no later `d`, `rfind` gives -1 and the last character is dropped. */
  function Between(s: string, d: string): (r: string)
    requires |d| > 0 && Contains(s, d)
    ensures |r| < |s|
  {
    var rest := s[Find(s, d) + |d|..];
    PrefixTo(rest, RFind(rest, d))
  }

  /** A text closed by the delimiter on both sides. */
  lemma BetweenPlain(x: string, d: string)
    requires |d| > 0
    ensures Contains(d + x + d, d) && Between(d + x + d, d) == x
  {
    assert d + x + d == "" + d + x + d + "";
    BetweenFences("", x, "", d);
  }

  /** Between an opening and a closing fence, with no fence character before the first
      or after the last, lies exactly the fenced text, whatever it contains. */
  lemma BetweenFences(a: string, x: string, b: string, d: string)
    requires |d| > 0 && d[0] !in a && d[|d| - 1] !in b
    ensures Contains(a + d + x + d + b, d) && Between(a + d + x + d + b, d) == x
  {
    var s := a + d + x + d + b;
    assert s == a + d + (x + d + b);
    FindAfterFree(a, d, x + d + b);
    assert s[|a| + |d|..] == x + d + b;
    RFindBeforeFree(x, d, b);
  }

  /** With a single fence the closing `rfind` fails and the last character is lost. */
  lemma BetweenSingle(a: string, y: string, d: string)
    requires |d| > 0 && d[0] !in a && !Contains(y, d)
    ensures Contains(a + d + y, d)
    ensures Between(a + d + y, d) == if |y| == 0 then "" else y[..|y| - 1]
  {
    FindAfterFree(a, d, y);
    assert (a + d + y)[|a| + |d|..] == y;
    RFindAbsent(y, d);
  }

  /** Strip, rewrite "```json" as "```", then drop three characters from each end and
      strip again when the text both starts and ends with `fence` (the svgmaker,
      hyperparametre and chemistry `validate_response`). */
  function Unwrap(response: string, fence: string): (r: string)
    requires |fence| == 3
  {
    var t := Replace(Strip(response), JsonFence, Backticks);
    if StartsWith(t, fence) && EndsWith(t, fence) then Strip(Inner3(t)) else t
  }

  /** A block wrapped in the fence comes back stripped. */
  lemma UnwrapFenced(fence: string, x: string)
    requires |fence| == 3 && !IsSpace(fence[0]) && !IsSpace(fence[2])
    requires !Contains(fence + x + fence, JsonFence)
    ensures Unwrap(fence + x + fence, fence) == Strip(x)
  {
    var s := fence + x + fence;
    assert s[0] == fence[0] && s[|s| - 1] == fence[2];
    StripTrimmed(s);
    ReplaceAbsent(s, JsonFence, Backticks);
    assert s[..3] == fence && s[|s| - 3..] == fence;
    assert Inner3(s) == x;
  }

  lemma RewriteJsonFence(x: string)
    requires !Contains(x + Backticks, JsonFence)
    ensures Replace(JsonFence + x + Backticks, JsonFence, Backticks) == Backticks + x + Backticks
  {
    assert JsonFence + x + Backticks == JsonFence + (x + Backticks);
    ReplaceLeading(JsonFence, x + Backticks, Backticks);
    ReplaceAbsent(x + Backticks, JsonFence, Backticks);
  }

  /** A "```json" opening fence counts as a "```" one. */
  lemma UnwrapJsonFenced(x: string)
    requires !Contains(x + Backticks, JsonFence)
    ensures Unwrap(JsonFence + x + Backticks, Backticks) == Strip(x)
  {
    JsonFencedTrimmed(x);
    RewriteJsonFence(x);
    BackticksInner(x);
  }

  lemma JsonFencedTrimmed(x: string)
    ensures Strip(JsonFence + x + Backticks) == JsonFence + x + Backticks
  {
    var s := JsonFence + x + Backticks;
    assert s[0] == '`' && s[|s| - 1] == '`';
    StripTrimmed(s);
  }

  lemma BackticksInner(x: string)
    ensures var t := Backticks + x + Backticks;
      StartsWith(t, Backticks) && EndsWith(t, Backticks) && Inner3(t) == x
  {
    var t := Backticks + x + Backticks;
    assert t[..3] == Backticks && t[|t| - 3..] == Backticks;
  }

  /** Without "```json" and without the fence at both ends, the reply is only stripped. */
  lemma UnwrapBare(response: string, fence: string)
    requires |fence| == 3 && !Contains(Strip(response), JsonFence)
    requires !(StartsWith(Strip(response), fence) && EndsWith(Strip(response), fence))
    ensures Unwrap(response, fence) == Strip(response)
  {
    ReplaceAbsent(Strip(response), JsonFence, Backticks);
  }
}
