/**
 * The in-editor assistant of `src/agents/iaedit/iaedit.py`: a code-rewrite reply is cut
 * out of its "```" fences, and an autocompletion reply must decode to a list of
 * suggestion objects. Both requests are asked again, without bound, while the reply is
 * refused.
 */
module IaEdit {
  import opened Wrappers
  import opened Text
  import opened Json
  import opened Fences
  import opened Oracles
  import Formatter

  const PythonFence := "```python"

  /** The reply with "```json" and "```python" openings rewritten as "```". */
  function Normalised(response: string): string {
    Replace(Strip(Replace(Strip(response), JsonFence, Backticks)), PythonFence, Backticks)
  }

  /** `validate_response`: the text between the first and the last "```" of the normalised
      reply, with backticks stripped from both ends; `None` (the source's `False`) when no
      "```" is left. */
  function Validate(response: string): (r: Option<string>)
    ensures r.None? <==> !Contains(Normalised(response), Backticks)
  {
    var t := Normalised(response);
    if Contains(t, Backticks) then Some(StripChar(Between(t, Backticks), '`')) else None
  }

  /** A reply with no backtick at all is refused. */
  lemma ValidateNoBacktick(response: string)
    requires '`' !in response
    ensures Validate(response) == None
  {
    StripKeepsAbsent(response, '`');
    var s := Strip(response);
    AbsentFirstChar(s, JsonFence);
    ReplaceAbsent(s, JsonFence, Backticks);
    StripStrip(response);
    AbsentFirstChar(s, PythonFence);
    ReplaceAbsent(s, PythonFence, Backticks);
    AbsentFirstChar(s, Backticks);
  }

  /** A plain "```" block comes back with its backticks trimmed. */
  lemma ValidateFenced(x: string)
    requires !Contains(Backticks + x + Backticks, JsonFence)
    requires !Contains(Backticks + x + Backticks, PythonFence)
    ensures Validate(Backticks + x + Backticks) == Some(StripChar(x, '`'))
  {
    var s := Backticks + x + Backticks;
    assert s[0] == '`' && s[|s| - 1] == '`';
    StripTrimmed(s);
    ReplaceAbsent(s, JsonFence, Backticks);
    ReplaceAbsent(s, PythonFence, Backticks);
    assert s == "" + Backticks + x + Backticks + "";
    BetweenFences("", x, "", Backticks);
  }

  /** A "```python" block is cut out the same way. */
  lemma ValidatePythonFenced(x: string)
    requires !Contains(PythonFence + x + Backticks, JsonFence)
    requires !Contains(x + Backticks, PythonFence)
    ensures Validate(PythonFence + x + Backticks) == Some(StripChar(x, '`'))
  {
    NormalisedPython(x);
    ValidateOfFenced(PythonFence + x + Backticks, x);
  }

  /** A reply that normalises to one plain "```" block. */
  lemma ValidateOfFenced(response: string, x: string)
    requires Normalised(response) == Backticks + x + Backticks
    ensures Validate(response) == Some(StripChar(x, '`'))
  {
    BetweenPlain(x, Backticks);
  }

  lemma NormalisedPython(x: string)
    requires !Contains(PythonFence + x + Backticks, JsonFence)
    requires !Contains(x + Backticks, PythonFence)
    ensures Normalised(PythonFence + x + Backticks) == Backticks + x + Backticks
  {
    var s := PythonFence + x + Backticks;
    assert s[0] == '`' && s[|s| - 1] == '`';
    StripTrimmed(s);
    ReplaceAbsent(s, JsonFence, Backticks);
    assert s == PythonFence + (x + Backticks);
    ReplaceLeading(PythonFence, x + Backticks, Backticks);
    ReplaceAbsent(x + Backticks, PythonFence, Backticks);
  }

  /** With a single "```" the closing `rfind` fails and the last character is lost. */
  lemma ValidateSingleFence(x: string)
    requires !Contains(Backticks + x, JsonFence) && !Contains(Backticks + x, PythonFence)
    requires !Contains(x, Backticks) && |x| > 0 && !IsSpace(x[|x| - 1])
    ensures Validate(Backticks + x) == Some(StripChar(x[..|x| - 1], '`'))
  {
    var s := Backticks + x;
    StripTrimmed(s);
    ReplaceAbsent(s, JsonFence, Backticks);
    ReplaceAbsent(s, PythonFence, Backticks);
    assert s == "" + Backticks + x;
    BetweenSingle("", x, Backticks);
  }

  /** An autocompletion suggestion: an object with a "text" key. */
  predicate IsSuggestion(v: Json) {
    v.JObj? && "text" in v.fields
  }

  /** A decoded list whose every item is a suggestion. */
  predicate IsSuggestionList(v: Option<Json>) {
    v.Some? && v.value.JArr? && forall i :: 0 <= i < |v.value.items| ==> IsSuggestion(v.value.items[i])
  }

  /** `validate_response1`: refuse the empty reply, take the fenced part as the formatter
      does, decode it, and accept only a list of suggestions. */
  function ValidateSuggestions(response: string, decode: Decoder): (r: Option<seq<Json>>)
    ensures r.Some? <==> (|response| > 0 && IsSuggestionList(decode(Formatter.Validate(response))))
    ensures r.Some? ==> decode(Formatter.Validate(response)) == Some(JArr(r.value))
  {
    if |response| == 0 then None
    else match decode(Formatter.Validate(response))
      case Some(JArr(items)) =>
        if forall i :: 0 <= i < |items| ==> IsSuggestion(items[i]) then Some(items) else None
      case _ => None
  }

  function AcceptCode(text: string): (r: Option<string>)
    ensures r.Some? ==> Validate(text) == r && |r.value| > 0
  {
    match Validate(text)
    case Some(v) => if |v| > 0 then Some(v) else None
    case None => None
  }

  /** `rectify_code_function` and `execute`: ask again while the reply is refused or empty. */
  function RectifyCode(replies: seq<Reply>): (r: (Status<string>, seq<Reply>))
    ensures r.0.Ok? ==> |r.0.value| > 0 && exists t :: Validate(t) == Some(r.0.value)
  {
    Retry(replies, AcceptCode)
  }

  /** `autocompletion`: ask again while the reply is refused or the list is empty. */
  function Autocompletion(replies: seq<Reply>, decode: Decoder): (r: (Status<seq<Json>>, seq<Reply>))
    ensures r.0.Ok? ==> |r.0.value| > 0 && forall i :: 0 <= i < |r.0.value| ==> IsSuggestion(r.0.value[i])
  {
    Retry(replies, text => match ValidateSuggestions(text, decode)
                           case Some(xs) => if |xs| > 0 then Some(xs) else None
                           case None => None)
  }
}
