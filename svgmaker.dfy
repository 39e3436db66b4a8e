/**
 * The svgmaker agent of `src/agents/svgmaker/svgmaker.py`. The hyperparametre agent of
 * `src/agents/hyperparametre/hyperparametre.py` carries the same `validate_response` and
 * the same retrying `execute`, so this module models both.
 */
module SvgMaker {
  import opened Wrappers
  import opened Text
  import opened Fences
  import opened Oracles

  /** `validate_response`: strip, rewrite "```json" as "```", and remove the fences only
      when the text both starts and ends with "```". */
  function Validate(response: string): (r: string)
  {
    Unwrap(response, Backticks)
  }

  /** A block between "```" fences comes back stripped. */
  lemma ValidateFenced(x: string)
    requires !Contains(Backticks + x + Backticks, JsonFence)
    ensures Validate(Backticks + x + Backticks) == Strip(x)
  {
    UnwrapFenced(Backticks, x);
  }

  /** A block opened by "```json" comes back stripped as well. */
  lemma ValidateJsonFenced(x: string)
    requires !Contains(x + Backticks, JsonFence)
    ensures Validate(JsonFence + x + Backticks) == Strip(x)
  {
    UnwrapJsonFenced(x);
  }

  /** Text that is not fenced at both ends is returned trimmed and otherwise unchanged. */
  lemma ValidateUnfenced(response: string)
    requires !Contains(Strip(response), JsonFence)
    requires !(StartsWith(Strip(response), Backticks) && EndsWith(Strip(response), Backticks))
    ensures Validate(response) == Strip(response)
  {
    UnwrapBare(response, Backticks);
  }

  function Accept(text: string): (r: Option<string>)
    ensures r.Some? ==> r.value == Validate(text) && |r.value| > 0
  {
    var v := Validate(text);
    if |v| > 0 then Some(v) else None
  }

  /** `execute`: ask again, without bound, while the validated reply is empty. */
  function Execute(replies: seq<Reply>): (r: (Status<string>, seq<Reply>))
    ensures r.0.Ok? ==> |r.0.value| > 0 && exists t :: Validate(t) == r.0.value
  {
    Retry(replies, Accept)
  }
}
