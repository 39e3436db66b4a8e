/**
 * The formatter agent of `src/agents/formatter/formatter.py`: it keeps the part of the
 * model's reply that lies between "```" fences and asks again while that part is empty.
 */
module Formatter {
  import opened Wrappers
  import opened Text
  import opened Fences
  import opened Oracles

  /** `validate_response`: the text between the first and the last "```", stripped; the
      whole reply, stripped, when it holds no "```". */
  function Validate(response: string): (r: string)
    ensures !Contains(response, Backticks) ==> r == Strip(response)
  {
    if Contains(response, Backticks) then Strip(Between(response, Backticks)) else Strip(response)
  }

  /** A fenced block, with no backtick before it or after it, comes back stripped. */
  lemma ValidateFenced(a: string, x: string, b: string)
    requires '`' !in a && '`' !in b
    ensures Validate(a + Backticks + x + Backticks + b) == Strip(x)
  {
    BetweenFences(a, x, b, Backticks);
  }

  /** With a single "```", the last character of what follows it is lost. */
  lemma ValidateSingleFence(a: string, y: string)
    requires '`' !in a && !Contains(y, Backticks)
    ensures Validate(a + Backticks + y) == Strip(if |y| == 0 then "" else y[..|y| - 1])
  {
    BetweenSingle(a, y, Backticks);
  }

  /** A reply is kept when what `validate_response` leaves is not empty. */
  function Accept(text: string): (r: Option<string>)
    ensures r.Some? ==> r.value == Validate(text) && |r.value| > 0
  {
    var v := Validate(text);
    if |v| > 0 then Some(v) else None
  }

  /** `execute`: ask again, without bound, while the validated reply is empty. */
  function Execute(replies: seq<Reply>): (r: (Status<string>, seq<Reply>))
    ensures r.0.Ok? ==> |r.0.value| > 0 && exists t :: Validate(t) == r.0.value
  {
    Retry(replies, Accept)
  }
}
