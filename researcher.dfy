/**
 * The researcher agent of `src/agents/researcher/researcher.py`: the contextual keywords are
 * capitalised and joined for the prompt, and the decoded answer has its "queries" cut down
 * to the first three.
 */
module Researcher {
  import opened Wrappers
  import opened Text
  import opened Json
  import opened Oracles

  /** The most queries a research step may carry. */
  const MaxQueries := 3

  /** Python `len(q)`; `None` where `len` raises `TypeError`. */
  function Length(q: Json): Option<nat> {
    match q
    case JArr(items) => Some(|items|)
    case JStr(s) => Some(|s|)
    case JObj(fields) => Some(|fields|)
    case _ => None
  }

  /** The "queries" value after the length test: longer than three, it is sliced to its first
      three (a slice of a dict raises); otherwise it is kept as it is. */
  function Truncate(q: Json): (r: Option<Json>)
    ensures r.Some? <==> Length(q).Some? && (Length(q).value <= MaxQueries || !q.JObj?)
    ensures r.Some? ==> Length(r.value).Some? && Length(r.value).value == Min(Length(q).value, MaxQueries)
    ensures r.Some? && q.JArr? ==> r.value.JArr? && r.value.items <= q.items
    ensures r.Some? && q.JStr? ==> r.value.JStr? && r.value.s <= q.s
    ensures r.Some? && Length(q).value <= MaxQueries ==> r.value == q
  {
    match Length(q)
    case None => None
    case Some(n) =>
      if n <= MaxQueries then Some(q)
      else match q
        case JArr(items) => Some(JArr(items[..MaxQueries]))
        case JStr(s) => Some(JStr(s[..MaxQueries]))
        case _ => None
  }

  function Min(a: nat, b: nat): nat {
    if a <= b then a else b
  }

  /** `__validate_response`, with the `except` that turns any error into `False`: the answer
      must be an object with a "queries" key whose value has a length. */
  function Validate(answer: Json): (r: Option<Json>)
    ensures r.Some? <==> answer.JObj? && "queries" in answer.fields && Truncate(answer.fields["queries"]).Some?
    ensures r.Some? ==> r.value.JObj? && r.value.fields.Keys == answer.fields.Keys
    ensures r.Some? ==> r.value.fields["queries"] == Truncate(answer.fields["queries"]).value
    ensures r.Some? ==> Length(r.value.fields["queries"]).value <= MaxQueries
    ensures r.Some? ==> forall k :: k in answer.fields && k != "queries" ==> r.value.fields[k] == answer.fields[k]
  {
    if answer.JObj? && "queries" in answer.fields then
      match Truncate(answer.fields["queries"])
      case Some(q) => Some(JObj(answer.fields["queries" := q]))
      case None => None
    else None
  }

  /** Validation is idempotent: a validated answer passes again unchanged. */
  lemma ValidateIdempotent(answer: Json)
    requires Validate(answer).Some?
    ensures Validate(Validate(answer).value) == Validate(answer)
  {
    var v := Validate(answer).value;
    var q := v.fields["queries"];
    assert Truncate(q) == Some(q);
    assert v.fields["queries" := q] == v.fields;
  }

  /** `execute`: the model's reply goes through `parse_answer` (a parameter here) and
      validation; a failed validation asks again, without bound. */
  function Execute(replies: seq<Reply>, parse: string -> Json): (r: (Status<Json>, seq<Reply>))
    ensures r.0.Ok? ==> exists t :: Validate(parse(t)) == Some(r.0.value)
    ensures r.0.Ok? ==> r.0.value.JObj? && "queries" in r.0.value.fields
  {
    Retry(replies, t => Validate(parse(t)))
  }

  // ---------------------------------------------------------------------------------
  // The contextual keywords of the prompt

  /** `", ".join(map(lambda k: k.capitalize(), keywords))`. */
  function Keywords(keywords: seq<string>): string {
    Join(seq(|keywords|, i requires 0 <= i < |keywords| => Capitalize(keywords[i])), ", ")
  }

  function LowerAll(keywords: seq<string>): (r: seq<string>)
    ensures |r| == |keywords| && forall i :: 0 <= i < |r| ==> r[i] == Lower(keywords[i])
  {
    seq(|keywords|, i requires 0 <= i < |keywords| => Lower(keywords[i]))
  }

  lemma LowerAppend(a: string, b: string)
    ensures Lower(a + b) == Lower(a) + Lower(b)
  {
  }

  /** Capitalising changes nothing but the case of letters. */
  lemma LowerCapitalize(k: string)
    ensures Lower(Capitalize(k)) == Lower(k)
  {
    if |k| > 0 {
      var c := Capitalize(k);
      assert Lower(c)[0] == LowerChar(UpperChar(k[0])) == LowerChar(k[0]);
      forall i | 1 <= i < |k| ensures Lower(c)[i] == Lower(k)[i] {
        assert c[i] == Lower(k[1..])[i - 1];
      }
    }
  }

  /** The joined keywords are the keywords themselves, in order and separated by ", ",
      up to the case of letters. */
  lemma {:induction false} KeywordsLower(keywords: seq<string>)
    ensures Lower(Keywords(keywords)) == Join(LowerAll(keywords), ", ")
    decreases |keywords|
  {
    if |keywords| == 1 {
      LowerCapitalize(keywords[0]);
    } else if |keywords| > 1 {
      var caps := seq(|keywords|, i requires 0 <= i < |keywords| => Capitalize(keywords[i]));
      var rest := keywords[1..];
      assert caps[1..] == seq(|rest|, i requires 0 <= i < |rest| => Capitalize(rest[i]));
      assert LowerAll(keywords)[1..] == LowerAll(rest);
      KeywordsLower(rest);
      LowerCapitalize(keywords[0]);
      LowerAppend(Capitalize(keywords[0]), ", " + Keywords(rest));
      LowerAppend(", ", Keywords(rest));
      assert Lower(", ") == ", ";
    }
  }
}
