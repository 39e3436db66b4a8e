/**
 * The outside world the agents consult: the language model's replies and the outcome
 * of a call that may raise. A finite list of replies stands for the model; once it is
 * used up the call "stalls", which stands for the source's unbounded waiting and retrying.
 */
module Oracles {
  import opened Wrappers

  /** One `llm.inference` call: the reply text, or the exception it raised. */
  datatype Reply = Reply(text: string) | Unavailable

  /** How a call ended: with a value, with an exception that propagated out of it, or
      stalled because the replies it needed were not provided. */
  datatype Status<T> = Ok(value: T) | Raised | Stalled

  /** The agents' `while not valid: return self.execute(...)`: ask the model again while
      `accept` refuses its reply. Returns how the retries ended and the replies left over. */
  function Retry<T>(replies: seq<Reply>, accept: string -> Option<T>): (r: (Status<T>, seq<Reply>))
    ensures |r.1| < |replies| || (r.0.Stalled? && r.1 == [])
    ensures r.0.Ok? ==> exists t :: accept(t) == Some(r.0.value)
    decreases |replies|
  {
    if |replies| == 0 then (Stalled, [])
    else match replies[0]
      case Unavailable => (Raised, replies[1..])
      case Reply(text) =>
        match accept(text)
        case None => Retry(replies[1..], accept)
        case Some(v) => (Ok(v), replies[1..])
  }

  /** The first `k` replies were all answered and all refused. */
  predicate RefusedBefore<T>(replies: seq<Reply>, k: nat, accept: string -> Option<T>)
    requires k <= |replies|
  {
    forall j :: 0 <= j < k ==> replies[j].Reply? && accept(replies[j].text).None?
  }

  /** Reply `k` decided the retries: every reply before it was refused, it raised or was
      accepted, and the replies after it are left over. */
  ghost predicate DecidedAt<T>(replies: seq<Reply>, k: int, r: (Status<T>, seq<Reply>), accept: string -> Option<T>) {
    0 <= k < |replies| && RefusedBefore(replies, k, accept) && r.1 == replies[k + 1..]
    && (r.0.Raised? <==> replies[k].Unavailable?)
    && (r.0.Ok? ==> replies[k].Reply? && accept(replies[k].text) == Some(r.0.value))
  }

  lemma DecidedShift<T>(replies: seq<Reply>, k: int, r: (Status<T>, seq<Reply>), accept: string -> Option<T>)
    requires |replies| > 0 && replies[0].Reply? && accept(replies[0].text).None?
    requires DecidedAt(replies[1..], k, r, accept)
    ensures DecidedAt(replies, k + 1, r, accept)
  {
    var tail := replies[1..];
    assert tail[k + 1..] == replies[k + 2..] && tail[k] == replies[k + 1];
    forall j | 0 <= j < k + 1 ensures replies[j].Reply? && accept(replies[j].text).None? {
      if j > 0 {
        assert replies[j] == tail[j - 1];
      }
    }
  }

  /** The retries stall only once every reply has been refused. */
  lemma {:induction false} RetryStalled<T>(replies: seq<Reply>, accept: string -> Option<T>)
    requires Retry(replies, accept).0.Stalled?
    ensures Retry(replies, accept).1 == [] && RefusedBefore(replies, |replies|, accept)
    decreases |replies|
  {
    if |replies| > 0 {
      var tail := replies[1..];
      RetryStalled(tail, accept);
      forall j | 0 <= j < |replies| ensures replies[j].Reply? && accept(replies[j].text).None? {
        if j > 0 {
          assert replies[j] == tail[j - 1];
        }
      }
    }
  }

  /** Otherwise they end with the first reply that raises or is accepted, having consumed
      exactly the replies up to it. */
  lemma {:induction false} RetryDecided<T>(replies: seq<Reply>, accept: string -> Option<T>)
    requires !Retry(replies, accept).0.Stalled?
    ensures exists k :: DecidedAt(replies, k, Retry(replies, accept), accept)
    decreases |replies|
  {
    var r := Retry(replies, accept);
    if replies[0].Reply? && accept(replies[0].text).None? {
      assert r == Retry(replies[1..], accept);
      RetryDecided(replies[1..], accept);
      var k :| DecidedAt(replies[1..], k, r, accept);
      DecidedShift(replies, k, r, accept);
    } else {
      assert DecidedAt(replies, 0, r, accept);
    }
  }
}
