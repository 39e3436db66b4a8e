/**
 * Order-preserving de-duplication, as written in the source both as an explicit
 * "append if not already present" loop and as `list(dict.fromkeys(xs))`.
 */
module Lists {

  predicate NoDup<T(==)>(xs: seq<T>) {
    forall i, j :: 0 <= i < j < |xs| ==> xs[i] != xs[j]
  }

  /** The loop state of the de-duplication: `acc` is the list built so far, `rest` the
      items still to visit. */
  function DedupFrom<T(==)>(acc: seq<T>, rest: seq<T>): seq<T>
    decreases |rest|
  {
    if |rest| == 0 then acc
    else DedupFrom(if rest[0] in acc then acc else acc + [rest[0]], rest[1..])
  }

  /** `list(dict.fromkeys(xs))`: the first occurrence of every item, in order. */
  function Dedup<T(==)>(xs: seq<T>): seq<T> {
    DedupFrom([], xs)
  }

  /** Reference definition read from the end: the last item is kept exactly when it did
      not occur earlier. */
  function FirstOccurrences<T(==)>(xs: seq<T>): seq<T>
    decreases |xs|
  {
    if |xs| == 0 then []
    else
      var init := xs[..|xs| - 1];
      FirstOccurrences(init) + (if xs[|xs| - 1] in init then [] else [xs[|xs| - 1]])
  }

  lemma {:induction false} DedupFromSnoc<T>(acc: seq<T>, rest: seq<T>, x: T)
    ensures DedupFrom(acc, rest + [x]) == DedupFrom(acc, rest) + (if x in acc + rest then [] else [x])
    decreases |rest|
  {
    if |rest| == 0 {
      assert rest + [x] == [x];
      assert acc + rest == acc;
    } else {
      var acc' := if rest[0] in acc then acc else acc + [rest[0]];
      assert (rest + [x])[1..] == rest[1..] + [x];
      DedupFromSnoc(acc', rest[1..], x);
      assert x in acc' + rest[1..] <==> x in acc + rest by {
        assert acc + rest == acc + [rest[0]] + rest[1..];
      }
    }
  }

  /** The loop and the reference definition agree. */
  lemma {:induction false} DedupIsFirstOccurrences<T>(xs: seq<T>)
    ensures Dedup(xs) == FirstOccurrences(xs)
    decreases |xs|
  {
    if |xs| > 0 {
      var init := xs[..|xs| - 1];
      assert xs == init + [xs[|xs| - 1]];
      DedupIsFirstOccurrences(init);
      DedupFromSnoc([], init, xs[|xs| - 1]);
      assert [] + init == init;
    }
  }

  lemma {:induction false} DedupFromFacts<T>(acc: seq<T>, rest: seq<T>)
    requires NoDup(acc)
    ensures NoDup(DedupFrom(acc, rest))
    ensures forall x :: x in DedupFrom(acc, rest) <==> x in acc || x in rest
    ensures |DedupFrom(acc, rest)| >= |acc| && DedupFrom(acc, rest)[..|acc|] == acc
    decreases |rest|
  {
    if |rest| > 0 {
      var acc' := if rest[0] in acc then acc else acc + [rest[0]];
      DedupFromFacts(acc', rest[1..]);
      assert rest == [rest[0]] + rest[1..];
      assert acc'[..|acc|] == acc;
    }
  }

  /** The result has no repeats and exactly the input's items; its length never exceeds the input's. */
  lemma DedupFacts<T>(xs: seq<T>)
    ensures NoDup(Dedup(xs))
    ensures forall x :: x in Dedup(xs) <==> x in xs
    ensures |Dedup(xs)| <= |xs|
  {
    DedupFromFacts([], xs);
    DedupLength([], xs);
  }

  lemma {:induction false} DedupLength<T>(acc: seq<T>, rest: seq<T>)
    ensures |DedupFrom(acc, rest)| <= |acc| + |rest|
    decreases |rest|
  {
    if |rest| > 0 {
      DedupLength(if rest[0] in acc then acc else acc + [rest[0]], rest[1..]);
    }
  }

  lemma {:induction false} DedupFromNoDup<T>(acc: seq<T>, rest: seq<T>)
    requires NoDup(acc + rest)
    ensures DedupFrom(acc, rest) == acc + rest
    decreases |rest|
  {
    if |rest| > 0 {
      assert rest[0] == (acc + rest)[|acc|];
      assert rest[0] !in acc by {
        forall i | 0 <= i < |acc| ensures acc[i] != rest[0] {
          assert acc[i] == (acc + rest)[i];
        }
      }
      assert acc + [rest[0]] + rest[1..] == acc + rest;
      DedupFromNoDup(acc + [rest[0]], rest[1..]);
    }
  }

  /** A list without repeats is left as it is; hence de-duplication is idempotent. */
  lemma DedupIdempotent<T>(xs: seq<T>)
    ensures NoDup(xs) ==> Dedup(xs) == xs
    ensures Dedup(Dedup(xs)) == Dedup(xs)
  {
    if NoDup(xs) {
      assert [] + xs == xs;
      DedupFromNoDup([], xs);
    }
    DedupFacts(xs);
    assert [] + Dedup(xs) == Dedup(xs);
    DedupFromNoDup([], Dedup(xs));
  }
}
