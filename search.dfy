/**
 * The feature agent's web search (`search_queries`): each query is normalised, searched,
 * and the page behind its first link is summarised; the summaries are gathered per
 * normalised query and each link found is announced in a numbered message.
 */
module Search {
  import opened Text

  /** What the search returns and the messages it posts to the project. */
  datatype Found = Found(results: map<string, string>, messages: seq<string>)

  /** `query.strip().lower()`. */
  function Normal(query: string): string {
    Lower(Strip(query))
  }

  /** The message announcing the `n`-th link found. */
  function LinkMessage(n: nat, link: string): string {
    "<b>Link" + NatToDecimal(n) + ":" + link
  }

  /** The search after the queries, in order. `firstLink` gives the first link the engine
      returns for a normalised query ("" when none: the query is passed over);
      `summarise` gives what the formatter makes of the page at a link for a query. */
  function Searched(queries: seq<string>, firstLink: string -> string,
                    summarise: (string, string) -> string): Found
    decreases |queries|
  {
    if |queries| == 0 then Found(map[], [])
    else
      var prev := Searched(queries[..|queries| - 1], firstLink, summarise);
      var query := Normal(queries[|queries| - 1]);
      var link := firstLink(query);
      if link == "" then prev
      else
        var piece := summarise(link, query);
        var merged := if query in prev.results then prev.results[query] + piece else piece;
        Found(prev.results[query := merged],
              prev.messages + [LinkMessage(|prev.messages| + 1, link)])
  }

  /** `search_queries`. */
  method SearchQueries(queries: seq<string>, firstLink: string -> string,
                       summarise: (string, string) -> string)
    returns (results: map<string, string>, messages: seq<string>)
    ensures Found(results, messages) == Searched(queries, firstLink, summarise)
  {
    results := map[];
    messages := [];
    var i := 1;
    for n := 0 to |queries|
      invariant Found(results, messages) == Searched(queries[..n], firstLink, summarise)
      invariant i == |messages| + 1
    {
      assert queries[..n + 1][..n] == queries[..n];
      var query := Normal(queries[n]);
      var link := firstLink(query);
      if link != "" {
        messages := messages + [LinkMessage(i, link)];
        i := i + 1;
      }
      if link == "" {
        continue;
      }
      var data := summarise(link, query);
      if query in results {
        results := results[query := results[query] + data];
      } else {
        results := results[query := data];
      }
    }
    assert queries[..|queries|] == queries;
  }

  /** How many of the queries normalise to `q`. */
  function Occurrences(queries: seq<string>, q: string): nat
    decreases |queries|
  {
    if |queries| == 0 then 0
    else Occurrences(queries[..|queries| - 1], q) + (if Normal(queries[|queries| - 1]) == q then 1 else 0)
  }

  /** `s` written `n` times. */
  function Repeat(s: string, n: nat): string {
    if n == 0 then "" else Repeat(s, n - 1) + s
  }

  /** The links found, in query order. */
  function Links(queries: seq<string>, firstLink: string -> string): seq<string>
    decreases |queries|
  {
    if |queries| == 0 then []
    else
      var link := firstLink(Normal(queries[|queries| - 1]));
      Links(queries[..|queries| - 1], firstLink) + (if link == "" then [] else [link])
  }

  /** The results hold exactly the normalised queries with a link; a query met several
      times (after normalisation) gets its summary once per occurrence, concatenated. */
  lemma {:induction false} SearchedResults(queries: seq<string>, firstLink: string -> string,
                                           summarise: (string, string) -> string)
    ensures var r := Searched(queries, firstLink, summarise).results;
      forall q :: (q in r <==> Occurrences(queries, q) > 0 && firstLink(q) != "")
        && (q in r ==> r[q] == Repeat(summarise(firstLink(q), q), Occurrences(queries, q)))
    decreases |queries|
  {
    if |queries| > 0 {
      var init := queries[..|queries| - 1];
      SearchedResults(init, firstLink, summarise);
    }
  }

  /** One message per link found, numbered from 1 in order. */
  lemma {:induction false} SearchedMessages(queries: seq<string>, firstLink: string -> string,
                                            summarise: (string, string) -> string)
    ensures Numbered(Searched(queries, firstLink, summarise).messages, Links(queries, firstLink))
    decreases |queries|
  {
    if |queries| > 0 {
      var init := queries[..|queries| - 1];
      SearchedMessages(init, firstLink, summarise);
      var link := firstLink(Normal(queries[|queries| - 1]));
      if link != "" {
        NumberedSnoc(Searched(init, firstLink, summarise).messages, Links(init, firstLink), link);
      }
    }
  }

  /** `m[j]` announces `links[j]` as link number `j + 1`. */
  predicate Numbered(m: seq<string>, links: seq<string>) {
    |m| == |links| && forall j :: 0 <= j < |m| ==> m[j] == LinkMessage(j + 1, links[j])
  }

  lemma NumberedSnoc(m: seq<string>, links: seq<string>, link: string)
    requires Numbered(m, links)
    ensures Numbered(m + [LinkMessage(|m| + 1, link)], links + [link])
  {
  }

  /** A query typed with white space around it is the same query. */
  lemma SameQuery(a: string, query: string, b: string)
    requires forall j :: 0 <= j < |a| ==> IsSpace(a[j])
    requires forall j :: 0 <= j < |b| ==> IsSpace(b[j])
    requires |query| > 0 && !IsSpace(query[0]) && !IsSpace(query[|query| - 1])
    ensures Normal(a + query + b) == Normal(query)
  {
    StripSurrounded(a, query, b);
    StripTrimmed(query);
  }
}
