/**
 * The `search_endpoints` tool (`src/tools/search-endpoints.ts`): every
 * endpoint with a positive relevance for the query becomes a search result,
 * the results are sorted by descending relevance (stably, as
 * `Array.prototype.sort` is) and the first `limit` of them are returned
 * together with the number of hits and the query.
 */
module SearchEndpoints {
  import opened Base
  import opened Text
  import opened ApiDoc
  import opened Formatters
  import opened Matchers
  import opened Sorting

  /** `SearchEndpointsResult`. */
  datatype SearchOutcome = SearchOutcome(results: seq<SearchResult>, totalFound: nat, query: String)

  const DefaultLimit: int := 10

  /** The result record built for a hit. */
  function ToResult(e: Endpoint, query: String): SearchResult {
    SearchResult(e.name, e.title, e.group, e.groupTitle, e.httpMethod, e.url,
                 TruncateDescription(e.description, Some(SummaryDescriptionLength)),
                 MatchedFields(e, query), RelevanceScore(e, query))
  }

  /** The sort key. */
  function ResultScore(r: SearchResult): real {
    r.relevanceScore as real
  }

  /** An endpoint the query hits: its relevance is positive. */
  function Hit(query: String): Endpoint -> bool {
    e => RelevanceScore(e, query) > 0
  }

  /** The result record of a hit, as a function value. */
  function Build(query: String): Endpoint -> SearchResult {
    e => ToResult(e, query)
  }

  /** The `scoredResults` list the loop builds, endpoint by endpoint. */
  function ScoredResults(endpoints: seq<Endpoint>, query: String): seq<SearchResult> {
    MapIf(endpoints, Hit(query), Build(query))
  }

  /** The hits, sorted by descending relevance. */
  function Ranked(docs: CachedDocumentation, query: String): seq<SearchResult> {
    SortByScoreDesc(ScoredResults(docs.endpoints, query), ResultScore)
  }

  /** `searchEndpoints(docs, { query, limit = 10 })`. */
  function Search(docs: CachedDocumentation, query: String, limit: Option<int>): SearchOutcome {
    var ranked := Ranked(docs, query);
    SearchOutcome(Take(ranked, limit.GetOr(DefaultLimit)), |ranked|, query)
  }

  /** The tool's loop: score every endpoint, push a result for each hit, then
      sort and slice. */
  method SearchEndpoints(docs: CachedDocumentation, query: String, limit: Option<int>) returns (out: SearchOutcome)
    ensures out == Search(docs, query, limit)
  {
    var scoredResults: seq<SearchResult> := [];
    for i := 0 to |docs.endpoints|
      invariant scoredResults == ScoredResults(docs.endpoints[..i], query)
    {
      var endpoint := docs.endpoints[i];
      var score := CalculateRelevance(endpoint, query);
      if score > 0 {
        var matched := GetMatchedFields(endpoint, query);
        scoredResults := scoredResults + [SearchResult(
          endpoint.name, endpoint.title, endpoint.group, endpoint.groupTitle, endpoint.httpMethod,
          endpoint.url, TruncateDescription(endpoint.description, Some(SummaryDescriptionLength)),
          matched, score)];
      }
      ScoredResultsStep(docs.endpoints, query, i);
    }
    assert docs.endpoints[..|docs.endpoints|] == docs.endpoints;
    scoredResults := SortByScoreDesc(scoredResults, ResultScore);
    out := SearchOutcome(Take(scoredResults, limit.GetOr(DefaultLimit)), |scoredResults|, query);
  }

  // ---------------------------------------------------------------------
  // what the search promises
  // ---------------------------------------------------------------------

  /** The results built are exactly those of the hits, in documentation
      order: the endpoints `filter` keeps for a positive relevance. */
  lemma ScoredResultsAreHits(endpoints: seq<Endpoint>, query: String)
    ensures var hits := Filter(endpoints, Hit(query));
            && |ScoredResults(endpoints, query)| == |hits|
            && forall i :: 0 <= i < |hits| ==> ScoredResults(endpoints, query)[i] == ToResult(hits[i], query)
  {
    MapIfIsMapOfFilter(endpoints, Hit(query), Build(query));
  }

  /** `totalFound` counts the hits, and the result list is the first `limit`
      of them (all of them when `limit` is at least their number). */
  lemma SearchCounts(docs: CachedDocumentation, query: String, limit: Option<int>)
    ensures var out := Search(docs, query, limit);
            var hits := Filter(docs.endpoints, Hit(query));
            var n := limit.GetOr(DefaultLimit);
            && out.totalFound == |hits|
            && out.query == query
            && (n >= 0 ==> |out.results| == Min(n, |hits|))
            && out.results == Ranked(docs, query)[..|out.results|]
  {
    ScoredResultsAreHits(docs.endpoints, query);
  }

  /** The ranking is ordered by descending relevance, is a permutation of the
      results built, and keeps the documentation order among equal scores. */
  lemma RankedOrder(docs: CachedDocumentation, query: String, k: real)
    ensures var ranked := Ranked(docs, query);
            var scored := ScoredResults(docs.endpoints, query);
            && SortedDesc(ranked, ResultScore)
            && multiset(ranked) == multiset(scored)
            && WithScore(ranked, ResultScore, k) == WithScore(scored, ResultScore, k)
  {
    var scored := ScoredResults(docs.endpoints, query);
    SortByScoreDescSorted(scored, ResultScore);
    SortByScoreDescPermutes(scored, ResultScore);
    SortByScoreDescStable(scored, ResultScore, k);
  }

  /** Every returned result is the record of a hit: its score is that
      endpoint's relevance and positive, its fields the matched fields, its
      description the description cut to 150 characters. */
  lemma SearchResultsAreHits(docs: CachedDocumentation, query: String, limit: Option<int>, i: nat)
    requires i < |Search(docs, query, limit).results|
    ensures var r := Search(docs, query, limit).results[i];
            exists k :: 0 <= k < |docs.endpoints| && RelevanceScore(docs.endpoints[k], query) > 0 &&
                        r == ToResult(docs.endpoints[k], query) &&
                        r.relevanceScore == RelevanceScore(docs.endpoints[k], query) &&
                        r.matchedFields == MatchedFields(docs.endpoints[k], query) &&
                        r.description == TruncateDescription(docs.endpoints[k].description, Some(150))
  {
    RankedMember(docs.endpoints, Hit(query), Build(query), ResultScore, limit.GetOr(DefaultLimit), i);
  }

  /** With a limit at least the number of endpoints, every hit is returned. */
  lemma SearchComplete(docs: CachedDocumentation, query: String, limit: Option<int>, k: nat)
    requires k < |docs.endpoints| && RelevanceScore(docs.endpoints[k], query) > 0
    requires limit.GetOr(DefaultLimit) >= |docs.endpoints|
    ensures ToResult(docs.endpoints[k], query) in Search(docs, query, limit).results
  {
    assert Hit(query)(docs.endpoints[k]);
    RankedKeepsAll(docs.endpoints, Hit(query), Build(query), ResultScore, limit.GetOr(DefaultLimit), k);
    assert Build(query)(docs.endpoints[k]) == ToResult(docs.endpoints[k], query);
  }

  /** An element of the ranked, cut list is the image of a kept element. */
  lemma RankedMember<T, U>(xs: seq<T>, p: T -> bool, f: T -> U, score: U -> real, n: int, i: nat)
    requires i < |Take(SortByScoreDesc(MapIf(xs, p, f), score), n)|
    ensures exists k :: 0 <= k < |xs| && p(xs[k]) && Take(SortByScoreDesc(MapIf(xs, p, f), score), n)[i] == f(xs[k])
  {
    var built := MapIf(xs, p, f);
    var kept := Filter(xs, p);
    SortByScoreDescPermutes(built, score);
    MapIfIsMapOfFilter(xs, p, f);
    var r := SortByScoreDesc(built, score)[i];
    assert r in multiset(built);
    var j :| 0 <= j < |built| && built[j] == r;
    assert kept[j] in xs;
    var k :| 0 <= k < |xs| && xs[k] == kept[j];
  }

  /** The image of every kept element is ranked, and survives a cut that
      is at least the length of the input. */
  lemma RankedKeepsAll<T, U>(xs: seq<T>, p: T -> bool, f: T -> U, score: U -> real, n: int, k: nat)
    requires k < |xs| && p(xs[k]) && n >= |xs|
    ensures f(xs[k]) in Take(SortByScoreDesc(MapIf(xs, p, f), score), n)
  {
    var built := MapIf(xs, p, f);
    var kept := Filter(xs, p);
    MapIfIsMapOfFilter(xs, p, f);
    SortByScoreDescPermutes(built, score);
    var j :| 0 <= j < |kept| && kept[j] == xs[k];
    assert built[j] == f(xs[k]);
    assert built[j] in multiset(SortByScoreDesc(built, score));
    assert Take(SortByScoreDesc(built, score), n) == SortByScoreDesc(built, score);
  }

  /** One more endpoint adds its result exactly when it is a hit. */
  lemma ScoredResultsStep(endpoints: seq<Endpoint>, query: String, i: nat)
    requires i < |endpoints|
    ensures ScoredResults(endpoints[..i + 1], query) ==
            ScoredResults(endpoints[..i], query) +
            (if RelevanceScore(endpoints[i], query) > 0 then [ToResult(endpoints[i], query)] else [])
  {
    assert endpoints[..i + 1][..i] == endpoints[..i];
  }
}
