/**
 * The `get_endpoint_details` tool (`src/tools/get-endpoint-details.ts`):
 * look the identifier up with `findEndpoint`; when nothing matches, answer
 * with an error message and up to five similar endpoint names (no
 * suggestions at all when there are none).
 */
module EndpointDetails {
  import opened Base
  import opened Text
  import opened ApiDoc
  import opened Sorting
  import opened Matchers

  /** The two shapes of the tool's answer. */
  datatype DetailsOutcome =
    | Found(endpoint: Endpoint)
    | NotFound(error: String, suggestions: Option<seq<String>>)

  const SuggestionLimit: int := 5

  /** `getEndpointDetails(docs, { name })`. */
  function GetEndpointDetails(docs: CachedDocumentation, name: String): DetailsOutcome {
    match FindEndpoint(docs.endpoints, name)
    case Some(endpoint) => Found(endpoint)
    case None =>
      var suggestions := SimilarNames(docs.endpoints, name, SuggestionLimit);
      NotFound("Endpoint '" + name + "' not found", if |suggestions| > 0 then Some(suggestions) else None)
  }

  /** An endpoint is returned exactly when some endpoint passes one of the
      four lookup tests, and the one returned passes one; when some endpoint
      carries the identifier as its exact name, an endpoint of that name is
      returned. */
  lemma DetailsFound(docs: CachedDocumentation, name: String)
    ensures var r := GetEndpointDetails(docs, name);
            && (r.Found? <==> FindEndpoint(docs.endpoints, name).Some?)
            && (r.Found? ==> FindEndpoint(docs.endpoints, name) == Some(r.endpoint))
            && (r.Found? <==> exists k, s: nat :: 0 <= k < |docs.endpoints| && s < 4 && StageMatches(docs.endpoints[k], name, s))
            && (r.Found? ==> r.endpoint in docs.endpoints && exists s: nat :: s < 4 && StageMatches(r.endpoint, name, s))
            && (r.Found? && (exists k :: 0 <= k < |docs.endpoints| && docs.endpoints[k].name == name) ==> r.endpoint.name == name)
  {
    FindEndpointPriority(docs.endpoints, name);
    var r := GetEndpointDetails(docs, name);
    if r.Found? && exists k :: 0 <= k < |docs.endpoints| && docs.endpoints[k].name == name {
      var k :| 0 <= k < |docs.endpoints| && docs.endpoints[k].name == name;
      assert StageMatches(docs.endpoints[k], name, 0);
    }
  }

  /** When nothing is found the error names the identifier, and there are
      no suggestions exactly when no endpoint name is related to it (one of
      the two lower-cased names including the other). */
  lemma NotFoundMessage(docs: CachedDocumentation, name: String)
    requires GetEndpointDetails(docs, name).NotFound?
    ensures var r := GetEndpointDetails(docs, name);
            && r.error == "Endpoint '" + name + "' not found"
            && (r.suggestions.None? <==>
                forall k :: 0 <= k < |docs.endpoints| ==> !Related(ToLower(docs.endpoints[k].name), ToLower(name)))
  {
    var all := Candidates(docs.endpoints, ToLower(name));
    SimilarNamesMeaning(docs.endpoints, name, SuggestionLimit);
    if exists k :: 0 <= k < |docs.endpoints| && Related(ToLower(docs.endpoints[k].name), ToLower(name)) {
      var k :| 0 <= k < |docs.endpoints| && Related(ToLower(docs.endpoints[k].name), ToLower(name));
      var c := Candidate(docs.endpoints[k].name, Similarity(ToLower(name), ToLower(docs.endpoints[k].name)));
      CandidatesMembers(docs.endpoints, ToLower(name), c);
      assert |all| > 0;
    } else if |all| > 0 {
      CandidatesMembers(docs.endpoints, ToLower(name), all[0]);
      assert false;
    }
  }

  /** The suggestions given are between one and five names, each the name of
      an endpoint related to the identifier. */
  lemma SuggestionsBounded(docs: CachedDocumentation, name: String, i: nat)
    requires GetEndpointDetails(docs, name).NotFound?
    requires GetEndpointDetails(docs, name).suggestions.Some?
    ensures var s := GetEndpointDetails(docs, name).suggestions.value;
            && 0 < |s| <= SuggestionLimit
            && (i < |s| ==> exists k :: 0 <= k < |docs.endpoints| && docs.endpoints[k].name == s[i] &&
                                        Related(ToLower(docs.endpoints[k].name), ToLower(name)))
  {
    SimilarNamesMeaning(docs.endpoints, name, SuggestionLimit);
    if i < |SimilarNames(docs.endpoints, name, SuggestionLimit)| {
      SimilarNamesRelated(docs.endpoints, name, SuggestionLimit, i);
    }
  }
}
