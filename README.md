# upmind-mcp-server, modelled in Dafny

The server answers four kinds of question about the Upmind API documentation:
- a relevance-ranked search;
- the details of one endpoint, with suggestions of similar names when it is not found;
- the list of API groups;
- the endpoints of one group.

All four work on a snapshot of the documentation, which a cache keeps for one hour.

This project models the core of the server:
- the matching and ranking utilities (`src/utils/matchers.ts`);
- the text formatters (`src/utils/formatters.ts`);
- the four tools (`src/tools/*.ts`);
- the documentation cache (`src/cache/documentation-cache.ts`).

It proves what these promise.

Modules, one per source file, plus three shared ones:

| module | file | models |
|---|---|---|
| `Base` | base.dfy | `Option`, `Result`, and the array built-ins the source uses (`find`, `filter`, `slice`); a push loop as filter-then-map |
| `Text` | text.dfy | `toLowerCase`, `includes` and `trim` on `seq<char>`; the order `Array.prototype.sort()` gives strings, taken over code points |
| `ApiDoc` | apidoc.dfy | the record shapes of `src/types/apidoc.ts` |
| `Sorting` | sorting.dfy | the two runtime sorts the source calls: stable, by descending score, and ascending on strings |
| `Formatters` | formatters.dfy | `stripHtml`, `truncateDescription`, `formatFieldName` |
| `Matchers` | matchers.dfy | `calculateRelevance`, `getMatchedFields`, `findEndpoint`, `findSimilarEndpoints`, `calculateSimilarity`, `levenshteinDistance` |
| `SearchEndpoints` | search_endpoints.dfy | `searchEndpoints` |
| `EndpointDetails` | endpoint_details.dfy | `getEndpointDetails` |
| `ListGroups` | list_groups.dfy | `listApiGroups` |
| `GroupEndpoints` | group_endpoints.dfy | `getGroupEndpoints` |
| `Cache` | cache.dfy | the class `DocumentationCache` |

Where the source changes state step by step, the model is imperative. Each such operation is a method proved equal to a specification function, and the properties are then proved about that function. The methods are:
- `CalculateRelevance`, which adds to `score`;
- `GetMatchedFields`, which pushes into `matched`;
- `FindSimilarEndpoints`, `SearchEndpoints` and `ExtractGroups`, which loop over the endpoints;
- `LevenshteinDistance`, which fills a two-dimensional array;
- the methods of the class `DocumentationCache`, whose fields `cache` and `fetchInFlight` stand for `cache` and `fetchPromise`.

Code that is chained expressions is modelled as functions: the formatters, `findEndpoint`, `calculateSimilarity` and three of the tools. Functions cannot call methods. So the caller of, say, `findSimilarEndpoints` uses the function that the method is proved to compute.

Inputs from outside the program are parameters:
- The clock (`Date.now()`) is two parameters:
  - `now`, the time at which the cache's age is checked;
  - `fetchedAt`, the time a successful refresh records.
- The two `fetch` calls and their `.json()` bodies are one `FetchOutcome` parameter. It holds either a rejection message, or both responses with their `ok` flag, status text and parsed body.

## Model

| member | source | states |
|---|---|---|
| Formatters.RemoveTagsShrinks | src/utils/formatters.ts:8 | removing tags only drops characters: the result is no longer than the input and every character comes from it |
| Formatters.RemoveTagsLeavesNoSpan | src/utils/formatters.ts:8 | after the tags are removed, no `<` is followed anywhere later by a `>` |
| Formatters.RemoveTagsNoTag | src/utils/formatters.ts:8 | a text with no `<`, or with no `>`, is left as it is, so a `<` with no later `>` survives |
| Formatters.RemoveTagsDropsSpan | src/utils/formatters.ts:8 | a `<`, the characters up to the first following `>`, and that `>` are removed together |
| Formatters.RemoveTagsPlainPrefix | src/utils/formatters.ts:8 | text before the first `<` is kept as it is |
| Formatters.ReplaceAllAbsent | src/utils/formatters.ts:9-13 | an entity pass over a text without that entity changes nothing |
| Formatters.NoEntityNoChange | src/utils/formatters.ts:9-13 | a text without `&` comes through entity decoding unchanged, in the order as written and in the corrected one |
| Formatters.DecodeEscapeHtml | src/utils/formatters.ts:12-13 | with the corrected order of these two passes (`&amp;` last, see Findings), decoding restores every HTML-escaped text exactly |
| Formatters.AsWrittenEscaped | src/utils/formatters.ts:9-13 | on HTML-escaped text, the passes as written decode `&nbsp;`, `&lt;`, `&gt;` and `&amp;` exactly, and leave a `&quot;` pass over a text in which only `"` is still escaped |
| Formatters.DecodeAsWrittenNoAmp | src/utils/formatters.ts:9-13 | the passes as written restore HTML-escaped text that holds no `&` |
| Formatters.DecodeAsWrittenNoQuote | src/utils/formatters.ts:9-13 | on the HTML-escaped form of a text without `"`, the passes as written decode every `&quot;` the original text holds |
| Formatters.DecodeAsWrittenDecodesTwice | src/utils/formatters.ts:12-13 | when decoding `&amp;` before `&quot;`, as written, the escaped form of the text `&quot;` comes out as a lone `"` |
| Formatters.StripHtmlTrimmed | src/utils/formatters.ts:5-15 | the empty input gives the empty string; a result never starts or ends with whitespace |
| Formatters.StripHtmlPlainText | src/utils/formatters.ts:5-15 | text with no `<`, no `&` and no whitespace at either end is returned unchanged |
| Formatters.StripHtmlEscaped | src/utils/formatters.ts:12-13 | `StripHtmlIntended`, `stripHtml` with the corrected order (see Findings), gives back any HTML-escaped text, trimmed |
| Formatters.StripHtmlIntendedDecodesOnce | src/utils/formatters.ts:12-13 | with the corrected order, the HTML `&amp;quot;` comes out as the text `&quot;` |
| Formatters.StripHtmlEscapedNoAmp | src/utils/formatters.ts:5-15 | `stripHtml` gives back any HTML-escaped text without `&`, trimmed |
| Formatters.StripHtmlEscapedNoQuote | src/utils/formatters.ts:5-15 | `stripHtml` of the HTML-escaped form of a text without `"` is that text with its own `&quot;`s decoded, trimmed |
| Formatters.StripHtmlDecodesTwice | src/utils/formatters.ts:5-15 | `stripHtml` turns the HTML `&amp;quot;`, which stands for the text `&quot;`, into a lone `"` |
| Formatters.StripHtmlKeepsEscapedTag | src/utils/formatters.ts:8-13 | tags are removed before entities are decoded, so `&lt;b&gt;` becomes `<b>` and stays |
| Formatters.StripHtmlDecodesOnce | src/utils/formatters.ts:9-13 | `&amp;lt;` becomes `&lt;`, not `<` |
| Formatters.TruncateDescriptionMeaning | src/utils/formatters.ts:17-23 | stripped text that fits in `maxLength` is returned unchanged. Otherwise the result is its first `maxLength` characters (none for a negative length), trimmed, then `...`: it ends in `...`, is at most `maxLength + 3` long, and the part before `...` is those characters with exactly the whitespace at both ends removed. |
| Formatters.ShortenMeaning | src/utils/formatters.ts:19-22 | the same statement for the cut of an already stripped text |
| Formatters.TrimmedCut | src/utils/formatters.ts:22 | `substring(0, n).trim() + '...'` ends in `...` and is at most `n + 3` long. The part before `...` is a slice of the first `n` characters with only whitespace before and after it, and it neither starts nor ends with whitespace. |
| Formatters.TruncateDescriptionDefault | src/utils/formatters.ts:17 | the default `maxLength` is 200 |
| Formatters.RemoveBrackets | src/utils/formatters.ts:27 | no `[` or `]` remains, the text gets no longer, and a text without brackets is unchanged |
| Formatters.RemoveBracketsIsFilter | src/utils/formatters.ts:27 | every character other than `[` and `]` is kept, in order: the result is the filter that drops the brackets |
| Formatters.RemoveBracketsAppend | src/utils/formatters.ts:27 | brackets are removed from each piece of a text independently |
| Formatters.Split | src/utils/formatters.ts:28 | `split('.')` gives at least one part and no part holds a `.` |
| Formatters.JoinSplit | src/utils/formatters.ts:28-30 | joining the parts of a split with the separator restores the text |
| Formatters.FormatFieldNameIsRetitle | src/utils/formatters.ts:25-31 | the chained split, capitalize and join is one character-wise rewrite of the bracket-free text |
| Formatters.RetitleAt | src/utils/formatters.ts:29-30 | each `.` becomes a space; the first character of each part is upper-cased; every other character is kept |
| Formatters.FormatFieldNameShape | src/utils/formatters.ts:25-31 | the result is as long as the bracket-free text. It holds no `[`, `]` or `.`. Only the first character of each dot-separated part is upper-cased, and the rest of the part is kept. |
| Text.IncludesIffOccurs | src/utils/matchers.ts:16 | `includes` holds exactly when the query occurs at some position |
| Text.TrimMeaning | src/utils/formatters.ts:14 | `trim` removes only whitespace, from both ends, and the result starts and ends with non-whitespace |
| Text.ToLower | src/utils/matchers.ts:10 | lower-casing keeps the length and maps every character by itself |
| Text.LessTotal | src/cache/documentation-cache.ts:91 | the default string order compares any two different strings |
| Text.LessTransitive | src/cache/documentation-cache.ts:91 | the default string order is transitive |
| Matchers.CalculateRelevance | src/utils/matchers.ts:8-50 | the score the loop computes is `RelevanceScore`: the weights of the matched fields plus 50 for an exact name |
| Matchers.RelevanceAsSum | src/utils/matchers.ts:8-50 | the score is the sum of independent contributions: title 30, description 20, group 15, group title 15, and a name worth 100 (equal), 50 (containing) or 0 |
| Matchers.RelevanceBound | src/utils/matchers.ts:8-50 | the score is at most 180 |
| Matchers.RelevanceNameTiers | src/utils/matchers.ts:12-19 | a name equal to the query ignoring case scores at least 100; a name containing it, at least 50 |
| Matchers.RelevancePositiveIffMatched | src/utils/matchers.ts:8-73 | the score is positive exactly when the matched-field list is non-empty |
| Matchers.GetMatchedFields | src/utils/matchers.ts:52-73 | the names the method pushes are `MatchedFields` |
| Matchers.MatchedFieldsMembers | src/utils/matchers.ts:52-73 | a field is reported exactly when it is non-empty and its lower-cased text (the stripped text, for the description) includes the lower-cased query |
| Matchers.MatchedFieldsDistinct | src/utils/matchers.ts:52-73 | no field is reported twice |
| Matchers.MatchedFieldsOrdered | src/utils/matchers.ts:52-73 | the reported names are those of matched fields, in the order name, title, description, group, groupTitle |
| Matchers.EmptyQueryMatchesEverything | src/utils/matchers.ts:56-70 | the empty query matches every non-empty field |
| Matchers.FindFrom | src/utils/matchers.ts:79-91 | trying the tests from a given one on yields nothing exactly when no endpoint passes any of them. Otherwise it yields the first endpoint passing the earliest test that any endpoint passes. |
| Matchers.FindEndpointPriority | src/utils/matchers.ts:75-92 | `findEndpoint` tries exact name, name ignoring case, exact URL and URL ignoring case in turn. The first endpoint passing the earliest satisfiable test is returned; null is returned exactly when no endpoint passes any test. |
| Matchers.FindEndpointExactName | src/utils/matchers.ts:81-82 | the first endpoint whose name equals the identifier is always the one found |
| Matchers.LevenshteinDistance | src/utils/matchers.ts:126-152 | the matrix loops compute the edit distance (`matrix[i][j]` is the distance between the prefixes of length i and j) |
| Matchers.LevSymmetric | src/utils/matchers.ts:126-152 | the distance between prefixes does not depend on the order of the strings |
| Matchers.LevBounds | src/utils/matchers.ts:126-152 | the distance lies between the difference and the larger of the two prefix lengths |
| Matchers.LevZero | src/utils/matchers.ts:126-152 | the distance between prefixes is 0 exactly when they are equal |
| Matchers.EditDistanceProperties | src/utils/matchers.ts:126-152 | it is symmetric, 0 exactly for equal strings, and between the length difference and the larger length, so `d(a,"") = \|a\|` |
| Matchers.CalculateSimilarity | src/utils/matchers.ts:116-124 | the method computes `Similarity`: 1 for two empty strings, else one minus the distance over the longer length |
| Matchers.SimilarityProperties | src/utils/matchers.ts:116-124 | the similarity is in [0, 1], is 1 exactly for equal strings, and is symmetric |
| Matchers.FindSimilarEndpoints | src/utils/matchers.ts:94-114 | the loop, sort, slice and map compute `SimilarNames`; `limit` defaults to 5 |
| Matchers.CandidatesMembers | src/utils/matchers.ts:102-108 | a candidate is pushed exactly for each endpoint whose lower-cased name includes, or is included in, the lower-cased query; it carries that name and similarity |
| Matchers.SimilarNamesMeaning | src/utils/matchers.ts:110-113 | the ranked candidates are ordered by non-increasing similarity. There are at most `limit` of them, and all of them when the limit allows; each is a pushed candidate. |
| Matchers.SimilarNamesAreBest | src/utils/matchers.ts:110-112 | the kept candidates are the best ones. None is kept twice, and no candidate left out is more similar than a kept one. Among equally similar candidates, the kept ones are the first in documentation order. |
| Matchers.SimilarNamesRelated | src/utils/matchers.ts:94-114 | every suggested name is the name of an endpoint related to the query |
| Sorting.SortByScoreDescSorted | src/tools/search-endpoints.ts:47 | the sort by `b.score - a.score` orders by non-increasing score |
| Sorting.SortByScoreDescPermutes | src/tools/search-endpoints.ts:47 | the sort is a permutation of its input |
| Sorting.SortByScoreDescStable | src/tools/search-endpoints.ts:47 | records of equal score keep their original order |
| Sorting.SortedPrefixIsTop | src/utils/matchers.ts:110-112 | the first `m` of a sort by descending score are input elements, score at least as high as every element left out, and are the first of their score in input order |
| Sorting.SortStringsSpec | src/cache/documentation-cache.ts:91 | `sort()` of distinct strings yields the same strings in strictly increasing order |
| Sorting.StrictlyIncreasingUnique | src/cache/documentation-cache.ts:91 | a strictly increasing list is determined by its elements |
| Base.Find | src/utils/matchers.ts:81 | `find` yields nothing exactly when no element passes; otherwise it yields the first element that passes |
| Base.FilterHeadIsFirst | src/tools/list-groups.ts:24-25 | the first element `filter` keeps is the first element `find` would return |
| Base.MapIfIsMapOfFilter | src/tools/search-endpoints.ts:29-45 | pushing a record for each element that passes is `filter` followed by `map` |
| SearchEndpoints.SearchEndpoints | src/tools/search-endpoints.ts:21-56 | the loop, the sort and the slice compute `Search` |
| SearchEndpoints.ScoredResultsAreHits | src/tools/search-endpoints.ts:29-45 | the records built are those of the endpoints with positive relevance, one each, in documentation order |
| SearchEndpoints.SearchCounts | src/tools/search-endpoints.ts:25-55 | `totalFound` is the number of hits and the query is echoed back. For a non-negative limit (10 by default) there are `min(limit, totalFound)` results, and they are the first ones of the ranking. |
| SearchEndpoints.RankedOrder | src/tools/search-endpoints.ts:47 | the ranking orders by non-increasing score, is a permutation of the records built, and keeps documentation order among equal scores |
| SearchEndpoints.SearchResultsAreHits | src/tools/search-endpoints.ts:30-43 | every result belongs to an endpoint with positive relevance. Its score is that relevance, its matched fields are `getMatchedFields`, and its description is the description cut to 150. |
| SearchEndpoints.SearchComplete | src/tools/search-endpoints.ts:29-49 | with a limit at least the number of endpoints, every hit is returned |
| EndpointDetails.DetailsFound | src/tools/get-endpoint-details.ts:23-35 | the answer is the endpoint `findEndpoint` finds, exactly when one passes one of the four tests; an exact-name match wins |
| EndpointDetails.NotFoundMessage | src/tools/get-endpoint-details.ts:25-30 | not found gives the message `Endpoint '<name>' not found`. The suggestions are absent exactly when no endpoint name is related to the query. |
| EndpointDetails.SuggestionsBounded | src/tools/get-endpoint-details.ts:26-29 | present suggestions are one to five names of related endpoints |
| ListGroups.InfoAll | src/tools/list-groups.ts:23-37 | one entry per key, in the order of `docs.groups` |
| ListGroups.ListGroupsEntries | src/tools/list-groups.ts:21-42 | `totalGroups` is the number of keys. Each entry is named by its key. Its count is present exactly when `includeCount` is not false, and the count is then the number of endpoints of that group. |
| ListGroups.GroupEndpointsMeaning | src/tools/list-groups.ts:24 | the endpoints counted are exactly those whose group equals the key, case-sensitively |
| ListGroups.GroupTitleFromFirst | src/tools/list-groups.ts:25-29 | the title is the group title of the group's first endpoint, or the key when that title is empty |
| ListGroups.EmptyGroupEntry | src/tools/list-groups.ts:24-34 | a key no endpoint belongs to is titled by itself and counted as 0 |
| GroupEndpoints.SummarizeAll | src/tools/get-group-endpoints.ts:49-55 | one summary per endpoint, in order |
| GroupEndpoints.GroupNotFoundIff | src/tools/get-group-endpoints.ts:27-36 | the error comes exactly when no group equals the requested one ignoring case. It names the request and returns `docs.groups` unchanged. |
| GroupEndpoints.GroupFromFirstMatch | src/tools/get-group-endpoints.ts:38-62 | `group` and `groupTitle` are taken, in their stored case, from the first matching endpoint |
| GroupEndpoints.GroupListingContents | src/tools/get-group-endpoints.ts:40-62 | exactly the matching endpoints are listed, as `filter` keeps them. With details, the records themselves are listed. Otherwise one summary per record copies its name, title, method and URL, with the description cut to 150. The total is the number listed. |
| GroupEndpoints.GroupMembersInOrder | src/tools/get-group-endpoints.ts:27-29 | the members are in documentation order: those of an earlier part of the documentation come before those of a later part |
| GroupEndpoints.GroupCaseInsensitive | src/tools/get-group-endpoints.ts:27-29 | requests that differ only in case give the same listing |
| Cache.ExtractGroups | src/cache/documentation-cache.ts:86-92 | the set-filling loop and the sort compute `Groups` |
| Cache.SeenGroupsMeaning | src/cache/documentation-cache.ts:87-90 | the set holds each endpoint group exactly once |
| Cache.GroupsSpec | src/cache/documentation-cache.ts:86-92 | the groups are strictly increasing and are exactly the endpoints' group keys; no endpoints gives no groups |
| Cache.GroupsDependOnKeysOnly | src/cache/documentation-cache.ts:86-92 | endpoint lists with the same group keys give the same groups |
| Cache.RefreshedMeaning | src/cache/documentation-cache.ts:46-78 | a refresh succeeds exactly when both responses are ok. It then records both bodies, their groups and the fetch time; otherwise it fails with the message naming the failed request. |
| Cache.FreshServedUnchanged | src/cache/documentation-cache.ts:21-23 | a snapshot less than an hour old is served and kept without a refresh |
| Cache.FailureFallsBack | src/cache/documentation-cache.ts:35-40 | a failed refresh serves and keeps an existing snapshot, however old. Only with no snapshot is the error thrown. |
| Cache.RefreshInstalls | src/cache/documentation-cache.ts:61-71 | a successful refresh of a stale or missing snapshot installs the whole new record and serves it |
| Cache.ServedIsCached | src/cache/documentation-cache.ts:33-39 | whatever is served is the snapshot held afterwards, so a successful call leaves the cache non-null |
| Cache.InstalledIsFresh | src/cache/documentation-cache.ts:80-84 | a snapshot just installed is fresh for any check made less than an hour after its fetch time |
| Cache.DocumentationCache.constructor | src/cache/documentation-cache.ts:9-10 | the cache starts empty with no refresh in flight |
| Cache.DocumentationCache.IsCacheValid | src/cache/documentation-cache.ts:80-84 | `isCacheValid` holds exactly when a snapshot exists and is less than 3600000 ms old |
| Cache.DocumentationCache.RefreshCache | src/cache/documentation-cache.ts:46-78 | on success the new snapshot replaces the old one in one assignment; on failure the cache is untouched and the message is returned |
| Cache.DocumentationCache.GetDocumentation | src/cache/documentation-cache.ts:20-44 | the call serves `Served` and leaves the cache at `Next`, and the in-flight marker is clear again afterwards |

## Left out

- Declared but not modelled:
  - the server setup, tool schemas, argument casting and JSON response envelope of `src/index.ts`;
  - `console.error` logging, which does not affect any result.
- Concurrency:
  - Only sequential calls are modelled. `DocumentationCache.Valid()` keeps `fetchInFlight` clear between calls.
  - The branch of `getDocumentation` that waits on another caller's `fetchPromise` (src/cache/documentation-cache.ts:25-28) is not modelled. A caller waiting there gets no stale-cache fallback, because that branch has no try/catch.
- Network and clock:
  - The `fetch` calls, `Promise.all` and `.json()` parsing are not modelled. Their outcome is the `FetchOutcome` parameter.
  - `Date.now()` is the `now` and `fetchedAt` parameters.
  - No check is made that the parsed JSON has the declared shape.
- Text functions:
  - Strings are sequences of Unicode characters, not UTF-16 code units. For characters outside the Basic Multilingual Plane, lengths, `substring`, edit distances and the default string order of `sort()` differ. The runtime puts "😀" (U+1F600) before "｡" (U+FF61), for example, and `Text.Less` puts it after. The order of `extractGroups` can therefore differ for such group names.
  - `toLowerCase` and `toUpperCase` are modelled on ASCII letters only. Full Unicode case mapping, including mappings that change the length, is not modelled.
  - `trim` uses the exact ECMAScript whitespace set.
- Numbers:
  - Similarity scores are Dafny `real`, so floating-point rounding is not modelled.
  - A `limit` or `maxLength` that is not a whole number is not modelled; both are `int`.
  - A negative `limit` is modelled as `slice` treats it: it counts from the end.
- Sorting: the runtime's `Array.prototype.sort` is not source code. It is modelled as an insertion sort with the required properties: sorted, a permutation, stable.
- Optional fields: the optional field groups of an endpoint (`parameter`, `success`, `error`, `header`) are `Option` values of maps, and nothing looks inside them.
- Suggestions for unknown names: `findSimilarEndpoints` relates two names only when one lower-cased name contains the other. A name misspelt inside, such as one with an inner letter dropped, is then usually related to no endpoint name and gets no suggestion. The model does the same.
- Entity decoding: `Formatters.StripHtml` models the entity passes in the order written, so the double decoding in Findings reaches every caller: relevance, matched fields, truncated descriptions and summaries. The corrected order is `Formatters.StripHtmlIntended`, used by nothing else.

## Findings

| source | as written | input that shows it | evidently intended | confidence | as-written member | corrected member |
|---|---|---|---|---|---|---|
| src/utils/formatters.ts:12-13 | `&amp;` is decoded before `&quot;`, so the `&` it produces can start a second decoding | the escaped text `&amp;quot;` (the HTML for the literal text `&quot;`) comes out as `"` | every entity decoded exactly once, which decoding `&amp;` last achieves: escaped text comes back unchanged | medium, not executed | Formatters.StripHtmlDecodesTwice | Formatters.StripHtmlEscaped |
