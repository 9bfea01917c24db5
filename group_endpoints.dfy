/**
 * The `get_group_endpoints` tool (`src/tools/get-group-endpoints.ts`): the
 * endpoints whose group key equals the requested one ignoring case, either
 * in full or as summaries with the description cut to 150 characters,
 * together with the first match's group key and title; when none matches,
 * an error and the list of known groups.
 */
module GroupEndpoints {
  import opened Base
  import opened Text
  import opened ApiDoc
  import opened Formatters

  /** The `endpoints` field: full records or summaries. */
  datatype Listing = Details(records: seq<Endpoint>) | Summaries(summaries: seq<EndpointSummary>)

  /** The two shapes of the tool's answer. */
  datatype GroupOutcome =
    | GroupFound(group: String, groupTitle: String, endpoints: Listing, totalEndpoints: nat)
    | GroupNotFound(error: String, availableGroups: seq<String>)

  /** `e.group.toLowerCase() === group.toLowerCase()`, as a function value. */
  function SameGroup(group: String): Endpoint -> bool {
    (e: Endpoint) => ToLower(e.group) == ToLower(group)
  }

  /** The endpoints of the requested group, in documentation order. */
  function GroupMembers(endpoints: seq<Endpoint>, group: String): seq<Endpoint> {
    Filter(endpoints, SameGroup(group))
  }

  /** The summary the tool lists for one endpoint. */
  function Summary(e: Endpoint): EndpointSummary {
    EndpointSummary(e.name, e.title, e.httpMethod, e.url,
                    TruncateDescription(e.description, Some(SummaryDescriptionLength)))
  }

  function SummarizeAll(members: seq<Endpoint>): (r: seq<EndpointSummary>)
    ensures |r| == |members|
    ensures forall i :: 0 <= i < |members| ==> r[i] == Summary(members[i])
  {
    if members == [] then [] else [Summary(members[0])] + SummarizeAll(members[1..])
  }

  /** `getGroupEndpoints(docs, { group, includeDetails = false })`. */
  function GetGroupEndpoints(docs: CachedDocumentation, group: String, includeDetails: Option<bool>): GroupOutcome {
    var members := GroupMembers(docs.endpoints, group);
    if |members| == 0 then
      GroupNotFound("Group '" + group + "' not found", docs.groups)
    else
      var sample := members[0];
      if includeDetails.GetOr(false) then
        GroupFound(sample.group, sample.groupTitle, Details(members), |members|)
      else
        var summaries := SummarizeAll(members);
        GroupFound(sample.group, sample.groupTitle, Summaries(summaries), |summaries|)
  }

  /** The group is unknown exactly when no endpoint's group key equals the
      requested one ignoring case; the error then names the request and
      offers every known group. */
  lemma GroupNotFoundIff(docs: CachedDocumentation, group: String, includeDetails: Option<bool>)
    ensures var r := GetGroupEndpoints(docs, group, includeDetails);
            && (r.GroupNotFound? <==> forall k :: 0 <= k < |docs.endpoints| ==> ToLower(docs.endpoints[k].group) != ToLower(group))
            && (r.GroupNotFound? ==> r.error == "Group '" + group + "' not found" && r.availableGroups == docs.groups)
  {
    var members := GroupMembers(docs.endpoints, group);
    if members != [] {
      assert SameGroup(group)(members[0]);
    }
  }

  /** The group key and title reported are those of the first endpoint in
      the documentation whose group matches. */
  lemma GroupFromFirstMatch(docs: CachedDocumentation, group: String, includeDetails: Option<bool>, k: nat)
    requires k < |docs.endpoints| && ToLower(docs.endpoints[k].group) == ToLower(group)
    requires forall j :: 0 <= j < k ==> ToLower(docs.endpoints[j].group) != ToLower(group)
    ensures var r := GetGroupEndpoints(docs, group, includeDetails);
            && r.GroupFound?
            && r.group == docs.endpoints[k].group
            && r.groupTitle == docs.endpoints[k].groupTitle
  {
    FilterHeadIsFirst(docs.endpoints, SameGroup(group));
    assert SameGroup(group)(docs.endpoints[k]);
    assert FindIndex(docs.endpoints, SameGroup(group)) == Some(k);
  }

  /** A found group lists every matching endpoint and nothing else, in
      documentation order (the order `filter` keeps): the records themselves
      with details, otherwise one summary per record copying its name, title,
      method and URL; the total is the number listed. */
  lemma GroupListingContents(docs: CachedDocumentation, group: String, includeDetails: Option<bool>)
    requires GetGroupEndpoints(docs, group, includeDetails).GroupFound?
    ensures var r := GetGroupEndpoints(docs, group, includeDetails);
            var members := GroupMembers(docs.endpoints, group);
            && members == Filter(docs.endpoints, SameGroup(group))
            && (forall i :: 0 <= i < |members| ==> members[i] in docs.endpoints && ToLower(members[i].group) == ToLower(group))
            && (forall e :: e in docs.endpoints && ToLower(e.group) == ToLower(group) ==> e in members)
            && ToLower(r.group) == ToLower(group)
            && r.totalEndpoints == |members| > 0
            && (includeDetails == Some(true) ==> r.endpoints == Details(members))
            && (includeDetails != Some(true) ==>
                  && r.endpoints.Summaries?
                  && |r.endpoints.summaries| == |members|
                  && forall i :: 0 <= i < |members| ==>
                       r.endpoints.summaries[i].name == members[i].name &&
                       r.endpoints.summaries[i].title == members[i].title &&
                       r.endpoints.summaries[i].httpMethod == members[i].httpMethod &&
                       r.endpoints.summaries[i].url == members[i].url &&
                       r.endpoints.summaries[i].description == TruncateDescription(members[i].description, Some(150)))
  {
    var members := GroupMembers(docs.endpoints, group);
    forall i | 0 <= i < |members|
      ensures ToLower(members[i].group) == ToLower(group)
    {
      assert SameGroup(group)(members[i]);
    }
    forall e | e in docs.endpoints && ToLower(e.group) == ToLower(group)
      ensures e in members
    {
      var k :| 0 <= k < |docs.endpoints| && docs.endpoints[k] == e;
      assert SameGroup(group)(docs.endpoints[k]);
    }
  }

  /** The members are listed in documentation order: those of an earlier
      part of the documentation come before those of a later part. */
  lemma GroupMembersInOrder(first: seq<Endpoint>, second: seq<Endpoint>, group: String)
    ensures GroupMembers(first + second, group) == GroupMembers(first, group) + GroupMembers(second, group)
  {
    FilterConcat(first, second, SameGroup(group));
  }

  /** Requests that differ only in letter case get the same listing. */
  lemma GroupCaseInsensitive(docs: CachedDocumentation, g1: String, g2: String, includeDetails: Option<bool>)
    requires ToLower(g1) == ToLower(g2)
    ensures GetGroupEndpoints(docs, g1, includeDetails).GroupFound? ==>
            GetGroupEndpoints(docs, g1, includeDetails) == GetGroupEndpoints(docs, g2, includeDetails)
  {
    FilterSameTest(docs.endpoints, SameGroup(g1), SameGroup(g2));
  }
}
