/**
 * The `list_api_groups` tool (`src/tools/list-groups.ts`): one entry per
 * group key of the documentation, in the documentation's order, with the
 * title of the group's first endpoint (the key itself when that title is
 * empty or the group has no endpoint) and, unless turned off, the number of
 * endpoints in the group.
 */
module ListGroups {
  import opened Base
  import opened Text
  import opened ApiDoc

  /** `ListGroupsResult`. */
  datatype ListGroupsOutcome = ListGroupsOutcome(groups: seq<GroupInfo>, totalGroups: nat)

  /** The test `e.group === group`, as a function value. */
  function InGroup(key: String): Endpoint -> bool {
    (e: Endpoint) => e.group == key
  }

  /** The endpoints of one group, in documentation order. */
  function GroupEndpoints(endpoints: seq<Endpoint>, key: String): seq<Endpoint> {
    Filter(endpoints, InGroup(key))
  }

  /** `sample?.groupTitle || group`: JavaScript's `||` falls back on the key
      both when there is no sample and when its title is the empty string. */
  function GroupTitle(members: seq<Endpoint>, key: String): String {
    if members != [] && members[0].groupTitle != [] then members[0].groupTitle else key
  }

  /** The entry `docs.groups.map` builds for one key. */
  function GroupInfoOf(endpoints: seq<Endpoint>, key: String, includeCount: bool): GroupInfo {
    var members := GroupEndpoints(endpoints, key);
    GroupInfo(key, GroupTitle(members, key), if includeCount then Some(|members|) else None)
  }

  function InfoAll(endpoints: seq<Endpoint>, keys: seq<String>, includeCount: bool): (r: seq<GroupInfo>)
    ensures |r| == |keys|
    ensures forall i :: 0 <= i < |keys| ==> r[i] == GroupInfoOf(endpoints, keys[i], includeCount)
  {
    if keys == [] then [] else [GroupInfoOf(endpoints, keys[0], includeCount)] + InfoAll(endpoints, keys[1..], includeCount)
  }

  /** `listApiGroups(docs, { includeCount = true })`. */
  function ListApiGroups(docs: CachedDocumentation, includeCount: Option<bool>): ListGroupsOutcome {
    var groups := InfoAll(docs.endpoints, docs.groups, includeCount.GetOr(true));
    ListGroupsOutcome(groups, |groups|)
  }

  /** One entry per key, in order: the key is the entry's name, the count is
      present exactly when counting is on (the default) and is then the
      number of endpoints whose group is that key. */
  lemma ListGroupsEntries(docs: CachedDocumentation, includeCount: Option<bool>, i: nat)
    requires i < |docs.groups|
    ensures var out := ListApiGroups(docs, includeCount);
            var g := out.groups[i];
            && |out.groups| == out.totalGroups == |docs.groups|
            && g.name == docs.groups[i]
            && (g.endpointCount.Some? <==> includeCount != Some(false))
            && (g.endpointCount.Some? ==>
                g.endpointCount.value == |GroupEndpoints(docs.endpoints, docs.groups[i])|)
  {
  }

  /** The endpoints counted for a key are exactly the endpoints of that
      group, in documentation order. */
  lemma GroupEndpointsMeaning(endpoints: seq<Endpoint>, key: String)
    ensures var members := GroupEndpoints(endpoints, key);
            && (forall i :: 0 <= i < |members| ==> members[i] in endpoints && members[i].group == key)
            && (forall e :: e in endpoints && e.group == key ==> e in members)
            && (members == [] <==> forall e :: e in endpoints ==> e.group != key)
  {
    var members := GroupEndpoints(endpoints, key);
    if members != [] {
      assert members[0].group == key;
    }
  }

  /** The title is the first endpoint's group title when that is not empty,
      and otherwise the key. */
  lemma GroupTitleFromFirst(endpoints: seq<Endpoint>, key: String, k: nat)
    requires k < |endpoints| && endpoints[k].group == key
    requires forall j :: 0 <= j < k ==> endpoints[j].group != key
    ensures GroupInfoOf(endpoints, key, true).title ==
            if endpoints[k].groupTitle != [] then endpoints[k].groupTitle else key
  {
    FilterHeadIsFirst(endpoints, InGroup(key));
    assert InGroup(key)(endpoints[k]);
    assert FindIndex(endpoints, InGroup(key)) == Some(k);
  }

  /** A key no endpoint belongs to is titled by itself and counted as zero. */
  lemma EmptyGroupEntry(endpoints: seq<Endpoint>, key: String)
    requires forall e :: e in endpoints ==> e.group != key
    ensures GroupInfoOf(endpoints, key, true) == GroupInfo(key, key, Some(0))
  {
    GroupEndpointsMeaning(endpoints, key);
  }
}
