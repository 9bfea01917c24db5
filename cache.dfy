/**
 * The documentation cache (`src/cache/documentation-cache.ts`): a snapshot
 * of the documentation, kept for one hour, refreshed from two fetched
 * responses when it is missing or too old, and served stale when a refresh
 * fails. The clock and the fetch are parameters: `now` is the time the
 * freshness test reads, `fetchedAt` the time a successful refresh records,
 * and `outcome` what the two requests returned.
 */
module Cache {
  import opened Base
  import opened Text
  import opened ApiDoc
  import opened Sorting

  /** A fetched HTTP response: its `ok` flag, status text and parsed body. */
  datatype Response<T> = Response(ok: bool, statusText: String, body: T)

  /** What the two requests of a refresh return: either one of them rejects
      (a network failure or a body that does not parse), or both answer. */
  datatype FetchOutcome =
    | FetchFailed(reason: String)
    | Fetched(endpointsResponse: Response<seq<Endpoint>>, projectResponse: Response<Project>)

  /** One hour, in milliseconds. */
  const Ttl: int := 60 * 60 * 1000

  // ---------------------------------------------------------------------
  // extractGroups
  // ---------------------------------------------------------------------

  /** The contents of the `Set` the loop fills: each group key once, in the
      order of its first endpoint. */
  function SeenGroups(endpoints: seq<Endpoint>): seq<String> {
    if endpoints == [] then []
    else
      var rest := SeenGroups(endpoints[..|endpoints| - 1]);
      var g := endpoints[|endpoints| - 1].group;
      if g in rest then rest else rest + [g]
  }

  /** Some endpoint belongs to group `g`. */
  predicate HasGroup(endpoints: seq<Endpoint>, g: String) {
    exists k :: 0 <= k < |endpoints| && endpoints[k].group == g
  }

  /** The group keys, sorted. */
  function Groups(endpoints: seq<Endpoint>): seq<String> {
    SortStrings(SeenGroups(endpoints))
  }

  /** `extractGroups`: add every endpoint's group to a set, then sort. */
  method ExtractGroups(endpoints: seq<Endpoint>) returns (groups: seq<String>)
    ensures groups == Groups(endpoints)
  {
    var groupSet: seq<String> := [];
    for i := 0 to |endpoints|
      invariant groupSet == SeenGroups(endpoints[..i])
    {
      assert endpoints[..i + 1][..i] == endpoints[..i];
      if endpoints[i].group !in groupSet {
        groupSet := groupSet + [endpoints[i].group];
      }
    }
    assert endpoints[..|endpoints|] == endpoints;
    groups := SortStrings(groupSet);
  }

  /** The set holds every group key exactly once. */
  lemma {:induction false} SeenGroupsMeaning(endpoints: seq<Endpoint>)
    ensures Distinct(SeenGroups(endpoints))
    ensures forall g :: g in SeenGroups(endpoints) <==> HasGroup(endpoints, g)
    decreases |endpoints|
  {
    if endpoints != [] {
      var init := endpoints[..|endpoints| - 1];
      SeenGroupsMeaning(init);
      forall k | 0 <= k < |init| ensures init[k] == endpoints[k] {
      }
    }
  }

  /** The groups are strictly increasing, so free of duplicates, and they
      are exactly the endpoints' group keys; no endpoints means no groups. */
  lemma GroupsSpec(endpoints: seq<Endpoint>)
    ensures StrictlyIncreasing(Groups(endpoints))
    ensures forall g :: g in Groups(endpoints) <==> HasGroup(endpoints, g)
    ensures endpoints == [] ==> Groups(endpoints) == []
  {
    SeenGroupsMeaning(endpoints);
    SortStringsSpec(SeenGroups(endpoints));
    forall g ensures g in Groups(endpoints) <==> g in SeenGroups(endpoints) {
      assert g in multiset(Groups(endpoints)) <==> g in multiset(SeenGroups(endpoints));
    }
  }

  /** The groups depend only on which keys occur: reordering or repeating
      endpoints does not change them. */
  lemma GroupsDependOnKeysOnly(a: seq<Endpoint>, b: seq<Endpoint>)
    requires forall g :: HasGroup(a, g) <==> HasGroup(b, g)
    ensures Groups(a) == Groups(b)
  {
    GroupsSpec(a);
    GroupsSpec(b);
    StrictlyIncreasingUnique(Groups(a), Groups(b));
  }

  // ---------------------------------------------------------------------
  // the cache's behaviour, on values
  // ---------------------------------------------------------------------

  /** `isCacheValid`: a snapshot exists and is less than an hour old. */
  predicate Fresh(cache: Option<CachedDocumentation>, now: int) {
    cache.Some? && now - cache.value.lastFetched < Ttl
  }

  /** What `refreshCache` installs, or the message of the error it throws. */
  function Refreshed(outcome: FetchOutcome, fetchedAt: int): Result<CachedDocumentation> {
    match outcome
    case FetchFailed(reason) => Err(reason)
    case Fetched(endpointsResponse, projectResponse) =>
      if !endpointsResponse.ok then Err("Failed to fetch API data: " + endpointsResponse.statusText)
      else if !projectResponse.ok then Err("Failed to fetch project data: " + projectResponse.statusText)
      else
        var endpoints := endpointsResponse.body;
        Ok(CachedDocumentation(endpoints, projectResponse.body, Groups(endpoints), fetchedAt))
  }

  /** What `getDocumentation` returns (or the error it throws) for a cache
      state, on a sequential call. */
  function Served(cache: Option<CachedDocumentation>, now: int, fetchedAt: int, outcome: FetchOutcome): Result<CachedDocumentation> {
    if Fresh(cache, now) then Ok(cache.value)
    else match Refreshed(outcome, fetchedAt)
      case Ok(docs) => Ok(docs)
      case Err(message) => if cache.Some? then Ok(cache.value) else Err(message)
  }

  /** The cache state after that call. */
  function Next(cache: Option<CachedDocumentation>, now: int, fetchedAt: int, outcome: FetchOutcome): Option<CachedDocumentation> {
    if Fresh(cache, now) then cache
    else match Refreshed(outcome, fetchedAt)
      case Ok(docs) => Some(docs)
      case Err(_) => cache
  }

  /** A refresh succeeds exactly when both requests answered with `ok`; it
      then records both bodies, their sorted distinct group keys and the
      fetch time, and otherwise reports which request failed. */
  lemma RefreshedMeaning(outcome: FetchOutcome, fetchedAt: int)
    ensures var r := Refreshed(outcome, fetchedAt);
            && (r.Ok? <==> outcome.Fetched? && outcome.endpointsResponse.ok && outcome.projectResponse.ok)
            && (r.Ok? ==>
                  && r.value.endpoints == outcome.endpointsResponse.body
                  && r.value.project == outcome.projectResponse.body
                  && r.value.lastFetched == fetchedAt
                  && StrictlyIncreasing(r.value.groups)
                  && forall g :: g in r.value.groups <==> HasGroup(r.value.endpoints, g))
            && (outcome.Fetched? && !outcome.endpointsResponse.ok ==>
                  r == Err("Failed to fetch API data: " + outcome.endpointsResponse.statusText))
            && (outcome.Fetched? && outcome.endpointsResponse.ok && !outcome.projectResponse.ok ==>
                  r == Err("Failed to fetch project data: " + outcome.projectResponse.statusText))
  {
    if outcome.Fetched? {
      GroupsSpec(outcome.endpointsResponse.body);
    }
  }

  /** A snapshot less than an hour old is served as it is and nothing is
      fetched. */
  lemma FreshServedUnchanged(cache: Option<CachedDocumentation>, now: int, fetchedAt: int, outcome: FetchOutcome)
    requires cache.Some? && now - cache.value.lastFetched < Ttl
    ensures Served(cache, now, fetchedAt, outcome) == Ok(cache.value)
    ensures Next(cache, now, fetchedAt, outcome) == cache
  {
  }

  /** When a refresh fails, an existing snapshot, however old, is served and
      kept; with no snapshot the refresh's error is thrown. Nothing else
      throws. */
  lemma FailureFallsBack(cache: Option<CachedDocumentation>, now: int, fetchedAt: int, outcome: FetchOutcome)
    ensures var r := Served(cache, now, fetchedAt, outcome);
            && (r.Err? <==> !Fresh(cache, now) && Refreshed(outcome, fetchedAt).Err? && cache.None?)
            && (r.Err? ==> r.error == Refreshed(outcome, fetchedAt).error)
            && (Refreshed(outcome, fetchedAt).Err? && cache.Some? ==>
                  r == Ok(cache.value) && Next(cache, now, fetchedAt, outcome) == cache)
  {
  }

  /** A stale or missing snapshot is replaced, all at once, by a successful
      refresh, and the new snapshot is what is served. */
  lemma RefreshInstalls(cache: Option<CachedDocumentation>, now: int, fetchedAt: int, outcome: FetchOutcome)
    requires !Fresh(cache, now)
    requires outcome.Fetched? && outcome.endpointsResponse.ok && outcome.projectResponse.ok
    ensures var docs := CachedDocumentation(outcome.endpointsResponse.body, outcome.projectResponse.body,
                                            Groups(outcome.endpointsResponse.body), fetchedAt);
            && Next(cache, now, fetchedAt, outcome) == Some(docs)
            && Served(cache, now, fetchedAt, outcome) == Ok(docs)
  {
  }

  /** Whatever is served is the snapshot the cache holds afterwards. */
  lemma ServedIsCached(cache: Option<CachedDocumentation>, now: int, fetchedAt: int, outcome: FetchOutcome)
    ensures var r := Served(cache, now, fetchedAt, outcome);
            r.Ok? ==> Next(cache, now, fetchedAt, outcome) == Some(r.value)
  {
  }

  /** A snapshot the cache has just installed is fresh for any check made
      less than an hour after its fetch time. */
  lemma InstalledIsFresh(cache: Option<CachedDocumentation>, now: int, fetchedAt: int, outcome: FetchOutcome, later: int)
    requires Refreshed(outcome, fetchedAt).Ok? && !Fresh(cache, now)
    requires later - fetchedAt < Ttl
    ensures Fresh(Next(cache, now, fetchedAt, outcome), later)
  {
  }

  // ---------------------------------------------------------------------
  // the class
  // ---------------------------------------------------------------------

  class DocumentationCache {
    /** The snapshot, or `null`. */
    var cache: Option<CachedDocumentation>
    /** Whether `fetchPromise` is set: a refresh started by
        `getDocumentation` has not settled yet. */
    var fetchInFlight: bool

    /** Between calls no refresh is in flight. */
    predicate Valid()
      reads this
    {
      !fetchInFlight
    }

    constructor()
      ensures Valid() && cache == None
    {
      cache := None;
      fetchInFlight := false;
    }

    /** `isCacheValid`, at time `now`. */
    method IsCacheValid(now: int) returns (valid: bool)
      ensures valid <==> Fresh(cache, now)
    {
      if cache.None? {
        return false;
      }
      var age := now - cache.value.lastFetched;
      valid := age < Ttl;
    }

    /** `refreshCache`: on success the new snapshot replaces the old one in a
        single assignment; on failure the cache is untouched and the error's
        message is returned. */
    method RefreshCache(fetchedAt: int, outcome: FetchOutcome) returns (failure: Option<String>)
      modifies this
      ensures match Refreshed(outcome, fetchedAt)
              case Ok(docs) => failure == None && cache == Some(docs)
              case Err(message) => failure == Some(message) && cache == old(cache)
      ensures fetchInFlight == old(fetchInFlight)
    {
      match outcome
      case FetchFailed(reason) =>
        return Some(reason);
      case Fetched(endpointsResponse, projectResponse) =>
        if !endpointsResponse.ok {
          return Some("Failed to fetch API data: " + endpointsResponse.statusText);
        }
        if !projectResponse.ok {
          return Some("Failed to fetch project data: " + projectResponse.statusText);
        }
        var endpoints := endpointsResponse.body;
        var project := projectResponse.body;
        var groups := ExtractGroups(endpoints);
        cache := Some(CachedDocumentation(endpoints, project, groups, fetchedAt));
        failure := None;
    }

    /** `getDocumentation` on a sequential call: serve a fresh snapshot,
        otherwise refresh, falling back on the stale snapshot when the refresh
        fails; the in-flight marker is clear again when it returns. */
    method GetDocumentation(now: int, fetchedAt: int, outcome: FetchOutcome) returns (r: Result<CachedDocumentation>)
      requires Valid()
      modifies this
      ensures Valid()
      ensures r == Served(old(cache), now, fetchedAt, outcome)
      ensures cache == Next(old(cache), now, fetchedAt, outcome)
    {
      var valid := IsCacheValid(now);
      if cache.Some? && valid {
        return Ok(cache.value);
      }
      fetchInFlight := true;
      var failure := RefreshCache(fetchedAt, outcome);
      if failure.None? {
        r := Ok(cache.value);
      } else if cache.Some? {
        r := Ok(cache.value);
      } else {
        r := Err(failure.value);
      }
      fetchInFlight := false;
    }
  }
}
