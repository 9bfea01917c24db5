/**
 * The shapes of the apidocjs documentation records (`src/types/apidoc.ts`):
 * one endpoint record, the project metadata, the cached snapshot and the
 * derived records the query operations return.  The TypeScript field `type`
 * (a reserved word here) is called `httpMethod`.
 */
module ApiDoc {
  import opened Base
  import opened Text

  datatype HttpMethod = GET | POST | PUT | DELETE | PATCH

  datatype Field = Field(
    group: String,
    fieldType: String,
    optional: bool,
    field: String,
    description: String,
    defaultValue: Option<String>,
    size: Option<String>,
    allowedValues: Option<seq<String>>)

  datatype Header = Header(
    group: String,
    headerType: String,
    optional: bool,
    field: String,
    description: String)

  datatype Permission = Permission(name: String, title: String)

  datatype SampleRequest = SampleRequest(url: String)

  /** One documented API operation (`ApiDocEndpoint`). */
  datatype Endpoint = Endpoint(
    group: String,
    version: String,
    httpMethod: HttpMethod,
    url: String,
    title: String,
    description: String,
    name: String,
    permission: Option<seq<Permission>>,
    parameter: Option<map<String, seq<Field>>>,
    success: Option<map<String, seq<Field>>>,
    error: Option<map<String, seq<Field>>>,
    header: Option<map<String, seq<Header>>>,
    filename: String,
    groupTitle: String,
    sampleRequest: Option<seq<SampleRequest>>)

  datatype Generator = Generator(name: String, time: String, url: String, version: String)

  /** Metadata about the documented API as a whole (`ApiDocProject`). */
  datatype Project = Project(
    name: String,
    version: String,
    description: String,
    title: String,
    url: String,
    sampleUrl: Option<String>,
    defaultVersion: String,
    apidoc: String,
    generator: Generator)

  /** The snapshot the cache holds (`CachedDocumentation`); `lastFetched` is in milliseconds. */
  datatype CachedDocumentation = CachedDocumentation(
    endpoints: seq<Endpoint>,
    project: Project,
    groups: seq<String>,
    lastFetched: int)

  datatype SearchResult = SearchResult(
    name: String,
    title: String,
    group: String,
    groupTitle: String,
    httpMethod: HttpMethod,
    url: String,
    description: String,
    matchedFields: seq<String>,
    relevanceScore: nat)

  datatype GroupInfo = GroupInfo(name: String, title: String, endpointCount: Option<nat>)

  datatype EndpointSummary = EndpointSummary(
    name: String,
    title: String,
    httpMethod: HttpMethod,
    url: String,
    description: String)

  /** The description length the search and group listings truncate to. */
  const SummaryDescriptionLength: int := 150
}
