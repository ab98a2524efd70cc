/**
 * Transfer objects: the outward projection of a stored record, the search request with
 * its boundary validation, and the shape of the upstream search response.
 */
module Dto {
  import opened Wrappers
  import opened JavaText
  import opened Entity

  /** What callers see of a stored repository: the data columns under their public names, no timestamps. */
  datatype RepositoryDto = RepositoryDto(
    id: Option<int>,
    name: Option<string>,
    description: Option<string>,
    owner: Option<string>,
    language: Option<string>,
    stars: Option<int>,
    forks: Option<int>,
    lastUpdated: Option<Instant>)

  /** The `RepositoryDto(Repository)` constructor. */
  function ToDto(r: Record): (d: RepositoryDto)
    ensures Unsaved(d.id, d.name, d.description, d.owner, d.language, d.stars, d.forks, d.lastUpdated)
         == r.(createdAt := None, updatedAt := None)
  {
    RepositoryDto(r.repositoryId, r.name, r.description, r.ownerName,
                  r.programmingLanguage, r.starsCount, r.forksCount, r.lastUpdatedDate)
  }

  /**
   * Two records project to the same transfer object exactly when they agree on the key and
   * the seven data columns: the timestamps are the only thing the projection forgets.
   */
  lemma ToDtoForgetsOnlyTimestamps(a: Record, b: Record)
    ensures ToDto(a) == ToDto(b) <==> a.repositoryId == b.repositoryId && SameData(a, b)
  {
  }

  /**
   * The projection inverts the eight-argument entity constructor: building an entity from
   * the fields of a transfer object and projecting it back gives that object again.
   */
  lemma ToDtoRoundTrip(d: RepositoryDto)
    ensures ToDto(Unsaved(d.id, d.name, d.description, d.owner, d.language, d.stars, d.forks, d.lastUpdated)) == d
  {
  }

  /** `stars`, the initial value of the request's sort field. */
  const DefaultSort := "stars"

  /** The body of a search request. */
  datatype GitHubSearchRequest = GitHubSearchRequest(
    query: Option<string>,
    language: Option<string>,
    sort: Option<string>)

  /** The no-argument constructor (used when the body is deserialised): only the sort has a value. */
  function EmptySearchRequest(): (r: GitHubSearchRequest)
    ensures r.query.None? && r.language.None? && r.sort == Some(DefaultSort)
  {
    GitHubSearchRequest(None, None, Some(DefaultSort))
  }

  /** The three-argument constructor: a null sort falls back to `stars`, anything else is kept verbatim. */
  function NewSearchRequest(query: Option<string>, language: Option<string>, sort: Option<string>): (r: GitHubSearchRequest)
    ensures r.query == query && r.language == language
    ensures r.sort.Some?
    ensures sort.Some? ==> r.sort == sort
    ensures sort.None? ==> r.sort == Some(DefaultSort)
  {
    GitHubSearchRequest(query, language, if sort.Some? then sort else Some(DefaultSort))
  }

  const QueryRequiredMessage := "Query is required"
  const SortPatternMessage := "Sort must be one of: stars, forks, updated"

  /** One failed field constraint of a request. */
  datatype Violation = Violation(field: string, message: string)

  /** `@NotBlank`: not null and not blank after trimming. */
  predicate QueryValid(query: Option<string>) {
    query.Some? && !IsBlank(query.value)
  }

  /** `@Pattern("^(stars|forks|updated)$")`: null passes, anything else must match one word exactly, case included. */
  predicate SortValid(sort: Option<string>) {
    sort.None? || sort.value == "stars" || sort.value == "forks" || sort.value == "updated"
  }

  /** A request the boundary accepts. */
  predicate IsValid(r: GitHubSearchRequest) {
    QueryValid(r.query) && SortValid(r.sort)
  }

  /** Bean validation of a request: every violated field constraint, all reported at once. */
  function Violations(r: GitHubSearchRequest): (v: seq<Violation>)
    ensures v == [] <==> IsValid(r)
    ensures |v| <= 2
    ensures Violation("query", QueryRequiredMessage) in v <==> !QueryValid(r.query)
    ensures Violation("sort", SortPatternMessage) in v <==> !SortValid(r.sort)
  {
    (if QueryValid(r.query) then [] else [Violation("query", QueryRequiredMessage)])
    + (if SortValid(r.sort) then [] else [Violation("sort", SortPatternMessage)])
  }

  /** A request built by the constructor with no sort passes the sort check. */
  lemma DefaultSortIsValid(query: Option<string>, language: Option<string>)
    ensures SortValid(NewSearchRequest(query, language, None).sort)
    ensures SortValid(EmptySearchRequest().sort)
  {
  }

  /** The owner object nested in an upstream item. */
  datatype Owner = Owner(login: Option<string>)

  /** One item of the upstream search response. */
  datatype GitHubRepository = GitHubRepository(
    id: Option<int>,
    name: Option<string>,
    description: Option<string>,
    language: Option<string>,
    stargazersCount: Option<int>,
    forksCount: Option<int>,
    updatedAt: Option<Instant>,
    owner: Option<Owner>)

  /** The upstream search response. */
  datatype GitHubApiResponse = GitHubApiResponse(
    totalCount: Option<int>,
    incompleteResults: Option<bool>,
    items: Option<seq<GitHubRepository>>)
}
