/**
 * The upstream search client without its transport: composing the query string and the
 * fixed request parameters, and translating the upstream outcome into either a response
 * or a `GitHubApiException`.
 */
module GitHubApi {
  import opened Wrappers
  import opened JavaText
  import opened Dto

  const LanguageQualifier := " language:"
  const SearchPath := "/search/repositories"
  const SortOrder := "desc"
  const PageSize := 30

  const RateLimitMessage := "GitHub API rate limit exceeded. Please try again later."
  const InvalidQueryMessage := "Invalid search query. Please check your request parameters."
  const UnavailableMessage := "GitHub API is currently unavailable. Please try again later."
  const NoResponseMessage := "No response received from GitHub API"
  /** Prefix added by the handler for status exceptions the client library raises itself. */
  const RequestFailedPrefix := "GitHub API request failed: "
  /** Prefix added by the catch-all handler, which also catches the service's own exceptions. */
  const FailedPrefix := "Failed to search repositories: "
  /**
   * Stands for the text of the `NullPointerException` a null query raises in the
   * `StringBuilder` constructor; the JVM's exact wording is not modelled.
   */
  const NullQueryDetail := "query is null"

  /** The only exception type the client lets escape. */
  datatype GitHubApiException = GitHubApiException(message: string)

  /** The query parameters of the one upstream call. */
  datatype SearchParams = SearchParams(path: string, q: string, sort: Option<string>, order: string, perPage: int)

  /**
   * What the transport produced. `Answered` carries the status, the decoded body (absent when
   * there is none) and the text the client library gives a status exception; `NoAnswer` is a
   * timeout or transport failure with its exception text.
   */
  datatype HttpOutcome =
    | Answered(status: int, body: Option<GitHubApiResponse>, statusText: string)
    | NoAnswer(text: string)

  /**
   * The upstream query string: the term, followed by ` language:` and the trimmed language
   * when a non-blank language is given. A null term has no query string (the builder throws).
   */
  function QueryString(request: GitHubSearchRequest): (q: Option<string>)
  {
    if request.query.None? then None
    else if IsNullOrBlank(request.language) then Some(request.query.value)
    else Some(request.query.value + LanguageQualifier + Trim(request.language.value))
  }

  /** `buildQueryString`: appends the language qualifier to a buffer that starts as the term. */
  method BuildQueryString(request: GitHubSearchRequest) returns (q: Option<string>)
    ensures q == QueryString(request)
  {
    if request.query.None? {
      return None;
    }
    var buffer := request.query.value;
    if request.language.Some? && !IsBlank(request.language.value) {
      buffer := buffer + LanguageQualifier;
      buffer := buffer + Trim(request.language.value);
    }
    return Some(buffer);
  }

  /**
   * The query string always begins with the untrimmed term. Without a usable language it is the
   * term itself; with one, what follows the term is the qualifier and a language value that is
   * non-empty and neither starts nor ends with a trimmable character.
   */
  lemma QueryStringShape(request: GitHubSearchRequest)
    ensures QueryString(request).Some? <==> request.query.Some?
    ensures request.query.Some? ==> var q := QueryString(request).value; var term := request.query.value;
      && |term| <= |q| && q[..|term|] == term
      && (IsNullOrBlank(request.language) ==> q == term)
      && (!IsNullOrBlank(request.language) ==>
            var rest := q[|term|..];
            && rest[..|LanguageQualifier|] == LanguageQualifier
            && var value := rest[|LanguageQualifier|..];
            && value == Trim(request.language.value)
            && value != []
            && !IsTrimmable(value[0]) && !IsTrimmable(value[|value| - 1]))
  {
    if request.query.Some? && !IsNullOrBlank(request.language) {
      var q := QueryString(request).value;
      var term := request.query.value;
      assert q[|term|..] == LanguageQualifier + Trim(request.language.value);
    }
  }

  /** The parameters of the upstream call: fixed path, order and page size; the sort is passed through. */
  function UpstreamParams(request: GitHubSearchRequest): (p: Option<SearchParams>)
    ensures p.Some? <==> request.query.Some?
    ensures p.Some? ==> p.value.q == QueryString(request).value && p.value.sort == request.sort
    ensures p.Some? ==> p.value.path == SearchPath && p.value.order == SortOrder && p.value.perPage == PageSize
  {
    match QueryString(request)
    case None => None
    case Some(q) => Some(SearchParams(SearchPath, q, request.sort, SortOrder, PageSize))
  }

  /** HTTP 5xx. */
  predicate IsServerError(status: int) {
    500 <= status <= 599
  }

  /** HTTP 4xx or 5xx: the statuses the client library turns into an exception unless a handler claims them. */
  predicate IsError(status: int) {
    400 <= status <= 599
  }

  /**
   * `searchRepositories`. The status handlers raise a `GitHubApiException` for 403, 422 and 5xx,
   * and the null-body check raises one too; all of these happen inside the `try`, so the catch-all
   * wraps them once more. Any other 4xx is a library status exception, wrapped by its own handler.
   */
  function SearchRepositories(request: GitHubSearchRequest, outcome: HttpOutcome): (r: Result<GitHubApiResponse, GitHubApiException>)
    ensures r.Success? ==> request.query.Some? && outcome.Answered? && outcome.body == Some(r.value)
    ensures r.Success? ==> !IsError(outcome.status)
  {
    match QueryString(request)
    case None => Failure(GitHubApiException(FailedPrefix + NullQueryDetail))
    case Some(_) =>
      match outcome
      case NoAnswer(text) => Failure(GitHubApiException(FailedPrefix + text))
      case Answered(status, body, statusText) =>
        if status == 403 then Failure(GitHubApiException(FailedPrefix + RateLimitMessage))
        else if status == 422 then Failure(GitHubApiException(FailedPrefix + InvalidQueryMessage))
        else if IsServerError(status) then Failure(GitHubApiException(FailedPrefix + UnavailableMessage))
        else if IsError(status) then Failure(GitHubApiException(RequestFailedPrefix + statusText))
        else if body.None? then Failure(GitHubApiException(FailedPrefix + NoResponseMessage))
        else Success(body.value)
  }

  /** True when `t` ends with `s`. */
  predicate EndsWith(t: string, s: string) {
    |s| <= |t| && t[|t| - |s|..] == s
  }

  /**
   * The failure classification: a response comes back only for a non-null term, a non-error
   * status and a present body; 403, 422 and 5xx carry their fixed texts; a missing body is a failure.
   */
  lemma ClassifiesOutcome(request: GitHubSearchRequest, outcome: HttpOutcome)
    ensures var r := SearchRepositories(request, outcome);
      && (r.Success? <==> request.query.Some? && outcome.Answered? && !IsError(outcome.status) && outcome.body.Some?)
      && (r.Success? ==> r.value == outcome.body.value)
      && (request.query.Some? && outcome.Answered? ==>
            && (outcome.status == 403 ==> EndsWith(r.error.message, RateLimitMessage))
            && (outcome.status == 422 ==> EndsWith(r.error.message, InvalidQueryMessage))
            && (IsServerError(outcome.status) ==> EndsWith(r.error.message, UnavailableMessage))
            && (!IsError(outcome.status) && outcome.body.None? ==> EndsWith(r.error.message, NoResponseMessage)))
  {
  }

  /**
   * Every failure message starts with one of the two handler prefixes: nothing escapes
   * unwrapped, and the classified failures are wrapped by the catch-all.
   */
  lemma FailuresAreWrapped(request: GitHubSearchRequest, outcome: HttpOutcome)
    ensures var r := SearchRepositories(request, outcome);
      r.Failure? ==>
        || (|FailedPrefix| <= |r.error.message| && r.error.message[..|FailedPrefix|] == FailedPrefix)
        || (|RequestFailedPrefix| <= |r.error.message| && r.error.message[..|RequestFailedPrefix|] == RequestFailedPrefix)
    ensures var r := SearchRepositories(request, outcome);
      request.query.Some? && outcome.Answered? && (outcome.status == 403 || outcome.status == 422 || IsServerError(outcome.status)) ==>
        r.Failure? && |FailedPrefix| <= |r.error.message| && r.error.message[..|FailedPrefix|] == FailedPrefix
  {
  }
}
