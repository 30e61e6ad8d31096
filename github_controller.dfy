/** The `/repos` route: the `githubauthtoken` header check in front of the
    GitHub API call, which is an input. */
module GithubController {
  import opened Wrappers
  import AuthMiddleware

  /** A request header as Express hands it over. */
  datatype Header = Missing | Single(value: string) | Repeated(values: seq<string>)

  datatype Reply<R> = Unauthorized | RepoList(repos: R) | InternalError

  /** The route for header `raw`, with `listRepos` standing for the Octokit
      call made with the token (None when it throws). */
  function ListRepos<R>(raw: Header, listRepos: string -> Option<R>): (r: Reply<R>)
    ensures (raw.Missing? || raw.Repeated? || raw == Single("")) ==> r == Unauthorized
    ensures raw.Single? && AuthMiddleware.ParseBearer(raw.value).None? ==> r == Unauthorized
    ensures r.RepoList? <==>
      (&& raw.Single? && AuthMiddleware.ParseBearer(raw.value).Some?
       && listRepos(AuthMiddleware.ParseBearer(raw.value).value).Some?)
    ensures r.RepoList? ==> r.repos == listRepos(AuthMiddleware.ParseBearer(raw.value).value).value
    ensures r == InternalError ==>
      (raw.Single? && AuthMiddleware.ParseBearer(raw.value).Some? && listRepos(AuthMiddleware.ParseBearer(raw.value).value).None?)
  {
    if !raw.Single? || raw.value == "" then Unauthorized
    else
      match AuthMiddleware.ParseBearer(raw.value)
      case None => Unauthorized
      case Some(token) =>
        match listRepos(token)
        case Some(repos) => RepoList(repos)
        case None => InternalError
  }

  /** The GitHub call sees exactly the token after "Bearer ": a header with
      a space-free token passes that token on. */
  lemma TokenPassedOn<R>(token: string, listRepos: string -> Option<R>)
    requires ' ' !in token && listRepos(token).Some?
    ensures ListRepos(Single("Bearer " + token), listRepos) == RepoList(listRepos(token).value)
  {
    AuthMiddleware.BearerTokenAccepted(token);
  }

  /** Whatever the GitHub call would answer, a malformed header never reaches it. */
  lemma MalformedHeaderNeverCallsOut<R>(raw: string, a: string -> Option<R>, b: string -> Option<R>)
    requires AuthMiddleware.ParseBearer(raw).None?
    ensures ListRepos(Single(raw), a) == ListRepos(Single(raw), b) == Unauthorized
  {
  }
}
