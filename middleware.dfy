/**
 * The route guard that runs before every page: public paths pass, any other
 * path needs a `token` cookie that verifies against the signing secret, and
 * everything else is sent back to the start page.
 */
module Middleware {
  import opened Wrappers
  import opened JsBuiltins

  /** `s.startsWith(prefix)` */
  predicate StartsWith(s: string, prefix: string)
  {
    prefix <= s
  }

  /** Paths served to everybody: the API, the start and login pages, the
      framework's assets and the site icon. */
  predicate IsPublic(path: string)
  {
    StartsWith(path, "/api") || path == "/" || path == "/login" ||
    StartsWith(path, "/_next") || path == "/favicon.ico"
  }

  datatype Decision = Next | Redirect(location: string)

  /** Where a visitor without a valid token is sent. */
  const StartPage := "/"

  /** The secret used when `JWT_SECRET` is unset or empty. */
  const DevSecret := "dev-secret"

  /** `middleware(req)`. The cookie is `None` when absent; `verifies(token,
      secret)` stands for `jwtVerify` resolving rather than throwing. */
  function Guard(path: string, token: Option<string>, jwtSecret: Option<string>,
                 verifies: (string, string) -> bool): (d: Decision)
    ensures d == Next || d == Redirect(StartPage)
    ensures IsPublic(path) ==> d == Next
    ensures !IsPublic(path) && (token.None? || token.value == "") ==> d == Redirect(StartPage)
    ensures !IsPublic(path) && token.Some? && token.value != "" ==>
      (d == Next <==> verifies(token.value, OrDefault(jwtSecret, DevSecret)))
  {
    if IsPublic(path) then Next
    else if token.None? || token.value == "" then Redirect(StartPage)
    else if verifies(token.value, OrDefault(jwtSecret, DevSecret)) then Next
    else Redirect(StartPage)
  }

  /** A private page is only ever reached with a token that verifies. */
  lemma PrivatePageNeedsValidToken(path: string, token: Option<string>, jwtSecret: Option<string>,
                                   verifies: (string, string) -> bool)
    requires !IsPublic(path)
    ensures Guard(path, token, jwtSecret, verifies) == Next <==>
      token.Some? && token.value != "" && verifies(token.value, OrDefault(jwtSecret, DevSecret))
  {
  }

  /** The redirect target is itself public, so a redirect never loops. */
  lemma RedirectTargetPasses(token: Option<string>, jwtSecret: Option<string>, verifies: (string, string) -> bool)
    ensures Guard(StartPage, token, jwtSecret, verifies) == Next
  {
  }

  /** On a public path neither the cookie nor the secret is looked at. */
  lemma PublicIgnoresToken(path: string, t1: Option<string>, s1: Option<string>, t2: Option<string>, s2: Option<string>,
                           verifies: (string, string) -> bool)
    requires IsPublic(path)
    ensures Guard(path, t1, s1, verifies) == Guard(path, t2, s2, verifies)
  {
  }

  /** Every path below `/api` is public, whatever follows the prefix. */
  lemma ApiRoutesArePublic(rest: string)
    ensures IsPublic("/api" + rest)
  {
    assert "/api" <= "/api" + rest;
  }

  /** The pages behind the guard: the dashboard and the saved mark-sheets. */
  lemma DashboardIsGuarded()
    ensures !IsPublic("/dashboard") && !IsPublic("/marksheets")
  {
    assert "/dashboard"[1] != "/api"[1] && "/dashboard"[1] != "/_next"[1];
    assert "/marksheets"[1] != "/api"[1] && "/marksheets"[1] != "/_next"[1];
  }

  /** An unset and an empty `JWT_SECRET` both fall back to the development secret. */
  lemma UnsetSecretFallsBack(path: string, token: Option<string>, verifies: (string, string) -> bool)
    ensures Guard(path, token, None, verifies) == Guard(path, token, Some(""), verifies)
  {
  }
}
