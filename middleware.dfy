/// The route guard that runs before matching requests: signed-in users are sent
/// from the sign-in and home pages to the courts, anonymous users from the
/// courts to the sign-in page. The session is a boolean: whether the auth
/// client found one in the request's cookies.
module Middleware {

  predicate StartsWith(s: string, prefix: string) {
    |prefix| <= |s| && s[..|prefix|] == prefix
  }

  datatype Decision = PassThrough | Redirect(target: string)

  /** The decision of `middleware` for a request to `pathname`. */
  function Decide(hasSession: bool, pathname: string): (d: Decision)
    ensures d == Redirect("/courts") <==> hasSession && (pathname == "/login" || pathname == "/")
    ensures d == Redirect("/login") <==> !hasSession && StartsWith(pathname, "/courts")
    ensures d.PassThrough? <==> !(hasSession && (pathname == "/login" || pathname == "/"))
                                && !(!hasSession && StartsWith(pathname, "/courts"))
  {
    if hasSession && (pathname == "/login" || pathname == "/") then Redirect("/courts")
    else if !hasSession && StartsWith(pathname, "/courts") then Redirect("/login")
    else PassThrough
  }

  /** `config.matcher`: '/', '/login' and '/courts/:path*', the last one matching
      '/courts' itself and every path below it. */
  predicate Matched(pathname: string)
    ensures Matched(pathname) && StartsWith(pathname, "/courts") ==> pathname == "/courts" || StartsWith(pathname, "/courts/")
    ensures Matched(pathname) ==> pathname == "/" || pathname == "/login" || StartsWith(pathname, "/courts")
  {
    pathname == "/" || pathname == "/login" || pathname == "/courts" || StartsWith(pathname, "/courts/")
  }

  /** What a request meets: the middleware's decision on matched paths, nothing otherwise. */
  function Route(hasSession: bool, pathname: string): (d: Decision)
    ensures !Matched(pathname) ==> d.PassThrough?
    ensures Matched(pathname) ==> d == Decide(hasSession, pathname)
  {
    if Matched(pathname) then Decide(hasSession, pathname) else PassThrough
  }

  /** The two redirect rules never both apply: one needs a session, the other its absence. */
  lemma RulesExclusive(hasSession: bool, pathname: string)
    ensures !((hasSession && (pathname == "/login" || pathname == "/"))
              && (!hasSession && StartsWith(pathname, "/courts")))
  {
  }

  /** A redirect's target is let through under the same session: no redirect loop. */
  lemma NoRedirectLoop(hasSession: bool, pathname: string)
    requires Route(hasSession, pathname).Redirect?
    ensures Route(hasSession, Route(hasSession, pathname).target).PassThrough?
    ensures Decide(hasSession, Route(hasSession, pathname).target).PassThrough?
  {
    var t := Route(hasSession, pathname).target;
    if !hasSession {
      assert t == "/login";
      assert !StartsWith(t, "/courts") by { assert |t| < |"/courts"|; }
    } else {
      assert t == "/courts";
    }
  }

  /** Every matched path below '/courts' sends an anonymous user to the sign-in page,
      and the sign-in and home pages send a signed-in user to the courts. */
  lemma GuardedPaths(pathname: string)
    requires pathname == "/courts" || StartsWith(pathname, "/courts/")
    ensures Route(false, pathname) == Redirect("/login")
    ensures Route(true, "/login") == Redirect("/courts") && Route(true, "/") == Redirect("/courts")
  {
    if pathname != "/courts" {
      assert pathname[..7] == pathname[..8][..7];
    }
  }

  /** The middleware's own rule would also catch '/courtside', but the matcher does
      not send that path to it. */
  lemma MatcherNarrowsTheRule()
    ensures Decide(false, "/courtside") == Redirect("/login")
    ensures Route(false, "/courtside") == PassThrough
  {
    assert "/courtside"[..7] == "/courts";
    assert "/courtside"[..8] != "/courts/" by { assert "/courtside"[7] != '/'; }
  }
}
