/**
 * The route guard run before every page request: protected pages need a signed-in
 * user, and a signed-in user is sent away from the sign-in and sign-up pages. The
 * session cookie is abstracted to what decoding it gives: nothing, an exception, or the
 * `userId` it carries, if any.
 */
module Middleware {
  import opened Common

  const ProtectedRoutes: seq<string> := ["/user", "/home"]
  const PublicRoutes: seq<string> := ["/auth/signin", "/auth/signup", "/"]

  datatype Response = Next | Redirect(location: string)

  /** `session?.userId` is truthy: a session exists and its user id is not empty. */
  predicate SignedIn(userId: Option<string>) { userId.Some? && userId.value != "" }

  predicate StartsWith(s: string, prefix: string)
  {
    |prefix| <= |s| && s[..|prefix|] == prefix
  }

  /**
   * What `decrypt` makes of the session cookie: a missing or empty cookie gives `undefined`;
   * a cookie whose base64 text is not JSON makes `JSON.parse` throw; any other cookie is a
   * parsed value, of which only its `userId` matters.
   */
  datatype Session = NoCookie | Unparsable | Parsed(userId: Option<string>)

  /** A request's outcome: the guard's response, or the exception thrown while decoding. */
  datatype Outcome = Responded(response: Response) | Thrown

  /** `session?.userId`. */
  function UserIdOf(session: Session): Option<string>
  {
    if session.Parsed? then session.userId else None
  }

  /** `middleware(req)`: the cookie is decoded before the path is looked at. */
  function Guard(path: string, session: Session): Outcome
  {
    if session.Unparsable? then Thrown else Responded(Route(path, UserIdOf(session)))
  }

  /** The guard's decision for a request to `path` once the session has been decoded. */
  function Route(path: string, userId: Option<string>): (r: Response)
  {
    if path in ProtectedRoutes && !SignedIn(userId) then Redirect("/auth/signin")
    else if path in PublicRoutes && SignedIn(userId) && StartsWith(path, "/auth") then Redirect("/home")
    else Next
  }

  /** Only the two exact paths are protected; sub-paths such as "/home/x" are not. */
  lemma ProtectedExactly(path: string)
    ensures path in ProtectedRoutes <==> path == "/user" || path == "/home"
    ensures path in PublicRoutes <==> path == "/auth/signin" || path == "/auth/signup" || path == "/"
  {
  }

  /** Every redirect, with its target, and when it happens. */
  lemma RouteDecision(path: string, userId: Option<string>)
    ensures Route(path, userId) == Redirect("/auth/signin") <==>
      (path == "/user" || path == "/home") && !SignedIn(userId)
    ensures Route(path, userId) == Redirect("/home") <==>
      (path == "/auth/signin" || path == "/auth/signup") && SignedIn(userId)
    ensures Route(path, userId).Redirect? ==>
      Route(path, userId) == Redirect("/auth/signin") || Route(path, userId) == Redirect("/home")
  {
    var r := Route(path, userId);
    if path == "/auth/signin" || path == "/auth/signup" {
      assert StartsWith(path, "/auth");
    }
    if path == "/" {
      assert !StartsWith(path, "/auth");
    }
  }

  /**
   * A malformed cookie makes every request throw, whatever the path; any other cookie gets
   * a response.
   */
  lemma GuardThrows(path: string, session: Session)
    ensures Guard(path, session) == Thrown <==> session.Unparsable?
    ensures Guard(path, session) != Thrown ==> Guard(path, session).response.Redirect? ==>
      (path == "/user" || path == "/home" || path == "/auth/signin" || path == "/auth/signup")
  {
    if Guard(path, session) != Thrown {
      RouteDecision(path, UserIdOf(session));
    }
  }

  /**
   * The landing page is never redirected: it passes through for every session that
   * decodes, and a malformed cookie throws there as everywhere.
   */
  lemma RootNeverRedirects(session: Session)
    ensures Guard("/", session) == if session.Unparsable? then Thrown else Responded(Next)
  {
    assert !StartsWith("/", "/auth");
  }

  /**
   * Pages outside both lists pass through for every session that decodes; a malformed
   * cookie throws there too.
   */
  lemma UnlistedPassesThrough(path: string, session: Session)
    requires path !in ProtectedRoutes && path !in PublicRoutes
    ensures Guard(path, session) == if session.Unparsable? then Thrown else Responded(Next)
  {
  }

  /** A redirect never leads to another redirect for the same session. */
  lemma RedirectSettles(path: string, userId: Option<string>)
    requires Route(path, userId).Redirect?
    ensures Route(Route(path, userId).location, userId) == Next
  {
    RouteDecision(path, userId);
    var target := Route(path, userId).location;
    if target == "/auth/signin" {
      assert StartsWith(target, "/auth");
    } else {
      assert target == "/home";
      assert target in ProtectedRoutes;
    }
  }
}
