/**
 * The Next.js middleware that guards navigation: an authenticated visitor is
 * sent away from the login and signup pages, an anonymous one away from the
 * protected pages, and every other request passes through.
 */
module RouteGuard {

  /** The cookie whose presence marks a session. */
  const AccessTokenCookie: string := "accessToken"
  const LoginPath: string := "/login"
  const SignupPath: string := "/signup"
  const DashboardPath: string := "/dashboard"

  /** The pages that need a session, each with everything below it. */
  const ProtectedRoutes: seq<string> := ["/", "/dashboard", "/categories", "/menus", "/orders"]

  /** What the middleware sees of a navigation: its path and its cookies by name. */
  datatype NavRequest = NavRequest(pathname: string, cookies: map<string, string>)

  /** `NextResponse.next()`, or a redirect to a path on the same origin. */
  datatype Decision = Allow | Redirect(target: string)

  /** `request.cookies.get('accessToken')` is truthy: the cookie exists, whatever its value. */
  predicate HasAccessToken(request: NavRequest) {
    AccessTokenCookie in request.cookies
  }

  /** `isAuthPage`: a bare prefix test, with no segment boundary. */
  predicate IsAuthPage(path: string): (b: bool)
    ensures b ==> |path| >= |LoginPath| && path[0] == '/' && (path[1] == 'l' || path[1] == 's')
  {
    CharOfPrefix(LoginPath, path, 0);
    CharOfPrefix(LoginPath, path, 1);
    CharOfPrefix(SignupPath, path, 0);
    CharOfPrefix(SignupPath, path, 1);
    LoginPath <= path || SignupPath <= path
  }

  /** One route of the protected list matches: the path is the route or lies below it. */
  predicate RouteMatches(route: string, path: string): (b: bool)
    ensures b ==> route <= path && (|path| > |route| ==> path[|route|] == '/')
  {
    CharOfPrefix(route + "/", path, |route|);
    assert route + "/" <= path ==> path[..|route|] == (route + "/")[..|route|] == route;
    path == route || route + "/" <= path
  }

  /** `routes.some(...)`, scanning the list from its first entry. */
  predicate AnyRouteMatches(routes: seq<string>, path: string): (b: bool)
    ensures b ==> exists i :: 0 <= i < |routes| && RouteMatches(routes[i], path)
    decreases |routes|
  {
    |routes| > 0 && (RouteMatches(routes[0], path) || AnyRouteMatches(routes[1..], path))
  }

  /** `isProtectedRoute`. */
  predicate IsProtectedRoute(path: string): (b: bool)
    ensures b ==> |path| >= 1 && path[0] == '/'
  {
    assert forall i :: 0 <= i < |ProtectedRoutes| ==> |ProtectedRoutes[i]| >= 1 && ProtectedRoutes[i][0] == '/';
    AnyRouteMatches(ProtectedRoutes, path)
  }

  /** The middleware: the two redirect rules in their fixed order, then pass-through. */
  function Middleware(request: NavRequest): (d: Decision)
    ensures d.Redirect? ==> d.target == DashboardPath || d.target == LoginPath
  {
    var hasToken := HasAccessToken(request);
    if IsAuthPage(request.pathname) && hasToken then Redirect(DashboardPath)
    else if IsProtectedRoute(request.pathname) && !hasToken then Redirect(LoginPath)
    else Allow
  }

  /** The scan of `some` finds a match exactly when some listed route matches. */
  lemma {:induction false} AnyRouteMatchesSpec(routes: seq<string>, path: string)
    ensures AnyRouteMatches(routes, path) <==> exists i :: 0 <= i < |routes| && RouteMatches(routes[i], path)
    decreases |routes|
  {
    if |routes| > 0 {
      AnyRouteMatchesSpec(routes[1..], path);
      if AnyRouteMatches(routes[1..], path) {
        var i :| 0 <= i < |routes[1..]| && RouteMatches(routes[1..][i], path);
        assert RouteMatches(routes[i + 1], path);
      }
      if exists i :: 0 <= i < |routes| && RouteMatches(routes[i], path) {
        var i :| 0 <= i < |routes| && RouteMatches(routes[i], path);
        if i > 0 {
          assert RouteMatches(routes[1..][i - 1], path);
        }
      }
    }
  }

  /** The protected pages written out, independently of the list: the root itself
      and every path starting `//`, and each admin page with everything below it. */
  predicate ProtectedPage(path: string) {
    path == "/" || "//" <= path
    || path == "/dashboard" || "/dashboard/" <= path
    || path == "/categories" || "/categories/" <= path
    || path == "/menus" || "/menus/" <= path
    || path == "/orders" || "/orders/" <= path
  }

  /** `isProtectedRoute` protects exactly the pages written out above. */
  lemma IsProtectedRouteSpec(path: string)
    ensures IsProtectedRoute(path) <==> ProtectedPage(path)
  {
    AnyRouteMatchesSpec(ProtectedRoutes, path);
    if ProtectedPage(path) {
      var i := if path == "/" || "//" <= path then 0
        else if path == "/dashboard" || "/dashboard/" <= path then 1
        else if path == "/categories" || "/categories/" <= path then 2
        else if path == "/menus" || "/menus/" <= path then 3
        else 4;
      assert RouteMatches(ProtectedRoutes[i], path);
    }
  }

  /** A path that starts with `prefix` agrees with it character by character. */
  lemma CharOfPrefix(prefix: string, path: string, k: nat)
    requires k < |prefix|
    ensures prefix <= path ==> path[k] == prefix[k]
  {
    if prefix <= path {
      assert path[..|prefix|] == prefix;
    }
  }

  /** Every protected path is the root or has `/`, `d`, `c`, `m` or `o` as its
      second character. */
  lemma ProtectedSecondChar(path: string)
    ensures IsProtectedRoute(path) ==> path == "/" || (|path| >= 2 && path[1] in "/dcmo")
  {
    IsProtectedRouteSpec(path);
    CharOfPrefix("//", path, 1);
    CharOfPrefix("/dashboard/", path, 1);
    CharOfPrefix("/categories/", path, 1);
    CharOfPrefix("/menus/", path, 1);
    CharOfPrefix("/orders/", path, 1);
  }

  /** No path is both an auth page and a protected page: they differ in their
      second character. */
  lemma AuthAndProtectedDisjoint(path: string)
    ensures !(IsAuthPage(path) && IsProtectedRoute(path))
  {
    CharOfPrefix(LoginPath, path, 1);
    CharOfPrefix(SignupPath, path, 1);
    ProtectedSecondChar(path);
  }

  /** The full decision table: a session on an auth page goes to the dashboard,
      no session on a protected page goes to login, and everything else passes. */
  lemma MiddlewareSpec(request: NavRequest)
    ensures Middleware(request) == Redirect(DashboardPath) <==>
            HasAccessToken(request) && ("/login" <= request.pathname || "/signup" <= request.pathname)
    ensures Middleware(request) == Redirect(LoginPath) <==>
            !HasAccessToken(request) && ProtectedPage(request.pathname)
    ensures Middleware(request) == Allow <==>
            (HasAccessToken(request) && !("/login" <= request.pathname || "/signup" <= request.pathname))
            || (!HasAccessToken(request) && !ProtectedPage(request.pathname))
  {
    IsProtectedRouteSpec(request.pathname);
  }

  /** With a session the middleware never sends to login, without one never to
      the dashboard; and since the two page classes are disjoint, checking the
      protected rule first would decide the same. */
  lemma RuleOrderIrrelevant(request: NavRequest)
    ensures HasAccessToken(request) ==> Middleware(request) != Redirect(LoginPath)
    ensures !HasAccessToken(request) ==> Middleware(request) != Redirect(DashboardPath)
    ensures Middleware(request) ==
            if IsProtectedRoute(request.pathname) && !HasAccessToken(request) then Redirect(LoginPath)
            else if IsAuthPage(request.pathname) && HasAccessToken(request) then Redirect(DashboardPath)
            else Allow
  {
    AuthAndProtectedDisjoint(request.pathname);
  }

  /** The decision depends on the path and on whether the token cookie exists,
      never on the token's value or on other cookies. */
  lemma OnlyTokenPresenceMatters(r1: NavRequest, r2: NavRequest)
    requires r1.pathname == r2.pathname
    requires (AccessTokenCookie in r1.cookies) == (AccessTokenCookie in r2.cookies)
    ensures Middleware(r1) == Middleware(r2)
  {
  }

  /** Protected matching stops at a segment boundary: an admin page followed by
      anything other than `/` is not protected. */
  lemma SegmentBoundary(route: string, c: char, rest: string)
    requires route in ProtectedRoutes[1..]
    requires c != '/'
    ensures !IsProtectedRoute(route + [c] + rest)
  {
    var path := route + [c] + rest;
    IsProtectedRouteSpec(path);
    assert path[..|route|] == route;
    assert path[|route|] == c;
    CharOfPrefix("//", path, 1);
    CharOfPrefix("/dashboard/", path, 1);
    CharOfPrefix("/categories/", path, 1);
    CharOfPrefix("/menus/", path, 1);
    CharOfPrefix("/orders/", path, 1);
    CharOfPrefix(route + "/", path, |route|);
  }

  /** Typical navigations: to a protected page without a session, to login with and without one. */
  lemma GuardScenarios()
    ensures Middleware(NavRequest("/dashboard", map[])) == Redirect("/login")
    ensures Middleware(NavRequest("/login", map["accessToken" := "abc123"])) == Redirect("/dashboard")
    ensures Middleware(NavRequest("/login", map[])) == Allow
    ensures Middleware(NavRequest("/orders/7", map[])) == Redirect("/login")
  {
    assert "/orders/" <= "/orders/7";
    AuthAndProtectedDisjoint("/login");
  }

  /** A path on neither list passes, with or without a session. */
  lemma UnlistedPathPasses(cookies: map<string, string>)
    ensures Middleware(NavRequest("/some/other/page", cookies)) == Allow
  {
    var other := "/some/other/page";
    CharOfPrefix(LoginPath, other, 1);
    CharOfPrefix(SignupPath, other, 2);
    ProtectedSecondChar(other);
  }

  /** The auth test is a bare prefix test, the protected test respects segments. */
  lemma PrefixEdges()
    ensures Middleware(NavRequest("/login-help", map["accessToken" := ""])) == Redirect("/dashboard")
    ensures Middleware(NavRequest("/signupX", map["accessToken" := "t"])) == Redirect("/dashboard")
    ensures !IsProtectedRoute("/dashboardX") && !IsProtectedRoute("/menus-old")
  {
    SegmentBoundary("/dashboard", 'X', []);
    SegmentBoundary("/menus", '-', "old");
  }
}
