# Mallang Order admin console: route guard, token fetch, modal state, mock data

A Dafny model of the sequential logic inside the Mallang Order admin console, a
Next.js front end through which kiosk store owners manage their store. Everything
else in the console is React presentation over REST calls. Four pieces carry
behaviour that can be stated:

- **Route guard** (`RouteGuard.dfy`, from `src/middleware.ts`). It decides, for a
  navigation with a given path and cookie set, whether to let it through, send a
  logged-in visitor from `/login` or `/signup` to `/dashboard`, or send an anonymous
  visitor from a protected page to `/login`. The decision is a pure function over
  the path as a `string` and the cookies as a `map`. Path prefixes use Dafny's
  sequence-prefix relation `<=`.
- **Token fetch** (`FetchWithToken.dfy` and `JsString.dfy`, from
  `src/utils/fetchWithToken.ts`). `getCookie` is modelled literally: it prepends
  `"; "`, splits with JavaScript's `split` on `"; name="`, accepts exactly two
  parts, and cuts the second at its first `;`. `JsString.Split` models `split` for
  a non-empty separator. The request builder merges the caller's headers with the
  `access` header, which is added last and wins. The outcome of `fetch` is a
  parameter and is passed through.
- **Modal state** (`UseModal.dfy`, from `src/hooks/useModal.ts`). The hook's two
  state cells `isOpen` and `data` are fields of the class `Modal`, and `open` and
  `close` are its methods. The class is tied to a two-state machine
  (`Closed | Opened(payload)`) whose laws are proved as lemmas.
- **Mock categories** (`MockCategory.dfy`, from `src/mocks/mockCategory.ts`). This
  is the constant list of five categories and the generator of `count` numbered
  categories. The decimal rendering of numbers has a parser partner, so the
  generated ids are proved distinct.

`Common.dfy` holds the `Option` and `Result` wrappers.

Two details of the code matter for what the model states:

- The guard treats the session as present whenever an `accessToken` cookie
  exists. `request.cookies.get` returns a cookie object, which is truthy even when
  the cookie's value is empty.
- A missing token reaches the `access` header as the text `null`, never
  `undefined`. `getCookie` returns either `null` or a string, because `pop` on a
  two-element array and `shift` on a `split` result always yield a string.

## Model

| member | source | states |
|---|---|---|
| `RouteGuard.HasAccessToken` | src/middleware.ts:8 | The session counts as present exactly when an `accessToken` cookie exists, whatever its value |
| `RouteGuard.IsAuthPage` | src/middleware.ts:9-11 | An auth page starts `/l` or `/s`, at least as long as `/login`; a bare prefix test against `/login` and `/signup` |
| `RouteGuard.RouteMatches` | src/middleware.ts:15-16 | A matching path starts with the route and, where it is longer, continues with `/` |
| `RouteGuard.AnyRouteMatches` | src/middleware.ts:13-17 | When the `some` scan succeeds, some route of the list matches the path |
| `RouteGuard.IsProtectedRoute` | src/middleware.ts:4-17 | Every protected path is non-empty and starts with `/` |
| `RouteGuard.Middleware` | src/middleware.ts:7-30 | The guard only ever redirects to `/dashboard` or to `/login` |
| `RouteGuard.AnyRouteMatchesSpec` | src/middleware.ts:13-17 | The left-to-right `some` scan finds a match exactly when some listed route equals the path or is followed in it by `/` |
| `RouteGuard.IsProtectedRouteSpec` | src/middleware.ts:4-17 | The protected paths are exactly `/`, paths starting `//`, and `/dashboard`, `/categories`, `/menus`, `/orders`, each with everything under it |
| `RouteGuard.ProtectedSecondChar` | src/middleware.ts:4-17 | Every protected path is `/` or has `/`, `d`, `c`, `m` or `o` as its second character |
| `RouteGuard.AuthAndProtectedDisjoint` | src/middleware.ts:9-17 | No path is both an auth page and a protected page |
| `RouteGuard.MiddlewareSpec` | src/middleware.ts:8-29 | Full decision table, each case an if-and-only-if: token and a path starting `/login` or `/signup` gives the dashboard redirect; no token and a protected path gives the login redirect; everything else is allowed |
| `RouteGuard.RuleOrderIrrelevant` | src/middleware.ts:19-29 | With a token the guard never sends to login, without one never to the dashboard, and applying the two rules in the other order decides the same |
| `RouteGuard.OnlyTokenPresenceMatters` | src/middleware.ts:8-27 | Two navigations with the same path and the same presence of the token cookie get the same decision, whatever the token's value and the other cookies |
| `RouteGuard.SegmentBoundary` | src/middleware.ts:13-17 | A listed admin page followed by any character other than `/` is not protected |
| `RouteGuard.GuardScenarios` | src/middleware.ts:20-29 | `/dashboard` without a token redirects to `/login`; `/login` with a token redirects to `/dashboard`; `/login` without one is allowed; `/orders/7` without one redirects to `/login` |
| `RouteGuard.UnlistedPathPasses` | src/middleware.ts:29 | `/some/other/page` is allowed with or without a token |
| `RouteGuard.PrefixEdges` | src/middleware.ts:9-17 | `/login-help` and `/signupX` count as auth pages (even with an empty token value); `/dashboardX` and `/menus-old` are not protected |
| `JsString.Split` | src/utils/fetchWithToken.ts:9 | `split` on a non-empty separator always yields at least one part |
| `JsString.JoinSplit` | src/utils/fetchWithToken.ts:9 | Joining the parts of a split with the separator gives back the original string |
| `JsString.SplitWithoutOccurrence` | src/utils/fetchWithToken.ts:9-11 | A string without the separator splits into itself alone |
| `JsString.SplitAtOccurrence` | src/utils/fetchWithToken.ts:9-11 | One occurrence of the separator gives at least two parts |
| `JsString.SplitAtTwoOccurrences` | src/utils/fetchWithToken.ts:9-11 | Two non-overlapping occurrences give at least three parts |
| `JsString.SplitAtUniqueOccurrence` | src/utils/fetchWithToken.ts:9-10 | A single occurrence at `i` splits the string into exactly the text before `i` and the text after the separator |
| `JsString.FirstField` | src/utils/fetchWithToken.ts:10 | `split(';').shift()`: the first part of splitting on `;` |
| `JsString.FirstFieldIsPrefixUpToSemicolon` | src/utils/fetchWithToken.ts:10 | `split(';').shift()` is the longest `;`-free prefix: a prefix with no `;`, followed by `;` if it is shorter than the string, and the whole string when it has no `;` |
| `FetchWithToken.CookieSeparator` | src/utils/fetchWithToken.ts:9 | The separator starts with `;` and, for a name without `;`, holds no other `;` |
| `FetchWithToken.GetCookie` | src/utils/fetchWithToken.ts:7-12 | A value `getCookie` returns never contains `;` |
| `FetchWithToken.CookieFoundOnce` | src/utils/fetchWithToken.ts:7-10 | When `"; name="` occurs exactly once in `"; " + document.cookie`, `getCookie` returns the text after it up to the next `;` or the end |
| `FetchWithToken.CookieAbsent` | src/utils/fetchWithToken.ts:9-11 | When `"; name="` does not occur, `getCookie` returns `null` |
| `FetchWithToken.CookieDuplicated` | src/utils/fetchWithToken.ts:9-11 | When `"; name="` occurs twice without overlap (a duplicated cookie), `getCookie` returns `null` |
| `FetchWithToken.OccurrencesDisjoint` | src/utils/fetchWithToken.ts:9 | For a name without `;`, distinct occurrences of `"; name="` never overlap |
| `FetchWithToken.GetCookieSpec` | src/utils/fetchWithToken.ts:7-11 | For a name without `;`: `getCookie` finds a value if and only if `"; name="` occurs exactly once, and the value is the text after that occurrence up to the next `;` |
| `FetchWithToken.OccurrenceStartsAtSemicolon` | src/utils/fetchWithToken.ts:8-9 | Every occurrence of `"; name="` starts at a `;`, so a name is matched only at a cookie boundary |
| `FetchWithToken.GetCookieSingle` | src/utils/fetchWithToken.ts:7-10 | With cookie `accessToken=abc123`, the token read is `abc123` |
| `FetchWithToken.GetCookieAnchored` | src/utils/fetchWithToken.ts:8-11 | With cookie `xaccessToken=v`, no token is read |
| `FetchWithToken.GetCookieTwice` | src/utils/fetchWithToken.ts:9-11 | With cookie `accessToken=a; accessToken=b`, no token is read |
| `FetchWithToken.GetCookieNoCookies` | src/utils/fetchWithToken.ts:8-11 | With no cookies, no token is read |
| `FetchWithToken.TokenText` | src/utils/fetchWithToken.ts:20 | `${accessToken}` is the token itself, or the text `null` when there is none |
| `FetchWithToken.CallerHeaders` | src/utils/fetchWithToken.ts:19 | `options.headers || {}`: the caller's headers, or none |
| `FetchWithToken.BuildRequest` | src/utils/fetchWithToken.ts:14-28 | The request goes to the given URL with credentials `include` and the caller's method and body. Every caller header other than `access` keeps its value, and `access` always holds the rendered token, overriding the caller's. No other header is added |
| `FetchWithToken.AccessHeaderExamples` | src/utils/fetchWithToken.ts:15-21 | With cookie `accessToken=abc123` the headers are `{access: abc123}`. With no cookie, a caller `access` header is replaced by `null` and other caller headers are kept |
| `FetchWithToken.Settle` | src/utils/fetchWithToken.ts:23-38 | Every response is returned unchanged, in particular one that is not ok (status outside 200-299); a transport failure is re-thrown with its reason |
| `FetchWithToken.FetchWithTokenCall` | src/utils/fetchWithToken.ts:14-39 | `fetchWithToken` resolves with a response exactly when `fetch`, given the built request, returns that response, and rejects exactly when `fetch` fails |
| `UseModal.Step` | src/hooks/useModal.ts:7-15 | The state machine of the hook: `open(d)` leads to open with payload `d`, `close()` to closed, from any state |
| `UseModal.LastEventDecides` | src/hooks/useModal.ts:7-15 | After any non-empty sequence of `open` and `close` calls, the state is what the last call alone produces |
| `UseModal.TransitionLaws` | src/hooks/useModal.ts:7-15 | Closing twice is closing once, a second `open` replaces the payload, and `open` then `close` leaves the modal closed |
| `UseModal.Modal.constructor` | src/hooks/useModal.ts:4-5 | A new modal is closed with no payload, which satisfies the invariant |
| `UseModal.Modal.OpenWith` | src/hooks/useModal.ts:7-10 | `open(d)` leaves the modal open with payload `d` (none when called without an argument), from any previous state, and keeps the invariant |
| `UseModal.Modal.Close` | src/hooks/useModal.ts:12-15 | `close()` leaves the modal closed with no payload and keeps the invariant |
| `UseModal.ModalClient` | src/hooks/useModal.ts:7-15 | A caller that opens twice sees the second payload, and after closing twice the modal is closed |
| `MockCategory.DecimalString` | src/mocks/mockCategory.ts:29 | `toString` of a non-negative integer is a non-empty string of decimal digits with no leading zero |
| `MockCategory.ParseDecimalString` | src/mocks/mockCategory.ts:29 | Reading the decimal rendering back gives the number |
| `MockCategory.DecimalStringInjective` | src/mocks/mockCategory.ts:29 | Distinct numbers render differently |
| `MockCategory.NumberedCategory` | src/mocks/mockCategory.ts:28-31 | The record at position `i` has an id that reads as `i + 1` and the name `Category ` followed by that id |
| `MockCategory.GenerateMockCategories` | src/mocks/mockCategory.ts:27-32 | `RangeError` exactly when `count` exceeds 2^32-1; otherwise exactly `count` records, or none for a negative `count` |
| `MockCategory.GeneratedCategories` | src/mocks/mockCategory.ts:27-32 | Record `i` has as id the decimal string of `i + 1`, which reads back as `i + 1`, and the name `Category ` followed by that id; all ids are pairwise distinct |
| `MockCategory.MockCategoriesIds` | src/mocks/mockCategory.ts:3-24 | The fixed list has five categories whose ids are those the generator gives the first five, so pairwise distinct |

## Left out

- The `config.matcher` pattern of `src/middleware.ts`. The Next.js framework interprets it; the model assumes the guard has been invoked on the path.
- The construction of `NextResponse.redirect`, `NextResponse.next()` and `new URL(...)`. A redirect is modelled as the target path on the same origin.
- The `fetch` call itself, `await`, `console.log` of a non-ok response, and the global `document.cookie` read. The cookie string is a parameter. The network is a function parameter or an abstract outcome.
- Header names are compared exactly, as keys of the object the code builds. The case-insensitive merging that `fetch` applies to `Headers` and the insertion order of object keys are not modelled.
- `FetchOptions` holds only the three fields the source declares. The `any` body is a type parameter.
- FetchWithToken.GetCookieSpec: the if-and-only-if is stated only for names without `;`. For such names, occurrences of `"; name="` cannot overlap. The one name the source uses, `accessToken`, is such a name. For other names, `CookieFoundOnce`, `CookieAbsent` and `CookieDuplicated` still hold.
- MockCategory.GenerateMockCategories: `count` is an integer. A fractional or `NaN` count, which `Array.from` truncates or turns into 0, is not modelled.
- UseModal.Modal.OpenWith: a payload that is itself a function is not modelled. React's state setter calls a function argument as an updater on the previous value, so `open(f)` stores `f(previous data)` rather than `f`; the model stores every payload as given.
- React's `useState` batching and re-rendering in `useModal`. Only the state after each transition is modelled.
- The UI components (`CategoryNameChanger`, `CategoryDeleter`, `AlertModal`, `NavigationBar`), the layouts and pages, and `next.config.ts`. They are presentation and build configuration with no logic worth stating.
