# HTTP error normalisation and auth header rules of a Next.js scaffold

This project models the only decision logic of a small Next.js template. That logic is the
axios-based API wrapper in `services/apiServices.ts`, together with the Redux `auth` slice
whose token the wrapper reads.

- **Response interceptor.** A success passes through unchanged. Every failure becomes a
  rejection `{message, status}` plus at most one effect:
  - a timeout toast for a client-side abort (`ECONNABORTED`) with no response;
  - an internet toast for any other failure with no response;
  - session expiry for a response whose derived status is 401. Session expiry clears local
    storage, clears session storage and navigates to `/`.
- **`extractErrorMessage`.** The second, separately exported message extractor. It chains
  with `??`, so a present empty message still wins. The interceptor chains with `||`, which
  skips empty strings.
- **Request interceptor.** A non-empty `accessToken` in the auth slice sets
  `Authorization: Bearer <token>` on the outgoing headers.
- **`ApiService.get`.** It requests `endPoint + (params || "")`.
- **Auth slice.** Its initial state is `{name: "", accessToken: ""}`. Its single reducer,
  `login`, sets `name`. No reducer writes `accessToken`, so from the initial state the
  request interceptor never attaches Authorization.

Files:

- `js_values.dfy` (module `JsValues`) holds the JavaScript value rules the code relies on:
  optional fields, string and number truthiness, `||` and `??`. For each operator chain it
  also gives a reference definition, "first acceptable candidate of an ordered list", and
  proves that the chain matches it.
- `api_services.dfy` (module `ApiServices`) holds the wrapper. The error object is a nest
  of optional fields. The failure handler is a total function returning a `Rejection`.
  Effects are tags, and `Actions` expands each tag into primitive actions. The request
  interceptor is a method of class `RequestConfig` that updates its header map in place.
- `auth_slice.dfy` (module `AuthSlice`) holds the slice. The reducer is a function on values,
  and `LoginAll` folds it over a sequence of actions. Class `AuthStore` has a `Login` method
  that assigns `name` in place.

Three details of the code the model keeps:

- The generic fallback message is `"OOPS! Something went wrong"`.
- A 401 clears browser storage but not the in-memory slice.
- `login` sets only the name and never a token.

Two observations about the code, proved as lemmas:

- `extractErrorMessage` lists `error.message` twice, once cast as `ErrorResponse` and once as
  `Error`. The second occurrence can never decide the result (`ExtractorLastCandidateIsRedundant`).
- The session-expiry check compares the *derived* status. A response without a truthy status
  but with `error.status == 401` therefore also expires the session (`ErrorStatusExpiresSession`).

## Model

| member | source | states |
|---|---|---|
| `JsValues.Or` | services/apiServices.ts:91-96 | JavaScript `a || b`: the result is one of the operands, and it is truthy exactly when either operand is |
| `JsValues.Coalesce` | services/apiServices.ts:52-57 | JavaScript `a ?? b`: the result is one of the operands, and it is present exactly when either operand is |
| `JsValues.FirstTruthy` | services/apiServices.ts:91-96 | The result is the fallback or the value of a truthy (present, non-empty) candidate, so with no truthy candidate it is the fallback; a non-empty fallback gives a non-empty result |
| `JsValues.FirstPresent` | services/apiServices.ts:52-57 | The result is the fallback or the value of a present candidate, so with every candidate absent it is the fallback |
| `JsValues.FirstTruthyPicksFirst` | services/apiServices.ts:91-96 | `||` precedence: the first truthy candidate wins whatever the later ones hold |
| `JsValues.FirstPresentPicksFirst` | services/apiServices.ts:52-57 | `??` precedence: the first present candidate wins, even the empty string |
| `JsValues.OrChainIsFirstTruthy` | services/apiServices.ts:91-96 | For any fallback, the left-grouped `a || b || c || d || fallback` chain always yields a string, namely the first truthy candidate or the fallback |
| `JsValues.CoalesceChainIsFirstPresent` | services/apiServices.ts:52-57 | The left-grouped `a ?? b ?? c ?? d ?? fallback` chain always yields a string, namely the first present candidate or the fallback |
| `ApiServices.DerivedMessage` | services/apiServices.ts:91-96 | The failure message is the first truthy of nested error message, body message, status text and error message, else `"OOPS! Something went wrong"`; it is never empty |
| `ApiServices.DerivedStatus` | services/apiServices.ts:98 | The failure status is the response status when truthy, else the error status when truthy; it is 0 exactly when neither is truthy |
| `ApiServices.OnRejected` | services/apiServices.ts:90-118 | Without a response: exactly `{timeout message, 408}` with a timeout toast for `ECONNABORTED`, and exactly `{network message, 0}` with an internet toast otherwise. With a response: the derived `{message, status}`, with session expiry exactly when the derived status is 401 and no effect otherwise. The message is never empty |
| `ApiServices.Intercept` | services/apiServices.ts:84-119 | A call resolves exactly when the transport succeeded, with the response unchanged; every failure rejects with the failure handler's outcome |
| `ApiServices.Actions` | services/apiServices.ts:161-165 | Navigation to `/` happens exactly for session expiry; no action happens exactly for the no-effect case |
| `ApiServices.InterceptorMessagePrecedence` | services/apiServices.ts:91-96 | The failure message is the first truthy candidate, and it is the generic message when none is truthy |
| `ApiServices.BranchesAreExclusive` | services/apiServices.ts:100-117 | Each of the four effect kinds occurs if and only if its branch condition holds |
| `ApiServices.ErrorStatusExpiresSession` | services/apiServices.ts:98-117 | A response with no truthy status, on an error whose own status is 401, is rejected with the derived message and status 401 and expires the session |
| `ApiServices.NoResponseIgnoresDerived` | services/apiServices.ts:100-112 | Without a response, the outcome depends only on whether the code is `ECONNABORTED`; messages and statuses are ignored |
| `ApiServices.ActionCounts` | services/apiServices.ts:100-117 | Per failure: the timeout toast happens once exactly on a timeout, the internet toast once exactly on another responseless failure, and the three session-expiry steps once each, in order, exactly on a failure with a response whose derived status is 401 |
| `ApiServices.ExpiredSessionScenario` | services/apiServices.ts:115-117 | A 401 with body message `"expired"` rejects with `{expired, 401}` and expires the session |
| `ApiServices.ExtractErrorMessage` | services/apiServices.ts:37-60 | The result is the first present of the error message, nested error message, body message and error message, else the fallback; a present top-level message always wins; a result other than the fallback is a present candidate |
| `ApiServices.ExtractorPrecedence` | services/apiServices.ts:52-59 | The first present candidate decides the result, and with every candidate absent (including a missing error) the result is the fallback |
| `ApiServices.ExtractorLastCandidateIsRedundant` | services/apiServices.ts:52-56 | The fourth candidate never changes the result: the first three give the same answer |
| `ApiServices.EmptyMessageSeparatesExtractors` | services/apiServices.ts:52-53 | An empty `error.message` is returned by `extractErrorMessage` but skipped by the interceptor |
| `ApiServices.WithAuthorization` | services/apiServices.ts:74-80 | A non-empty token maps `Authorization` to `"Bearer " + token`; an empty token leaves the headers unchanged; every other header is unchanged either way |
| `ApiServices.RequestConfig.AttachToken` | services/apiServices.ts:74-80 | The headers after the interceptor are the header rule applied to the old headers and the auth slice's token |
| `ApiServices.ReachableStatesNeverAuthorize` | services/apiServices.ts:75-77 | From the slice's initial state, after any sequence of `login` actions, the request interceptor leaves the headers unchanged |
| `ApiServices.LoginsThenRequest` | services/apiServices.ts:74-80 | A store built in the initial state and given any sequence of `login` calls keeps an empty token, so the request interceptor returns the headers unchanged and adds no Authorization |
| `ApiServices.GetUrl` | services/apiServices.ts:139-141 | The URL starts with the endpoint and continues with the query string, or with nothing when it is absent or empty |
| `AuthSlice.LoginReducer` | store/slices/auth/authSlice.ts:7-10 | `login` makes the payload the name and leaves the token as it was |
| `AuthSlice.LoginAllKeepsToken` | store/slices/auth/authSlice.ts:7-10 | No sequence of `login` actions changes the token |
| `AuthSlice.LoginAllLastWins` | store/slices/auth/authSlice.ts:9 | After a non-empty sequence of `login` actions the name is the last payload and the token is unchanged |
| `AuthSlice.LoginIdempotent` | store/slices/auth/authSlice.ts:9 | Two `login`s with the same payload equal one |
| `AuthSlice.ReachableTokenIsEmpty` | store/slices/auth/authSlice.ts:5-10 | Every state reachable from the initial state by `login` actions has an empty token |
| `AuthSlice.AuthStore.constructor` | store/slices/auth/authSlice.ts:5 | The store starts with an empty name and an empty token |
| `AuthSlice.AuthStore.Login` | store/slices/auth/authSlice.ts:7-10 | The name becomes the payload in place and the token is unchanged, as the value reducer says |

## Left out

- The axios transport and its 30-second timeout, the base URL from the environment, and the default headers (services/apiServices.ts:12, 62-70, 127-133). These are library calls and configuration. The transport's result enters the model as a `Settlement` value.
- `post`, `put`, `patch` and `delete` (services/apiServices.ts:143-157). They pass the endpoint and the body to the transport unchanged, and they share the interceptors modelled here.
- Promises and asynchrony. A rejection is a returned value, and concurrent calls are not modelled.
- The toast calls, `localStorage.clear`, `sessionStorage.clear` and `window.location.replace` (services/apiServices.ts:8, 102, 108, 161-165). They appear only as `Effect` tags and the `Action` values those tags expand to.
- JavaScript value details:
  - Message fields are optional strings, so a non-string message and its `toString()` are not modelled.
  - Statuses are optional integers, so `NaN` is not modelled.
  - The failure handler is given an error object. A `null` error would throw at `error.response` (services/apiServices.ts:100).
- Header names are exact map keys. The case-insensitive matching of axios' header object is not modelled.
- The unused `status_code` entries (services/apiServices.ts:14-24). Only 408 affects behaviour; the 401 check uses a literal.
- The `console.log` in the reducer (store/slices/auth/authSlice.ts:8).
- store/store.ts is not part of this model: store setup, logger middleware, and persistence with rehydration. A state restored from storage is not reached by `login` actions, so the reachability lemmas do not cover it.
- components/common/Button.tsx is not part of this model. It renders the name and dispatches `login("Krishna")`.
