# pastel: stale-branch reconciliation and environment reservations, in Dafny

pastel is a small GitLab companion written in Go. This project models two of its parts.

**The merge-request task** (`tasks/merge-requests.go`) finds the source branches of merged or closed
merge requests that still exist and reports them to a Mattermost webhook. It has four steps:

- A generic paginator requests pages 1, 2, 3, … of a listing endpoint. It follows the
  `X-Total-Pages` header and fails fast on the first error.
- Five paginated fetches, made by three fetcher functions, drain the merged requests, the closed
  requests, the branches, and the merge and close events.
- A correlator keeps the requests whose source branch still exists and is not excluded. It joins
  each kept request to its source branch, its target branch and its closing event. Each of these
  lookups goes through a Go map where the last write wins.
- A report builder counts the merged entries, renders one line per merged entry, and posts the
  text unless in dry-run.

**The dashboard's environment registry** (`server/`) is a fixed list of environments. Users
reserve and release them, and set a reason. Two middlewares guard the handlers: one for
authentication and one for the environment's existence.

Modules, one per file:

- `Wrappers`: Option and Result.
- `Decimal`: `strconv.Atoi` and the `%d` verb.
- `Collections`: order-preserving filter and last-write-wins indexing.
- `Pagination`: `getAllPages`.
- `Reconcile`: `getMergeRequests`.
- `Report`: `sendAll` and `MergeRequests`.
- `Dashboard`: the registry, the handlers and the middlewares.

Imperative code is modelled as methods with loops. Each method is proved against a specification
function: `Drain`, `Reconciled`, `Filter`, `Message`, `Report`, `ToggledAll`, `WithReasonAll`. The two loops of `sendAll` are the methods `SelectMerged` and `Render`, which `SendAll` calls in turn. Lemmas then state what
the source promises about those functions.

Choices made where the source is silent or crashes:

- **Remote calls.** Each GitLab listing is a page function `int -> Result<Page, string>`. A page
  carries its items and the raw `X-Total-Pages` value, with "" meaning that the header is absent.
- **Webhook result.** The webhook POST's outcome is an input, `postError`.
- **Current user.** The current-user call is an input, `currentUser`.
- **Nil pointers in `sendAll`.** An entry's `event` and `targetBranch` are Go pointers that may be
  nil; here they are `Option`s. `sendAll` dereferences both for every merged entry. The model
  turns that dereference into an error of the whole run. Nothing is sent or logged, just as when
  the Go task panics. When both pointers are nil, the model reports `MissingEvent`. That order is
  a modelling choice: Go leaves the order of the two field reads in the `Sprintf` call
  unspecified, and both raise the same nil-dereference panic.
- **Behaviour of the code that one might not expect, which the model follows:**
  - `sendAll` tests whether the *whole* entry list is empty, not the merged subset. A non-empty
    list holding only closed entries still posts "Hi there are 0 branche(s) to remove !"
    (`ReportWithoutMerged`).
  - The header is not followed by a line break. The first entry line is glued to "!".
  - Requests with no closing event are not filtered out. A merged one makes the report fail; a
    closed one is never rendered, so it does no harm.
  - A merged request whose target branch was not fetched (target "main", branches "a" and "b"
    only) gets a nil `targetBranch` at tasks/merge-requests.go:104, so `sendAll` cannot write its
    line (`ScenarioTargetNotFetched`).

## Model

| member | source | states |
|---|---|---|
| Decimal.Atoi | tasks/merge-requests.go:180 | a header value is accepted iff it is an optional sign then one or more digits whose signed value lies in the 64-bit range; the result is that signed value |
| Decimal.AtoiOfIntToString | tasks/merge-requests.go:180 | reading back a 64-bit number written in decimal gives the number again |
| Pagination.NextTotal | tasks/merge-requests.go:178-184 | an absent header keeps the running total; a non-integer header is an error; an integer header's value becomes the new total |
| Pagination.GetAllPages | tasks/merge-requests.go:171-189 | the pages requested are exactly 1, 2, …, n in order, and the result is the drained outcome of the endpoint |
| Pagination.DrainOutcome | tasks/merge-requests.go:172-184 | all requested pages but the last succeed; success returns the concatenation of the requested pages in page order; failure returns exactly the last requested page's error, so nothing is requested after it |
| Pagination.DrainSinglePage | tasks/merge-requests.go:172-184 | an absent header on page 1, or one reporting at most 1 page, means exactly one request |
| Pagination.DrainAllPages | tasks/merge-requests.go:172-184 | if every page reports a header that reads as the same total n ≥ 1, exactly n pages are requested and their items are returned in page order |
| Reconcile.Correlate | tasks/merge-requests.go:76-108 | the five loops (exclusion map, branch map, filter, event map, join) compute the reconciled entries |
| Reconcile.GetMergeRequests | tasks/merge-requests.go:32-111 | fetches merged requests, closed requests, branches, merge events and close events, in that order; the first failure is returned with no entries, and the error comes from a failing page; otherwise it correlates merged++closed with merge++close events |
| Reconcile.JoinAllRequests | tasks/merge-requests.go:100-108 | the join adds nothing and drops nothing: entry i is the join of kept request i |
| Reconcile.ReconciledSelects | tasks/merge-requests.go:83-90 | the entries' requests are a subsequence of the input; a request is among them iff its source branch was fetched and is not in the exclusion list, and then every copy of it is kept |
| Reconcile.ReconciledLookups | tasks/merge-requests.go:77-105 | each entry is not excluded; its source branch is the last fetched branch of that name; its target branch is the last one of that name, or absent iff none; its event is the last merge/close event targeting its IID, or absent iff none |
| Reconcile.ReconciledConcat | tasks/merge-requests.go:54 | reconciling merged++closed equals reconciling each part and concatenating, so kept merged requests precede kept closed ones |
| Reconcile.ExcludingUnknownNames | tasks/merge-requests.go:34-37 | exclusions that name no fetched branch remove nothing; this covers an empty list and the [""] that an empty flag yields |
| Collections.FilterIsSubsequence | tasks/merge-requests.go:83-90 | the filter loop keeps elements in their original order |
| Collections.FilterMembership | tasks/merge-requests.go:83-90 | an element is kept iff it occurs in the input and passes the test |
| Collections.FilterConcat | tasks/merge-requests.go:54 | filtering a concatenation is the concatenation of the filtered parts |
| Collections.IndexByLastWins | tasks/merge-requests.go:94-97 | a key is in a map built in a loop iff some element has it, and it maps to the last such element |
| Collections.Lookup | tasks/merge-requests.go:104-105 | a lookup yields a value iff the key is present, and then it is the value stored under the key; a missing key yields nil |
| Report.Line | tasks/merge-requests.go:209-211 | an entry's line can be written iff it has both an event and a target branch; a written line ends with a line break |
| Report.LinesOutcome | tasks/merge-requests.go:208-212 | rendering succeeds iff every merged entry has both; otherwise it fails with the error of the first entry that lacks one |
| Report.ReportShape | tasks/merge-requests.go:207-212 | the text starts with the header counting the merged entries; when no field holds a line break, it has exactly one line break per merged entry and ends with one when there is any |
| Report.ReportIgnoresClosed | tasks/merge-requests.go:200-205 | closed entries play no part in the message |
| Report.ReportWithoutMerged | tasks/merge-requests.go:196-207 | without merged entries the message is "Hi there are 0 branche(s) to remove !" |
| Report.SelectMerged | tasks/merge-requests.go:200-205 | the loop keeps exactly the merged entries, in their original order (with Collections.FilterIsSubsequence and Collections.FilterMembership) |
| Report.Render | tasks/merge-requests.go:207-212 | the loop produces the header followed by each merged entry's line, or stops with the error of the first entry lacking an event or target branch (with Report.LinesOutcome) |
| Report.SendAll | tasks/merge-requests.go:195-228 | an empty list sends nothing and succeeds; a rendering failure sends nothing; otherwise dry-run only logs the text, and a real run posts it and reports a failed post |
| Report.MergeRequests | tasks/merge-requests.go:17-24 | a fetch failure sends nothing and is returned; the text is posted iff not dry-run and the entries are non-empty and render, and logged iff dry-run under the same conditions; otherwise the error is sendAll's: none for no entries, the rendering error, or the failed post |
| Report.ScenarioOneLine | tasks/merge-requests.go:77-108 | branches a, b and main, with merged request #1 from a into main closed by alice, give the header and one line about #1 |
| Report.ScenarioTargetNotFetched | tasks/merge-requests.go:103-105 | with only branches a and b the entry has no target branch, so the report fails |
| Report.ScenarioNoEntries | tasks/merge-requests.go:84-90 | excluding a, or having lost branch a, leaves no entry |
| Dashboard.ToggledAll | server/handlers.go:31-39 | a free environment of that name becomes reserved by me; a reserved one becomes free, whoever holds it; others are unchanged; names, reasons and length are kept |
| Dashboard.WithReasonAll | server/handlers.go:51-55 | environments of that name get the reason; others are unchanged; names and users are kept |
| Dashboard.ToggleTwice | server/handlers.go:33-37 | toggling a free environment twice restores the list |
| Dashboard.UpdateReasonIdempotent | server/handlers.go:51-55 | setting the same reason twice equals setting it once |
| Dashboard.Registry.constructor | server/server.go:17-21 | one free environment with an empty reason per configured name, in order |
| Dashboard.Registry.Toggle | server/handlers.go:24-42 | the list becomes the toggled list, and the answer redirects to "/" |
| Dashboard.Registry.UpdateReason | server/handlers.go:44-57 | the list gets the new reason, and the answer redirects to "/" |
| Dashboard.Registry.EnvironmentMiddleware | server/middlewares.go:12-31 | the next handler is called iff some environment has that name; otherwise the answer is 404 with an empty body; the list is only read |
| Dashboard.AuthMiddlewareAsWritten | server/middlewares.go:34-55 | the middleware panics exactly when a token's lookup fails without a server response |
| Dashboard.AuthAsWrittenPanics | server/middlewares.go:44-47 | a token whose lookup cannot reach the server crashes the middleware |
| Dashboard.AuthMiddleware | server/middlewares.go:34-55 | it never panics; the request passes iff a token cookie exists and its lookup finds a user, who is stored as "me"; otherwise it redirects to "/login" |
| Dashboard.AuthAgreesUnlessPanic | server/middlewares.go:34-55 | wherever the code as written does not panic, it agrees with the corrected middleware |

## Findings

| source | as written | input that shows it | evidently intended | confidence | as-written member | corrected member |
|---|---|---|---|---|---|---|
| server/middlewares.go:44-47 | on a failed current-user lookup, the warning reads `res.StatusCode`; the GitLab client returns a nil response when the request never reached the server | a `token` cookie while GitLab is unreachable: nil pointer dereference, a panic instead of a redirect | redirect to "/login" like any other failed lookup | medium, not executed; relies on the client library returning a nil response on transport errors | Dashboard.AuthMiddlewareAsWritten, Dashboard.AuthAsWrittenPanics | Dashboard.AuthMiddleware |

## Left out

- The GitLab client is not part of this model. This covers `ListProjectMergeRequests`, `ListBranches`, `ListProjectContributionEvents`, the event request's URL rewrite (tasks/merge-requests.go:134-145), the page size of 100 and `SetBaseURL` with its error path (tasks/merge-requests.go:39-43). Every listing is an abstract page function.
- The fetchers' `return results, getAllPages(...)` closure idiom is modelled directly as "the concatenation of the drained pages", independent of Go's evaluation order.
- Pagination.GetAllPages: the page counter is an unbounded integer. In Go, `currentPage++` overflows when a server reports 2^63 - 1 pages, and the loop then never ends. The model stops after page 2^63 - 1.
- Report.SendAll: `json.Marshal` is not modelled. It cannot fail on a single string field, and JSON escaping is out of scope. `http.Post` is reduced to its error result (`postError`). The response body and status are not looked at, as in the source.
- Report.SendAll: a Go panic on a nil event or target branch is modelled as an error result with nothing sent. The process-level effect of the panic is not modelled: nothing recovers it, so the Go process stops.
- Logging through logrus is not modelled, except that dry-run reports the text as `Logged`.
- tasks/cron.go (scheduling, signals, `os.Exit`), server/pages.go (templates) and main.go are not part of this model. From main.go, only the `[""]` produced by splitting an empty exclusion flag is reflected, in `ExcludingUnknownNames`.
- server/server.go is not part of this model beyond the registry's initial state (lines 17-21). That leaves out routing, template parsing and the order in which middlewares run.
- `loginHandler`, `callbackHandler` and the OAuth exchange are not modelled.
- The read/write lock around the environment list is not modelled; each handler and middleware is atomic.
- Dashboard.Registry.Toggle: `me` is a parameter. The `c.Get("me").(*gitlab.User)` type assertion, which authMiddleware always satisfies, is not modelled. The stored user is a value rather than a shared `*gitlab.User` pointer.
