# URL shortener front end: redirect resolver and batch form

This project models the two pieces of sequential logic of a browser-side URL
shortener, taken out of their React components.

- **Redirect resolver** (module `RedirectPage`). A visit to `/<shortcode>` looks
  the shortcode up in the stored table of short URLs. A missing or empty
  shortcode is rejected. An unknown code gives `NotFound`. A code whose
  `expiresAt` lies strictly before `now` gives `Expired`. Otherwise one
  read-modify-write charges the record with a click: the counter goes up by
  one, and the click log gains an event `{timestamp: now, source: referrer or
  "Direct", location: "Unknown"}`. The table is written back and the
  record's long URL is the redirect target. `Resolve` is the specification
  function. `UrlStore` holds the table as a field, and its method
  `HandleRedirect` does the update step by step, as the page does, and is
  proved equal to `Resolve`.
- **Batch form** (module `UrlShortener`). The user edits a list of one to
  five URL forms (`AddUrlForm`, `RemoveUrlForm`, `UpdateForm`, all pure
  functions over `seq<UrlForm>`). `ValidateForms` gives each form at most one
  message, in a fixed priority order, plus an overall verdict. The "shorten
  URLs" button (`HandleShortenUrls`, with its loop in `ShortenEach`) calls
  the shortening service once per form, in order. It publishes results only
  if every call goes through; then it resets the list to one blank form.
  The loop reads the forms as they were before validation. Those differ from
  the validated forms only in their messages.

Things that belong to the browser or to code outside these two components
are parameters:
- the clock (`now`, and `clock(i)` for the time at step `i` of the batch);
- the referrer;
- the page origin;
- the id of a new form (`Date.now()` as a string);
- the URL and shortcode validators (`validUrl`, `validShortcode`: total
  functions to `bool`);
- the shortening service (`shorten`: a total function from a request to
  `Shortened(shortcode)` or `ApiFailed(message)`).

Timestamps are integers in milliseconds.

## Model

| member | source | states |
|---|---|---|
| `RedirectPage.RecordClick` | frontend/src/components/RedirectPage.tsx:39-45 | the counter becomes its old value plus one, with a missing counter read as 0; the log becomes the old log, empty if missing, followed by exactly the new event; shortcode, long URL, creation and expiry times are unchanged; one event per click is kept |
| `RedirectPage.Resolve` | frontend/src/components/RedirectPage.tsx:14-61 | missing or empty shortcode: `InvalidShortUrl` with the table untouched. Unknown code: `NotFound` with the table unchanged. `now > expiresAt`: `Expired` with the table unchanged, so no click is recorded. Success happens iff the code is present and `now <= expiresAt`; then the target is the stored long URL and the record gains one click and one event (timestamp `now`, source the referrer or `"Direct"`, location `"Unknown"`), with long URL and expiry kept. The key set never changes, and every other entry is unchanged |
| `RedirectPage.ResolveKeepsCountsAgree` | frontend/src/components/RedirectPage.tsx:39-47 | if every record had as many logged events as counted clicks before a redirect, this still holds after it |
| `RedirectPage.ExpiryIsFinal` | frontend/src/components/RedirectPage.tsx:29-37 | once a record has expired, every later visit is refused as `Expired` and leaves the table as it was |
| `RedirectPage.ReplayCountsEveryVisit` | frontend/src/components/RedirectPage.tsx:39-48 | N sequential visits to a live shortcode raise its counter by exactly N and append their N events in visit order; the key set, the record's expiry and every other record are unchanged |
| `RedirectPage.UrlStore.constructor` | frontend/src/components/RedirectPage.tsx:23-24 | the store starts with the table read from storage |
| `RedirectPage.UrlStore.HandleRedirect` | frontend/src/components/RedirectPage.tsx:13-61 | the outcome and the table written back are exactly those of `Resolve` on the old table; the one-event-per-click invariant is preserved |
| `UrlShortener.Initial` | frontend/src/components/UrlShortener.tsx:37-40 | the form starts with exactly one blank form (empty URL and code, validity 30, no message) with id "1" and no results; the count is in range and ids are unique |
| `UrlShortener.AddUrlForm` | frontend/src/components/UrlShortener.tsx:44-55 | below five forms, one blank form with validity 30 and the new id is appended and the existing forms are kept as a prefix; at five or more, the list is unchanged; a count within 1..5 stays within it; a fresh id keeps ids unique |
| `UrlShortener.WithoutId` | frontend/src/components/UrlShortener.tsx:59 | the list never grows |
| `UrlShortener.WithoutIdMembers` | frontend/src/components/UrlShortener.tsx:59 | a form is kept iff it was in the list and its id differs from the removed one |
| `UrlShortener.WithoutIdAppend` | frontend/src/components/UrlShortener.tsx:59 | the filter distributes over concatenation, so the kept forms keep their relative order |
| `UrlShortener.WithoutAbsentId` | frontend/src/components/UrlShortener.tsx:59 | removing an id no form carries leaves the list unchanged |
| `UrlShortener.WithoutUniqueId` | frontend/src/components/UrlShortener.tsx:59 | with unique ids, removing the id of form k yields the list without form k, the rest in order |
| `UrlShortener.RemoveUrlForm` | frontend/src/components/UrlShortener.tsx:57-62 | with one form or none, nothing changes; otherwise a form is kept iff its id differs from the removed one |
| `UrlShortener.RemoveUrlFormKeepsRange` | frontend/src/components/UrlShortener.tsx:57-62 | with unique ids and a count in 1..5: a present id with more than one form drops the length by exactly one, an absent id changes nothing, and the count stays in range with ids still unique |
| `UrlShortener.RemoveEmptiesListIff` | frontend/src/components/UrlShortener.tsx:57-62 | for every list, removing leaves no form iff there was none, or there were at least two and every one carries the removed id; so the guard keeps a form whenever some form has another id |
| `UrlShortener.RemoveSharedIdEmptiesList` | frontend/src/components/UrlShortener.tsx:57-62 | without unique ids the guard is not enough: two forms sharing the removed id are both dropped, leaving no form |
| `UrlShortener.ApplyEdit` | frontend/src/components/UrlShortener.tsx:66 | the edited field takes the new value, the message is cleared, and the id and the other fields are kept |
| `UrlShortener.UpdateForm` | frontend/src/components/UrlShortener.tsx:64-68 | length, order and ids are preserved; forms with another id are unchanged; forms with the matching id are edited as `ApplyEdit` says; unique ids and the count range are kept |
| `UrlShortener.FormError` | frontend/src/components/UrlShortener.tsx:73-89 | the message is empty iff the URL is non-empty and valid, the custom code is empty or valid, and the validity is at least 1; an empty custom code never gives the shortcode message |
| `UrlShortener.FormErrorIsFirstFailure` | frontend/src/components/UrlShortener.tsx:75-87 | the message is that of the first failing rule in the fixed order: URL required, invalid URL, invalid shortcode, invalid validity |
| `UrlShortener.ValidateForms` | frontend/src/components/UrlShortener.tsx:70-98 | length and order are preserved; each form keeps every field except its message, which is set to that form's message; the verdict holds iff every form is acceptable, i.e. iff every message is empty |
| `UrlShortener.ValidateFormsKeepsRange` | frontend/src/components/UrlShortener.tsx:72-92 | validation changes only messages, so a count in 1..5 and unique ids are kept |
| `UrlShortener.ShortenEach` | frontend/src/components/UrlShortener.tsx:110-140 | requests are sent for the forms in order, stopping at the first step that fails (that call is still sent); success holds iff every step goes through, and then one result per form is built, in form order |
| `UrlShortener.HandleShortenUrls` | frontend/src/components/UrlShortener.tsx:101-151 | rejected validation sends nothing and keeps the results, showing the validated forms. A failing step ends the batch after k+1 calls and keeps the old results. When every step goes through, there is one result per form in form order, with `shortUrl = origin + "/" + shortcode` and `expiresAt = clock(i) + validity*60*1000`, and the forms reset to one blank form. So results are published all or nothing; the forms end as the validated forms or as one blank form, and a count in 1..5 with unique ids is kept |

## Left out

- Rendering, loading and snackbar flags, the clipboard, the one-second delay before a redirect and its cancellation: presentation and timers.
- Logging calls: the logger's code is not part of this model, and it is assumed never to reject. The pages await every logging call, so a rejecting logger would change the results. Inside a `try` (frontend/src/components/RedirectPage.tsx:21, 30, 50, 58; frontend/src/components/UrlShortener.tsx:113, 129) a rejection is caught: at RedirectPage.tsx:50 the click is already written but there is no redirect; at UrlShortener.tsx:113 batch step k fails before its service call, so k calls are sent; at UrlShortener.tsx:129 the step fails after its service call. Outside any `try` (UrlShortener.tsx:53, 60, 95, 102) a rejection ends the handler: at :102 the batch stops before validation, so no messages are shown and no call is sent; at :53 and :60 the new list is already set; at :95 the messages are already shown and no call is sent. The call at RedirectPage.tsx:63 sits inside the `catch` itself. The model captures none of this.
- Reading and writing browser storage, and JSON encoding: the stored blob is the in-memory table of `UrlStore`. A missing blob is the empty table.
- The `catch` branch of the redirect page ("An error occurred during redirection"): with a logger that never rejects, it is reached through storage, JSON or malformed-record failures, or an unparsable long URL, none of which is modelled. A stored record whose `clickDetails` is present but not a list makes the append at RedirectPage.tsx:41 throw before the write, so no click is recorded; the model types the log as a sequence. A long URL that the browser cannot navigate to makes RedirectPage.tsx:56 throw after the write at :48, so the click is recorded without a redirect; the model treats every long URL as a redirect target.
- RedirectPage.Resolve: the page reads the clock twice, once for the expiry check and once for the event timestamp. The model uses a single `now` for both, so a logged timestamp is never later than `expiresAt`, while in the page it can be later by the time between the two reads.
- Expiry dates are integers. The page compares parsed ISO strings, and an unparsable `expiresAt` (an invalid Date, which never compares as "later") is not modelled.
- Keys found on JavaScript's object prototype (such as `constructor`) look present in the parsed table. The model treats only real entries as present.
- The internals of the URL and shortcode validators, the shortening service and token retrieval: they live in files that are not part of this model. They are parameters.
- UrlShortener.HandleShortenUrls: the service is a fixed function of the request, so answers that depend on earlier calls in the same batch (for example a duplicate custom code within one batch) are not captured.
- UrlShortener.UpdateForm: only the three edits the inputs make (long URL, validity, custom code) are modelled. Setting `id` or `error` through the generic field name, and values of the wrong type, are not. The `parseInt(...) || 30` of the validity input is caller code and is not modelled.
- Floating-point arithmetic of JavaScript numbers: validity and times are unbounded integers. The one range limit modelled is that of Date: an expiry beyond ±8.64e15 ms makes the ISO formatting throw, which fails that step after its service call.
- Shortcode generation, uniqueness at insertion and the store write on creation: not in this code. So the model does not connect published results to stored records.
- Concurrency, such as two redirects racing on the same record: the model is sequential. `ReplayCountsEveryVisit` covers visits one after another.
