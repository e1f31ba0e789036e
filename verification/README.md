# Book-tracking client: request manager, list filter and add-book form

A Dafny model of the logic inside a small React client for a personal book
collection. The client keeps its books on a remote HTTP API. The model has
three parts:

- `requests.dfy` (module `Requests`) models the `useAxios` hook. It holds the
  last response body (`data`), a `loading` flag and an alert
  `{show, message, type}`. Its verbs `get`, `post`, `update` and `remove`
  become HTTP requests to the base URL, a slash and the endpoint. The hook is a transition
  function over three events: `Start` (loading goes on), `Resolve` (the call
  settles with a body or an error message) and `Hide` (the oldest pending
  alert timer fires). The state also numbers the alerts raised and queues
  the pending timers, oldest first, by the alert each was scheduled for.
  Traces of events are related to independent "last event of this kind"
  definitions.
- `books.dfy` (module `BookList`) models the list screen. It covers the
  mount-time fetch of `books`, the case-insensitive name filter recomputed from
  the fetched books and the search term, and the rendered view: a spinner, or
  one card per book linking to `/book/` followed by its id.
- `addbook.dfy` (module `AddBook`) models the add-book form. The draft is a
  JavaScript object, modelled as a map from property names to values, so the
  handler's copy-with-one-property-set is a map update. The module covers the
  generic field handler, the `completed` checkbox case, the rating widget,
  genre normalisation with JavaScript `split` semantics, the placeholder image
  and the submit handler, which posts and then navigates.
- `text.dfy` (module `Text`) holds the string primitives with JavaScript's
  meaning: ASCII `toLowerCase`, `includes`, `split`/`join` on one character,
  and the decimal text of a number inside a template literal.
  `optional.dfy` holds `Option`, which models `null`.

Behaviours kept as the code has them:

- The success alert reads "Book added successfully" for every verb, a `get`
  included.
- A failed request leaves `data` untouched.
- The submit handler navigates to `/` after the post whatever its outcome.
- The add form shows a rating of 3 while its draft holds `stars: null`. An
  untouched form therefore posts no stars.
- Alert timers are never cancelled. One might expect a new alert to cancel
  and restart the hide timer, but the code schedules a fresh `setTimeout` per
  alert and cancels none. The model keeps a queue of pending timers: every
  alert appends one, and a `Hide` is the oldest one firing, which hides
  whatever alert is current. After two quick requests the first fires while
  the second alert is up: it hides that alert, and the second alert's own
  timer is still pending (`EarlierTimerHidesLaterAlert`).
- The add form's alert is never left on screen after a submit. The hook
  settles only inside the submit handler, which then navigates to `/` and so
  unmounts the form; a failed submission does not stay on the form with its
  error visible.
- The list screen never renders its hook's alert. It takes only the data,
  the loading flag and the fetch from the hook, so a failed fetch shows an
  empty list with no message (`FailedFetchShowsNoCards`).
- A card's link puts the id text straight after `/book/`. A text id holding
  `?` or `#` is cut at that character by the router, and one holding `/`
  matches no detail route (`TextIdsThatDoNotRouteBack`).

## Model

| member | source | states |
|---|---|---|
| Requests.InitialIsIdle | src/services/useAxios.js:10-12 | A fresh hook has no data, is not loading, holds a hidden alert with empty message and type, and has no timer pending, so no timer can fire on it |
| Requests.Url | src/services/useAxios.js:35 | The target is the base URL, then one `/`, then the endpoint, and nothing else |
| Requests.ToHttp | src/services/useAxios.js:35-69 | Every verb targets the base URL, a slash and the endpoint; only `post` and `update` carry a payload |
| Requests.FromHttpToHttp | src/services/useAxios.js:49-69 | From the request alone one recovers the verb (get/post/put/delete), the endpoint and the payload |
| Requests.ToHttpInjective | src/services/useAxios.js:49-69 | Two calls against one base URL send the same request only if they are the same call |
| Requests.AlertFor | src/services/useAxios.js:36-40 | A success raises a visible alert with type `success` and "Book added successfully"; a failure raises a visible alert with type `error` whose message is "Error: " followed by the error's message, so the type tells the outcomes apart |
| Requests.ShowAlert | src/services/useAxios.js:19-24 | A new alert becomes visible with the given message and type and schedules its own timer behind those already pending, cancelling none; data and loading are untouched |
| Requests.HideAlert | src/services/useAxios.js:21-23 | The oldest pending timer fires and hides the current alert, whichever alert scheduled it, keeping its message and type; data and loading are untouched |
| Requests.Step | src/services/useAxios.js:32-42 | Start turns loading on and changes nothing else (the whole state is the old one with loading on); a resolution turns loading off, shows an alert and schedules one timer; success stores the body, failure keeps data |
| Requests.MakeRequest | src/services/useAxios.js:32-43 | One request always yields a state (no error reaches the caller): loading off, data replaced only on success, alert for the outcome, one more timer pending |
| Requests.SuccessAlertIgnoresVerb | src/services/useAxios.js:36-37 | A successful request ends in the same state whatever the verb, with the message "Book added successfully" |
| Requests.MakeRequestIsStartThenResolve | src/services/useAxios.js:33-41 | A request is exactly the event trace Start then Resolve |
| Requests.DataIsLastSuccess | src/services/useAxios.js:36-39 | After any trace, data is the body of the latest success, or the starting data if there was none |
| Requests.LoadingIsOutstanding | src/services/useAxios.js:34-41 | After any trace, loading is on exactly when the latest Start/Resolve event is a Start |
| Requests.TimersArePending | src/services/useAxios.js:19-24 | After any trace whose every timer firing had a pending timer, the hook holds one pending timer per alert raised minus timers fired |
| Requests.AlertFollowsLastOutcome | src/services/useAxios.js:19-39 | After any trace whose every timer firing had a pending timer, the alert carries the latest outcome's message and type, and is visible exactly when no timer fired since that outcome |
| Requests.LastAlertEventIsLastOutcome | src/services/useAxios.js:36-39 | When the last alert event is an outcome, it is the latest outcome |
| Requests.HideIdempotent | src/services/useAxios.js:21-23 | A second timer firing leaves the alert as the first left it; timers never touch data or loading |
| Requests.EarlierTimerHidesLaterAlert | src/services/useAxios.js:19-24 | After two requests from mount both alerts' timers are pending, oldest first; the first to fire is the first alert's, and it hides the second alert while the second alert's own timer stays pending |
| AddBook.Banner | src/routes/AddBook.jsx:93 | The form's alert banner is rendered exactly while the alert is shown, with its type and message |
| AddBook.BannerFollowsLastOutcome | src/routes/AddBook.jsx:93 | As a function of the hook state: after any hook trace from mount, the banner is present exactly when the last alert event is an outcome, and it is that outcome's type and message |
| Text.Lower | src/routes/Books.jsx:37 | `toLowerCase` keeps the length and folds each character on its own: ASCII capitals become small letters, every other character is kept |
| Text.Includes | src/routes/Books.jsx:37 | `includes` holds exactly when the needle occurs at some position of the text |
| Text.LowerIdempotent | src/routes/Books.jsx:37 | Lower-casing twice equals lower-casing once |
| Text.IncludesEmpty | src/routes/Books.jsx:37 | The empty term occurs in every name |
| Text.Split | src/routes/AddBook.jsx:44 | `split` on one character always yields at least one piece; its pieces, their count and their join are stated by the lemmas below |
| Text.JoinSplit | src/routes/AddBook.jsx:44 | Joining the pieces of a split with the separator gives back the string |
| Text.SplitJoin | src/routes/AddBook.jsx:44 | Splitting a join of at least one separator-free piece gives back the pieces |
| Text.SplitPiecesFree | src/routes/AddBook.jsx:44 | No piece of a split contains the separator |
| Text.SplitLength | src/routes/AddBook.jsx:44 | A split has one more piece than the string has separators |
| Text.Decimal | src/routes/Books.jsx:109 | The text a safe integer id takes in a template literal is a non-empty string of decimal digits; `DecimalRoundTrip` reads it back |
| Text.DecimalRoundTrip | src/routes/Books.jsx:109 | Reading back the decimal text of a numeric id gives the id |
| Text.DecimalInjective | src/routes/Books.jsx:109 | Different numeric ids render to different texts |
| BookList.Filter | src/routes/Books.jsx:36-38 | The array filter by the lower-cased term; what it keeps and in what order is stated by `FilterSelects` and `FilterIsSubsequence` |
| BookList.FilterSelects | src/routes/Books.jsx:35-39 | The filtered list holds exactly the books whose lower-cased name contains the lower-cased term, each as many times as in the input |
| BookList.FilterIsSubsequence | src/routes/Books.jsx:36 | The filtered list is an order-preserving subsequence of the books and no longer than them |
| BookList.FilterEmptyTermKeepsAll | src/routes/Books.jsx:37 | An empty term keeps every book, in order |
| BookList.FilterIdempotent | src/routes/Books.jsx:36-38 | Filtering the result again with the same term changes nothing |
| BookList.FilterAppend | src/routes/Books.jsx:36 | Filtering a concatenation is the concatenation of the filtered parts |
| BookList.FilterIgnoresTermCase | src/routes/Books.jsx:37 | Terms that lower-case alike select the same books |
| BookList.SyncFilter | src/routes/Books.jsx:33-41 | With books loaded, the list becomes the matching books; while books is null it keeps its value |
| BookList.ScreenStep | src/routes/Books.jsx:33-41 | Of the hook state and the term, a search edit changes only the term and a hook event only the hook state; the filtered list never changes while books is null |
| BookList.ScreenStepConsistent | src/routes/Books.jsx:33-41 | Every event keeps the filtered list equal to the filter of the loaded books, or `[]` before they arrive |
| BookList.ScreenAlwaysConsistent | src/routes/Books.jsx:25-41 | From mount on, after any events, the filtered list is `[]` until books arrive and then the filter of the books by the current term |
| BookList.MountFetch | src/routes/Books.jsx:27-31 | The mount effect fetches exactly when books is null, and then requests endpoint `books` |
| BookList.MountedScreenFetchesBooks | src/routes/Books.jsx:23-31 | A freshly mounted screen is consistent and sends GET `http://localhost:3000/books` |
| BookList.LinkTarget | src/routes/Books.jsx:109 | A card's link is `/book/` followed by the book's id text |
| BookList.PathName | src/App.jsx:36 | The path the router matches is the link up to, not including, its first `?` or `#`, and holds neither |
| BookList.TrimSlashes | src/App.jsx:36 | Route matching ignores trailing slashes: the trimmed path is a prefix of the path, does not end in `/`, and only slashes were dropped |
| BookList.RouteId | src/App.jsx:36 | A link routes to a book only with one non-empty segment after `/book/` holding no `/`, `?` or `#`, and that segment follows `/book/` in the link |
| BookList.RouteIdOfLink | src/routes/Books.jsx:109 | The detail route reads back the book's id from a card's link whenever the id text fills one path segment |
| BookList.NumericLinksRouteBack | src/routes/Books.jsx:109 | The link of a book with a numeric id always routes back to that id's decimal text |
| BookList.TextIdsThatDoNotRouteBack | src/routes/Books.jsx:109 | A text id `a?b` routes as `a`, and a text id `a/b` matches no detail route |
| BookList.LinkTargetsDistinguishNumericIds | src/routes/Books.jsx:109 | Books with numeric ids share a link exactly when they share the id |
| BookList.Render | src/routes/Books.jsx:23-120 | The spinner shows exactly while loading; the cards show exactly when not loading, one per filtered book in order, with its name and link; no alert banner is ever shown |
| BookList.FailedFetchShowsNoCards | src/routes/Books.jsx:23-53 | After a failed first fetch the hook holds a shown error alert that the list screen does not render: no banner, no spinner and an empty card list |
| BookList.RenderShowsFilteredBooks | src/routes/Books.jsx:33-115 | From mount, after any events, a screen not loading shows one card per book of the filter of the fetched books by the current term, in order, each a fetched book whose name contains the term case-insensitively, linking to its detail route; with no books yet it shows none |
| BookList.DuneListsOneCard | src/routes/Books.jsx:27-115 | Fetching one book Dune with id 1 and five stars shows one card titled Dune with five stars linking to `/book/1` |
| BookList.DuneSearch | src/routes/Books.jsx:36-38 | The term `DU` keeps the book Dune and the term `x` drops it |
| AddBook.InitialFormShape | src/routes/AddBook.jsx:23-33 | The initial draft has the eight properties, `stars` null, and the rating shown is 3 |
| AddBook.NormaliseGenres | src/routes/AddBook.jsx:44 | A string becomes comma-free pieces that join back to it, one more than its commas; any other value passes through |
| AddBook.NormaliseJoinedGenres | src/routes/AddBook.jsx:44 | A comma-joined list of comma-free genres normalises back to that list |
| AddBook.NormaliseFictionDrama | src/routes/AddBook.jsx:44 | `"Fiction,Drama"` normalises to `["Fiction", "Drama"]` |
| AddBook.NormaliseArrayAndEmpty | src/routes/AddBook.jsx:44 | An array passes through unchanged, and `""` normalises to `[""]` |
| AddBook.GenreChange | src/routes/AddBook.jsx:40-46 | Only `genres` changes, to the normalised value; the rating shown is untouched |
| AddBook.RateChange | src/routes/AddBook.jsx:52-58 | The rating shown and the draft's `stars` both become the new value; no other property changes |
| AddBook.FieldChange | src/routes/AddBook.jsx:64-71 | The property the event names takes `checked` (checkbox `completed`) or the text `value` (anything else); no other property changes |
| AddBook.OtherCheckboxStoresValue | src/routes/AddBook.jsx:66-69 | A checkbox under any name but `completed` stores its text value |
| AddBook.DraftKeysStable | src/routes/AddBook.jsx:40-71 | Edits that name the form's own inputs keep exactly the draft's eight properties |
| AddBook.WithDefaultImage | src/routes/AddBook.jsx:78-81 | The posted image is always truthy: a falsy image becomes the placeholder, a truthy one is kept, nothing else changes |
| AddBook.DefaultImageForText | src/routes/AddBook.jsx:80 | An empty image text becomes the placeholder URL; a non-empty one is kept |
| AddBook.DefaultImageIdempotent | src/routes/AddBook.jsx:80 | Substituting the default image twice equals substituting once |
| AddBook.PostHandler | src/routes/AddBook.jsx:76-84 | Submission prevents the default action, posts the draft with default image to `http://localhost:3001/books`, then navigates to `/`; the hook ends not loading, with the outcome's alert |
| AddBook.NavigatesWhateverOutcome | src/routes/AddBook.jsx:82-83 | The submission's actions, navigation included, are the same whether the post succeeds or fails |
| AddBook.UntouchedFormPostsNoStars | src/routes/AddBook.jsx:23-33 | Submitting an untouched form posts `stars: null` and the placeholder image, while the rating shown is 3 |

## Left out

- The axios transport: each call settles with an abstract `Outcome`, a body or an error message. Status codes, headers and JSON parsing are not modelled.
- `setTimeout` and the 5000 ms delay: real time is not modelled. Every timer has the same delay, so timers fire in the order they were scheduled; a `Hide` is the oldest pending timer firing. A `Hide` with no timer pending cannot happen, and the alert lemmas over traces (`AlertFollowsLastOutcome`, `BannerFollowsLastOutcome`) are stated for traces in which every `Hide` has a pending timer (`Feasible`).
- AddBook.BannerFollowsLastOutcome: speaks of the banner as a function of the hook state and assumes the form stays mounted through the trace. In the code the hook settles only inside the submit handler, whose navigation to `/` unmounts the form, so a banner is never left visible after a submit.
- Requests.HideIdempotent: a second firing consumes a second pending timer, so the whole hook state is not unchanged; only the alert, data and loading are promised unchanged.
- Overlapping in-flight requests: one request at a time. Their resolution-order race is concurrency and is not modelled.
- React itself: re-render mechanics, effect scheduling and the unmount of a screen while a request is pending. `ScreenStep` runs the filter effect after every event. With unchanged inputs the effect recomputes the same list, so this agrees with React running it only on a change.
- Event bubbling: the rating widget's native input change also reaches the form's change handler. The model treats the two handlers as separate events.
- MUI/JSX presentation: layout, styling and the search field. The view holds the spinner, an alert banner slot and the cards; each card holds the title, author, genres, image, stars and link it displays, and the contracts speak of the title and link.
- Unicode case folding: `toLowerCase` is modelled on ASCII letters only.
- Dates: `start`/`end` and the date picker values are opaque.
- The `bookGenres` list: `src/genres` is not part of this model.
- `src/App.jsx` (routing table, theme) and `src/routes/Root.jsx` (layout) hold no logic.
- `src/routes/SinglePage.jsx` is presentational. Its one call, `get("books/" + id)`, is a `GetCall` under the URL model. `RouteIdOfLink` covers the id handed to it from a card link.
- BookList.LinkTarget: numeric ids are non-negative safe integers (at most 2^53 - 1, so below 10^21). Their text in a template literal is plain decimal; negative, fractional, inexact or exponent-notation ids are not modelled.
- BookList.RouteIdOfLink: the round trip is promised only for ids whose text fills one path segment (non-empty, no `/`, `?` or `#`); every numeric id does (`NumericLinksRouteBack`), and `TextIdsThatDoNotRouteBack` shows what happens otherwise.
- BookList.RouteId: React Router's case-insensitive match of `/book/` and its percent-decoding of the parameter are not modelled.
