# MovieSearch widget: a verified model

This project models the search widget of the movies frontend (`MovieSearch`)
in Dafny. It covers the state machine behind the input box and its dropdown:
- typing a query resets the page cursor and asks the search service for page 0;
- scrolling near the bottom of the dropdown asks for the next page and appends it;
- a blank query shows the list of recently selected movies instead;
- selecting a suggestion asks the detail service for the full movie, shows it
  in the modal and moves the movie to the front of a recent list of at most ten entries.

Files:

- `movies.dfy` (module `Movies`): the records, and the pure expressions the
  handlers are built from. These are JavaScript's `trim` test for a blank query,
  the projection of search results to suggestions, the replace-or-append page
  merge, and the filter/prepend/slice update of the recent list. Lemmas state
  what these expressions guarantee.
- `search.dfy` (module `Search`): the component as the class
  `MovieSearch`. Its fields are the component's state (`searchText`,
  `suggestions`, `selectedMovie`, `recentMovies`, `hasMore`) and refs
  (`pageRef`, `isFetchingRef`). Each handler is a method.
- `scenarios.dfy` (module `Scenarios`): verified event traces on the class,
  each stating what the widget shows at the end.

How the model treats time and the services:

- Each asynchronous call is split into an issue step and a completion step.
  - Search: `FetchSuggestions` issues the request. `CompleteFetch` is the
    settlement and takes the response as a parameter: `Ok(content, last)` or `Err`.
  - Detail lookup: `HandleSelect` issues it. `CompleteSelect` settles it and
    takes `Found(movie)` or `Failed`.
  - At most one search request can be pending, because `isFetchingRef`
    guards it. The field `inFlight` records that request.
  - Any number of detail lookups can be pending. `pendingLookups` records
    them, and `CompleteSelect` settles any one of them, so they may settle in any order.
- React applies state updates after the handler returns. So the guard in
  `fetchSuggestions` reads `hasMore` as the current render saw it, even when
  `handleChange` has just called `setHasMore(true)`. The model passes that
  pre-event value explicitly (`hasMoreSnapshot`). Refs change immediately.
- `handleScroll` chains `pageRef.current = nextPage` on the settled call.
  - If `fetchSuggestions` skipped the request, the call settles at once, and
    `HandleScroll` sets the cursor itself.
  - If the request was issued, the cursor is set when it completes, whether
    it succeeded or failed (`Request.thenSetPage`).
- The DOM test "scrolled to within 20 px of the bottom" is the boolean
  parameter `nearBottom` of `HandleScroll`.
- An event arrives only where the rendered page offers it. The dropdown that
  receives scrolls exists only while there are suggestions (src/MovieSearch.tsx:124-127).
  A selection is a click on one of its rows (src/MovieSearch.tsx:138-143). The
  modal's close button exists only while a movie is selected (src/MovieSearch.tsx:178).
  These are the preconditions of `HandleScroll`, `HandleSelect` and `CloseModal`.

Behaviour of the code worth knowing:

- There is no stale-response suppression. A completed search response is
  always applied, whatever the input reads by then (`StaleResponseScenario`).
  The only protection is the `isFetchingRef` flag. A keystroke made while a
  search is pending issues no request at all.
- `handleChange` with blank text sets `hasMore` to true, not false. For blank
  text only the blank branch of `fetchSuggestions` would set it to false, and
  no handler reaches that branch, because both callers test for blank text
  first (`BlankQueryScenario`).
- After a query has reached its last page, the next keystroke issues no
  request. Its guard reads the old `hasMore`, which is false. The keystroke
  after that one does issue a request (`LastPageScenario`).
- A failed page still advances `pageRef`, so the next scroll asks for the
  page after the failed one (`FailedPageScenario`).
- A scroll while the first page of a new query is pending finds the fetch
  flag up. `fetchSuggestions` returns at once, so `pageRef` moves from 0 to 1
  without a request. The next scroll after that page arrives asks for page 2,
  and page 1 of the new query is never requested (`SkippedPageScenario`).
- A failed detail lookup leaves the previous `selectedMovie` in place; it does
  not clear it.

## Model

| member | source | states |
|---|---|---|
| Movies.TrimStartSpec | src/MovieSearch.tsx:34 | the leading strip `TrimStart(q)` is a suffix of the query, every dropped character is JavaScript whitespace, and the result does not start with whitespace |
| Movies.TrimEndSpec | src/MovieSearch.tsx:34 | the trailing strip `TrimEnd(q)` is a prefix, every dropped character is whitespace, and the result does not end with whitespace |
| Movies.IsWhitespace | src/MovieSearch.tsx:34 | the set of characters `trim` strips: the ECMAScript WhiteSpace and LineTerminator code points |
| Movies.WhitespaceIsOneCodeUnit | src/MovieSearch.tsx:34 | every character `trim` strips lies in the Basic Multilingual Plane, so code points and UTF-16 code units agree on it |
| Movies.Trim | src/MovieSearch.tsx:34 | `q.trim()` is no longer than `q` and neither starts nor ends with whitespace |
| Movies.TrimBounds | src/MovieSearch.tsx:34 | the cut points `a <= b` of `q.trim()` within `q`: the result is `q[a..b]`, and every character before `a` and from `b` on is whitespace |
| Movies.TrimIsInfix | src/MovieSearch.tsx:34 | `q.trim()` is a contiguous part `q[a..b]` of the query, and every character before `a` and from `b` on is whitespace, so only leading and trailing whitespace is removed |
| Movies.TrimEmptyIffAllWhitespace | src/MovieSearch.tsx:34 | a string trims to the empty string exactly when every character is whitespace (both directions) |
| Movies.IsBlank | src/MovieSearch.tsx:34 | the blank test used at lines 34, 70, 75 and 97 holds exactly when every character of the query is whitespace (both directions) |
| Movies.ToSuggestion | src/MovieSearch.tsx:47-51 | the map callback keeps the result's id, name and thumbnailUrl |
| Movies.ToSuggestionDropsDetails | src/MovieSearch.tsx:47-51 | two results give the same suggestion exactly when they agree on id, name and thumbnailUrl, so no detail field reaches the dropdown |
| Movies.Project | src/MovieSearch.tsx:47-51 | one suggestion per search result, in the same order, with that result's id, name and thumbnailUrl |
| Movies.ProjectAppend | src/MovieSearch.tsx:47-54 | projecting two pages one after the other gives the projection of the concatenated pages |
| Movies.MergePage | src/MovieSearch.tsx:53-54 | page 0 replaces the list with the new page; any other page keeps the old list as a prefix and puts the new page after it |
| Movies.WithoutId | src/MovieSearch.tsx:84 | the filter keeps exactly the entries whose id differs (membership in both directions), as a subsequence of the list, and removes as many entries as carry the id |
| Movies.WithoutIdNoDup | src/MovieSearch.tsx:84 | filtering a list without duplicate ids leaves a list without duplicate ids |
| Movies.WithoutAbsentId | src/MovieSearch.tsx:84 | filtering out an id that no entry carries returns the list unchanged |
| Movies.RecordSelection | src/MovieSearch.tsx:83-86 | the recent-list update puts the selected movie first and keeps between 1 and 10 entries |
| Movies.Take | src/MovieSearch.tsx:85 | `slice(0, n)` returns a prefix of length at most `n`, and the whole list when it is no longer than `n` |
| Movies.RecordSelectionFront | src/MovieSearch.tsx:83-86 | after an update the selected movie is first; every other entry has another id and was in the list before; the list has between 1 and 10 entries |
| Movies.RecordSelectionKeepsOrder | src/MovieSearch.tsx:84-85 | the entries after the first are a prefix of the filtered list and a subsequence of the old list, so their relative order is kept |
| Movies.RecordSelectionLength | src/MovieSearch.tsx:84-85 | the new length is one plus the entries with other ids, capped at 10 |
| Movies.PrependPrefixNoDup | src/MovieSearch.tsx:84-85 | an entry with a new id in front of a duplicate-free list, cut to any length, leaves no duplicate ids |
| Movies.RecordSelectionNoDup | src/MovieSearch.tsx:84-85 | a recent list without duplicate ids has none after an update |
| Movies.RecordSelectionReselect | src/MovieSearch.tsx:84-85 | re-selecting a movie already in a duplicate-free list of at most 10 entries puts it first and leaves the length unchanged |
| Movies.RecordSelectionNew | src/MovieSearch.tsx:84-85 | selecting a movie whose id is absent prepends it; on a full list of 10 the oldest entry is dropped |
| Movies.RecordSelectionIdempotent | src/MovieSearch.tsx:84-85 | selecting the same movie twice in a row gives the same list as selecting it once |
| Search.MovieSearch.Valid | src/MovieSearch.tsx:23-30 | the object invariant: the fetch flag is up exactly while a search request is pending, only non-blank queries are pending, and the recent list has at most 10 entries and no duplicate ids |
| Search.MovieSearch.constructor | src/MovieSearch.tsx:23-30 | initial state: empty text, suggestions and recent list, no selection, `hasMore` true, page 0, no fetch in flight |
| Search.MovieSearch.FetchSuggestions | src/MovieSearch.tsx:33-45 | a blank query shows the recent list and sets `hasMore` false without a request; otherwise a request is issued exactly when no search is in flight and the pre-event `hasMore` holds, and issuing it raises the fetch flag; nothing else changes |
| Search.MovieSearch.CompleteFetch | src/MovieSearch.tsx:47-61 | a success merges the projected page (page 0 replaces, any other page appends) and sets `hasMore` to `!last`; a failure leaves suggestions and `hasMore` unchanged; either way the fetch flag drops, and a scroll-issued request sets `pageRef` to its page (lines 100-102); the response is applied whatever the current text |
| Search.MovieSearch.HandleChange | src/MovieSearch.tsx:64-72 | sets the text, resets `pageRef` to 0 and `hasMore` to true; blank text shows the recent list, other text requests page 0 exactly when no search is in flight and the pre-event `hasMore` holds |
| Search.MovieSearch.HandleFocus | src/MovieSearch.tsx:74-76 | with blank text the suggestions become the recent list; otherwise nothing changes |
| Search.MovieSearch.HandleScroll | src/MovieSearch.tsx:92-104 | for a dropdown with suggestions (lines 124-127): near the bottom, with `hasMore` and non-blank text: requests page `pageRef + 1` when no search is in flight and defers the cursor update to its completion; when a search is in flight, advances `pageRef` at once; otherwise changes nothing |
| Search.MovieSearch.HandleSelect | src/MovieSearch.tsx:77-81 | for a row of the dropdown (lines 138-143): the input shows the movie's name and the suggestions are empty before any lookup; the lookup is added to the pending ones |
| Search.MovieSearch.CompleteSelect | src/MovieSearch.tsx:80-89 | on success the detail becomes the selected movie and the recent list gets the bounded most-recent-first update; on failure both keep their previous values; the settled lookup leaves the pending ones |
| Search.MovieSearch.CloseModal | src/MovieSearch.tsx:178 | while a movie is selected: the selection is cleared and nothing else changes |
| Scenarios.PagingScenario | src/MovieSearch.tsx:53-56 | a non-blank query, a non-empty page-0 response that is not last, a scroll and a last page-1 response leave the projection of both pages in order, with `hasMore` false and `pageRef` 1 |
| Scenarios.SearchAndSelect | src/MovieSearch.tsx:64-89 | searching, receiving a page that is not the last, clicking one of its rows and settling the lookup leaves the name in the input, an empty dropdown, no pending request, and the selection and recent list updated on success and unchanged on failure |
| Scenarios.BlankQueryScenario | src/MovieSearch.tsx:64-70 | after selecting B and then A from search results, clearing the input shows [A, B], leaves `hasMore` true and issues no request |
| Scenarios.StaleResponseScenario | src/MovieSearch.tsx:39-61 | a second keystroke while the first query's request is pending issues nothing, and the first query's response is shown under the second query's text |
| Scenarios.LastPageScenario | src/MovieSearch.tsx:39 | after a last-page response, the next keystroke issues no request and the old results stay; the one after it requests page 0 |
| Scenarios.FailedPageScenario | src/MovieSearch.tsx:99-102 | after a non-empty page 0, a failed page-1 request keeps the results but advances the cursor, so the next scroll requests page 2 |
| Scenarios.SkippedPageScenario | src/MovieSearch.tsx:99-102 | a scroll while page 0 of a new query is pending advances the cursor to 1 without a request, so the next scroll after that page arrives requests page 2 |
| Scenarios.SelectScenario | src/MovieSearch.tsx:77-89 | a successful selection from search results shows the detail and makes the movie the only recent entry; a later failed selection from a second search keeps both, with the new name in the input and an empty dropdown |

## Left out

- `src/MovieModal.tsx` is not part of this model. It is rendering, and its only logic is a wrapper around `JSON.parse`, a foreign decoder.
- The HTTP calls (src/MovieSearch.tsx:43-45, 81) and their URLs: the service answers are parameters of `CompleteFetch` and `CompleteSelect`.
- `console.error` logging on failures: it is an observability side effect only.
- The scroll arithmetic on `scrollTop`, `clientHeight` and `scrollHeight` with its 20 px threshold is a browser pixel measurement, replaced by the boolean `nearBottom`.
- JSX, styling and the "Recent" highlight of dropdown rows (src/MovieSearch.tsx:106-180) are presentation.
- Real asynchrony and React's re-rendering: events are serialised one at a time, and state updates within a handler are modelled by the pre-event snapshot of `hasMore`.
- The `.then` continuation of a skipped scroll request runs as a microtask. It is modelled as running inside `HandleScroll`, that is, before any other event.
- `Movies.IsWhitespace` works on Unicode code points, while JavaScript strings are UTF-16 code units. Every character `trim` strips lies in the Basic Multilingual Plane, so the blank test is the same.
- Movie ids, years and ratings are JavaScript numbers; the model takes ids and years as `int` and ratings as `real`, and does not model fractional or non-finite ids.
- Movies.Trim: its own contract gives only the length bound and the absence of whitespace at either end. Which characters it keeps is stated by the lemma `TrimIsInfix` rather than on the function, because every handler tests `IsBlank`, and carrying the existential in `Trim`'s contract makes the handler proofs too expensive. For the same reason the facts about `TrimStart` and `TrimEnd` are the lemmas `TrimStartSpec` and `TrimEndSpec`.
