/** Verified event traces on the class: each method builds a fresh component,
    feeds it a sequence of user events and service responses, and states what
    the component then shows. */
module Scenarios {
  import opened Movies
  import opened Search

  /** A movie record with only an id and a name. */
  function DetailOf(id: int, name: string): Movie {
    Movie(id, name, None, None, None, None, None, None, None, None, None, None)
  }

  /** Typing a non-blank query shows its first page; scrolling to the bottom
      appends the next page, and the last page ends pagination. */
  method PagingScenario(q: string, page0: seq<Movie>, page1: seq<Movie>)
    returns (shown: seq<MovieSuggestion>, more: bool, page: nat)
    requires !IsBlank(q) && page0 != []
    ensures shown == Project(page0 + page1)
    ensures !more && page == 1
  {
    var w := new MovieSearch();
    w.HandleChange(q);
    assert w.inFlight == Some(Request(q, 0, false));
    w.CompleteFetch(Ok(page0, false));
    assert w.suggestions == Project(page0) && w.hasMore && w.pageRef == 0 && !w.isFetchingRef;
    w.HandleScroll(true);
    assert w.inFlight == Some(Request(q, 1, true));
    w.CompleteFetch(Ok(page1, true));
    ProjectAppend(page0, page1);
    shown, more, page := w.suggestions, w.hasMore, w.pageRef;
  }

  /** Search for `q`, receive `page` (not the last one), click the row of
      `m` in the dropdown and let its detail lookup settle with `response`. */
  method SearchAndSelect(w: MovieSearch, q: string, page: seq<Movie>, m: MovieSuggestion, response: DetailResponse)
    requires w.Valid() && !IsBlank(q) && w.hasMore && !w.isFetchingRef && w.pendingLookups == []
    requires m in Project(page)
    modifies w
    ensures w.Valid() && w.hasMore && !w.isFetchingRef && w.pendingLookups == []
    ensures w.searchText == m.name && w.suggestions == []
    ensures response.Found? ==>
      w.selectedMovie == Some(response.movie) && w.recentMovies == RecordSelection(old(w.recentMovies), m)
    ensures response.Failed? ==>
      w.selectedMovie == old(w.selectedMovie) && w.recentMovies == old(w.recentMovies)
  {
    w.HandleChange(q);
    w.CompleteFetch(Ok(page, false));
    w.HandleSelect(m);
    w.CompleteSelect(0, response);
  }

  /** Searching for `q` and selecting B, then searching again and selecting
      A, fills the recent list most-recent-first; clearing the input then
      shows that list without a request, and leaves `hasMore` true. */
  method BlankQueryScenario(q: string) returns (shown: seq<MovieSuggestion>, more: bool, requested: bool)
    requires !IsBlank(q)
    ensures shown == [MovieSuggestion(1, "A", None), MovieSuggestion(2, "B", None)]
    ensures more && !requested
  {
    var a := MovieSuggestion(1, "A", None);
    var b := MovieSuggestion(2, "B", None);
    var page := [DetailOf(2, "B"), DetailOf(1, "A")];
    assert Project(page) == [b, a];
    var w := new MovieSearch();
    SearchAndSelect(w, q, page, b, Found(DetailOf(2, "B")));
    assert w.recentMovies == [b] by {
      assert WithoutId([], 2) == [];
    }
    SearchAndSelect(w, q, page, a, Found(DetailOf(1, "A")));
    assert w.recentMovies == [a, b] by {
      assert WithoutId([b], 1) == [b];
    }
    assert IsBlank("");
    w.HandleChange("");
    shown, more, requested := w.suggestions, w.hasMore, w.inFlight.Some?;
  }

  /** A keystroke while a search is pending issues nothing, and the older
      response is applied when it arrives although the text has changed. */
  method StaleResponseScenario(q1: string, q2: string, page0: seq<Movie>)
    returns (text: string, shown: seq<MovieSuggestion>, requested: bool)
    requires !IsBlank(q1) && !IsBlank(q2)
    ensures text == q2 && shown == Project(page0) && !requested
  {
    var w := new MovieSearch();
    w.HandleChange(q1);
    w.HandleChange(q2);
    assert w.inFlight == Some(Request(q1, 0, false));
    w.CompleteFetch(Ok(page0, false));
    text, shown, requested := w.searchText, w.suggestions, w.inFlight.Some?;
  }

  /** Once a query has reached its last page, the next keystroke issues no
      request (its guard reads the `hasMore` of the previous render) and the
      old results stay; the keystroke after it does issue one. */
  method LastPageScenario(q1: string, q2: string, q3: string, page0: seq<Movie>)
    returns (firstRequested: bool, shown: seq<MovieSuggestion>, second: Option<Request>)
    requires !IsBlank(q1) && !IsBlank(q2) && !IsBlank(q3)
    ensures !firstRequested && shown == Project(page0)
    ensures second == Some(Request(q3, 0, false))
  {
    var w := new MovieSearch();
    w.HandleChange(q1);
    w.CompleteFetch(Ok(page0, true));
    w.HandleChange(q2);
    firstRequested, shown := w.inFlight.Some?, w.suggestions;
    w.HandleChange(q3);
    second := w.inFlight;
  }

  /** A failed page still advances the cursor, so the next scroll asks for
      the page after it. */
  method FailedPageScenario(q: string, page0: seq<Movie>)
    returns (shown: seq<MovieSuggestion>, next: Option<Request>)
    requires !IsBlank(q) && page0 != []
    ensures shown == Project(page0)
    ensures next == Some(Request(q, 2, true))
  {
    var w := new MovieSearch();
    w.HandleChange(q);
    w.CompleteFetch(Ok(page0, false));
    assert w.searchText == q && w.hasMore && w.pageRef == 0 && !w.isFetchingRef;
    w.HandleScroll(true);
    assert w.inFlight == Some(Request(q, 1, true));
    w.CompleteFetch(Err);
    assert w.searchText == q && w.hasMore && w.pageRef == 1 && !w.isFetchingRef;
    shown := w.suggestions;
    w.HandleScroll(true);
    next := w.inFlight;
  }

  /** A scroll while the first page of a new query is pending finds the fetch
      flag up, so the cursor moves to page 1 at once without a request. Once
      that first page has arrived, the next scroll asks for page 2, and page 1
      of the new query is never requested. */
  method SkippedPageScenario(q1: string, q2: string, page0: seq<Movie>, first: seq<Movie>)
    returns (shown: seq<MovieSuggestion>, next: Option<Request>)
    requires !IsBlank(q1) && !IsBlank(q2) && page0 != [] && first != []
    ensures shown == Project(first)
    ensures next == Some(Request(q2, 2, true))
  {
    var w := new MovieSearch();
    w.HandleChange(q1);
    w.CompleteFetch(Ok(page0, false));
    assert w.suggestions == Project(page0) && |Project(page0)| == |page0|;
    assert w.hasMore && !w.isFetchingRef;
    w.HandleChange(q2);
    assert w.searchText == q2 && w.hasMore && w.isFetchingRef && w.suggestions != [];
    assert w.inFlight == Some(Request(q2, 0, false));
    w.HandleScroll(true);
    assert w.pageRef == 1 && w.inFlight == Some(Request(q2, 0, false));
    w.CompleteFetch(Ok(first, false));
    assert w.suggestions == Project(first) && |Project(first)| == |first|;
    assert w.searchText == q2 && w.hasMore && w.pageRef == 1 && !w.isFetchingRef;
    shown := w.suggestions;
    w.HandleScroll(true);
    next := w.inFlight;
  }

  /** Selecting X from the results of `q` succeeds: the detail is shown, X
      becomes the only recent entry, and the dropdown is empty. Selecting Y
      from a second search fails: the selection and the recent list stay as
      they were, the input shows Y's name and the dropdown is empty. */
  method SelectScenario(q: string) returns (selected: Option<Movie>, recent: seq<MovieSuggestion>,
                                            failedSelected: Option<Movie>, failedRecent: seq<MovieSuggestion>,
                                            text: string, shown: seq<MovieSuggestion>)
    requires !IsBlank(q)
    ensures selected == Some(DetailOf(5, "X")) && recent == [MovieSuggestion(5, "X", None)]
    ensures failedSelected == selected && failedRecent == recent
    ensures text == "Y" && shown == []
  {
    var x := MovieSuggestion(5, "X", None);
    var y := MovieSuggestion(6, "Y", None);
    var page := [DetailOf(5, "X"), DetailOf(6, "Y")];
    assert Project(page) == [x, y];
    var w := new MovieSearch();
    SearchAndSelect(w, q, page, x, Found(DetailOf(5, "X")));
    assert w.recentMovies == [x] by {
      assert WithoutId([], 5) == [];
    }
    selected, recent := w.selectedMovie, w.recentMovies;
    SearchAndSelect(w, q, page, y, Failed);
    failedSelected, failedRecent, text, shown := w.selectedMovie, w.recentMovies, w.searchText, w.suggestions;
  }
}
