/** The MovieSearch component as a state machine. Each field is a piece of
    React state or a ref of the component; each handler is a method. Every
    asynchronous call is split into the step that issues it and the step that
    runs when it settles, so that the model serialises events one at a time.
    React's batched state updates are modelled by letting each handler read a
    snapshot of `hasMore` taken before any of its own updates. */
module Search {
  import opened Movies

  /** What the paginated search service answered: a page of results and
      whether it was the last one, or a failure. */
  datatype SearchResponse = Ok(content: seq<Movie>, last: bool) | Err

  /** What the detail service answered for one movie id. */
  datatype DetailResponse = Found(movie: Movie) | Failed

  /** A search request that was issued and has not settled. `thenSetPage`
      records whether the caller chained `pageRef.current = page` on it. */
  datatype Request = Request(query: string, page: nat, thenSetPage: bool)

  class MovieSearch {
    var searchText: string
    var suggestions: seq<MovieSuggestion>
    var selectedMovie: Option<Movie>
    var recentMovies: seq<MovieSuggestion>
    var hasMore: bool
    var pageRef: nat
    var isFetchingRef: bool
    /** The search request whose settlement is pending, if any. */
    var inFlight: Option<Request>
    /** The movies whose detail lookups are pending, in the order they were issued. */
    var pendingLookups: seq<MovieSuggestion>

    /** The fetch flag is up exactly while a search request is pending, only
        non-blank queries reach the service, and the recent list is bounded and
        free of duplicate ids. */
    ghost predicate Valid()
      reads this
    {
      (isFetchingRef <==> inFlight.Some?) &&
      (inFlight.Some? ==> !IsBlank(inFlight.value.query)) &&
      |recentMovies| <= RecentCapacity && NoDupIds(recentMovies)
    }

    /** The component's first render. */
    constructor ()
      ensures Valid()
      ensures searchText == [] && suggestions == [] && selectedMovie == None && recentMovies == []
      ensures hasMore && pageRef == 0 && !isFetchingRef
      ensures inFlight == None && pendingLookups == []
    {
      searchText := [];
      suggestions := [];
      selectedMovie := None;
      recentMovies := [];
      hasMore := true;
      pageRef := 0;
      isFetchingRef := false;
      inFlight := None;
      pendingLookups := [];
    }

    /** `fetchSuggestions(q, pageNumber)` up to its request. A blank query shows
        the recent list and ends pagination without any request. Otherwise the
        request is issued only when no other search is pending and `hasMore`,
        as the calling render saw it, holds; issuing it raises the fetch flag.
        Returns whether a request was issued. */
    method FetchSuggestions(q: string, pageNumber: nat, hasMoreSnapshot: bool, thenSetPage: bool)
      returns (issued: bool)
      requires Valid()
      modifies this
      ensures Valid()
      ensures issued <==> !IsBlank(q) && !old(isFetchingRef) && hasMoreSnapshot
      ensures IsBlank(q) ==> suggestions == old(recentMovies) && !hasMore
      ensures !IsBlank(q) ==> suggestions == old(suggestions) && hasMore == old(hasMore)
      ensures issued ==> isFetchingRef && inFlight == Some(Request(q, pageNumber, thenSetPage))
      ensures !issued ==> isFetchingRef == old(isFetchingRef) && inFlight == old(inFlight)
      ensures searchText == old(searchText) && selectedMovie == old(selectedMovie)
      ensures recentMovies == old(recentMovies) && pageRef == old(pageRef)
      ensures pendingLookups == old(pendingLookups)
    {
      issued := false;
      if IsBlank(q) {
        suggestions := recentMovies;
        hasMore := false;
        return;
      }
      if isFetchingRef || !hasMoreSnapshot {
        return;
      }
      isFetchingRef := true;
      inFlight := Some(Request(q, pageNumber, thenSetPage));
      issued := true;
    }

    /** The pending search request settles. A page of results is projected to
        suggestions, replaces the list for page 0 and is appended to it for any
        other page, and `hasMore` becomes `!last`; a failure changes neither.
        Either way the fetch flag drops, and a request issued by a scroll sets
        the page cursor to its page. The response is applied whatever the
        current search text is. */
    method CompleteFetch(response: SearchResponse)
      requires Valid() && inFlight.Some?
      modifies this
      ensures Valid()
      ensures var req := old(inFlight.value);
        (response.Ok? ==>
           suggestions == MergePage(old(suggestions), Project(response.content), req.page) &&
           hasMore == !response.last) &&
        (response.Err? ==> suggestions == old(suggestions) && hasMore == old(hasMore)) &&
        pageRef == (if req.thenSetPage then req.page else old(pageRef))
      ensures !isFetchingRef && inFlight == None
      ensures searchText == old(searchText) && selectedMovie == old(selectedMovie)
      ensures recentMovies == old(recentMovies) && pendingLookups == old(pendingLookups)
    {
      var req := inFlight.value;
      match response {
        case Ok(content, last) =>
          suggestions := MergePage(suggestions, Project(content), req.page);
          hasMore := !last;
        case Err =>
      }
      isFetchingRef := false;
      inFlight := None;
      if req.thenSetPage {
        pageRef := req.page;
      }
    }

    /** `handleChange`: the input now reads `value`, the page cursor is reset
        to 0 and `hasMore` to true. Blank text shows the recent list; other
        text requests page 0, which `fetchSuggestions` skips when a search is
        pending or when `hasMore` was false before this event. */
    method HandleChange(value: string)
      requires Valid()
      modifies this
      ensures Valid()
      ensures searchText == value && pageRef == 0 && hasMore
      ensures IsBlank(value) ==>
        suggestions == old(recentMovies) &&
        inFlight == old(inFlight) && isFetchingRef == old(isFetchingRef)
      ensures !IsBlank(value) ==>
        suggestions == old(suggestions) &&
        inFlight == (if !old(isFetchingRef) && old(hasMore) then Some(Request(value, 0, false))
                     else old(inFlight))
      ensures selectedMovie == old(selectedMovie) && recentMovies == old(recentMovies)
      ensures pendingLookups == old(pendingLookups)
    {
      var hasMoreSnapshot := hasMore;
      searchText := value;
      pageRef := 0;
      hasMore := true;
      if IsBlank(value) {
        suggestions := recentMovies;
      } else {
        var _ := FetchSuggestions(value, 0, hasMoreSnapshot, false);
      }
    }

    /** `handleFocus`: with blank text the dropdown shows the recent list. */
    method HandleFocus()
      requires Valid()
      modifies this
      ensures Valid()
      ensures suggestions == if IsBlank(searchText) then old(recentMovies) else old(suggestions)
      ensures searchText == old(searchText) && hasMore == old(hasMore) && pageRef == old(pageRef)
      ensures isFetchingRef == old(isFetchingRef) && inFlight == old(inFlight)
      ensures selectedMovie == old(selectedMovie) && recentMovies == old(recentMovies)
      ensures pendingLookups == old(pendingLookups)
    {
      if IsBlank(searchText) {
        suggestions := recentMovies;
      }
    }

    /** `handleScroll`, with the pixel test given as `nearBottom`. Near the
        bottom, with `hasMore` and non-blank text, it asks for page
        `pageRef + 1` and sets `pageRef` to that page once the call settles:
        when the request is issued, at its completion; when `fetchSuggestions`
        skips it because a search is pending, right away. The dropdown that
        receives the scroll is rendered only while there are suggestions. */
    method HandleScroll(nearBottom: bool)
      requires Valid()
      requires suggestions != []
      modifies this
      ensures Valid()
      ensures var triggered := nearBottom && old(hasMore) && !IsBlank(old(searchText));
        (triggered && !old(isFetchingRef) ==>
           isFetchingRef && inFlight == Some(Request(old(searchText), old(pageRef) + 1, true)) &&
           pageRef == old(pageRef)) &&
        (triggered && old(isFetchingRef) ==>
           inFlight == old(inFlight) && isFetchingRef && pageRef == old(pageRef) + 1) &&
        (!triggered ==>
           inFlight == old(inFlight) && isFetchingRef == old(isFetchingRef) && pageRef == old(pageRef))
      ensures searchText == old(searchText) && suggestions == old(suggestions) && hasMore == old(hasMore)
      ensures selectedMovie == old(selectedMovie) && recentMovies == old(recentMovies)
      ensures pendingLookups == old(pendingLookups)
    {
      if nearBottom && hasMore && !IsBlank(searchText) {
        var nextPage := pageRef + 1;
        var issued := FetchSuggestions(searchText, nextPage, hasMore, true);
        if !issued {
          pageRef := nextPage;
        }
      }
    }

    /** `handleSelect` up to its lookup, for a row of the dropdown: the input
        shows the movie's name and the dropdown empties, whatever the lookup
        will answer. */
    method HandleSelect(movie: MovieSuggestion)
      requires Valid()
      requires movie in suggestions
      modifies this
      ensures Valid()
      ensures searchText == movie.name && suggestions == []
      ensures pendingLookups == old(pendingLookups) + [movie]
      ensures selectedMovie == old(selectedMovie) && recentMovies == old(recentMovies)
      ensures hasMore == old(hasMore) && pageRef == old(pageRef)
      ensures isFetchingRef == old(isFetchingRef) && inFlight == old(inFlight)
    {
      searchText := movie.name;
      suggestions := [];
      pendingLookups := pendingLookups + [movie];
    }

    /** The detail lookup issued by the `i`-th pending selection settles
        (lookups may settle in any order). On success the detail becomes the
        selected movie and the movie moves to the front of the recent list; on
        failure both keep their previous values. */
    method CompleteSelect(i: nat, response: DetailResponse)
      requires Valid() && i < |pendingLookups|
      modifies this
      ensures Valid()
      ensures pendingLookups == old(pendingLookups[..i] + pendingLookups[i + 1..])
      ensures response.Found? ==>
        selectedMovie == Some(response.movie) &&
        recentMovies == RecordSelection(old(recentMovies), old(pendingLookups[i]))
      ensures response.Failed? ==>
        selectedMovie == old(selectedMovie) && recentMovies == old(recentMovies)
      ensures searchText == old(searchText) && suggestions == old(suggestions)
      ensures hasMore == old(hasMore) && pageRef == old(pageRef)
      ensures isFetchingRef == old(isFetchingRef) && inFlight == old(inFlight)
    {
      var movie := pendingLookups[i];
      pendingLookups := pendingLookups[..i] + pendingLookups[i + 1..];
      match response {
        case Found(detail) =>
          selectedMovie := Some(detail);
          RecordSelectionFront(recentMovies, movie);
          RecordSelectionNoDup(recentMovies, movie);
          recentMovies := RecordSelection(recentMovies, movie);
        case Failed =>
      }
    }

    /** The modal's `onClose`, which exists only while a movie is selected:
        no movie is selected any more. */
    method CloseModal()
      requires Valid()
      requires selectedMovie.Some?
      modifies this
      ensures Valid()
      ensures selectedMovie == None
      ensures searchText == old(searchText) && suggestions == old(suggestions)
      ensures recentMovies == old(recentMovies) && hasMore == old(hasMore) && pageRef == old(pageRef)
      ensures isFetchingRef == old(isFetchingRef) && inFlight == old(inFlight)
      ensures pendingLookups == old(pendingLookups)
    {
      selectedMovie := None;
    }
  }
}
