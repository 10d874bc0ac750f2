/** Records of the movie search widget and the pure expressions its handlers
    are built from: the blank-query test, the projection of search results to
    suggestions, the page merge and the bounded recent-movies update. */
module Movies {

  datatype Option<+T> = None | Some(value: T)

  /** The lightweight record listed in the dropdown and kept in the recent list. */
  datatype MovieSuggestion = MovieSuggestion(id: int, name: string, thumbnailUrl: Option<string>)

  /** The full record the search and detail services return. */
  datatype Movie = Movie(
    id: int,
    name: string,
    thumbnailUrl: Option<string>,
    description: Option<string>,
    releaseDate: Option<string>,
    year: Option<int>,
    genres: Option<string>,
    actors: Option<string>,
    directors: Option<string>,
    imageUrl: Option<string>,
    rating: Option<real>,
    duration: Option<string>)

  /** How many entries the recent list keeps (`slice(0, 10)`). */
  const RecentCapacity: nat := 10

  // ---------------------------------------------------------------------------
  // The blank-query test: `q.trim()` is empty.
  // ---------------------------------------------------------------------------

  /** The characters JavaScript's `String.prototype.trim` strips: the
      ECMAScript WhiteSpace (tab, vertical tab, form feed, the byte order mark
      and every space separator) and LineTerminator code points. All of them
      lie in the Basic Multilingual Plane, so each is one UTF-16 code unit. */
  predicate IsWhitespace(c: char) {
    var n := c as int;
    n == 0x09 || n == 0x0A || n == 0x0B || n == 0x0C || n == 0x0D || n == 0x20 ||
    n == 0xA0 || n == 0x1680 || (0x2000 <= n <= 0x200A) || n == 0x2028 || n == 0x2029 ||
    n == 0x202F || n == 0x205F || n == 0x3000 || n == 0xFEFF
  }

  /** Each character `trim` strips is a single UTF-16 code unit. */
  lemma WhitespaceIsOneCodeUnit(c: char)
    ensures IsWhitespace(c) ==> c as int < 0x10000
  {
  }

  predicate AllWhitespace(s: string) {
    forall i :: 0 <= i < |s| ==> IsWhitespace(s[i])
  }

  /** `s` without its leading whitespace. */
  function TrimStart(s: string): string {
    if s != [] && IsWhitespace(s[0]) then TrimStart(s[1..]) else s
  }

  /** `TrimStart(s)` is a suffix of `s`, every character it drops is
      whitespace, and it starts with a non-whitespace character. */
  lemma {:induction false} TrimStartSpec(s: string)
    ensures var r := TrimStart(s);
      |r| <= |s| && r == s[|s| - |r|..] &&
      (forall i :: 0 <= i < |s| - |r| ==> IsWhitespace(s[i])) &&
      (r == [] || !IsWhitespace(r[0]))
  {
    if s != [] && IsWhitespace(s[0]) {
      TrimStartSpec(s[1..]);
      var r := TrimStart(s);
      assert r == s[1..][|s| - 1 - |r|..];
      assert forall i :: 1 <= i < |s| - |r| ==> s[i] == s[1..][i - 1];
    }
  }

  /** `s` without its trailing whitespace. */
  function TrimEnd(s: string): string {
    if s != [] && IsWhitespace(s[|s| - 1]) then TrimEnd(s[..|s| - 1]) else s
  }

  /** `TrimEnd(s)` is a prefix of `s`, every character it drops is
      whitespace, and it ends with a non-whitespace character. */
  lemma {:induction false} TrimEndSpec(s: string)
    ensures var r := TrimEnd(s);
      |r| <= |s| && r == s[..|r|] &&
      (forall i :: |r| <= i < |s| ==> IsWhitespace(s[i])) &&
      (r == [] || !IsWhitespace(r[|r| - 1]))
  {
    if s != [] && IsWhitespace(s[|s| - 1]) {
      TrimEndSpec(s[..|s| - 1]);
      var r := TrimEnd(s);
      assert r == s[..|s| - 1][..|r|];
      assert forall i :: |r| <= i < |s| - 1 ==> s[i] == s[..|s| - 1][i];
    }
  }

  /** `s.trim()`: no longer than `s`, and neither starting nor ending with
      whitespace; `TrimIsInfix` says which characters it keeps. */
  function Trim(s: string): (r: string)
    ensures |r| <= |s|
    ensures r == [] || (!IsWhitespace(r[0]) && !IsWhitespace(r[|r| - 1]))
  {
    var t := TrimStart(s);
    TrimStartSpec(s);
    TrimEndSpec(t);
    var r := TrimEnd(t);
    assert r != [] ==> r[0] == t[0];
    r
  }

  /** The cut points of `s.trim()` within `s`: everything before `a` and from
      `b` on is whitespace. */
  lemma TrimBounds(s: string) returns (a: nat, b: nat)
    ensures a <= b <= |s| && Trim(s) == s[a..b]
    ensures forall i :: 0 <= i < a ==> IsWhitespace(s[i])
    ensures forall i :: b <= i < |s| ==> IsWhitespace(s[i])
  {
    var t := TrimStart(s);
    TrimStartSpec(s);
    var r := TrimEnd(t);
    TrimEndSpec(t);
    a := |s| - |t|;
    b := a + |r|;
    assert r == s[a..b];
    forall i | b <= i < |s|
      ensures IsWhitespace(s[i])
    {
      assert s[i] == t[i - a];
    }
  }

  /** `s.trim()` is the contiguous part of `s` left once only leading and
      trailing whitespace is removed. */
  lemma TrimIsInfix(s: string)
    ensures exists a, b ::
              0 <= a <= b <= |s| && Trim(s) == s[a..b] &&
              (forall i :: 0 <= i < a ==> IsWhitespace(s[i])) &&
              (forall i :: b <= i < |s| ==> IsWhitespace(s[i]))
  {
    var a, b := TrimBounds(s);
  }

  /** A string trims to nothing exactly when every character of it is whitespace. */
  lemma TrimEmptyIffAllWhitespace(s: string)
    ensures Trim(s) == [] <==> AllWhitespace(s)
  {
    var t := TrimStart(s);
    TrimStartSpec(s);
    TrimEndSpec(t);
    assert t != [] ==> t[0] == s[|s| - |t|];
    if !AllWhitespace(s) {
      var i :| 0 <= i < |s| && !IsWhitespace(s[i]);
      assert t[i - (|s| - |t|)] == s[i];
    }
  }

  /** The handlers' test `!q.trim()` / `q.trim() === ""`: it holds exactly
      when every character of the query is whitespace. */
  predicate IsBlank(s: string): (b: bool)
    ensures b <==> AllWhitespace(s)
  {
    TrimEmptyIffAllWhitespace(s);
    Trim(s) == []
  }

  // ---------------------------------------------------------------------------
  // Search results: projection to suggestions and the page merge.
  // ---------------------------------------------------------------------------

  /** One result of `content.map(...)`: id, name and thumbnailUrl of the movie. */
  function ToSuggestion(m: Movie): (s: MovieSuggestion)
    ensures s.id == m.id && s.name == m.name && s.thumbnailUrl == m.thumbnailUrl
  {
    MovieSuggestion(m.id, m.name, m.thumbnailUrl)
  }

  /** The detail fields play no part in a suggestion: two movies give the
      same suggestion exactly when they agree on id, name and thumbnailUrl. */
  lemma ToSuggestionDropsDetails(a: Movie, b: Movie)
    ensures ToSuggestion(a) == ToSuggestion(b) <==>
      a.id == b.id && a.name == b.name && a.thumbnailUrl == b.thumbnailUrl
  {
  }

  /** `res.data.content.map(m => ({id, name, thumbnailUrl}))`: one suggestion
      per result, in the same order, keeping only the three listed fields. */
  function Project(content: seq<Movie>): (r: seq<MovieSuggestion>)
    ensures |r| == |content|
    ensures forall i :: 0 <= i < |r| ==>
      r[i].id == content[i].id && r[i].name == content[i].name &&
      r[i].thumbnailUrl == content[i].thumbnailUrl
  {
    if content == [] then [] else [ToSuggestion(content[0])] + Project(content[1..])
  }

  /** Projection distributes over concatenation of result pages. */
  lemma {:induction false} ProjectAppend(a: seq<Movie>, b: seq<Movie>)
    ensures Project(a + b) == Project(a) + Project(b)
  {
    if a != [] {
      assert (a + b)[1..] == a[1..] + b;
      ProjectAppend(a[1..], b);
    }
  }

  /** Page 0 replaces the list with the new page; any other page appends it,
      so the previous list is a prefix of the result. */
  function MergePage(prev: seq<MovieSuggestion>, movies: seq<MovieSuggestion>, page: int): (r: seq<MovieSuggestion>)
    ensures page == 0 ==> r == movies
    ensures page != 0 ==> prev <= r && r[|prev|..] == movies
  {
    if page == 0 then movies else prev + movies
  }

  // ---------------------------------------------------------------------------
  // The recent list: `[movie, ...prev.filter(m => m.id !== movie.id)].slice(0, 10)`.
  // ---------------------------------------------------------------------------

  predicate HasId(s: seq<MovieSuggestion>, id: int) {
    exists i :: 0 <= i < |s| && s[i].id == id
  }

  /** No two entries share an id. */
  predicate NoDupIds(s: seq<MovieSuggestion>) {
    forall i, j :: 0 <= i < j < |s| ==> s[i].id != s[j].id
  }

  /** `a` is obtained from `b` by deleting entries, keeping the order of the rest. */
  predicate IsSubsequence<T(==)>(a: seq<T>, b: seq<T>)
    decreases |b|
  {
    a == [] ||
    (b != [] && ((a[0] == b[0] && IsSubsequence(a[1..], b[1..])) || IsSubsequence(a, b[1..])))
  }

  lemma HasIdCons(s: seq<MovieSuggestion>, id: int)
    requires s != []
    ensures HasId(s, id) <==> s[0].id == id || HasId(s[1..], id)
  {
    if HasId(s[1..], id) {
      var k :| 0 <= k < |s[1..]| && s[1..][k].id == id;
      assert s[k + 1].id == id;
    }
    if HasId(s, id) {
      var k :| 0 <= k < |s| && s[k].id == id;
      if k > 0 {
        assert s[1..][k - 1].id == id;
      }
    }
  }

  lemma NoDupIdsCons(s: seq<MovieSuggestion>)
    requires s != []
    ensures NoDupIds(s) <==> !HasId(s[1..], s[0].id) && NoDupIds(s[1..])
  {
    var t := s[1..];
    if NoDupIds(s) {
      forall k | 0 <= k < |t| ensures t[k].id != s[0].id {
        assert t[k] == s[k + 1];
      }
      forall i, j | 0 <= i < j < |t| ensures t[i].id != t[j].id {
        assert t[i] == s[i + 1] && t[j] == s[j + 1];
      }
    }
    if !HasId(t, s[0].id) && NoDupIds(t) {
      forall i, j | 0 <= i < j < |s| ensures s[i].id != s[j].id {
        assert s[j] == t[j - 1];
        if i > 0 {
          assert s[i] == t[i - 1];
        }
      }
    }
  }

  /** Every id of a list is an id of any list holding all of its entries. */
  lemma HasIdMono(a: seq<MovieSuggestion>, b: seq<MovieSuggestion>, id: int)
    requires forall x :: x in a ==> x in b
    ensures HasId(a, id) ==> HasId(b, id)
  {
    if HasId(a, id) {
      var k :| 0 <= k < |a| && a[k].id == id;
      assert a[k] in a;
      var m :| 0 <= m < |b| && b[m] == a[k];
    }
  }

  /** How many entries of `s` carry `id`. */
  function CountId(s: seq<MovieSuggestion>, id: int): (n: nat)
    ensures n <= |s|
    ensures n == 0 <==> !HasId(s, id)
  {
    if s == [] then 0
    else
      HasIdCons(s, id);
      (if s[0].id == id then 1 else 0) + CountId(s[1..], id)
  }

  /** `s.filter(m => m.id !== id)`: the entries with another id, in their order. */
  function WithoutId(s: seq<MovieSuggestion>, id: int): (r: seq<MovieSuggestion>)
    ensures |r| == |s| - CountId(s, id)
    ensures forall x :: x in r <==> x in s && x.id != id
    ensures IsSubsequence(r, s)
  {
    if s == [] then []
    else
      var rest := WithoutId(s[1..], id);
      assert forall x :: x in s <==> x == s[0] || x in s[1..] by {
        assert s == [s[0]] + s[1..];
      }
      if s[0].id != id then
        assert ([s[0]] + rest)[1..] == rest;
        [s[0]] + rest
      else
        assert rest != [] ==> rest[0] in rest && rest[0] != s[0];
        rest
  }

  /** A prefix of a subsequence is a subsequence. */
  lemma {:induction false} SubsequencePrefix<T>(p: seq<T>, a: seq<T>, b: seq<T>)
    requires IsSubsequence(a, b) && p <= a
    ensures IsSubsequence(p, b)
    decreases |b|
  {
    if p != [] {
      if a[0] == b[0] && IsSubsequence(a[1..], b[1..]) {
        SubsequencePrefix(p[1..], a[1..], b[1..]);
      } else {
        SubsequencePrefix(p, a, b[1..]);
      }
    }
  }

  /** Filtering out an id keeps the ids of what remains distinct. */
  lemma {:induction false} WithoutIdNoDup(s: seq<MovieSuggestion>, id: int)
    requires NoDupIds(s)
    ensures NoDupIds(WithoutId(s, id))
    decreases |s|
  {
    if s != [] {
      var rest := WithoutId(s[1..], id);
      NoDupIdsCons(s);
      WithoutIdNoDup(s[1..], id);
      if s[0].id != id {
        var r := [s[0]] + rest;
        assert r[1..] == rest;
        HasIdMono(rest, s[1..], s[0].id);
        NoDupIdsCons(r);
      }
    }
  }

  /** Filtering out an id no entry carries changes nothing. */
  lemma {:induction false} WithoutAbsentId(s: seq<MovieSuggestion>, id: int)
    requires !HasId(s, id)
    ensures WithoutId(s, id) == s
    decreases |s|
  {
    if s != [] {
      HasIdCons(s, id);
      WithoutAbsentId(s[1..], id);
      assert s == [s[0]] + s[1..];
    }
  }

  /** A list without duplicate ids holds a present id exactly once. */
  lemma {:induction false} CountIdOnce(s: seq<MovieSuggestion>, id: int)
    requires NoDupIds(s) && HasId(s, id)
    ensures CountId(s, id) == 1
    decreases |s|
  {
    HasIdCons(s, id);
    NoDupIdsCons(s);
    if s[0].id != id {
      CountIdOnce(s[1..], id);
    }
  }

  /** `arr.slice(0, n)`: the whole sequence when it is no longer than `n`. */
  function Take<T>(s: seq<T>, n: nat): (r: seq<T>)
    ensures |r| == if |s| <= n then |s| else n
    ensures r <= s
  {
    if |s| <= n then s else s[..n]
  }

  /** The `setRecentMovies` update of handleSelect after a successful lookup:
      the selected movie first, and at most `RecentCapacity` entries. */
  function RecordSelection(recent: seq<MovieSuggestion>, movie: MovieSuggestion): (r: seq<MovieSuggestion>)
    ensures 1 <= |r| <= RecentCapacity && r[0] == movie
  {
    Take([movie] + WithoutId(recent, movie.id), RecentCapacity)
  }

  /** The selected movie comes first, every other entry has another id and was
      in the list before, and the list never exceeds its capacity. */
  lemma RecordSelectionFront(recent: seq<MovieSuggestion>, movie: MovieSuggestion)
    ensures var r := RecordSelection(recent, movie);
      1 <= |r| <= RecentCapacity && r[0] == movie &&
      forall i :: 1 <= i < |r| ==> r[i].id != movie.id && r[i] in recent
  {
    var w := WithoutId(recent, movie.id);
    var r := RecordSelection(recent, movie);
    assert r <= [movie] + w;
    forall i | 1 <= i < |r| ensures r[i].id != movie.id && r[i] in recent {
      assert r[i] == w[i - 1] && w[i - 1] in w;
    }
  }

  /** The surviving entries keep their relative order: they are the first
      entries of the filtered list, hence a subsequence of the old list. */
  lemma RecordSelectionKeepsOrder(recent: seq<MovieSuggestion>, movie: MovieSuggestion)
    ensures RecordSelection(recent, movie)[1..] <= WithoutId(recent, movie.id)
    ensures IsSubsequence(RecordSelection(recent, movie)[1..], recent)
  {
    var w := WithoutId(recent, movie.id);
    var r := RecordSelection(recent, movie);
    assert r <= [movie] + w;
    assert r[1..] <= w;
    SubsequencePrefix(r[1..], w, recent);
  }

  /** The new length: the selected movie plus every entry with another id, cut at the capacity. */
  lemma RecordSelectionLength(recent: seq<MovieSuggestion>, movie: MovieSuggestion)
    ensures var n := 1 + |recent| - CountId(recent, movie.id);
      |RecordSelection(recent, movie)| == if n <= RecentCapacity then n else RecentCapacity
  {
  }

  /** Putting an entry whose id is new in front of a duplicate-free list, and
      keeping any prefix of the result, leaves no duplicate ids. */
  lemma PrependPrefixNoDup(w: seq<MovieSuggestion>, movie: MovieSuggestion, n: nat)
    requires NoDupIds(w) && forall k :: 0 <= k < |w| ==> w[k].id != movie.id
    ensures NoDupIds(Take([movie] + w, n))
  {
    var full := [movie] + w;
    var r := Take(full, n);
    assert r == full[..|r|];
    forall i, j | 0 <= i < j < |r| ensures r[i].id != r[j].id {
      assert r[i] == full[i] && r[j] == full[j] == w[j - 1];
      if i > 0 {
        assert full[i] == w[i - 1];
      }
    }
  }

  /** A list without duplicate ids keeps none after an update. */
  lemma RecordSelectionNoDup(recent: seq<MovieSuggestion>, movie: MovieSuggestion)
    requires NoDupIds(recent)
    ensures NoDupIds(RecordSelection(recent, movie))
  {
    var w := WithoutId(recent, movie.id);
    WithoutIdNoDup(recent, movie.id);
    forall k | 0 <= k < |w| ensures w[k].id != movie.id {
      assert w[k] in w;
    }
    PrependPrefixNoDup(w, movie, RecentCapacity);
  }

  /** Re-selecting a movie already in a duplicate-free list of at most ten
      entries moves it to the front and leaves the length unchanged. */
  lemma RecordSelectionReselect(recent: seq<MovieSuggestion>, movie: MovieSuggestion)
    requires NoDupIds(recent) && |recent| <= RecentCapacity && HasId(recent, movie.id)
    ensures |RecordSelection(recent, movie)| == |recent|
    ensures RecordSelection(recent, movie)[0] == movie
  {
    CountIdOnce(recent, movie.id);
  }

  /** Selecting a movie whose id is not in the list prepends it and drops the
      oldest entry once the list is full. */
  lemma RecordSelectionNew(recent: seq<MovieSuggestion>, movie: MovieSuggestion)
    requires !HasId(recent, movie.id)
    ensures RecordSelection(recent, movie) == Take([movie] + recent, RecentCapacity)
    ensures |recent| == RecentCapacity ==>
      RecordSelection(recent, movie) == [movie] + recent[..RecentCapacity - 1]
  {
    WithoutAbsentId(recent, movie.id);
    assert |recent| == RecentCapacity ==>
      ([movie] + recent)[..RecentCapacity] == [movie] + recent[..RecentCapacity - 1];
  }

  /** Selecting the same movie twice in a row is the same as selecting it once. */
  lemma RecordSelectionIdempotent(recent: seq<MovieSuggestion>, movie: MovieSuggestion)
    ensures RecordSelection(RecordSelection(recent, movie), movie) == RecordSelection(recent, movie)
  {
    var r := RecordSelection(recent, movie);
    RecordSelectionFront(recent, movie);
    var tail := r[1..];
    assert !HasId(tail, movie.id) by {
      forall k | 0 <= k < |tail| ensures tail[k].id != movie.id {
        assert tail[k] == r[k + 1];
      }
    }
    WithoutAbsentId(tail, movie.id);
    assert r == [movie] + tail;
    assert WithoutId(r, movie.id) == tail;
  }
}
