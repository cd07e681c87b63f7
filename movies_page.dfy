/** What the catalogue page derives from the store: the sorted list of distinct
    genres, the "Popular Movies" and "Recent Releases" rows, the updates its
    search box and genre picker make to the filter, and which of its three
    views it shows. */
module MoviesPage {
  import opened Lists
  import opened Text
  import opened Sorting
  import opened MovieContext

  // ---------------------------------------------------------------------------
  // `allGenres`

  /** `g` is a genre of some movie in `ms`. */
  ghost predicate IsGenreOf(ms: seq<Movie>, g: string)
  {
    exists j :: 0 <= j < |ms| && g in ms[j].genres
  }

  ghost predicate NoDuplicates<T>(s: seq<T>)
  {
    forall i, j :: 0 <= i < j < |s| ==> s[i] != s[j]
  }

  /** The reduce that collects each genre the first time it is met, followed by
      `sort()`: every genre of the catalogue once, in ascending order. */
  method AllGenres(movies: seq<Movie>) returns (genres: seq<string>)
    ensures forall g :: g in genres <==> IsGenreOf(movies, g)
    ensures NoDuplicates(genres)
    ensures StrSorted(genres)
  {
    var acc: seq<string> := [];
    var i := 0;
    while i < |movies|
      invariant 0 <= i <= |movies|
      invariant NoDuplicates(acc)
      invariant forall g :: g in acc <==> IsGenreOf(movies[..i], g)
    {
      var gs := movies[i].genres;
      var k := 0;
      while k < |gs|
        invariant 0 <= k <= |gs|
        invariant NoDuplicates(acc)
        invariant forall g :: g in acc <==> IsGenreOf(movies[..i], g) || g in gs[..k]
      {
        if gs[k] !in acc {
          acc := acc + [gs[k]];
        }
        assert gs[..k + 1] == gs[..k] + [gs[k]];
        k := k + 1;
      }
      assert gs[..k] == gs;
      forall g ensures IsGenreOf(movies[..i + 1], g) <==> IsGenreOf(movies[..i], g) || g in gs {
        if IsGenreOf(movies[..i + 1], g) {
          var j :| 0 <= j < i + 1 && g in movies[..i + 1][j].genres;
          if j < i { assert movies[..i][j] == movies[..i + 1][j]; }
        }
        if IsGenreOf(movies[..i], g) {
          var j :| 0 <= j < i && g in movies[..i][j].genres;
          assert movies[..i + 1][j] == movies[..i][j];
        }
        if g in gs { assert movies[..i + 1][i] == movies[i]; }
      }
      i := i + 1;
    }
    assert movies[..i] == movies;
    genres := SortStrings(acc);
    SortStringsCorrect(acc);
    forall g ensures g in genres <==> g in acc {
      assert g in genres <==> g in multiset(genres);
      assert g in acc <==> g in multiset(acc);
    }
    PermutationKeepsNoDuplicates(acc, genres);
  }

  lemma {:induction false} NoDuplicatesCount<T>(s: seq<T>, x: T)
    requires NoDuplicates(s)
    ensures multiset(s)[x] <= 1
  {
    if s != [] {
      NoDuplicatesCount(s[1..], x);
      assert s == [s[0]] + s[1..];
      if s[0] == x {
        assert x !in s[1..];
      }
    }
  }

  lemma PermutationKeepsNoDuplicates<T>(a: seq<T>, b: seq<T>)
    requires NoDuplicates(a) && multiset(a) == multiset(b)
    ensures NoDuplicates(b)
  {
    forall i, j | 0 <= i < j < |b| ensures b[i] != b[j] {
      NoDuplicatesCount(a, b[j]);
      assert b == b[..j] + b[j..];
      assert b[i] in multiset(b[..j]) && b[j] in multiset(b[j..]);
    }
  }

  // ---------------------------------------------------------------------------
  // "Popular Movies" and "Recent Releases"

  function RatingOf(m: Movie): real
  {
    m.userRating
  }

  function IsPopular(m: Movie): bool
  {
    m.userRating >= 4.0
  }

  /** `getPopularMovies`: the ratings filter, the sort and the cut to ten. */
  function PopularMovies(ms: seq<Movie>): (r: seq<Movie>)
    ensures |r| <= 10
    ensures forall m :: m in r ==> m in ms && m.userRating >= 4.0
  {
    SortByKeyDescElements(Select(ms, IsPopular), RatingOf);
    Slice0(SortByKeyDesc(Select(ms, IsPopular), RatingOf), 10)
  }

  /** The popular row holds the ten best rated of the movies rated at least 4
      (all of them when there are at most ten), highest rating first, never
      more copies of a movie than the catalogue has. */
  lemma PopularMoviesSpec(ms: seq<Movie>)
    ensures var q := Select(ms, IsPopular); var r := PopularMovies(ms);
      && (forall m :: m in r ==> m in ms && m.userRating >= 4.0)
      && |r| == (if |q| < 10 then |q| else 10)
      && DescendingBy(r, RatingOf)
      && multiset(r) <= multiset(q) <= multiset(ms)
      && (|q| <= 10 ==> multiset(r) == multiset(q))
      && (|q| <= 10 ==> forall m :: m in ms && m.userRating >= 4.0 ==> m in r)
  {
    var q := Select(ms, IsPopular);
    forall m ensures multiset(q)[m] <= multiset(ms)[m] {
      SelectCounts(ms, IsPopular, m);
    }
    assert multiset(q) <= multiset(ms);
    SortedTop(q, RatingOf, 10);
    var r := PopularMovies(ms);
    forall m | m in r ensures m in q {
      assert m in multiset(r);
    }
    if |q| <= 10 {
      forall m | m in ms && m.userRating >= 4.0 ensures m in r {
        assert m in multiset(q);
      }
    }
  }

  /** Ties keep catalogue order: the popular movies with any one rating are the
      first ones of that rating in the catalogue, in catalogue order. */
  lemma PopularTiesInCatalogueOrder(ms: seq<Movie>, v: real)
    ensures Select(PopularMovies(ms), HasKey(RatingOf, v)) <= Select(Select(ms, IsPopular), HasKey(RatingOf, v))
  {
    var q := Select(ms, IsPopular);
    var s := SortByKeyDesc(q, RatingOf);
    SortByKeyDescStable(q, RatingOf, v);
    SelectPrefix(Slice0(s, 10), s, HasKey(RatingOf, v));
  }

  /** A qualifying movie left out of the popular row is rated no higher than
      any movie in it. */
  lemma PopularAreTopRated(ms: seq<Movie>)
    ensures forall m, x :: m in ms && m.userRating >= 4.0 && m !in PopularMovies(ms) && x in PopularMovies(ms)
                          ==> x.userRating >= m.userRating
  {
    var q := Select(ms, IsPopular);
    var s := SortByKeyDesc(q, RatingOf);
    SortByKeyDescCorrect(q, RatingOf);
    TopOfDescending(s, RatingOf, 10);
    assert forall m :: m in q ==> m in multiset(s);
  }

  predicate IsDigit(c: char)
  {
    '0' <= c <= '9'
  }

  /** The number a string of decimal digits denotes. */
  function DigitsValue(s: string): (r: nat)
    requires forall i :: 0 <= i < |s| ==> IsDigit(s[i])
    ensures r < Pow10(|s|)
  {
    if s == [] then 0 else 10 * DigitsValue(s[..|s| - 1]) + DigitValue(s[|s| - 1])
  }

  function Pow10(n: nat): (r: nat)
    ensures r >= 1
  {
    if n == 0 then 1 else 10 * Pow10(n - 1)
  }

  function DigitValue(c: char): nat
    requires IsDigit(c)
  {
    c as int - '0' as int
  }

  /** A `YYYY-MM-DD` string. */
  predicate IsIsoDate(s: string)
  {
    |s| == 10 && s[4] == '-' && s[7] == '-'
    && forall i :: 0 <= i < 10 && i != 4 && i != 7 ==> IsDigit(s[i])
  }

  /** The order `new Date(s).getTime()` gives `YYYY-MM-DD` dates, as the number
      `YYYYMMDD`; any other string is ranked older than every date, so it
      comes last in a latest-first sort. */
  function DateValue(s: string): (r: int)
    ensures !IsIsoDate(s) ==> r == -1
    ensures IsIsoDate(s) ==>
      (&& 0 <= r
       && r / 10000 == DigitsValue(s[..4])
       && r / 100 % 100 == DigitsValue(s[5..7])
       && r % 100 == DigitsValue(s[8..]))
  {
    if IsIsoDate(s) then
      assert forall i :: 0 <= i < 4 ==> s[..4][i] == s[i];
      assert forall i :: 0 <= i < 2 ==> s[5..7][i] == s[5 + i] && s[8..][i] == s[8 + i];
      var y, mo, d := DigitsValue(s[..4]), DigitsValue(s[5..7]), DigitsValue(s[8..]);
      assert mo < 100 && d < 100 by {
        assert Pow10(2) == 100;
      }
      DateParts(y, mo, d);
      y * 10000 + mo * 100 + d
    else -1
  }

  /** `y * 10000 + mo * 100 + d` with two-digit `mo` and `d` splits back into
      its parts. */
  lemma DateParts(y: nat, mo: nat, d: nat)
    requires mo < 100 && d < 100
    ensures (y * 10000 + mo * 100 + d) / 10000 == y
    ensures (y * 10000 + mo * 100 + d) / 100 % 100 == mo
    ensures (y * 10000 + mo * 100 + d) % 100 == d
  {
    var n := y * 10000 + mo * 100 + d;
    assert mo * 100 + d < 10000;
    assert n == y * 10000 + (mo * 100 + d);
    assert n / 100 == y * 100 + mo;
    assert (y * 100 + mo) % 100 == mo;
  }

  function ReleaseKey(m: Movie): real
  {
    DateValue(m.releaseDate) as real
  }

  /** `getRecentMovies`: a sorted copy, latest release first, cut to ten. */
  function RecentMovies(ms: seq<Movie>): (r: seq<Movie>)
    ensures |r| == if |ms| < 10 then |ms| else 10
    ensures multiset(r) <= multiset(ms)
    ensures DescendingBy(r, ReleaseKey)
  {
    SortedTop(ms, ReleaseKey, 10);
    Slice0(SortByKeyDesc(ms, ReleaseKey), 10)
  }

  /** A movie left out of the recent row was released no later than any movie
      in it. */
  lemma RecentAreLatest(ms: seq<Movie>)
    ensures forall m, x :: m in ms && m !in RecentMovies(ms) && x in RecentMovies(ms)
                          ==> ReleaseKey(x) >= ReleaseKey(m)
  {
    var s := SortByKeyDesc(ms, ReleaseKey);
    SortByKeyDescCorrect(ms, ReleaseKey);
    TopOfDescending(s, ReleaseKey, 10);
    assert forall m :: m in ms ==> m in multiset(s);
  }

  // ---------------------------------------------------------------------------
  // Filter updates and the choice of view

  /** `handleSearch`: sets the query, keeps the genre. */
  function HandleSearch(f: MovieFilter, query: string): (r: MovieFilter)
    ensures r.searchQuery == Some(query) && r.genre == f.genre
  {
    f.(searchQuery := Some(query))
  }

  /** `handleGenreFilter`: sets (or clears) the genre, keeps the query. */
  function HandleGenreFilter(f: MovieFilter, genre: Option<string>): (r: MovieFilter)
    ensures r.genre == genre && r.searchQuery == f.searchQuery
  {
    f.(genre := genre)
  }

  /** The two handlers touch different fields, so their order does not matter. */
  lemma HandlersCommute(f: MovieFilter, query: string, genre: Option<string>)
    ensures HandleSearch(HandleGenreFilter(f, genre), query) == HandleGenreFilter(HandleSearch(f, query), genre)
  {
  }

  datatype View = SearchResults | GenreResults | Categories

  /** The section the page renders below the genre picker. The three
      conditions of the page are mutually exclusive and cover every filter. */
  function ViewOf(f: MovieFilter): (v: View)
    ensures v == SearchResults <==> Truthy(f.searchQuery)
    ensures v == GenreResults <==> Truthy(f.genre) && !Truthy(f.searchQuery)
    ensures v == Categories <==> !Truthy(f.genre) && !Truthy(f.searchQuery)
  {
    if Truthy(f.searchQuery) then SearchResults
    else if Truthy(f.genre) then GenreResults
    else Categories
  }

  /** The featured carousel is shown only with no active criterion and at least
      one featured movie. */
  predicate ShowsFeaturedCarousel(ms: seq<Movie>, f: MovieFilter)
    ensures ShowsFeaturedCarousel(ms, f) <==>
      ViewOf(f) == Categories && exists m :: m in ms && m.featured == Some(true)
  {
    |Featured(ms)| > 0 && !Truthy(f.searchQuery) && !Truthy(f.genre)
  }

  /** The carousel appears only together with the categories view, and the grid
      of that view then holds the whole catalogue. */
  lemma CarouselOnlyWithCategories(ms: seq<Movie>, f: MovieFilter)
    ensures ShowsFeaturedCarousel(ms, f) ==> ViewOf(f) == Categories
    ensures ViewOf(f) == Categories ==> Filter(ms, f) == ms
    ensures ViewOf(f) == Categories && (exists m :: m in ms && m.featured == Some(true)) ==> ShowsFeaturedCarousel(ms, f)
  {
  }

  /** A non-empty query always brings up the search results; clearing it falls
      back to the genre view when a genre is picked. */
  lemma SearchSelectsView(f: MovieFilter, query: string)
    ensures ViewOf(HandleSearch(f, query))
         == if query != "" then SearchResults else if Truthy(f.genre) then GenreResults else Categories
  {
  }
}
