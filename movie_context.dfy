/** The movie catalogue store (`MovieProvider`): the list of movies, the active
    filter, the filtered view derived from both, and the operations that rate,
    add, update and delete movies. */
module MovieContext {
  import opened Lists
  import opened Text

  // ---------------------------------------------------------------------------
  // Data model

  /** One catalogue entry. `bannerUrl` and `featured` are optional keys. */
  datatype Movie = Movie(
    id: string,
    title: string,
    releaseDate: string,
    genres: seq<string>,
    contentRating: string,
    userRating: real,
    posterUrl: string,
    bannerUrl: Option<string>,
    description: string,
    duration: string,
    director: string,
    cast: seq<string>,
    featured: Option<bool>)

  /** `Omit<Movie, 'id'>`: what a caller supplies to add a movie. */
  datatype MovieFields = MovieFields(
    title: string,
    releaseDate: string,
    genres: seq<string>,
    contentRating: string,
    userRating: real,
    posterUrl: string,
    bannerUrl: Option<string>,
    description: string,
    duration: string,
    director: string,
    cast: seq<string>,
    featured: Option<bool>)

  /** `Partial<Movie>`: `None` leaves a field alone, `Some(v)` replaces it. For
      the two optional keys, `Some(None)` is a key present with value
      `undefined`, which the spread copies over the old value. */
  datatype MoviePatch = MoviePatch(
    id: Option<string>,
    title: Option<string>,
    releaseDate: Option<string>,
    genres: Option<seq<string>>,
    contentRating: Option<string>,
    userRating: Option<real>,
    posterUrl: Option<string>,
    bannerUrl: Option<Option<string>>,
    description: Option<string>,
    duration: Option<string>,
    director: Option<string>,
    cast: Option<seq<string>>,
    featured: Option<Option<bool>>)

  const EmptyPatch := MoviePatch(None, None, None, None, None, None, None, None, None, None, None, None, None)

  /** `MovieFilter`: both criteria are optional strings. */
  datatype MovieFilter = MovieFilter(genre: Option<string>, searchQuery: Option<string>)

  const NoFilter := MovieFilter(None, None)

  /** No two movies share an id. */
  ghost predicate UniqueIds(ms: seq<Movie>)
  {
    forall i, j :: 0 <= i < j < |ms| ==> ms[i].id != ms[j].id
  }

  /** No movie has the id `id`. */
  predicate Fresh(ms: seq<Movie>, id: string)
  {
    forall i :: 0 <= i < |ms| ==> ms[i].id != id
  }

  // ---------------------------------------------------------------------------
  // The filter projection

  /** Some genre of `m`, lower-cased, contains the lower-cased `genre`. */
  predicate GenreMatches(m: Movie, genre: string)
  {
    exists k | 0 <= k < |m.genres| :: Contains(Lower(m.genres[k]), Lower(genre))
  }

  /** The lower-cased title, director or some cast member contains the
      lower-cased `query`. */
  predicate QueryMatches(m: Movie, query: string)
  {
    var q := Lower(query);
    Contains(Lower(m.title), q)
    || Contains(Lower(m.director), q)
    || exists k | 0 <= k < |m.cast| :: Contains(Lower(m.cast[k]), q)
  }

  function InGenre(genre: string): Movie -> bool
  {
    (m: Movie) => GenreMatches(m, genre)
  }

  function MatchesQuery(query: string): Movie -> bool
  {
    (m: Movie) => QueryMatches(m, query)
  }

  /** The movie passes both active criteria; an absent or empty criterion
      lets every movie through. */
  predicate Admits(f: MovieFilter, m: Movie)
  {
    && (Truthy(f.genre) ==> GenreMatches(m, f.genre.value))
    && (Truthy(f.searchQuery) ==> QueryMatches(m, f.searchQuery.value))
  }

  /** The filter effect: first the genre pass, then the query pass, each only
      when its criterion is truthy. */
  function Filter(ms: seq<Movie>, f: MovieFilter): (r: seq<Movie>)
    ensures forall m :: m in r <==> m in ms && Admits(f, m)
  {
    var byGenre := if Truthy(f.genre) then Select(ms, InGenre(f.genre.value)) else ms;
    if Truthy(f.searchQuery) then Select(byGenre, MatchesQuery(f.searchQuery.value)) else byGenre
  }

  /** The filtered list keeps catalogue order, and holds each admitted movie
      exactly as often as the catalogue does and no other movie at all. */
  lemma FilterIsSubsequence(ms: seq<Movie>, f: MovieFilter)
    ensures IsSubsequence(Filter(ms, f), ms)
    ensures forall m :: multiset(Filter(ms, f))[m] == if Admits(f, m) then multiset(ms)[m] else 0
  {
    var byGenre := if Truthy(f.genre) then Select(ms, InGenre(f.genre.value)) else ms;
    if Truthy(f.genre) {
      SelectIsSubsequence(ms, InGenre(f.genre.value));
    } else {
      SubsequenceReflexive(ms);
    }
    if Truthy(f.searchQuery) {
      SelectIsSubsequence(byGenre, MatchesQuery(f.searchQuery.value));
      SubsequenceTransitive(Filter(ms, f), byGenre, ms);
    }
    forall m ensures multiset(Filter(ms, f))[m] == if Admits(f, m) then multiset(ms)[m] else 0 {
      if Truthy(f.genre) {
        SelectCounts(ms, InGenre(f.genre.value), m);
      }
      if Truthy(f.searchQuery) {
        SelectCounts(byGenre, MatchesQuery(f.searchQuery.value), m);
      }
    }
  }

  /** With no active criterion (absent or `""`), the filter returns the whole
      catalogue, including movies that have no genres at all. */
  lemma FilterNoCriteria(ms: seq<Movie>, f: MovieFilter)
    requires !Truthy(f.genre) && !Truthy(f.searchQuery)
    ensures Filter(ms, f) == ms
  {
  }

  /** Filtering an already filtered list with the same criteria changes nothing. */
  lemma FilterIdempotent(ms: seq<Movie>, f: MovieFilter)
    ensures Filter(Filter(ms, f), f) == Filter(ms, f)
  {
    var r := Filter(ms, f);
    if Truthy(f.genre) {
      SelectAll(r, InGenre(f.genre.value));
    }
    if Truthy(f.searchQuery) {
      SelectAll(r, MatchesQuery(f.searchQuery.value));
    }
  }

  // ---------------------------------------------------------------------------
  // Queries

  /** `movies.find(m => m.id === id)`: the first movie with that id. */
  function Find(ms: seq<Movie>, id: string): (r: Option<Movie>)
    ensures r.None? <==> Fresh(ms, id)
    ensures r.Some? ==> exists i :: 0 <= i < |ms| && ms[i] == r.value && ms[i].id == id && Fresh(ms[..i], id)
  {
    if ms == [] then None
    else if ms[0].id == id then (assert ms[..0] == []; Some(ms[0]))
    else
      var r := Find(ms[1..], id);
      if r.Some? then
        (var i :| 0 <= i < |ms[1..]| && ms[1..][i] == r.value && ms[1..][i].id == id && Fresh(ms[1..][..i], id);
         assert ms[..i + 1] == [ms[0]] + ms[1..][..i];
         r)
      else r
  }

  function IsFeatured(m: Movie): bool
  {
    m.featured == Some(true)
  }

  /** `movies.filter(m => m.featured)`: the featured movies, in catalogue order. */
  function Featured(ms: seq<Movie>): (r: seq<Movie>)
    ensures forall m :: m in r <==> m in ms && m.featured == Some(true)
    ensures IsSubsequence(r, ms)
    ensures forall m :: multiset(r)[m] == if m.featured == Some(true) then multiset(ms)[m] else 0
  {
    SelectIsSubsequence(ms, IsFeatured);
    forall m ensures multiset(Select(ms, IsFeatured))[m] == if m.featured == Some(true) then multiset(ms)[m] else 0 {
      SelectCounts(ms, IsFeatured, m);
    }
    Select(ms, IsFeatured)
  }

  // ---------------------------------------------------------------------------
  // Mutations on the list

  /** `ms.map(m => m.id === id ? f(m) : m)`. */
  function MapWhereId(ms: seq<Movie>, id: string, f: Movie -> Movie): (r: seq<Movie>)
    ensures |r| == |ms|
    ensures forall i :: 0 <= i < |ms| && ms[i].id == id ==> r[i] == f(ms[i])
    ensures forall i :: 0 <= i < |ms| && ms[i].id != id ==> r[i] == ms[i]
  {
    if ms == [] then []
    else [if ms[0].id == id then f(ms[0]) else ms[0]] + MapWhereId(ms[1..], id, f)
  }

  function SetRating(rating: real): Movie -> Movie
  {
    (m: Movie) => m.(userRating := rating)
  }

  /** `rateMovie`: every movie with that id gets `userRating == rating`, with no
      range check; nothing else changes. */
  function Rate(ms: seq<Movie>, id: string, rating: real): (r: seq<Movie>)
    ensures |r| == |ms|
    ensures forall i :: 0 <= i < |ms| && ms[i].id == id ==> r[i].userRating == rating
    ensures forall i :: 0 <= i < |ms| ==> r[i].(userRating := ms[i].userRating) == ms[i]
    ensures forall i :: 0 <= i < |ms| && ms[i].id != id ==> r[i] == ms[i]
  {
    MapWhereId(ms, id, SetRating(rating))
  }

  /** The value a spread leaves in one field: the patch's if it has the key,
      the movie's otherwise. */
  function Pick<T>(o: Option<T>, d: T): T
  {
    if o.Some? then o.value else d
  }

  function Or<T>(a: Option<T>, b: Option<T>): Option<T>
  {
    if a.Some? then a else b
  }

  /** `{ ...movie, ...updates }`. */
  function ApplyPatch(m: Movie, p: MoviePatch): (r: Movie)
    ensures p == EmptyPatch ==> r == m
    ensures p.id.None? ==> r.id == m.id
  {
    Movie(
      Pick(p.id, m.id),
      Pick(p.title, m.title),
      Pick(p.releaseDate, m.releaseDate),
      Pick(p.genres, m.genres),
      Pick(p.contentRating, m.contentRating),
      Pick(p.userRating, m.userRating),
      Pick(p.posterUrl, m.posterUrl),
      Pick(p.bannerUrl, m.bannerUrl),
      Pick(p.description, m.description),
      Pick(p.duration, m.duration),
      Pick(p.director, m.director),
      Pick(p.cast, m.cast),
      Pick(p.featured, m.featured))
  }

  /** `{ ...p, ...q }` on two partial movies: the keys of `q` win. */
  function Merge(p: MoviePatch, q: MoviePatch): MoviePatch
  {
    MoviePatch(
      Or(q.id, p.id),
      Or(q.title, p.title),
      Or(q.releaseDate, p.releaseDate),
      Or(q.genres, p.genres),
      Or(q.contentRating, p.contentRating),
      Or(q.userRating, p.userRating),
      Or(q.posterUrl, p.posterUrl),
      Or(q.bannerUrl, p.bannerUrl),
      Or(q.description, p.description),
      Or(q.duration, p.duration),
      Or(q.director, p.director),
      Or(q.cast, p.cast),
      Or(q.featured, p.featured))
  }

  /** Spreading two patches one after the other is spreading their merge, and
      spreading the same patch twice is spreading it once. */
  lemma PatchCompose(m: Movie, p: MoviePatch, q: MoviePatch)
    ensures ApplyPatch(ApplyPatch(m, p), q) == ApplyPatch(m, Merge(p, q))
    ensures ApplyPatch(ApplyPatch(m, p), p) == ApplyPatch(m, p)
  {
    assert Merge(p, p) == p;
  }

  function Patch(p: MoviePatch): Movie -> Movie
  {
    (m: Movie) => ApplyPatch(m, p)
  }

  /** `updateMovie`: every movie with that id has the supplied fields replaced;
      the patch may replace `id` itself. */
  function Update(ms: seq<Movie>, id: string, p: MoviePatch): (r: seq<Movie>)
    ensures |r| == |ms|
    ensures forall i :: 0 <= i < |ms| && ms[i].id == id ==> r[i] == ApplyPatch(ms[i], p)
    ensures forall i :: 0 <= i < |ms| && ms[i].id != id ==> r[i] == ms[i]
  {
    MapWhereId(ms, id, Patch(p))
  }

  function HasOtherId(id: string): Movie -> bool
  {
    (m: Movie) => m.id != id
  }

  /** `deleteMovie`: drops every movie with that id and keeps the rest in order. */
  function Delete(ms: seq<Movie>, id: string): (r: seq<Movie>)
    ensures forall m :: m in r ==> m in ms && m.id != id
    ensures IsSubsequence(r, ms)
    ensures forall m: Movie :: m.id != id ==> multiset(r)[m] == multiset(ms)[m]
  {
    SelectIsSubsequence(ms, HasOtherId(id));
    forall m: Movie | m.id != id ensures multiset(Select(ms, HasOtherId(id)))[m] == multiset(ms)[m] {
      SelectCounts(ms, HasOtherId(id), m);
    }
    Select(ms, HasOtherId(id))
  }

  /** `{ ...movie, id }`. */
  function WithId(fields: MovieFields, id: string): Movie
  {
    Movie(id, fields.title, fields.releaseDate, fields.genres, fields.contentRating,
          fields.userRating, fields.posterUrl, fields.bannerUrl, fields.description,
          fields.duration, fields.director, fields.cast, fields.featured)
  }

  /** The fields of a movie other than its id. */
  function FieldsOf(m: Movie): MovieFields
  {
    MovieFields(m.title, m.releaseDate, m.genres, m.contentRating, m.userRating,
                m.posterUrl, m.bannerUrl, m.description, m.duration, m.director,
                m.cast, m.featured)
  }

  /** `addMovie`: appends one movie carrying the supplied fields and the id. */
  function Add(ms: seq<Movie>, fields: MovieFields, id: string): (r: seq<Movie>)
    ensures |r| == |ms| + 1 && r[..|ms|] == ms
    ensures r[|ms|].id == id && FieldsOf(r[|ms|]) == fields
  {
    ms + [WithId(fields, id)]
  }

  // ---------------------------------------------------------------------------
  // What the mutations mean for lookups and for the id invariant

  /** After rating, the lookup by that id sees the new rating on the same
      movie it saw before; other lookups are unaffected. */
  lemma RateThenFind(ms: seq<Movie>, id: string, rating: real, other: string)
    requires other != id
    ensures Find(Rate(ms, id, rating), id)
         == if Find(ms, id).Some? then Some(Find(ms, id).value.(userRating := rating)) else None
    ensures Find(Rate(ms, id, rating), other) == Find(ms, other)
  {
    var r := Rate(ms, id, rating);
    assert forall i :: 0 <= i < |ms| ==> r[i].id == ms[i].id;
    FindPointwise(ms, r, id, SetRating(rating));
    FindPointwise(ms, r, other, (m: Movie) => m);
  }

  /** `Find` only looks at ids, so lists with equal ids position by position
      find at the same position. */
  lemma {:induction false} FindPointwise(ms: seq<Movie>, r: seq<Movie>, id: string, f: Movie -> Movie)
    requires |r| == |ms|
    requires forall i :: 0 <= i < |ms| ==> r[i].id == ms[i].id
    requires forall i :: 0 <= i < |ms| && ms[i].id == id ==> r[i] == f(ms[i])
    ensures Find(r, id) == if Find(ms, id).Some? then Some(f(Find(ms, id).value)) else None
  {
    if ms != [] && ms[0].id != id {
      FindPointwise(ms[1..], r[1..], id, f);
    }
  }

  /** Rating an id that no movie has leaves the list unchanged. */
  lemma RateUnknownId(ms: seq<Movie>, id: string, rating: real)
    requires Fresh(ms, id)
    ensures Rate(ms, id, rating) == ms
  {
  }

  /** `rateMovie` is `updateMovie` with a patch holding only `userRating`. */
  lemma RateIsUpdate(ms: seq<Movie>, id: string, rating: real)
    ensures Rate(ms, id, rating) == Update(ms, id, EmptyPatch.(userRating := Some(rating)))
  {
  }

  /** An empty patch, or an unknown id, leaves the list unchanged. */
  lemma UpdateNoOp(ms: seq<Movie>, id: string, p: MoviePatch)
    requires p == EmptyPatch || Fresh(ms, id)
    ensures Update(ms, id, p) == ms
  {
  }

  /** Applying the same update twice is the same as applying it once, even
      when the patch moves the movies to another id. */
  lemma UpdateIdempotent(ms: seq<Movie>, id: string, p: MoviePatch)
    ensures Update(Update(ms, id, p), id, p) == Update(ms, id, p)
  {
    var r := Update(ms, id, p);
    forall i | 0 <= i < |ms| ensures Update(r, id, p)[i] == r[i] {
      if ms[i].id == id && r[i].id == id {
        assert ApplyPatch(r[i], p) == r[i];
      }
    }
  }

  /** A patch that leaves `id` alone keeps every id, so it keeps ids unique. */
  lemma UpdateKeepsIds(ms: seq<Movie>, id: string, p: MoviePatch)
    requires p.id.None?
    ensures forall i :: 0 <= i < |ms| ==> Update(ms, id, p)[i].id == ms[i].id
    ensures UniqueIds(ms) ==> UniqueIds(Update(ms, id, p))
  {
  }

  /** Because `Partial<Movie>` includes `id`, an update can give a movie the id
      of another, so ids stop being unique. */
  lemma UpdateCanDuplicateIds(a: Movie, b: Movie)
    requires a.id != b.id
    ensures UniqueIds([a, b])
    ensures !UniqueIds(Update([a, b], a.id, EmptyPatch.(id := Some(b.id))))
  {
    var r := Update([a, b], a.id, EmptyPatch.(id := Some(b.id)));
    assert r[0].id == b.id && r[1].id == b.id;
  }

  /** After deleting, the id is no longer found, and a second delete is a no-op. */
  lemma DeleteThenFind(ms: seq<Movie>, id: string)
    ensures Find(Delete(ms, id), id).None?
    ensures Delete(Delete(ms, id), id) == Delete(ms, id)
  {
    var r := Delete(ms, id);
    assert forall m :: m in r ==> m.id != id;
    SelectAll(r, HasOtherId(id));
  }

  /** Deleting an id no movie has leaves the list unchanged. */
  lemma DeleteUnknownId(ms: seq<Movie>, id: string)
    requires Fresh(ms, id)
    ensures Delete(ms, id) == ms
  {
    assert forall m :: m in ms ==> m.id != id;
    SelectAll(ms, HasOtherId(id));
  }

  /** Deleting keeps ids unique. */
  lemma DeleteKeepsUnique(ms: seq<Movie>, id: string)
    requires UniqueIds(ms)
    ensures UniqueIds(Delete(ms, id))
  {
    SelectIsSubsequence(ms, HasOtherId(id));
    SubsequenceKeepsUnique(Delete(ms, id), ms);
  }

  lemma {:induction false} SubsequenceKeepsUnique(a: seq<Movie>, b: seq<Movie>)
    requires IsSubsequence(a, b) && UniqueIds(b)
    ensures UniqueIds(a)
  {
    if b != [] {
      if IsSubsequence(a, b[1..]) {
        SubsequenceKeepsUnique(a, b[1..]);
      } else {
        SubsequenceKeepsUnique(a[1..], b[1..]);
        SubsequenceElements(a[1..], b[1..]);
        forall j | 0 < j < |a| ensures a[0].id != a[j].id {
          assert a[1..][j - 1] in b[1..];
        }
      }
    }
  }

  /** Adding with a fresh id: the new movie is found by that id with exactly
      the supplied fields, and ids stay unique. */
  lemma AddThenFind(ms: seq<Movie>, fields: MovieFields, id: string)
    requires Fresh(ms, id)
    ensures Find(Add(ms, fields, id), id) == Some(WithId(fields, id))
    ensures FieldsOf(Find(Add(ms, fields, id), id).value) == fields
    ensures UniqueIds(ms) ==> UniqueIds(Add(ms, fields, id))
  {
    var r := Add(ms, fields, id);
    var i :| 0 <= i < |r| && r[i] == Find(r, id).value && r[i].id == id && Fresh(r[..i], id);
    assert forall j :: 0 <= j < |ms| ==> r[j] == ms[j];
    assert |ms| <= i;
  }

  // ---------------------------------------------------------------------------
  // The store

  /** `MovieProvider`'s state. Every operation leaves `filteredMovies` equal to
      the filter of `movies` by `filters` (the effect at the end of each change). */
  class MovieStore {
    var movies: seq<Movie>
    var filters: MovieFilter
    var filteredMovies: seq<Movie>
    var loading: bool

    ghost predicate Valid()
      reads this
    {
      filteredMovies == Filter(movies, filters)
    }

    /** Initial state: empty catalogue, no filter, still loading. */
    constructor ()
      ensures Valid()
      ensures movies == [] && filters == NoFilter && filteredMovies == [] && loading
    {
      movies := [];
      filters := NoFilter;
      filteredMovies := [];
      loading := true;
    }

    /** The filter effect: rebuilds `filteredMovies` from `movies` and `filters`. */
    method ApplyFilters()
      modifies this`filteredMovies
      ensures Valid()
    {
      var result := movies;
      if Truthy(filters.genre) {
        result := Select(result, InGenre(filters.genre.value));
      }
      if Truthy(filters.searchQuery) {
        result := Select(result, MatchesQuery(filters.searchQuery.value));
      }
      filteredMovies := result;
    }

    /** The end of the initial load: the seed becomes the catalogue. */
    method Load(seed: seq<Movie>)
      modifies this
      ensures Valid()
      ensures movies == seed && filters == old(filters) && !loading
    {
      movies := seed;
      loading := false;
      ApplyFilters();
    }

    /** `setFilters`: replaces the criteria wholesale. */
    method SetFilters(f: MovieFilter)
      modifies this
      ensures Valid()
      ensures filters == f && movies == old(movies) && loading == old(loading)
    {
      filters := f;
      ApplyFilters();
    }

    method RateMovie(id: string, rating: real)
      modifies this
      ensures Valid()
      ensures movies == Rate(old(movies), id, rating)
      ensures filters == old(filters) && loading == old(loading)
    {
      movies := Rate(movies, id, rating);
      ApplyFilters();
    }

    /** `addMovie`, with the new id supplied by the caller. */
    method AddMovie(fields: MovieFields, id: string)
      modifies this
      ensures Valid()
      ensures movies == old(movies) + [WithId(fields, id)]
      ensures filters == old(filters) && loading == old(loading)
    {
      movies := Add(movies, fields, id);
      ApplyFilters();
    }

    method UpdateMovie(id: string, p: MoviePatch)
      modifies this
      ensures Valid()
      ensures movies == Update(old(movies), id, p)
      ensures filters == old(filters) && loading == old(loading)
    {
      movies := Update(movies, id, p);
      ApplyFilters();
    }

    method DeleteMovie(id: string)
      modifies this
      ensures Valid()
      ensures movies == Delete(old(movies), id)
      ensures filters == old(filters) && loading == old(loading)
      ensures Fresh(filteredMovies, id)
    {
      movies := Delete(movies, id);
      ApplyFilters();
      assert forall i :: 0 <= i < |filteredMovies| ==> filteredMovies[i] in movies;
    }
  }
}
