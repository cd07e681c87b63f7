# Movie catalogue core, modelled in Dafny

This project models the catalogue logic of a movie-browsing web app. Four
parts are covered:

- **The catalogue store** (`MovieProvider`). It holds the movie list, the
  active filter, the filtered view and a loading flag. Movies can be rated,
  added, updated and deleted. After every change the filtered view is rebuilt
  from the list and the filter. The store is the class
  `MovieContext.MovieStore`. Its invariant `Valid()` says
  `filteredMovies == Filter(movies, filters)`. Each list change is a pure
  function (`Rate`, `Add`, `Update`, `Delete`), and lemmas state what it means
  for lookups (`Find`) and for unique ids.
- **The catalogue page.** It derives the sorted list of distinct genres, the
  "Popular Movies" row (rating at least 4, best first, at most ten) and the
  "Recent Releases" row (latest first, at most ten). Its search box and genre
  picker update the filter, and the filter decides which of three views the
  page shows.
- **The incremental-loading grid** (`MovieGrid`). Its state is the window of
  displayed movies and a page counter. One effect resets them and another
  grows them when the bottom of the grid comes into view. The class is
  `MovieGrid.Grid`.
- **The recommendations row.** It drops the movie being viewed and renders
  nothing when no movie is left.

Files: `lists.dfy` models the JavaScript array operations used
(`filter`, `slice(0, n)`) and defines subsequences. `text.dfy` holds
truthiness, ASCII `toLowerCase`, `includes` and string order. `sorting.dfy`
holds the two uses of `Array.prototype.sort`. There is one file per core
source file: `movie_context.dfy`, `movies_page.dfy`, `movie_grid.dfy` and
`recommended_movies.dfy`.

Modelling choices:

- Ratings are `real`s. They are only compared, never computed on.
- Release dates stay strings. They are ordered by the number `YYYYMMDD` read
  from a `YYYY-MM-DD` string.
- Optional keys (`bannerUrl`, `featured`, the filter fields) are `Option`s.
  `None` stands for `undefined`.
- `Partial<Movie>` is the datatype `MoviePatch`. For each field it says
  whether the patch replaces that field.
- The parts that come from outside the model are parameters:
  - the id `addMovie` gives a new movie;
  - the seed list of the initial load;
  - the pages that the grid takes from the catalogue when it has no explicit
    list;
  - whether the grid's loading marker is in view.

Where stronger behaviour might be expected, the model follows the code:

- `rateMovie` does not check the rating's range.
- `updateMovie` and `rateMovie` silently ignore an unknown id.
- `updateMovie` can overwrite `id`, so ids can stop being unique. The lemma
  `UpdateCanDuplicateIds` exhibits this.
- Recommendations are only the source-exclusion filter. No genre-overlap
  scoring exists in the modelled code.

## Model

| member | source | states |
|---|---|---|
| `MovieContext.Filter` | src/contexts/MovieContext.tsx:67-88 | a movie is in the filtered view exactly when it is in the catalogue and passes every active criterion: some genre, lower-cased, contains the lower-cased filter genre; the lower-cased title, director or some cast member contains the lower-cased query; an absent or `""` criterion is inactive |
| `MovieContext.FilterIsSubsequence` | src/contexts/MovieContext.tsx:67-87 | the filtered view is an order-preserving subsequence of the catalogue and holds every admitted movie exactly as often as the catalogue does and nothing else: no reordering, no duplication, no loss |
| `MovieContext.FilterNoCriteria` | src/contexts/MovieContext.tsx:70-78 | with no truthy criterion the view is the whole catalogue, movies without genres included |
| `MovieContext.FilterIdempotent` | src/contexts/MovieContext.tsx:67-87 | filtering the filtered view again with the same criteria returns it unchanged |
| `MovieContext.Find` | src/contexts/MovieContext.tsx:94-96 | `getMovieById` returns nothing exactly when no movie has the id, and otherwise the movie at the first index that has it |
| `MovieContext.Featured` | src/contexts/MovieContext.tsx:91 | `featuredMovies` holds exactly the movies with `featured == true`, as a subsequence of the catalogue, each as often as the catalogue holds it |
| `MovieContext.MapWhereId` | src/contexts/MovieContext.tsx:100-103 | the id-guarded `map` keeps the length, transforms exactly the entries with that id and leaves every other entry as it was |
| `MovieContext.ApplyPatch` | src/contexts/MovieContext.tsx:123 | the spread `{ ...movie, ...updates }` returns the movie unchanged for an empty patch and keeps `id` unless the patch names it |
| `MovieContext.PatchCompose` | src/contexts/MovieContext.tsx:123 | spreading two patches in turn equals spreading their merge, in which the later keys win; spreading the same patch twice equals spreading it once |
| `MovieContext.Rate` | src/contexts/MovieContext.tsx:99-104 | `rateMovie` keeps length and order, sets `userRating` to exactly the given value (no range check) on every movie with the id, changes no other field and no other movie |
| `MovieContext.Update` | src/contexts/MovieContext.tsx:120-125 | `updateMovie` replaces the supplied fields on every movie with the id and leaves other movies untouched |
| `MovieContext.Delete` | src/contexts/MovieContext.tsx:130-132 | `deleteMovie` leaves no movie with the id, is a subsequence of the catalogue, and keeps every other movie exactly as often as before |
| `MovieContext.Add` | src/contexts/MovieContext.tsx:109-115 | `addMovie` appends exactly one movie carrying the new id and all the supplied fields; earlier entries are unchanged |
| `MovieContext.RateThenFind` | src/contexts/MovieContext.tsx:94-104 | after rating, looking up that id finds the same movie as before with the new rating, or nothing if nothing was there; lookups of other ids are unaffected |
| `MovieContext.RateUnknownId` | src/contexts/MovieContext.tsx:99-104 | rating an unknown id leaves the list unchanged |
| `MovieContext.RateIsUpdate` | src/contexts/MovieContext.tsx:100-124 | `rateMovie` is `updateMovie` with a patch holding only `userRating` |
| `MovieContext.UpdateNoOp` | src/contexts/MovieContext.tsx:120-125 | an unknown id or an empty patch leaves the list unchanged |
| `MovieContext.UpdateIdempotent` | src/contexts/MovieContext.tsx:120-125 | applying the same update twice equals applying it once |
| `MovieContext.UpdateKeepsIds` | src/contexts/MovieContext.tsx:120-124 | a patch without `id` keeps every id in place, so unique ids stay unique |
| `MovieContext.UpdateCanDuplicateIds` | src/contexts/MovieContext.tsx:120-124 | a patch that sets `id` can make two movies share an id |
| `MovieContext.DeleteThenFind` | src/contexts/MovieContext.tsx:94-131 | after deleting an id it is not found, and deleting it again changes nothing |
| `MovieContext.DeleteUnknownId` | src/contexts/MovieContext.tsx:130-131 | deleting an unknown id leaves the list unchanged |
| `MovieContext.DeleteKeepsUnique` | src/contexts/MovieContext.tsx:130-131 | deleting keeps ids unique |
| `MovieContext.AddThenFind` | src/contexts/MovieContext.tsx:94-115 | adding with a fresh id: looking it up returns the new movie with exactly the supplied fields, and unique ids stay unique |
| `MovieContext.MovieStore.constructor` | src/contexts/MovieContext.tsx:47-50 | the store starts with no movies, no filter, an empty view and `loading` set |
| `MovieContext.MovieStore.ApplyFilters` | src/contexts/MovieContext.tsx:67-88 | the filter effect, which narrows a local result by genre and then by query, leaves `filteredMovies == Filter(movies, filters)` |
| `MovieContext.MovieStore.Load` | src/contexts/MovieContext.tsx:53-64 | the end of the initial load installs the seed, clears `loading` and re-derives the view |
| `MovieContext.MovieStore.SetFilters` | src/contexts/MovieContext.tsx:33-49 | replacing the criteria wholesale re-derives the view and touches nothing else |
| `MovieContext.MovieStore.RateMovie` | src/contexts/MovieContext.tsx:99-106 | the list becomes `Rate` of the old list, the filter and `loading` are unchanged, and the view is re-derived |
| `MovieContext.MovieStore.AddMovie` | src/contexts/MovieContext.tsx:109-117 | the list becomes the old list plus the new movie, the filter and `loading` are unchanged, and the view is re-derived |
| `MovieContext.MovieStore.UpdateMovie` | src/contexts/MovieContext.tsx:120-127 | the list becomes `Update` of the old list, the filter and `loading` are unchanged, and the view is re-derived |
| `MovieContext.MovieStore.DeleteMovie` | src/contexts/MovieContext.tsx:130-133 | the list becomes `Delete` of the old list, the view is re-derived, and the view holds no movie with that id |
| `Lists.Select` | src/contexts/MovieContext.tsx:91 | `filter` returns no more elements than its input, and an element is in the result exactly when it is in the input and satisfies the predicate |
| `Lists.SelectCounts` | src/contexts/MovieContext.tsx:131 | `filter` keeps every occurrence of a selected value and none of any other |
| `Lists.SelectIsSubsequence` | src/contexts/MovieContext.tsx:131 | `filter` never reorders: its result is a subsequence of its input |
| `Lists.Slice0` | src/pages/Movies.tsx:54 | `slice(0, end)` is a prefix of its input, of length `end` clamped to the input, with a negative `end` counting back from the end |
| `Text.Lower` | src/contexts/MovieContext.tsx:73 | `toLowerCase` keeps the length and lower-cases each character in place (ASCII letters) |
| `Text.StrLeTotal` | src/pages/Movies.tsx:37 | the string order used by `sort()` is total |
| `Text.StrLeTransitive` | src/pages/Movies.tsx:37 | the string order used by `sort()` is transitive |
| `Text.StrLeAntisymmetric` | src/pages/Movies.tsx:37 | two strings ordered both ways are equal |
| `Sorting.SortStringsCorrect` | src/pages/Movies.tsx:37 | `sort()` on strings returns an ascending permutation of its input |
| `Sorting.SortByKeyDescCorrect` | src/pages/Movies.tsx:53 | the comparator sort `(a, b) => key(b) - key(a)` returns a permutation with non-increasing keys |
| `Sorting.SortByKeyDescStable` | src/pages/Movies.tsx:53 | the keyed sort is stable: movies with equal keys keep their input order |
| `Sorting.SortedTop` | src/pages/Movies.tsx:58-60 | sorting and then cutting to `n` gives `min(n, input length)` elements, in descending key order, taken from the input, and all of the input when it has at most `n` elements |
| `MoviesPage.AllGenres` | src/pages/Movies.tsx:30-37 | a string is in `allGenres` exactly when it is a genre of some movie; no genre appears twice; the list is in ascending string order |
| `MoviesPage.PopularMovies` | src/pages/Movies.tsx:50-55 | `getPopularMovies` returns at most ten movies, each a catalogue movie rated at least 4 |
| `MoviesPage.PopularMoviesSpec` | src/pages/Movies.tsx:50-55 | the popular row holds the smaller of ten and the number of movies rated at least 4, all drawn (with multiplicity) from those movies, with non-increasing ratings, and exactly those movies when at most ten qualify |
| `MoviesPage.PopularTiesInCatalogueOrder` | src/pages/Movies.tsx:50-55 | for every rating value, the popular movies with that rating are a prefix of the qualifying movies with that rating in catalogue order |
| `MoviesPage.PopularAreTopRated` | src/pages/Movies.tsx:50-55 | a qualifying movie left out of the row is rated no higher than any movie in it |
| `MoviesPage.DateValue` | src/pages/Movies.tsx:59 | the date key of a `YYYY-MM-DD` string is non-negative and splits back into its year (key / 10000), month (key / 100 mod 100) and day (key mod 100), so dates compare by year, then month, then day; every other string has the key -1 |
| `MoviesPage.RecentMovies` | src/pages/Movies.tsx:57-61 | the recent row has `min(10, catalogue length)` movies, each taken from the catalogue and no more often than it is there, latest release first |
| `MoviesPage.RecentAreLatest` | src/pages/Movies.tsx:57-61 | a movie left out of the recent row was released no later than any movie in it |
| `MoviesPage.HandleSearch` | src/pages/Movies.tsx:40-42 | the search handler sets only the query and keeps the genre |
| `MoviesPage.HandleGenreFilter` | src/pages/Movies.tsx:45-47 | the genre handler sets only the genre and keeps the query |
| `MoviesPage.HandlersCommute` | src/pages/Movies.tsx:40-47 | the two handlers commute, since each preserves the other's field |
| `MoviesPage.ViewOf` | src/pages/Movies.tsx:104-130 | exactly one view is shown: search results when the query is truthy, the genre view when only the genre is, and categories when neither is |
| `MoviesPage.ShowsFeaturedCarousel` | src/pages/Movies.tsx:70 | the featured carousel is shown exactly when the categories view is shown and some movie has `featured == true` |
| `MoviesPage.CarouselOnlyWithCategories` | src/pages/Movies.tsx:70-140 | the featured carousel appears exactly in the categories view with at least one featured movie, and that view's grid holds the whole catalogue |
| `MoviesPage.SearchSelectsView` | src/pages/Movies.tsx:40-130 | after a search, a non-empty query shows the search results; an empty one falls back to the genre or categories view |
| `MovieGrid.Page` | src/components/movies/MovieGrid.tsx:43-46 | one page holds at most `pageSize` movies, and a page that starts inside the list is non-empty |
| `MovieGrid.PrefixStable` | src/components/movies/MovieGrid.tsx:43-46 | growing the window from `page` to `page + 1` pages appends exactly the next page |
| `MovieGrid.PagesArePrefix` | src/components/movies/MovieGrid.tsx:43-46 | pages 1 to `n` concatenated equal the first `n * pageSize` movies |
| `MovieGrid.Grid.constructor` | src/components/movies/MovieGrid.tsx:19-34 | mounting shows the first `pageSize` movies of a non-empty list (else the catalogue's first page) on page 1 |
| `MovieGrid.Grid.Reset` | src/components/movies/MovieGrid.tsx:24-34 | one run of the initialisation effect with the new `movies` and `pageSize`, taken on its own: the window goes back to the first slice and `page` to 1 (the scroll effect of the same commit can override it, see below) |
| `MovieGrid.Grid.Advance` | src/components/movies/MovieGrid.tsx:37-57 | nothing happens unless the marker is in view and not loading. With a list, the window moves to the next slice only when that slice is strictly longer, so `page` grows by exactly one and exactly the next page is appended. Otherwise a non-empty batch is appended. The window only grows, and the old window stays its prefix |
| `MovieGrid.Grid.HasMoreToLoad` | src/components/movies/MovieGrid.tsx:83-85 | without a list there is always more to load; with a list and a positive page size there is more exactly while `page * pageSize` falls short of the list length |
| `MovieGrid.Grid.WindowBounds` | src/components/movies/MovieGrid.tsx:83-85 | with a list, the window is never longer than the list and holds no movie more often than the list does; with a positive page size it holds `min(page * pageSize, list length)` movies, and `hasMoreToLoad` holds exactly while `page * pageSize < list length` |
| `RecommendedMovies.ExcludeSource` | src/components/movies/RecommendedMovies.tsx:31-33 | with a truthy source id no movie in the result has it, and the result keeps exactly the other movies, as a subsequence with their counts; with an absent or `""` source id the result is the input |
| `RecommendedMovies.RecommendedRow` | src/components/movies/RecommendedMovies.tsx:28-35 | nothing is rendered exactly when every supplied movie is the source movie, an empty list included; otherwise the carousel is exactly `ExcludeSource` of the input: a non-empty subsequence of it without the source movie |

## Left out

- The simulated asynchronous load (a `setTimeout` delay and `await`) is left out. `Load` is the moment the seed arrives, and `loading` is a plain flag.
- Toast notifications after each mutation are UI side effects and are left out.
- `Date.now()` id generation is replaced by an id the caller passes to `AddMovie`. Uniqueness is stated under a freshness precondition (`AddThenFind`).
- React renders between a state change and its effect. In that window `filteredMovies` still shows the old filter result. The model rebuilds the view at the end of each operation.
- `Lower`: only ASCII letters are lower-cased; JavaScript's full Unicode `toLowerCase` is not modelled.
- `StrLe`: JavaScript orders strings by UTF-16 code units, and the model orders them by Unicode code points. The two differ only for characters outside the Basic Multilingual Plane.
- `DateValue`: only exact `YYYY-MM-DD` strings are keyed by their date. Every other string gets the key -1 and sorts after every date. That includes formats `new Date` parses to a real time, such as `2020`, `2020-05`, full ISO timestamps and engine-specific forms like `May 1, 2020`; for strings it cannot parse (`NaN`) the JavaScript sort order is left to the engine. Calendar validity of the date (month 13, 31 February) is not checked.
- `Update` / `ApplyPatch`: `Partial<Movie>` allows a required key to be present with the value `undefined` (`{ title: undefined }`), and the spread then copies `undefined` over the old value. `MoviePatch` cannot express that for the required fields; only `bannerUrl` and `featured` distinguish "absent" from "present but `undefined`".
- `Grid.constructor`, `Grid.Reset`, `Grid.Advance`: in context mode (an empty `movies` list) the grid calls `getMoviesByPage`, but the catalogue provider in src/contexts/MovieContext.tsx:27-39 and 137-149 supplies no such function. The destructured value is `undefined`, so in the code as shown that branch throws a `TypeError` at src/components/movies/MovieGrid.tsx:31 and :50. It runs whenever the page mounts a grid with an empty list: during the initial load (src/pages/Movies.tsx:140), and after a search or genre with no match (lines 112 and 125). The model describes a provider that does supply the function: its pages are the parameters `firstContextPage` and `contextBatch`.
- The `IntersectionObserver` behind `inView` is left out; `inView` is a parameter.
- React runs effects again on every dependency change, so the scroll effect may fire several times while the marker stays in view. Each call of `Advance` is one run. On mount, the scroll effect runs in the same commit as the reset and sees the state before it; that ordering is not modelled.
- `Grid.Reset`: the scroll effect depends on `movies` and `pageSize` too (src/components/movies/MovieGrid.tsx:57). So on every re-run of the initialisation effect, not only on mount, it runs in the same commit and reads the old `page` and window length. When the marker is in view and not loading, its update can override the reset. Example: page size 8, an old list shown in full on page 2 (16 movies), and a new 40-movie list. The reset queues 8 movies on page 1, but the scroll effect then queues `slice(0, 24)` on page 3, and the last write wins. `Reset` models the initialisation effect alone. Because the overriding state is `slice(0, (old page + 1) * pageSize)` on page `old page + 1`, `Valid()` holds there as well.
- Rendering is left out: skeletons while loading, "No movies found", the carousel layout, titles and counts.
- Navigation is left out, as are the authentication redirect on the page and the display formatting of years and ratings.

These are not shown anywhere in the source, so they are not part of this model:
- genre-overlap recommendation scoring;
- the catalogue's `getMoviesByPage`;
- rating-range validation;
- `NotFound` errors.
