/** The row of recommendations shown beside a movie: the supplied list without
    the movie being viewed, or nothing at all when that leaves no movie. */
module RecommendedMovies {
  import opened Lists
  import opened Text
  import opened MovieContext

  function NotSource(sourceId: string): Movie -> bool
  {
    (m: Movie) => m.id != sourceId
  }

  /** `sourceMovieId ? movies.filter(m => m.id !== sourceMovieId) : movies`. */
  function ExcludeSource(ms: seq<Movie>, sourceId: Option<string>): (r: seq<Movie>)
    ensures Truthy(sourceId) ==> forall m :: m in r ==> m.id != sourceId.value
    ensures !Truthy(sourceId) ==> r == ms
    ensures IsSubsequence(r, ms)
    ensures forall m :: multiset(r)[m] == if Truthy(sourceId) && m.id == sourceId.value then 0 else multiset(ms)[m]
  {
    if Truthy(sourceId) then
      SelectIsSubsequence(ms, NotSource(sourceId.value));
      forall m ensures multiset(Select(ms, NotSource(sourceId.value)))[m]
                    == if m.id == sourceId.value then 0 else multiset(ms)[m] {
        SelectCounts(ms, NotSource(sourceId.value), m);
      }
      Select(ms, NotSource(sourceId.value))
    else
      SubsequenceReflexive(ms);
      ms
  }

  /** What the component renders: `None` for `null`, otherwise the movies of
      the carousel. Nothing is rendered exactly when every supplied movie is
      the source movie, which includes an empty list. */
  function RecommendedRow(ms: seq<Movie>, sourceId: Option<string>): (r: Option<seq<Movie>>)
    ensures r.None? <==> forall m :: m in ms ==> Truthy(sourceId) && m.id == sourceId.value
    ensures r.Some? ==> r.value == ExcludeSource(ms, sourceId) && r.value != []
    ensures r.Some? ==> IsSubsequence(r.value, ms) && forall m :: m in r.value ==> !Truthy(sourceId) || m.id != sourceId.value
  {
    if |ms| == 0 then None
    else
      var filtered := ExcludeSource(ms, sourceId);
      if |filtered| == 0 then
        assert forall m :: m in ms ==> multiset(filtered)[m] == 0;
        None
      else
        assert filtered[0] in multiset(filtered);
        assert filtered[0] in multiset(ms) && filtered[0] in ms;
        Some(filtered)
  }
}
