/** The incremental-loading window of `MovieGrid`: the component state
    `displayedMovies` and `page`, reset by the initialisation effect and grown
    by the infinite-scroll effect. With an explicit, non-empty `movies` list the
    window is always `movies.slice(0, page * pageSize)`; with an empty list the
    grid appends the batches the catalogue hands it. */
module MovieGrid {
  import opened Lists
  import opened MovieContext

  /** Page `n` (counting from 1) of `s` with `size` items per page:
      `s.slice((n - 1) * size, n * size)`. */
  function Page<T>(s: seq<T>, n: nat, size: nat): (r: seq<T>)
    requires n >= 1
    ensures |r| <= size
    ensures (n - 1) * size < |s| ==> r != [] || size == 0
  {
    var lo := (n - 1) * size;
    var hi := n * size;
    if lo >= |s| then [] else if hi >= |s| then s[lo..] else s[lo..hi]
  }

  /** Pages 1 to `n` of `s`, one after the other. */
  function Pages<T>(s: seq<T>, n: nat, size: nat): seq<T>
  {
    if n == 0 then [] else Pages(s, n - 1, size) + Page(s, n, size)
  }

  /** Growing the window by one page appends exactly the next page. */
  lemma PrefixStable<T>(s: seq<T>, n: nat, size: nat)
    ensures Slice0(s, (n + 1) * size) == Slice0(s, n * size) + Page(s, n + 1, size)
  {
    assert (n + 1) * size == n * size + size;
  }

  /** Loading pages one by one shows the same movies as cutting the first
      `n * size` at once: pagination is prefix-stable. */
  lemma {:induction false} PagesArePrefix<T>(s: seq<T>, n: nat, size: nat)
    ensures Pages(s, n, size) == Slice0(s, n * size)
  {
    if n > 0 {
      PagesArePrefix(s, n - 1, size);
      PrefixStable(s, n - 1, size);
    }
  }

  /** Of two prefixes of one list, the shorter is a prefix of the longer. */
  lemma PrefixesNest<T>(a: seq<T>, b: seq<T>, s: seq<T>)
    requires a <= s && b <= s && |a| <= |b|
    ensures a <= b
  {
    assert forall i :: 0 <= i < |a| ==> a[i] == s[i] == b[i];
  }

  class Grid {
    var movies: seq<Movie>
    var pageSize: int
    var displayed: seq<Movie>
    var page: int

    /** In explicit-list mode the window is the first `page * pageSize` movies. */
    ghost predicate Valid()
      reads this
    {
      page >= 1 && (|movies| > 0 ==> displayed == Slice0(movies, page * pageSize))
    }

    /** Mounting the grid: the initial state and the initialisation effect.
        `firstContextPage` is what the catalogue returns for page 1, used only
        when `movies` is empty. */
    constructor (movies: seq<Movie>, pageSize: int, firstContextPage: seq<Movie>)
      ensures Valid()
      ensures this.movies == movies && this.pageSize == pageSize && page == 1
      ensures displayed == if |movies| > 0 then Slice0(movies, pageSize) else firstContextPage
    {
      this.movies := movies;
      this.pageSize := pageSize;
      displayed := if |movies| > 0 then Slice0(movies, pageSize) else firstContextPage;
      page := 1;
    }

    /** The initialisation effect, run again whenever `movies` or `pageSize`
        change: back to the first page. */
    method Reset(movies: seq<Movie>, pageSize: int, firstContextPage: seq<Movie>)
      modifies this
      ensures Valid()
      ensures this.movies == movies && this.pageSize == pageSize && page == 1
      ensures displayed == if |movies| > 0 then Slice0(movies, pageSize) else firstContextPage
    {
      this.movies := movies;
      this.pageSize := pageSize;
      displayed := if |movies| > 0 then Slice0(movies, pageSize) else firstContextPage;
      page := 1;
    }

    /** The infinite-scroll effect. `contextBatch` is what the catalogue returns
        for page `page + 1`, used only when `movies` is empty. */
    method Advance(inView: bool, loading: bool, contextBatch: seq<Movie>)
      requires Valid()
      modifies this`displayed, this`page
      ensures Valid()
      ensures !inView || loading ==> displayed == old(displayed) && page == old(page)
      ensures inView && !loading && |movies| > 0 ==>
        var next := Slice0(movies, (old(page) + 1) * pageSize);
        if |next| > |old(displayed)|
        then displayed == next && page == old(page) + 1
        else displayed == old(displayed) && page == old(page)
      ensures inView && !loading && |movies| == 0 ==>
        if |contextBatch| > 0
        then displayed == old(displayed) + contextBatch && page == old(page) + 1
        else displayed == old(displayed) && page == old(page)
      ensures old(displayed) <= displayed
      ensures page == old(page) || page == old(page) + 1
      ensures |movies| > 0 && 0 <= pageSize && page == old(page) + 1 ==>
        displayed == old(displayed) + Page(movies, page, pageSize)
    {
      if inView && !loading {
        var nextPage := page + 1;
        if |movies| > 0 {
          var nextBatch := Slice0(movies, nextPage * pageSize);
          if |nextBatch| > |displayed| {
            PrefixesNest(displayed, nextBatch, movies);
            if 0 <= pageSize {
              PrefixStable(movies, page, pageSize);
            }
            displayed := nextBatch;
            page := nextPage;
          }
        } else {
          if |contextBatch| > 0 {
            displayed := displayed + contextBatch;
            page := nextPage;
          }
        }
      }
    }

    /** `hasMoreToLoad`: the spinner that triggers the next load is shown. */
    function HasMoreToLoad(): (r: bool)
      reads this
      ensures |movies| == 0 ==> r
      ensures Valid() && |movies| > 0 && 0 < pageSize ==> (r <==> page * pageSize < |movies|)
    {
      if |movies| > 0 then |displayed| < |movies| else true
    }

    /** In explicit-list mode the window never shows more than the list, nor
        any movie more often than the list holds it; with a positive page size
        it holds `min(page * pageSize, |movies|)` movies, and there is more to
        load exactly while `page * pageSize` falls short of the list. */
    lemma WindowBounds()
      requires Valid() && |movies| > 0
      ensures |displayed| <= |movies|
      ensures multiset(displayed) <= multiset(movies)
      ensures 0 < pageSize ==> |displayed| == if page * pageSize < |movies| then page * pageSize else |movies|
      ensures 0 < pageSize ==> (HasMoreToLoad() <==> page * pageSize < |movies|)
    {
      PrefixCounts(displayed, movies);
    }
  }
}
