/** Sequence operations that the catalogue code takes from JavaScript's Array:
    `filter`, `slice(0, end)`, and the notion of an order-preserving subsequence
    used to state what `filter` guarantees. */
module Lists {

  /** An optional value: `None` is JavaScript's `undefined` (an absent key). */
  datatype Option<+T> = None | Some(value: T)

  /** `b` can be turned into `a` by dropping elements, without reordering or
      repeating any. */
  ghost predicate IsSubsequence<T>(a: seq<T>, b: seq<T>)
  {
    if b == [] then a == []
    else IsSubsequence(a, b[1..]) || (a != [] && a[0] == b[0] && IsSubsequence(a[1..], b[1..]))
  }

  lemma {:induction false} SubsequenceReflexive<T>(a: seq<T>)
    ensures IsSubsequence(a, a)
  {
    if a != [] {
      SubsequenceReflexive(a[1..]);
    }
  }

  lemma {:induction false} SubsequenceTransitive<T>(a: seq<T>, b: seq<T>, c: seq<T>)
    requires IsSubsequence(a, b) && IsSubsequence(b, c)
    ensures IsSubsequence(a, c)
    decreases |c|
  {
    if c != [] {
      if IsSubsequence(b, c[1..]) {
        SubsequenceTransitive(a, b, c[1..]);
      } else {
        assert b != [] && b[0] == c[0] && IsSubsequence(b[1..], c[1..]);
        if IsSubsequence(a, b[1..]) {
          SubsequenceTransitive(a, b[1..], c[1..]);
        } else {
          SubsequenceTransitive(a[1..], b[1..], c[1..]);
        }
      }
    }
  }

  lemma {:induction false} SubsequenceElements<T>(a: seq<T>, b: seq<T>)
    requires IsSubsequence(a, b)
    ensures forall x :: x in a ==> x in b
  {
    if b != [] {
      if IsSubsequence(a, b[1..]) {
        SubsequenceElements(a, b[1..]);
      } else {
        SubsequenceElements(a[1..], b[1..]);
        assert a == [a[0]] + a[1..];
      }
    }
  }

  /** `s.filter(p)`: the elements of `s` that satisfy `p`, in their order in `s`. */
  function Select<T>(s: seq<T>, p: T -> bool): (r: seq<T>)
    ensures |r| <= |s|
    ensures forall x :: x in r ==> x in s && p(x)
    ensures forall x :: x in s && p(x) ==> x in r
  {
    if s == [] then []
    else if p(s[0]) then [s[0]] + Select(s[1..], p)
    else Select(s[1..], p)
  }

  /** `filter` keeps every occurrence of a selected value and no occurrence of
      any other: it neither duplicates nor loses anything it keeps. */
  lemma {:induction false} SelectCounts<T>(s: seq<T>, p: T -> bool, x: T)
    ensures multiset(Select(s, p))[x] == if p(x) then multiset(s)[x] else 0
  {
    if s != [] {
      SelectCounts(s[1..], p, x);
      assert s == [s[0]] + s[1..];
    }
  }

  /** `filter` never reorders: its result is a subsequence of its input. */
  lemma {:induction false} SelectIsSubsequence<T>(s: seq<T>, p: T -> bool)
    ensures IsSubsequence(Select(s, p), s)
  {
    if s != [] {
      SelectIsSubsequence(s[1..], p);
    }
  }

  /** When every element already satisfies `p`, `filter` returns its input. */
  lemma {:induction false} SelectAll<T>(s: seq<T>, p: T -> bool)
    requires forall x :: x in s ==> p(x)
    ensures Select(s, p) == s
  {
    if s != [] {
      SelectAll(s[1..], p);
      assert s == [s[0]] + s[1..];
    }
  }

  /** When no element satisfies `p`, `filter` returns the empty list. */
  lemma {:induction false} SelectNone<T>(s: seq<T>, p: T -> bool)
    requires forall x :: x in s ==> !p(x)
    ensures Select(s, p) == []
  {
    if s != [] {
      SelectNone(s[1..], p);
    }
  }

  /** Filtering a prefix gives a prefix of the filtered list. */
  lemma {:induction false} SelectPrefix<T>(a: seq<T>, s: seq<T>, p: T -> bool)
    requires a <= s
    ensures Select(a, p) <= Select(s, p)
  {
    if a != [] {
      SelectPrefix(a[1..], s[1..], p);
    }
  }

  /** `s.slice(0, end)`: a negative `end` counts back from the end of `s`, and
      `end` is clamped to `0 .. |s|`. */
  function Slice0<T>(s: seq<T>, end: int): (r: seq<T>)
    ensures r <= s
    ensures 0 <= end ==> |r| == if end < |s| then end else |s|
    ensures end < 0 ==> |r| == if |s| + end < 0 then 0 else |s| + end
  {
    if end < 0 then (if |s| + end < 0 then [] else s[..|s| + end])
    else if end < |s| then s[..end]
    else s
  }

  /** A prefix never holds an element more often than the list it is cut from. */
  lemma PrefixCounts<T>(a: seq<T>, s: seq<T>)
    requires a <= s
    ensures multiset(a) <= multiset(s)
  {
    assert s == a + s[|a|..];
  }
}
