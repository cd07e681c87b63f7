/** The two ways the catalogue page calls `Array.prototype.sort`: with no
    comparator on a list of strings, and with a numeric "larger key first"
    comparator on a list of records. Both are modelled as insertion sorts; the
    keyed one is stable, as the JavaScript sort is required to be. */
module Sorting {
  import opened Lists
  import opened Text

  // ---------------------------------------------------------------------------
  // `strings.sort()`

  predicate StrSorted(s: seq<string>)
  {
    forall i, j :: 0 <= i < j < |s| ==> StrLe(s[i], s[j])
  }

  function InsertStr(x: string, s: seq<string>): seq<string>
  {
    if s == [] then [x]
    else if StrLe(x, s[0]) then [x] + s
    else [s[0]] + InsertStr(x, s[1..])
  }

  function SortStrings(s: seq<string>): seq<string>
  {
    if s == [] then [] else InsertStr(s[0], SortStrings(s[1..]))
  }

  lemma {:induction false} InsertStrCorrect(x: string, s: seq<string>)
    requires StrSorted(s)
    ensures StrSorted(InsertStr(x, s))
    ensures multiset(InsertStr(x, s)) == multiset(s) + multiset{x}
  {
    if s == [] {
    } else if StrLe(x, s[0]) {
      forall j | 0 < j < |s| ensures StrLe(x, s[j]) {
        StrLeTransitive(x, s[0], s[j]);
      }
      var r := [x] + s;
      forall i, j | 0 <= i < j < |r| ensures StrLe(r[i], r[j]) {
        if i > 0 { assert r[i] == s[i - 1] && r[j] == s[j - 1]; }
      }
    } else {
      StrLeTotal(x, s[0]);
      InsertStrCorrect(x, s[1..]);
      var t := InsertStr(x, s[1..]);
      assert s == [s[0]] + s[1..];
      forall k | 0 <= k < |t| ensures StrLe(s[0], t[k]) {
        assert t[k] in multiset(t);
        if t[k] != x {
          assert t[k] in multiset(s[1..]);
          var m :| 0 <= m < |s[1..]| && s[1..][m] == t[k];
          assert s[m + 1] == t[k];
        }
      }
      var r := [s[0]] + t;
      forall i, j | 0 <= i < j < |r| ensures StrLe(r[i], r[j]) {
        if i > 0 { assert r[i] == t[i - 1] && r[j] == t[j - 1]; }
      }
    }
  }

  /** `sort()` on strings returns them in ascending order, as a permutation of
      its input. */
  lemma {:induction false} SortStringsCorrect(s: seq<string>)
    ensures StrSorted(SortStrings(s))
    ensures multiset(SortStrings(s)) == multiset(s)
  {
    if s != [] {
      SortStringsCorrect(s[1..]);
      InsertStrCorrect(s[0], SortStrings(s[1..]));
      assert s == [s[0]] + s[1..];
    }
  }

  // ---------------------------------------------------------------------------
  // `records.sort((a, b) => key(b) - key(a))`

  /** Keys never increase from left to right. */
  predicate DescendingBy<T>(s: seq<T>, key: T -> real)
  {
    forall i, j :: 0 <= i < j < |s| ==> key(s[i]) >= key(s[j])
  }

  /** The predicate "has key `v`", used to pick out one class of equal keys. */
  function HasKey<T>(key: T -> real, v: real): T -> bool
  {
    x => key(x) == v
  }

  /** Inserts `x` in front of the first element whose key is not larger, so that
      among equal keys the element inserted last comes first. */
  function InsertByKey<T>(x: T, s: seq<T>, key: T -> real): seq<T>
  {
    if s == [] then [x]
    else if key(x) >= key(s[0]) then [x] + s
    else [s[0]] + InsertByKey(x, s[1..], key)
  }

  function SortByKeyDesc<T>(s: seq<T>, key: T -> real): seq<T>
  {
    if s == [] then [] else InsertByKey(s[0], SortByKeyDesc(s[1..], key), key)
  }

  /** In a descending list the first key bounds every later one. */
  lemma HeadDominates<T>(s: seq<T>, key: T -> real)
    requires DescendingBy(s, key) && s != []
    ensures forall z :: z in s[1..] ==> key(s[0]) >= key(z)
  {
    forall z | z in s[1..] ensures key(s[0]) >= key(z) {
      var m :| 0 <= m < |s[1..]| && s[1..][m] == z;
      assert s[m + 1] == z;
    }
  }

  /** Putting in front of a descending list an element whose key bounds all of
      its keys keeps it descending. */
  lemma ConsDescending<T>(y: T, t: seq<T>, key: T -> real)
    requires DescendingBy(t, key)
    requires forall z :: z in t ==> key(y) >= key(z)
    ensures DescendingBy([y] + t, key)
  {
    var r := [y] + t;
    forall i, j | 0 <= i < j < |r| ensures key(r[i]) >= key(r[j]) {
      assert r[j] == t[j - 1];
      if i > 0 { assert r[i] == t[i - 1]; }
    }
  }

  /** Inserting adds exactly one copy of `x`. */
  lemma {:induction false} InsertByKeyCounts<T>(x: T, s: seq<T>, key: T -> real)
    ensures multiset(InsertByKey(x, s, key)) == multiset(s) + multiset{x}
  {
    if s != [] && key(x) < key(s[0]) {
      InsertByKeyCounts(x, s[1..], key);
      assert s == [s[0]] + s[1..];
    }
  }

  lemma DescendingTail<T>(s: seq<T>, key: T -> real)
    requires DescendingBy(s, key) && s != []
    ensures DescendingBy(s[1..], key)
  {
    forall i, j | 0 <= i < j < |s[1..]| ensures key(s[1..][i]) >= key(s[1..][j]) {
      assert s[1..][i] == s[i + 1] && s[1..][j] == s[j + 1];
    }
  }

  lemma {:induction false} InsertByKeyDescending<T>(x: T, s: seq<T>, key: T -> real)
    requires DescendingBy(s, key)
    ensures DescendingBy(InsertByKey(x, s, key), key)
  {
    if s != [] {
      HeadDominates(s, key);
      if key(x) >= key(s[0]) {
        assert s == [s[0]] + s[1..];
        ConsDescending(x, s, key);
      } else {
        DescendingTail(s, key);
        InsertByKeyDescending(x, s[1..], key);
        InsertByKeyCounts(x, s[1..], key);
        var t := InsertByKey(x, s[1..], key);
        forall z | z in t ensures key(s[0]) >= key(z) {
          assert z in multiset(t);
        }
        ConsDescending(s[0], t, key);
      }
    }
  }

  lemma InsertByKeyCorrect<T>(x: T, s: seq<T>, key: T -> real)
    requires DescendingBy(s, key)
    ensures DescendingBy(InsertByKey(x, s, key), key)
    ensures multiset(InsertByKey(x, s, key)) == multiset(s) + multiset{x}
  {
    InsertByKeyDescending(x, s, key);
    InsertByKeyCounts(x, s, key);
  }

  /** The keyed sort puts larger keys first and is a permutation of its input. */
  lemma {:induction false} SortByKeyDescCorrect<T>(s: seq<T>, key: T -> real)
    ensures DescendingBy(SortByKeyDesc(s, key), key)
    ensures multiset(SortByKeyDesc(s, key)) == multiset(s)
  {
    if s != [] {
      SortByKeyDescCorrect(s[1..], key);
      InsertByKeyCorrect(s[0], SortByKeyDesc(s[1..], key), key);
      assert s == [s[0]] + s[1..];
    }
  }

  /** The keyed sort keeps exactly the elements of its input. */
  lemma SortByKeyDescElements<T>(s: seq<T>, key: T -> real)
    ensures forall x :: x in SortByKeyDesc(s, key) <==> x in s
  {
    SortByKeyDescCorrect(s, key);
    forall x ensures x in SortByKeyDesc(s, key) <==> x in s {
      assert x in SortByKeyDesc(s, key) <==> x in multiset(SortByKeyDesc(s, key));
      assert x in s <==> x in multiset(s);
    }
  }

  lemma {:induction false} InsertByKeyClass<T>(x: T, s: seq<T>, key: T -> real, v: real)
    ensures Select(InsertByKey(x, s, key), HasKey(key, v))
         == (if key(x) == v then [x] else []) + Select(s, HasKey(key, v))
  {
    if s != [] && key(x) < key(s[0]) {
      InsertByKeyClass(x, s[1..], key, v);
    }
  }

  /** Stability: the elements that share one key come out of the sort in the
      order they went in. */
  lemma {:induction false} SortByKeyDescStable<T>(s: seq<T>, key: T -> real, v: real)
    ensures Select(SortByKeyDesc(s, key), HasKey(key, v)) == Select(s, HasKey(key, v))
  {
    if s != [] {
      SortByKeyDescStable(s[1..], key, v);
      InsertByKeyClass(s[0], SortByKeyDesc(s[1..], key), key, v);
    }
  }

  /** Cutting a descending list after its first `n` elements keeps the largest
      keys: whatever was cut off has a key no larger than anything kept. */
  lemma TopOfDescending<T>(s: seq<T>, key: T -> real, n: int)
    requires DescendingBy(s, key)
    ensures forall m, x :: m in s && m !in Slice0(s, n) && x in Slice0(s, n) ==> key(x) >= key(m)
  {
    var r := Slice0(s, n);
    forall m, x | m in s && m !in r && x in r ensures key(x) >= key(m) {
      var k :| 0 <= k < |s| && s[k] == m;
      var i :| 0 <= i < |r| && r[i] == x;
      assert forall j :: 0 <= j < |r| ==> r[j] == s[j];
      assert |r| <= k;
    }
  }

  lemma PrefixDescending<T>(a: seq<T>, s: seq<T>, key: T -> real)
    requires a <= s && DescendingBy(s, key)
    ensures DescendingBy(a, key)
  {
    assert forall i :: 0 <= i < |a| ==> a[i] == s[i];
  }

  /** `sort(...).slice(0, n)` with a non-negative `n`: the first `n` elements in
      descending key order, each taken from the input, and all of the input
      when it has no more than `n` elements. */
  lemma SortedTop<T>(s: seq<T>, key: T -> real, n: nat)
    ensures var r := Slice0(SortByKeyDesc(s, key), n);
      && |r| == (if |s| < n then |s| else n)
      && DescendingBy(r, key)
      && multiset(r) <= multiset(s)
      && (|s| <= n ==> multiset(r) == multiset(s))
  {
    var t := SortByKeyDesc(s, key);
    SortByKeyDescCorrect(s, key);
    assert |t| == |multiset(t)| == |s|;
    PrefixCounts(Slice0(t, n), t);
    PrefixDescending(Slice0(t, n), t, key);
  }
}
