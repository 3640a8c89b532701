/**
 * Ordering by a numeric column, as pandas' `sort_values(by=..., ascending=True)` does.
 */
module Sorting {

  /** The rows of `s` are in ascending order of `key`. */
  ghost predicate SortedBy<T>(s: seq<T>, key: T -> real) {
    forall i, j :: 0 <= i < j < |s| ==> key(s[i]) <= key(s[j])
  }

  /** Places `x` after every row of `s` whose key is not greater than its own. */
  function Insert<T>(x: T, s: seq<T>, key: T -> real): (r: seq<T>)
    requires SortedBy(s, key)
    ensures SortedBy(r, key)
    ensures multiset(r) == multiset(s) + multiset{x}
    ensures |r| == |s| + 1
  {
    if s == [] then [x]
    else if key(x) < key(s[0]) then
      HeadBelowRest(x, s, key);
      [x] + s
    else
      var rest := Insert(x, s[1..], key);
      assert s == [s[0]] + s[1..];
      HeadBelowInserted(x, s, rest, key);
      [s[0]] + rest
  }

  /** A row not above the first row of a sorted sequence can go in front of it. */
  lemma HeadBelowRest<T>(x: T, s: seq<T>, key: T -> real)
    requires SortedBy(s, key) && s != [] && key(x) < key(s[0])
    ensures SortedBy([x] + s, key)
  {
    forall y | y in multiset(s) ensures key(x) <= key(y) {
      var k :| 0 <= k < |s| && s[k] == y;
    }
    ConsSorted(x, s, key);
  }

  /** The first row of a sorted sequence can go in front of the rest with `x` inserted. */
  lemma HeadBelowInserted<T>(x: T, s: seq<T>, rest: seq<T>, key: T -> real)
    requires SortedBy(s, key) && s != [] && key(s[0]) <= key(x)
    requires SortedBy(rest, key) && multiset(rest) == multiset(s[1..]) + multiset{x}
    ensures SortedBy([s[0]] + rest, key)
  {
    forall y | y in multiset(rest) ensures key(s[0]) <= key(y) {
      if y != x {
        assert y in multiset(s[1..]);
        var k :| 0 <= k < |s[1..]| && s[1..][k] == y;
        assert s[k + 1] == y;
      }
    }
    ConsSorted(s[0], rest, key);
  }

  lemma ConsSorted<T>(h: T, rest: seq<T>, key: T -> real)
    requires SortedBy(rest, key)
    requires forall y :: y in multiset(rest) ==> key(h) <= key(y)
    ensures SortedBy([h] + rest, key)
  {
    var r := [h] + rest;
    forall i, j | 0 <= i < j < |r| ensures key(r[i]) <= key(r[j]) {
      assert r[j] == rest[j - 1] && rest[j - 1] in multiset(rest);
      if i > 0 {
        assert r[i] == rest[i - 1];
      }
    }
  }

  /** Insertion sort: the rows of `s` rearranged into ascending order of `key`. */
  function SortBy<T>(s: seq<T>, key: T -> real): (r: seq<T>)
    ensures SortedBy(r, key)
    ensures multiset(r) == multiset(s)
    ensures |r| == |s|
  {
    if s == [] then []
    else
      var init := s[..|s| - 1];
      assert s == init + [s[|s| - 1]];
      Insert(s[|s| - 1], SortBy(init, key), key)
  }

  /**
   * The first `n` rows of a sorted sequence (`.head(n)`): still sorted, drawn from `s`,
   * and no row left out has a smaller key than a row kept.
   */
  lemma SortedHead<T>(s: seq<T>, key: T -> real, n: nat)
    requires SortedBy(s, key) && n <= |s|
    ensures SortedBy(s[..n], key)
    ensures multiset(s[..n]) <= multiset(s)
    ensures forall x, y :: x in multiset(s) - multiset(s[..n]) && y in s[..n] ==> key(y) <= key(x)
  {
    assert s == s[..n] + s[n..];
    assert multiset(s) - multiset(s[..n]) == multiset(s[n..]);
    SortedSlice(s, key, 0, n);
    assert s[0..n] == s[..n];
    SplitOrdered(s, key, n);
  }

  /**
   * The last `n` rows of a sorted sequence (`.tail(n)`): still sorted, drawn from `s`,
   * and no row left out has a greater key than a row kept.
   */
  lemma SortedTail<T>(s: seq<T>, key: T -> real, n: nat)
    requires SortedBy(s, key) && n <= |s|
    ensures SortedBy(s[|s| - n..], key)
    ensures multiset(s[|s| - n..]) <= multiset(s)
    ensures forall x, y :: x in multiset(s) - multiset(s[|s| - n..]) && y in s[|s| - n..] ==> key(x) <= key(y)
  {
    var m := |s| - n;
    assert s == s[..m] + s[m..];
    assert multiset(s) - multiset(s[m..]) == multiset(s[..m]);
    SortedSlice(s, key, m, |s|);
    assert s[m..|s|] == s[m..];
    SplitOrdered(s, key, m);
  }

  /** A slice of a sorted sequence is sorted. */
  lemma SortedSlice<T>(s: seq<T>, key: T -> real, lo: nat, hi: nat)
    requires SortedBy(s, key) && lo <= hi <= |s|
    ensures SortedBy(s[lo..hi], key)
  {
    forall i, j | 0 <= i < j < hi - lo ensures key(s[lo..hi][i]) <= key(s[lo..hi][j]) {
      assert s[lo..hi][i] == s[lo + i] && s[lo..hi][j] == s[lo + j];
    }
  }

  /** In a sorted sequence no row before position `n` has a greater key than a row from `n` on. */
  lemma SplitOrdered<T>(s: seq<T>, key: T -> real, n: nat)
    requires SortedBy(s, key) && n <= |s|
    ensures forall x, y :: x in multiset(s[..n]) && y in multiset(s[n..]) ==> key(x) <= key(y)
  {
    forall x: T, y: T | x in multiset(s[..n]) && y in multiset(s[n..]) ensures key(x) <= key(y) {
      var i :| 0 <= i < n && s[..n][i] == x;
      var j :| 0 <= j < |s| - n && s[n..][j] == y;
      assert s[i] == x && s[n + j] == y;
    }
  }
}
