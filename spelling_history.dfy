/** A child's spelling history shown newest first (firestoreService.ts,
    getSpellingProgress). The source copies the history and sorts it with a
    stable sort on descending timestamp; the insertion sort here is stable
    in the same way: an element is placed before every element with an
    equal timestamp that followed it. */
module SpellingHistory {
  import opened Types

  predicate NewestFirst(s: seq<SpellingResult>)
  {
    forall i, j :: 0 <= i < j < |s| ==> s[i].timestamp >= s[j].timestamp
  }

  function InsertNewestFirst(x: SpellingResult, s: seq<SpellingResult>): seq<SpellingResult>
    decreases |s|
  {
    if s == [] || x.timestamp >= s[0].timestamp then [x] + s
    else [s[0]] + InsertNewestFirst(x, s[1..])
  }

  function SortNewestFirst(s: seq<SpellingResult>): seq<SpellingResult>
    decreases |s|
  {
    if s == [] then [] else InsertNewestFirst(s[0], SortNewestFirst(s[1..]))
  }

  lemma {:induction false} InsertNewestFirstMembers(x: SpellingResult, s: seq<SpellingResult>)
    ensures multiset(InsertNewestFirst(x, s)) == multiset(s) + multiset{x}
    ensures |InsertNewestFirst(x, s)| == |s| + 1
    decreases |s|
  {
    if s != [] && x.timestamp < s[0].timestamp {
      InsertNewestFirstMembers(x, s[1..]);
      assert s == [s[0]] + s[1..];
    }
  }

  lemma {:induction false} InsertNewestFirstSorted(x: SpellingResult, s: seq<SpellingResult>)
    requires NewestFirst(s)
    ensures NewestFirst(InsertNewestFirst(x, s))
    decreases |s|
  {
    if s != [] && x.timestamp < s[0].timestamp {
      var t := s[1..];
      InsertNewestFirstSorted(x, t);
      InsertNewestFirstMembers(x, t);
      var rt := InsertNewestFirst(x, t);
      forall y | y in rt ensures y.timestamp <= s[0].timestamp {
        assert y in multiset(rt);
        if y != x {
          assert y in multiset(t);
          var k :| 0 <= k < |t| && t[k] == y;
          assert s[k + 1] == y;
        }
      }
      var r := [s[0]] + rt;
      forall i, j | 0 <= i < j < |r| ensures r[i].timestamp >= r[j].timestamp {
        if i == 0 {
          assert r[j] in rt;
        } else {
          assert r[i] == rt[i - 1] && r[j] == rt[j - 1];
        }
      }
    }
  }

  /** The result is sorted newest first and is a permutation of the input. */
  lemma {:induction false} SortNewestFirstSpec(s: seq<SpellingResult>)
    ensures NewestFirst(SortNewestFirst(s))
    ensures multiset(SortNewestFirst(s)) == multiset(s)
    ensures |SortNewestFirst(s)| == |s|
    decreases |s|
  {
    if s != [] {
      SortNewestFirstSpec(s[1..]);
      InsertNewestFirstMembers(s[0], SortNewestFirst(s[1..]));
      InsertNewestFirstSorted(s[0], SortNewestFirst(s[1..]));
      assert s == [s[0]] + s[1..];
    }
  }

  /** A history that is already newest first is returned as it is. */
  lemma {:induction false} SortNewestFirstOfSorted(s: seq<SpellingResult>)
    requires NewestFirst(s)
    ensures SortNewestFirst(s) == s
    decreases |s|
  {
    if s != [] {
      assert NewestFirst(s[1..]);
      SortNewestFirstOfSorted(s[1..]);
      if |s| > 1 {
        assert s[0].timestamp >= s[1].timestamp;
      }
      assert s == [s[0]] + s[1..];
    }
  }

  /** Sorting twice is sorting once. */
  lemma SortNewestFirstIdempotent(s: seq<SpellingResult>)
    ensures SortNewestFirst(SortNewestFirst(s)) == SortNewestFirst(s)
  {
    SortNewestFirstSpec(s);
    SortNewestFirstOfSorted(SortNewestFirst(s));
  }

  /** A result at least as recent as every stored one is shown first, and the
      rest is shown as before. */
  lemma {:induction false} SortNewestFirstPrependLatest(x: SpellingResult, s: seq<SpellingResult>)
    requires forall y :: y in s ==> y.timestamp <= x.timestamp
    ensures SortNewestFirst([x] + s) == [x] + SortNewestFirst(s)
  {
    var t := SortNewestFirst(s);
    assert ([x] + s)[1..] == s;
    SortNewestFirstSpec(s);
    if t != [] {
      assert t[0] in multiset(s);
    }
  }
}
