/**
 * The mechanics shared by the listing queries: the optional id filters, and
 * ordering and paging as the store's ORDER BY ... DESC, OFFSET and LIMIT
 * clauses do them.
 */
module Queries {
  import opened Outcomes

  /** An optional id filter applies only to a non-zero id: zero reads as "no filter". */
  predicate FiltersOnId(id: Option<int>) {
    id.Some? && id.value != 0
  }

  /** Non-increasing in the given key. */
  ghost predicate SortedDesc<T>(s: seq<T>, key: T -> int) {
    forall i, j :: 0 <= i < j < |s| ==> key(s[i]) >= key(s[j])
  }

  function Min(a: int, b: int): int { if a <= b then a else b }

  /** Every key in s is at most bound. */
  ghost predicate KeysAtMost<T>(s: seq<T>, bound: int, key: T -> int) {
    forall i :: 0 <= i < |s| ==> key(s[i]) <= bound
  }

  /** Puts x into a sequence that is already in descending key order. */
  function InsertDesc<T>(x: T, s: seq<T>, key: T -> int): (r: seq<T>)
    requires SortedDesc(s, key)
    ensures SortedDesc(r, key)
    ensures forall bound :: KeysAtMost(s, bound, key) && key(x) <= bound ==> KeysAtMost(r, bound, key)
  {
    if s == [] || key(x) >= key(s[0]) then
      assert KeysAtMost(s, key(x), key);
      [x] + s
    else
      var rest := InsertDesc(x, s[1..], key);
      assert KeysAtMost(s[1..], key(s[0]), key);
      assert KeysAtMost(rest, key(s[0]), key);
      [s[0]] + rest
  }

  /** A non-empty sequence holds its head and its tail. */
  lemma SplitFirst<T>(s: seq<T>)
    requires s != []
    ensures multiset(s) == multiset(s[1..]) + multiset{s[0]}
  {
    assert s == [s[0]] + s[1..];
  }

  /** Inserting adds x and loses nothing. */
  lemma {:induction false} InsertDescPermutes<T>(x: T, s: seq<T>, key: T -> int)
    requires SortedDesc(s, key)
    ensures multiset(InsertDesc(x, s, key)) == multiset(s) + multiset{x}
  {
    if s != [] && key(x) < key(s[0]) {
      InsertDescPermutes(x, s[1..], key);
      SplitFirst(s);
      assert InsertDesc(x, s, key) == [s[0]] + InsertDesc(x, s[1..], key);
    }
  }

  /** The elements of s in descending key order (the order among equal keys is not promised). */
  function SortDesc<T>(s: seq<T>, key: T -> int): (r: seq<T>)
    ensures SortedDesc(r, key)
    ensures multiset(r) == multiset(s)
    ensures |r| == |s|
  {
    if s == [] then []
    else
      var sortedRest := SortDesc(s[1..], key);
      InsertDescPermutes(s[0], sortedRest, key);
      SplitFirst(s);
      InsertDesc(s[0], sortedRest, key)
  }

  /** The rows an OFFSET offset LIMIT limit clause keeps. */
  function Page<T>(s: seq<T>, offset: nat, limit: nat): (r: seq<T>)
    ensures |r| <= limit && |r| <= |s|
    ensures offset <= |s| ==> |r| == Min(limit, |s| - offset)
    ensures offset >= |s| ==> r == []
    ensures forall i :: 0 <= i < |r| ==> offset + i < |s| && r[i] == s[offset + i]
  {
    if offset >= |s| then [] else s[offset..Min(|s|, offset + limit)]
  }

  /**
   * page is what ORDER BY key DESC OFFSET offset LIMIT limit returns over the
   * rows s, for some order among rows with equal keys.
   */
  ghost predicate IsPageOf<T(!new)>(page: seq<T>, s: seq<T>, offset: nat, limit: nat, key: T -> int) {
    exists t :: SortedDesc(t, key) && multiset(t) == multiset(s) && page == Page(t, offset, limit)
  }

  /** A page of an ordered sequence is ordered, and holds only elements of the sequence. */
  lemma PageOfSorted<T>(s: seq<T>, offset: nat, limit: nat, key: T -> int)
    requires SortedDesc(s, key)
    ensures SortedDesc(Page(s, offset, limit), key)
    ensures multiset(Page(s, offset, limit)) <= multiset(s)
  {
    if offset < |s| {
      var hi := Min(|s|, offset + limit);
      assert s == s[..offset] + (s[offset..hi] + s[hi..]);
      assert s[offset..] == s[offset..hi] + s[hi..];
    }
  }

  /** Two consecutive pages make up the page that spans both. */
  lemma {:induction false} PagesConcatenate<T>(s: seq<T>, offset: nat, a: nat, b: nat)
    ensures Page(s, offset, a) + Page(s, offset + a, b) == Page(s, offset, a + b)
  {
  }

  /**
   * ORDER BY key DESC OFFSET offset LIMIT limit over the rows s: the page is
   * one such slice, sorted, of the expected length, and holds only rows of s.
   */
  function OrderedPage<T(!new)>(s: seq<T>, key: T -> int, offset: nat, limit: nat): (r: seq<T>)
    ensures IsPageOf(r, s, offset, limit, key)
    ensures SortedDesc(r, key)
    ensures multiset(r) <= multiset(s)
    ensures forall x :: x in r ==> x in s
    ensures |r| == if offset < |s| then Min(limit, |s| - offset) else 0
    ensures offset == 0 && |s| <= limit ==> multiset(r) == multiset(s)
    ensures offset == 0 && |s| <= limit ==> forall x :: x in s ==> x in r
  {
    var t := SortDesc(s, key);
    PageOfSorted(t, offset, limit, key);
    var r := Page(t, offset, limit);
    assert offset == 0 && |s| <= limit ==> r == t;
    forall x | x in r ensures x in s {
      assert x in multiset(r);
    }
    assert offset == 0 && |s| <= limit ==> forall x :: x in s ==> x in r by {
      forall x | x in s ensures x in multiset(s) {}
    }
    r
  }

  /** No two different elements of s share a key. */
  ghost predicate DistinctKeys<T>(s: seq<T>, key: T -> int) {
    forall x, y :: x in s && y in s && key(x) == key(y) ==> x == y
  }

  /** Distinct keys stay distinct in any rearrangement. */
  lemma DistinctKeysPermuted<T>(s: seq<T>, t: seq<T>, key: T -> int)
    requires DistinctKeys(s, key)
    requires multiset(t) == multiset(s)
    ensures DistinctKeys(t, key)
  {
    forall x | x in t ensures x in s {
      assert x in multiset(t);
    }
  }

  /** Dropping the first element keeps a sequence descending. */
  lemma SortedTail<T>(t: seq<T>, key: T -> int)
    requires t != [] && SortedDesc(t, key)
    ensures SortedDesc(t[1..], key)
  {
    var r := t[1..];
    forall i, m | 0 <= i < m < |r| ensures key(r[i]) >= key(r[m]) {
      assert r[i] == t[i + 1] && r[m] == t[m + 1];
    }
  }

  /** Two descending orders of one collection with distinct keys start with the same element. */
  lemma SortedHeadsAgree<T>(t1: seq<T>, t2: seq<T>, key: T -> int)
    requires t1 != [] && SortedDesc(t1, key) && SortedDesc(t2, key)
    requires multiset(t1) == multiset(t2)
    requires DistinctKeys(t1, key)
    ensures t2 != [] && t1[0] == t2[0]
  {
    assert t1[0] in multiset(t2);
    var j :| 0 <= j < |t2| && t2[j] == t1[0];
    assert t2[0] in multiset(t1);
    var k :| 0 <= k < |t1| && t1[k] == t2[0];
    assert key(t1[0]) >= key(t1[k]) && key(t2[0]) >= key(t2[j]);
  }

  /** With distinct keys there is only one descending order of a collection. */
  lemma {:induction false} SortedUnique<T>(t1: seq<T>, t2: seq<T>, key: T -> int)
    requires SortedDesc(t1, key) && SortedDesc(t2, key)
    requires multiset(t1) == multiset(t2)
    requires DistinctKeys(t1, key)
    ensures t1 == t2
    decreases |t1|
  {
    if t1 == [] {
      assert |t2| == |multiset(t2)| == 0;
    } else {
      SortedHeadsAgree(t1, t2, key);
      SplitFirst(t1);
      SplitFirst(t2);
      SortedTail(t1, key);
      SortedTail(t2, key);
      assert multiset(t1[1..]) == multiset(t2[1..]) by {
        var m1, m2 := multiset(t1[1..]), multiset(t2[1..]);
        forall o ensures m1[o] == m2[o] {
          assert (m1 + multiset{t1[0]})[o] == (m2 + multiset{t1[0]})[o];
        }
      }
      assert DistinctKeys(t1[1..], key) by {
        forall x | x in t1[1..] ensures x in t1 {}
      }
      SortedUnique(t1[1..], t2[1..], key);
      assert t1 == [t1[0]] + t1[1..] && t2 == [t2[0]] + t2[1..];
    }
  }

  /**
   * When no two rows share a key, the database has only one order to choose,
   * so any two consecutive pages it returns make up the page that spans both.
   */
  lemma DistinctPagesConcatenate<T(!new)>(s: seq<T>, key: T -> int, offset: nat, a: nat, b: nat, p: seq<T>, q: seq<T>, pq: seq<T>)
    requires DistinctKeys(s, key)
    requires IsPageOf(p, s, offset, a, key)
    requires IsPageOf(q, s, offset + a, b, key)
    requires IsPageOf(pq, s, offset, a + b, key)
    ensures p + q == pq
  {
    var t1 :| SortedDesc(t1, key) && multiset(t1) == multiset(s) && p == Page(t1, offset, a);
    var t2 :| SortedDesc(t2, key) && multiset(t2) == multiset(s) && q == Page(t2, offset + a, b);
    var t3 :| SortedDesc(t3, key) && multiset(t3) == multiset(s) && pq == Page(t3, offset, a + b);
    DistinctKeysPermuted(s, t1, key);
    SortedUnique(t1, t2, key);
    SortedUnique(t1, t3, key);
    PagesConcatenate(t1, offset, a, b);
  }

  /**
   * Consecutive pages of the same ordered query make up the page that spans
   * both, for the one order among equal keys that SortDesc fixes.
   */
  lemma OrderedPagesConcatenate<T(!new)>(s: seq<T>, key: T -> int, offset: nat, a: nat, b: nat)
    ensures OrderedPage(s, key, offset, a) + OrderedPage(s, key, offset + a, b) == OrderedPage(s, key, offset, a + b)
  {
    PagesConcatenate(SortDesc(s, key), offset, a, b);
  }
}
