/**
 * A stable sort by a total preorder, the contract of lodash's `sortBy`
 * (and of `Array.prototype.sort` on a modern engine): the result is a
 * permutation of the input, ordered, and elements that compare equal keep
 * their input order.
 */
module StableSort {
  import opened Seqs

  ghost predicate TotalPreorder<T(!new)>(le: (T, T) -> bool) {
    && (forall a, b :: le(a, b) || le(b, a))
    && (forall a, b, c :: le(a, b) && le(b, c) ==> le(a, c))
  }

  predicate Sorted<T>(s: seq<T>, le: (T, T) -> bool) {
    forall i, j :: 0 <= i < j < |s| ==> le(s[i], s[j])
  }

  /** Elements of `s` that compare equal to `x`, in their order in `s`. */
  function Peers<T>(s: seq<T>, x: T, le: (T, T) -> bool): seq<T> {
    if s == [] then []
    else (if le(s[0], x) && le(x, s[0]) then [s[0]] else []) + Peers(s[1..], x, le)
  }

  /** Puts `x` after every element that does not sort strictly after it. */
  function Insert<T>(s: seq<T>, x: T, le: (T, T) -> bool): seq<T> {
    if s == [] then [x]
    else if !le(s[0], x) then [x] + s
    else [s[0]] + Insert(s[1..], x, le)
  }

  /** Insertion sort; each element is inserted behind its equal predecessors. */
  function Sort<T>(s: seq<T>, le: (T, T) -> bool): seq<T> {
    if s == [] then []
    else Insert(Sort(s[..|s| - 1], le), s[|s| - 1], le)
  }

  lemma {:induction false} InsertPerm<T>(s: seq<T>, x: T, le: (T, T) -> bool)
    ensures multiset(Insert(s, x, le)) == multiset(s) + multiset{x}
  {
    if s != [] && le(s[0], x) {
      InsertPerm(s[1..], x, le);
      assert s == [s[0]] + s[1..];
    }
  }

  /** Sorting only reorders. */
  lemma {:induction false} SortPerm<T>(s: seq<T>, le: (T, T) -> bool)
    ensures multiset(Sort(s, le)) == multiset(s)
  {
    if s != [] {
      var init, last := s[..|s| - 1], s[|s| - 1];
      SortPerm(init, le);
      InsertPerm(Sort(init, le), last, le);
      assert s == init + [last];
    }
  }

  /** Sorting by a total preorder orders every pair. */
  lemma {:induction false} SortSorted<T(!new)>(s: seq<T>, le: (T, T) -> bool)
    requires TotalPreorder(le)
    ensures Sorted(Sort(s, le), le)
  {
    if s != [] {
      SortSorted(s[..|s| - 1], le);
      InsertSorted(Sort(s[..|s| - 1], le), s[|s| - 1], le);
    }
  }

  lemma {:induction false} InsertSorted<T(!new)>(s: seq<T>, x: T, le: (T, T) -> bool)
    requires TotalPreorder(le) && Sorted(s, le)
    ensures Sorted(Insert(s, x, le), le)
  {
    if s != [] && le(s[0], x) {
      var t := s[1..];
      assert Sorted(t, le);
      InsertSorted(t, x, le);
      var r := Insert(t, x, le);
      InsertPerm(t, x, le);
      forall y | y in r ensures le(s[0], y) {
        assert y in multiset(r);
      }
    }
  }

  lemma {:induction false} PeersAppend<T>(a: seq<T>, b: seq<T>, x: T, le: (T, T) -> bool)
    ensures Peers(a + b, x, le) == Peers(a, x, le) + Peers(b, x, le)
  {
    if a != [] {
      assert (a + b)[1..] == a[1..] + b;
      PeersAppend(a[1..], b, x, le);
    } else {
      assert a + b == b;
    }
  }

  lemma {:induction false} PeersNone<T>(s: seq<T>, x: T, le: (T, T) -> bool)
    requires forall y :: y in s ==> !(le(y, x) && le(x, y))
    ensures Peers(s, x, le) == []
  {
    if s != [] {
      PeersNone(s[1..], x, le);
    }
  }

  /** In a sorted sequence whose head sorts strictly after `y`, every element does. */
  lemma AllAfter<T(!new)>(s: seq<T>, y: T, le: (T, T) -> bool)
    requires TotalPreorder(le) && Sorted(s, le) && s != [] && !le(s[0], y)
    ensures forall z :: z in s ==> !le(z, y)
  {
    forall z | z in s ensures !le(z, y) {
      var k :| 0 <= k < |s| && s[k] == z;
      if k > 0 { assert le(s[0], z); }
    }
  }

  lemma {:induction false} InsertPeers<T(!new)>(s: seq<T>, y: T, x: T, le: (T, T) -> bool)
    requires TotalPreorder(le) && Sorted(s, le)
    ensures Peers(Insert(s, y, le), x, le)
         == Peers(s, x, le) + (if le(y, x) && le(x, y) then [y] else [])
  {
    if s == [] {
    } else if !le(s[0], y) {
      InsertFrontPeers(s, y, x, le);
    } else {
      var t := Insert(s[1..], y, le);
      var head := if le(s[0], x) && le(x, s[0]) then [s[0]] else [];
      var added := if le(y, x) && le(x, y) then [y] else [];
      assert Insert(s, y, le) == [s[0]] + t;
      assert Sorted(s[1..], le);
      InsertPeers(s[1..], y, x, le);
      PeersCons(s[0], t, x, le);
      PeersCons(s[0], s[1..], x, le);
      assert [s[0]] + s[1..] == s;
      AppendAssoc(head, Peers(s[1..], x, le), added);
    }
  }

  /** `y` goes in front when the head sorts strictly after it; none of `s` is then a peer of `x` if `y` is. */
  lemma InsertFrontPeers<T(!new)>(s: seq<T>, y: T, x: T, le: (T, T) -> bool)
    requires TotalPreorder(le) && Sorted(s, le) && s != [] && !le(s[0], y)
    ensures Peers([y] + s, x, le) == Peers(s, x, le) + (if le(y, x) && le(x, y) then [y] else [])
  {
    if le(y, x) && le(x, y) {
      AllAfter(s, y, le);
      PeersNone(s, x, le);
    }
    PeersCons(y, s, x, le);
  }

  lemma PeersCons<T>(a: T, t: seq<T>, x: T, le: (T, T) -> bool)
    ensures Peers([a] + t, x, le) == (if le(a, x) && le(x, a) then [a] else []) + Peers(t, x, le)
  {
    assert ([a] + t)[1..] == t;
  }

  /** Stability: for every value, the elements equal to it appear in the same order before and after. */
  lemma {:induction false} SortStable<T(!new)>(s: seq<T>, x: T, le: (T, T) -> bool)
    requires TotalPreorder(le)
    ensures Peers(Sort(s, le), x, le) == Peers(s, x, le)
  {
    if s != [] {
      var init, last := s[..|s| - 1], s[|s| - 1];
      assert s == init + [last];
      SortStable(init, x, le);
      SortSorted(init, le);
      InsertPeers(Sort(init, le), last, x, le);
      PeersAppend(init, [last], x, le);
    }
  }

  ghost predicate DistinctBy<T, K>(s: seq<T>, key: T -> K) {
    forall i, j :: 0 <= i < j < |s| ==> key(s[i]) != key(s[j])
  }

  /** Sorting never duplicates a key: distinct keys stay distinct. */
  lemma {:induction false} SortDistinct<T(!new), K>(s: seq<T>, key: T -> K, le: (T, T) -> bool)
    requires TotalPreorder(le) && DistinctBy(s, key)
    ensures DistinctBy(Sort(s, le), key)
  {
    if s != [] {
      var init, last := s[..|s| - 1], s[|s| - 1];
      assert s == init + [last];
      assert DistinctBy(init, key);
      SortDistinct(init, key, le);
      var sorted := Sort(init, le);
      SortPerm(init, le);
      forall y | y in sorted ensures key(y) != key(last) {
        assert y in multiset(init);
        var k :| 0 <= k < |init| && init[k] == y;
        assert s[k] == y;
      }
      InsertDistinct(sorted, last, key, le);
    }
  }

  lemma {:induction false} InsertDistinct<T, K>(s: seq<T>, x: T, key: T -> K, le: (T, T) -> bool)
    requires DistinctBy(s, key) && forall y :: y in s ==> key(y) != key(x)
    ensures DistinctBy(Insert(s, x, le), key)
  {
    if s != [] && le(s[0], x) {
      assert DistinctBy(s[1..], key);
      InsertDistinct(s[1..], x, key, le);
      var r := Insert(s[1..], x, le);
      InsertPerm(s[1..], x, le);
      forall y | y in r ensures key(y) != key(s[0]) {
        assert y in multiset(r);
        if y != x {
          var k :| 0 <= k < |s[1..]| && s[1..][k] == y;
          assert s[k + 1] == y;
        }
      }
    }
  }
}
