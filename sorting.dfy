/**
 * `Array.prototype.sort` as the structures use it: a stable sort by a
 * numeric key. `Orders.getPrices` sorts price levels by descending value and
 * `Candles.calculate` sorts trades by ascending timestamp; both comparators
 * return 0 on ties, so equal keys keep their input order.
 *
 * The sort is given as an insertion sort and proved to be ordered, a
 * permutation and stable; that is all the callers rely on.
 */
module Sorting {

  /** Insert `x` after every element whose key is at most its own. */
  function Insert<T>(x: T, s: seq<T>, key: T -> real): seq<T>
  {
    if s == [] then [x]
    else if key(x) < key(s[0]) then [x] + s
    else [s[0]] + Insert(x, s[1..], key)
  }

  /** The elements of `s` by ascending key, ties in input order. */
  function Sort<T>(s: seq<T>, key: T -> real): seq<T>
  {
    if s == [] then [] else Insert(s[|s| - 1], Sort(s[..|s| - 1], key), key)
  }

  predicate Ascending<T>(s: seq<T>, key: T -> real)
  {
    forall i, j | 0 <= i < j < |s| :: key(s[i]) <= key(s[j])
  }

  /** The elements of `s` whose key is `k`, in the order of `s`. */
  function Tier<T>(s: seq<T>, key: T -> real, k: real): seq<T>
  {
    if s == [] then [] else (if key(s[0]) == k then [s[0]] else []) + Tier(s[1..], key, k)
  }

  lemma {:induction false} InsertPermutes<T>(x: T, s: seq<T>, key: T -> real)
    ensures multiset(Insert(x, s, key)) == multiset(s) + multiset{x}
    decreases |s|
  {
    if s != [] && key(s[0]) <= key(x) {
      InsertPermutes(x, s[1..], key);
      assert s == [s[0]] + s[1..];
    }
  }

  lemma {:induction false} InsertAscending<T>(x: T, s: seq<T>, key: T -> real)
    requires Ascending(s, key)
    ensures Ascending(Insert(x, s, key), key)
    decreases |s|
  {
    if s == [] {
    } else if key(x) < key(s[0]) {
      AscendingCons(x, s, key);
    } else {
      var r := Insert(x, s[1..], key);
      InsertAscending(x, s[1..], key);
      InsertPermutes(x, s[1..], key);
      forall i | 0 <= i < |r| ensures key(s[0]) <= key(r[i]) {
        assert r[i] in multiset(s[1..]) + multiset{x};
        if r[i] != x {
          var j :| 0 <= j < |s[1..]| && s[1..][j] == r[i];
          assert s[j + 1] == r[i];
        }
      }
      AscendingCons(s[0], r, key);
    }
  }

  lemma AscendingCons<T>(y: T, r: seq<T>, key: T -> real)
    requires Ascending(r, key) && forall i | 0 <= i < |r| :: key(y) <= key(r[i])
    ensures Ascending([y] + r, key)
  {
    forall i, j | 0 <= i < j < |r| + 1 ensures key(([y] + r)[i]) <= key(([y] + r)[j]) {
      assert ([y] + r)[j] == r[j - 1];
      if i > 0 {
        assert ([y] + r)[i] == r[i - 1];
      }
    }
  }

  lemma {:induction false} InsertTier<T>(x: T, s: seq<T>, key: T -> real, k: real)
    requires Ascending(s, key)
    ensures Tier(Insert(x, s, key), key, k) == Tier(s, key, k) + (if key(x) == k then [x] else [])
    decreases |s|
  {
    if s == [] {
      TierCons(x, [], key, k);
    } else if key(x) < key(s[0]) {
      TierCons(x, s, key, k);
      if key(x) == k {
        TierAbove(s, key, k);
      }
    } else {
      InsertTier(x, s[1..], key, k);
      TierCons(s[0], Insert(x, s[1..], key), key, k);
      TierCons(s[0], s[1..], key, k);
      assert [s[0]] + s[1..] == s;
    }
  }

  lemma TierCons<T>(y: T, s: seq<T>, key: T -> real, k: real)
    ensures Tier([y] + s, key, k) == (if key(y) == k then [y] else []) + Tier(s, key, k)
  {
    assert ([y] + s)[1..] == s;
  }

  /** An ascending sequence starting above `k` has nothing of key `k`. */
  lemma {:induction false} TierAbove<T>(s: seq<T>, key: T -> real, k: real)
    requires Ascending(s, key) && s != [] && k < key(s[0])
    ensures Tier(s, key, k) == []
    decreases |s|
  {
    if |s| > 1 {
      TierAbove(s[1..], key, k);
    }
  }

  lemma {:induction false} TierSnoc<T>(s: seq<T>, x: T, key: T -> real, k: real)
    ensures Tier(s + [x], key, k) == Tier(s, key, k) + (if key(x) == k then [x] else [])
    decreases |s|
  {
    if s == [] {
      TierCons(x, [], key, k);
      assert [x] + [] == [] + [x];
    } else {
      assert s + [x] == [s[0]] + (s[1..] + [x]);
      TierCons(s[0], s[1..] + [x], key, k);
      TierSnoc(s[1..], x, key, k);
      TierCons(s[0], s[1..], key, k);
      assert [s[0]] + s[1..] == s;
    }
  }

  /** `Sort` orders by key, keeps every element, and keeps equal keys in input order. */
  lemma {:induction false} SortFacts<T>(s: seq<T>, key: T -> real)
    ensures Ascending(Sort(s, key), key)
    ensures multiset(Sort(s, key)) == multiset(s)
    ensures |Sort(s, key)| == |s|
    ensures forall k :: Tier(Sort(s, key), key, k) == Tier(s, key, k)
    decreases |s|
  {
    if s != [] {
      var init, last := s[..|s| - 1], s[|s| - 1];
      SortFacts(init, key);
      InsertAscending(last, Sort(init, key), key);
      InsertPermutes(last, Sort(init, key), key);
      assert s == init + [last];
      forall k ensures Tier(Sort(s, key), key, k) == Tier(s, key, k) {
        InsertTier(last, Sort(init, key), key, k);
        TierSnoc(init, last, key, k);
      }
      assert |Sort(s, key)| == |multiset(Sort(s, key))|;
    }
  }
}
