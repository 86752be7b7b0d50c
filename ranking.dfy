// `sorted(d.items(), key=lambda item: item[1], reverse=True)` and the
// `[:k]` cut that the word cloud legend and the bar chart apply to count
// dictionaries. Python's sort is stable, also with `reverse=True`: entries
// with equal counts keep their dictionary order.

module Ranking {
  import opened OrderedDict

  predicate SortedDesc<K>(s: seq<(K, int)>)
  {
    forall i, j :: 0 <= i < j < |s| ==> s[i].1 >= s[j].1
  }

  /** Puts `x` after every entry with a larger count and before the rest. */
  function Insert<K>(x: (K, int), s: seq<(K, int)>): (r: seq<(K, int)>)
    ensures |r| == |s| + 1
    ensures multiset(r) == multiset(s) + multiset{x}
    decreases |s|
  {
    if |s| == 0 || s[0].1 <= x.1 then [x] + s
    else
      assert s == [s[0]] + s[1..];
      [s[0]] + Insert(x, s[1..])
  }

  /** The stable descending sort, by insertion from the back. */
  function SortDesc<K>(s: seq<(K, int)>): (r: seq<(K, int)>)
    ensures |r| == |s|
    decreases |s|
  {
    if |s| == 0 then [] else Insert(s[0], SortDesc(s[1..]))
  }

  /** The entries whose count is `v`, in order. */
  function WithCount<K>(s: seq<(K, int)>, v: int): seq<(K, int)>
    decreases |s|
  {
    if |s| == 0 then []
    else (if s[0].1 == v then [s[0]] else []) + WithCount(s[1..], v)
  }

  lemma SortedTail<K>(s: seq<(K, int)>)
    requires |s| > 0 && SortedDesc(s)
    ensures SortedDesc(s[1..]) && forall k :: 0 <= k < |s| - 1 ==> s[1..][k].1 <= s[0].1
  {
    var tail := s[1..];
    forall i, j | 0 <= i < j < |tail| ensures tail[i].1 >= tail[j].1 {
      assert tail[i] == s[i + 1] && tail[j] == s[j + 1];
    }
  }

  lemma {:induction false} InsertAtMost<K>(x: (K, int), s: seq<(K, int)>, b: int)
    requires x.1 <= b && forall k :: 0 <= k < |s| ==> s[k].1 <= b
    ensures forall k :: 0 <= k < |s| + 1 ==> Insert(x, s)[k].1 <= b
    decreases |s|
  {
    if |s| > 0 && s[0].1 > x.1 {
      InsertAtMost(x, s[1..], b);
    }
  }

  lemma {:induction false} InsertSorted<K>(x: (K, int), s: seq<(K, int)>)
    requires SortedDesc(s)
    ensures SortedDesc(Insert(x, s))
    decreases |s|
  {
    if |s| > 0 && s[0].1 > x.1 {
      var tail := s[1..];
      SortedTail(s);
      InsertSorted(x, tail);
      InsertAtMost(x, tail, s[0].1);
      var r := Insert(x, s);
      var t := Insert(x, tail);
      assert r == [s[0]] + t;
      forall i, j | 0 <= i < j < |r| ensures r[i].1 >= r[j].1 {
        if i > 0 {
          assert r[i] == t[i - 1] && r[j] == t[j - 1];
        }
      }
    }
  }

  /** The result is ordered by count, largest first. */
  lemma {:induction false} SortDescSorted<K>(s: seq<(K, int)>)
    ensures SortedDesc(SortDesc(s))
    decreases |s|
  {
    if |s| > 0 {
      SortDescSorted(s[1..]);
      InsertSorted(s[0], SortDesc(s[1..]));
    }
  }

  /** The result holds the same entries, each as often. */
  lemma {:induction false} SortDescPermutation<K>(s: seq<(K, int)>)
    ensures multiset(SortDesc(s)) == multiset(s)
    decreases |s|
  {
    if |s| > 0 {
      SortDescPermutation(s[1..]);
      assert s == [s[0]] + s[1..];
    }
  }

  lemma {:induction false} WithCountInsert<K>(x: (K, int), s: seq<(K, int)>, v: int)
    requires SortedDesc(s)
    ensures WithCount(Insert(x, s), v) == (if x.1 == v then [x] else []) + WithCount(s, v)
    decreases |s|
  {
    if |s| > 0 && s[0].1 > x.1 {
      SortedTail(s);
      WithCountInsert(x, s[1..], v);
      var r := Insert(x, s);
      assert r[1..] == Insert(x, s[1..]);
    }
  }

  /** Entries with equal counts keep their relative order. */
  lemma {:induction false} SortDescStable<K>(s: seq<(K, int)>, v: int)
    ensures WithCount(SortDesc(s), v) == WithCount(s, v)
    decreases |s|
  {
    if |s| > 0 {
      SortDescStable(s[1..], v);
      SortDescSorted(s[1..]);
      WithCountInsert(s[0], SortDesc(s[1..]), v);
    }
  }

  /** The first `k` entries, or all of them when there are fewer. */
  function Top<K>(s: seq<(K, int)>, k: nat): (r: seq<(K, int)>)
    ensures |r| == if k < |s| then k else |s|
  {
    if k < |s| then s[..k] else s
  }

  /** After the sort, every entry kept has a count at least that of every
      entry cut off, and the kept ones are, in order, the first of the
      sorted entries. */
  lemma TopOfSorted<K>(s: seq<(K, int)>, k: nat)
    ensures var r := SortDesc(s);
            && Top(r, k) == r[..|Top(r, k)|]
            && forall i, j :: 0 <= i < |Top(r, k)| <= j < |r| ==> Top(r, k)[i].1 >= r[j].1
  {
    SortDescSorted(s);
  }

  lemma {:induction false} KeysInsert<K>(x: (K, int), s: seq<(K, int)>)
    ensures multiset(Keys(Insert(x, s))) == multiset(Keys(s)) + multiset{x.0}
    decreases |s|
  {
    if |s| == 0 || s[0].1 <= x.1 {
      assert Keys([x] + s) == [x.0] + Keys(s) by {
        assert ([x] + s)[1..] == s;
      }
    } else {
      KeysInsert(x, s[1..]);
      var r := Insert(x, s);
      assert r[1..] == Insert(x, s[1..]);
      assert Keys(r) == [s[0].0] + Keys(Insert(x, s[1..]));
      assert Keys(s) == [s[0].0] + Keys(s[1..]);
    }
  }

  /** The sort keeps the keys, each as often. */
  lemma {:induction false} SortDescKeys<K>(s: seq<(K, int)>)
    ensures multiset(Keys(SortDesc(s))) == multiset(Keys(s))
    decreases |s|
  {
    if |s| > 0 {
      SortDescKeys(s[1..]);
      KeysInsert(s[0], SortDesc(s[1..]));
      assert Keys(s) == [s[0].0] + Keys(s[1..]);
    }
  }

  lemma {:induction false} InsertDistinct<K>(x: (K, int), s: seq<(K, int)>)
    requires DistinctKeys(s) && x.0 !in Keys(s)
    ensures DistinctKeys(Insert(x, s))
    decreases |s|
  {
    var r := Insert(x, s);
    if |s| == 0 || s[0].1 <= x.1 {
      forall j | 0 < j < |r| ensures r[j].0 != x.0 {
        KeysAt(s, j - 1);
      }
    } else {
      var tail := s[1..];
      assert Keys(s) == [s[0].0] + Keys(tail);
      assert DistinctKeys(tail) by {
        forall i, j | 0 <= i < j < |tail| ensures tail[i].0 != tail[j].0 {
          assert tail[i] == s[i + 1] && tail[j] == s[j + 1];
        }
      }
      assert s[0].0 !in Keys(tail) by {
        forall k | 0 <= k < |tail| ensures Keys(tail)[k] != s[0].0 {
          KeysAt(tail, k);
          assert tail[k] == s[k + 1];
        }
      }
      InsertDistinct(x, tail);
      KeysInsert(x, tail);
      var t := Insert(x, tail);
      assert r == [s[0]] + t;
      forall j | 0 <= j < |t| ensures t[j].0 != s[0].0 {
        KeysAt(t, j);
        assert t[j].0 in multiset(Keys(t));
      }
    }
  }

  /** Sorting a dictionary's items keeps its keys distinct, so
      `dict(sorted(...))` has exactly as many entries. */
  lemma {:induction false} SortDescDistinct<K>(s: seq<(K, int)>)
    requires DistinctKeys(s)
    ensures DistinctKeys(SortDesc(s))
    decreases |s|
  {
    if |s| > 0 {
      var tail := s[1..];
      assert Keys(s) == [s[0].0] + Keys(tail);
      assert DistinctKeys(tail) by {
        forall i, j | 0 <= i < j < |tail| ensures tail[i].0 != tail[j].0 {
          assert tail[i] == s[i + 1] && tail[j] == s[j + 1];
        }
      }
      assert s[0].0 !in Keys(tail) by {
        forall k | 0 <= k < |tail| ensures Keys(tail)[k] != s[0].0 {
          KeysAt(tail, k);
          assert tail[k] == s[k + 1];
        }
      }
      SortDescDistinct(tail);
      SortDescKeys(tail);
      assert s[0].0 !in multiset(Keys(SortDesc(tail)));
      InsertDistinct(s[0], SortDesc(tail));
    }
  }
}
