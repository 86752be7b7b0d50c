// Python dictionaries keep their keys in insertion order, and the charts
// sort such dictionaries with a stable sort, so the order is observable.
// A dictionary is therefore a sequence of (key, value) entries.

module OrderedDict {
  import opened Wrappers

  type Dict<K, V> = seq<(K, V)>

  function Keys<K, V>(d: Dict<K, V>): (r: seq<K>)
    ensures |r| == |d|
    decreases |d|
  {
    if |d| == 0 then [] else [d[0].0] + Keys(d[1..])
  }

  lemma {:induction false} KeysAt<K, V>(d: Dict<K, V>, i: nat)
    requires i < |d|
    ensures Keys(d)[i] == d[i].0
    decreases i
  {
    if i > 0 {
      KeysAt(d[1..], i - 1);
    }
  }

  /** `list(d.values())` */
  function Values<K, V>(d: Dict<K, V>): seq<V>
  {
    seq(|d|, i requires 0 <= i < |d| => d[i].1)
  }

  predicate DistinctKeys<K(==), V>(d: Dict<K, V>)
  {
    forall i, j :: 0 <= i < j < |d| ==> d[i].0 != d[j].0
  }

  /** `d.get(k)`: the value stored under `k`, if any. */
  function Get<K(==), V>(d: Dict<K, V>, k: K): (r: Option<V>)
    ensures r.None? <==> k !in Keys(d)
    decreases |d|
  {
    if |d| == 0 then None
    else if d[0].0 == k then Some(d[0].1)
    else
      var r := Get(d[1..], k);
      assert Keys(d) == [d[0].0] + Keys(d[1..]);
      r
  }

  /** With distinct keys, the value stored under an entry's key is that
      entry's. */
  lemma {:induction false} GetAt<K, V>(d: Dict<K, V>, i: nat)
    requires DistinctKeys(d) && i < |d|
    ensures Get(d, d[i].0) == Some(d[i].1)
    decreases i
  {
    if i > 0 {
      assert d[0].0 != d[i].0;
      assert DistinctKeys(d[1..]) by {
        forall a, b | 0 <= a < b < |d[1..]| ensures d[1..][a].0 != d[1..][b].0 {
          assert d[1..][a] == d[a + 1] && d[1..][b] == d[b + 1];
        }
      }
      GetAt(d[1..], i - 1);
    }
  }

  /** `d[k] = v`: an existing key keeps its place and takes the new value,
      a new key goes at the end. */
  function Put<K(==), V>(d: Dict<K, V>, k: K, v: V): (r: Dict<K, V>)
    ensures Keys(r) == if k in Keys(d) then Keys(d) else Keys(d) + [k]
    decreases |d|
  {
    if |d| == 0 then [(k, v)]
    else if d[0].0 == k then [(k, v)] + d[1..]
    else
      assert Keys(d) == [d[0].0] + Keys(d[1..]);
      var r := [d[0]] + Put(d[1..], k, v);
      assert Keys(r) == [d[0].0] + Keys(Put(d[1..], k, v));
      r
  }

  lemma {:induction false} GetPut<K, V>(d: Dict<K, V>, k: K, v: V, k': K)
    ensures Get(Put(d, k, v), k') == if k' == k then Some(v) else Get(d, k')
    decreases |d|
  {
    if |d| > 0 && d[0].0 != k {
      GetPut(d[1..], k, v, k');
      assert Put(d, k, v)[1..] == Put(d[1..], k, v);
    }
  }

  /** Storing under a new key adds its entry at the end. */
  lemma {:induction false} PutNew<K, V>(d: Dict<K, V>, k: K, v: V)
    requires k !in Keys(d)
    ensures Put(d, k, v) == d + [(k, v)]
    decreases |d|
  {
    if |d| > 0 {
      assert Keys(d) == [d[0].0] + Keys(d[1..]);
      PutNew(d[1..], k, v);
      assert Put(d, k, v) == [d[0]] + Put(d[1..], k, v);
      assert d + [(k, v)] == [d[0]] + (d[1..] + [(k, v)]);
    }
  }

  /** The dictionary built by `d[k] = v` for each entry in turn, as a dict
      comprehension or a loop of assignments does. */
  function PutAll<K(==), V>(es: seq<(K, V)>): Dict<K, V>
    decreases |es|
  {
    if |es| == 0 then [] else Put(PutAll(es[..|es| - 1]), es[|es| - 1].0, es[|es| - 1].1)
  }

  lemma PutAllSnoc<K, V>(es: seq<(K, V)>, e: (K, V))
    ensures PutAll(es + [e]) == Put(PutAll(es), e.0, e.1)
  {
    assert (es + [e])[..|es|] == es;
  }

  /** With distinct keys nothing is overwritten: the dictionary holds every
      entry, in order. */
  lemma {:induction false} PutAllDistinct<K, V>(es: seq<(K, V)>)
    requires DistinctKeys(es)
    ensures PutAll(es) == es
    decreases |es|
  {
    if |es| > 0 {
      var init := es[..|es| - 1];
      var last := es[|es| - 1];
      PutAllDistinct(init);
      assert last.0 !in Keys(init) by {
        forall j | 0 <= j < |init| ensures Keys(init)[j] != last.0 {
          KeysAt(init, j);
        }
      }
      PutNew(init, last.0, last.1);
      assert init + [last] == es;
    }
  }

  /** The grouping step of the community parsers:
      `if k in d: d[k].append(m) else: d[k] = [m]`. */
  function AppendTo<K(==), M>(d: Dict<K, seq<M>>, k: K, m: M): (r: Dict<K, seq<M>>)
    ensures Keys(r) == if k in Keys(d) then Keys(d) else Keys(d) + [k]
    decreases |d|
  {
    if |d| == 0 then [(k, [m])]
    else if d[0].0 == k then [(k, d[0].1 + [m])] + d[1..]
    else
      assert Keys(d) == [d[0].0] + Keys(d[1..]);
      var r := [d[0]] + AppendTo(d[1..], k, m);
      assert Keys(r) == [d[0].0] + Keys(AppendTo(d[1..], k, m));
      r
  }

  lemma {:induction false} GetAppendTo<K, M>(d: Dict<K, seq<M>>, k: K, m: M, k': K)
    ensures Get(AppendTo(d, k, m), k') ==
      if k' != k then Get(d, k')
      else match Get(d, k) case None => Some([m]) case Some(ms) => Some(ms + [m])
    decreases |d|
  {
    if |d| > 0 && d[0].0 != k {
      GetAppendTo(d[1..], k, m, k');
      assert AppendTo(d, k, m)[1..] == AppendTo(d[1..], k, m);
    }
  }

  /** Appending under the first key extends its list. */
  lemma AppendToHead<K, M>(k: K, ms: seq<M>, m: M, rest: Dict<K, seq<M>>)
    ensures AppendTo([(k, ms)] + rest, k, m) == [(k, ms + [m])] + rest
  {
    assert ([(k, ms)] + rest)[1..] == rest;
  }

  /** Appending under a new key adds its entry at the end. */
  lemma {:induction false} AppendToNew<K, M>(d: Dict<K, seq<M>>, k: K, m: M)
    requires k !in Keys(d)
    ensures AppendTo(d, k, m) == d + [(k, [m])]
    decreases |d|
  {
    if |d| > 0 {
      assert Keys(d) == [d[0].0] + Keys(d[1..]);
      AppendToNew(d[1..], k, m);
      assert d == [d[0]] + d[1..];
    }
  }

  /** The keys of `s` in order of first occurrence. */
  function Dedup<K(==)>(s: seq<K>): (r: seq<K>)
    ensures forall i :: 0 <= i < |r| ==> r[i] in s
    ensures forall i :: 0 <= i < |s| ==> s[i] in r
    decreases |s|
  {
    if |s| == 0 then []
    else
      var p := Dedup(s[..|s| - 1]);
      assert s == s[..|s| - 1] + [s[|s| - 1]];
      if s[|s| - 1] in s[..|s| - 1] then p else p + [s[|s| - 1]]
  }

  function RecordKeys<M, K>(recs: seq<(M, K)>): (r: seq<K>)
    ensures |r| == |recs|
    decreases |recs|
  {
    if |recs| == 0 then []
    else RecordKeys(recs[..|recs| - 1]) + [recs[|recs| - 1].1]
  }

  /** Some record has key `k`. */
  predicate HasRecord<M, K(==)>(recs: seq<(M, K)>, k: K)
    decreases |recs|
  {
    |recs| > 0 && (recs[|recs| - 1].1 == k || HasRecord(recs[..|recs| - 1], k))
  }

  /** The members recorded under `k`, in record order. */
  function Members<M, K(==)>(recs: seq<(M, K)>, k: K): seq<M>
    decreases |recs|
  {
    if |recs| == 0 then []
    else
      var p := Members(recs[..|recs| - 1], k);
      if recs[|recs| - 1].1 == k then p + [recs[|recs| - 1].0] else p
  }

  /** Group records `(member, key)` by key, as the community parsers do
      line by line. */
  function Group<M, K(==)>(recs: seq<(M, K)>): (r: Dict<K, seq<M>>)
    decreases |recs|
  {
    if |recs| == 0 then []
    else
      var last := recs[|recs| - 1];
      AppendTo(Group(recs[..|recs| - 1]), last.1, last.0)
  }

  /** Grouping one more record appends it under its key. */
  lemma GroupSnoc<M, K>(recs: seq<(M, K)>, rec: (M, K))
    ensures Group(recs + [rec]) == AppendTo(Group(recs), rec.1, rec.0)
  {
    assert (recs + [rec])[..|recs|] == recs;
  }

  /** Every key of a grouping occurs once, in order of its first record. */
  lemma {:induction false} GroupKeys<M, K>(recs: seq<(M, K)>)
    ensures Keys(Group(recs)) == Dedup(RecordKeys(recs))
    decreases |recs|
  {
    if |recs| > 0 {
      var init := recs[..|recs| - 1];
      GroupKeys(init);
      assert RecordKeys(recs)[..|recs| - 1] == RecordKeys(init);
    }
  }

  lemma {:induction false} DedupDistinct<K>(s: seq<K>)
    ensures forall i, j :: 0 <= i < j < |Dedup(s)| ==> Dedup(s)[i] != Dedup(s)[j]
    decreases |s|
  {
    if |s| > 0 {
      DedupDistinct(s[..|s| - 1]);
    }
  }

  lemma GroupDistinctKeys<M, K>(recs: seq<(M, K)>)
    ensures DistinctKeys(Group(recs))
  {
    GroupKeys(recs);
    DedupDistinct(RecordKeys(recs));
    var d := Group(recs);
    forall i | 0 <= i < |d| ensures Keys(d)[i] == d[i].0 {
      KeysAt(d, i);
    }
  }

  /** The list under key `k` holds exactly the members of the records with
      key `k`, in record order; a key without records is absent. */
  lemma {:induction false} GroupGet<M, K>(recs: seq<(M, K)>, k: K)
    ensures Get(Group(recs), k) == if HasRecord(recs, k) then Some(Members(recs, k)) else None
    decreases |recs|
  {
    if |recs| > 0 {
      var init := recs[..|recs| - 1];
      var last := recs[|recs| - 1];
      GroupGet(init, k);
      GroupGetStep(recs, init, last, k);
    }
  }

  lemma GroupGetStep<M, K>(recs: seq<(M, K)>, init: seq<(M, K)>, last: (M, K), k: K)
    requires |recs| > 0 && init == recs[..|recs| - 1] && last == recs[|recs| - 1]
    requires Get(Group(init), k) == if HasRecord(init, k) then Some(Members(init, k)) else None
    ensures Get(Group(recs), k) == if HasRecord(recs, k) then Some(Members(recs, k)) else None
  {
    if last.1 != k {
      assert HasRecord(recs, k) == HasRecord(init, k);
      GroupGetOtherKey(recs, init, last, k);
    } else {
      assert HasRecord(recs, k);
      if HasRecord(init, k) {
        GroupGetKnownKey(recs, init, last, k, Members(init, k), true);
      } else {
        MembersAbsent(init, k);
        GroupGetKnownKey(recs, init, last, k, [], false);
      }
    }
  }

  lemma GroupGetKnownKey<M, K>(recs: seq<(M, K)>, init: seq<(M, K)>, last: (M, K), k: K, ms: seq<M>, present: bool)
    requires |recs| > 0 && init == recs[..|recs| - 1] && last == recs[|recs| - 1] && last.1 == k
    requires Members(init, k) == ms && (!present ==> ms == [])
    requires Get(Group(init), k) == if present then Some(ms) else None
    ensures Get(Group(recs), k) == Some(ms + [last.0])
    ensures Members(recs, k) == ms + [last.0]
  {
    var g := Group(init);
    assert Group(recs) == AppendTo(g, k, last.0);
    AppendToSameKey(g, k, last.0, ms, present);
  }

  lemma AppendToSameKey<K, M>(d: Dict<K, seq<M>>, k: K, m: M, ms: seq<M>, present: bool)
    requires !present ==> ms == []
    requires Get(d, k) == if present then Some(ms) else None
    ensures Get(AppendTo(d, k, m), k) == Some(ms + [m])
  {
    GetAppendTo(d, k, m, k);
    if !present {
      assert [m] == ms + [m];
    }
  }

  lemma GroupGetOtherKey<M, K>(recs: seq<(M, K)>, init: seq<(M, K)>, last: (M, K), k: K)
    requires |recs| > 0 && init == recs[..|recs| - 1] && last == recs[|recs| - 1] && last.1 != k
    ensures Get(Group(recs), k) == Get(Group(init), k)
    ensures Members(recs, k) == Members(init, k)
  {
    var g := Group(init);
    assert Group(recs) == AppendTo(g, last.1, last.0);
    GetAppendTo(g, last.1, last.0, k);
  }

  lemma {:induction false} MembersAbsent<M, K>(recs: seq<(M, K)>, k: K)
    requires !HasRecord(recs, k)
    ensures Members(recs, k) == []
    decreases |recs|
  {
    if |recs| > 0 {
      MembersAbsent(recs[..|recs| - 1], k);
    }
  }

  /** The entries of a grouping spelled out again as (member, key) records. */
  function Pairs<K, M>(d: Dict<K, seq<M>>): seq<(M, K)>
    decreases |d|
  {
    if |d| == 0 then []
    else Tagged(d[0].0, d[0].1) + Pairs(d[1..])
  }

  /** The (member, key) records of one entry. */
  function Tagged<K, M>(k: K, ms: seq<M>): (r: seq<(M, K)>)
    ensures |r| == |ms|
  {
    seq(|ms|, i requires 0 <= i < |ms| => (ms[i], k))
  }

  lemma TaggedAppend<K, M>(k: K, ms: seq<M>, m: M)
    ensures Tagged(k, ms + [m]) == Tagged(k, ms) + [(m, k)]
  {
  }

  lemma {:induction false} PairsAppendTo<K, M>(d: Dict<K, seq<M>>, k: K, m: M)
    ensures multiset(Pairs(AppendTo(d, k, m))) == multiset(Pairs(d)) + multiset{(m, k)}
    decreases |d|
  {
    if |d| == 0 {
      assert Pairs([(k, [m])]) == Tagged(k, [m]) + Pairs([(k, [m])][1..]);
    } else if d[0].0 == k {
      var r := AppendTo(d, k, m);
      assert r[0] == (k, d[0].1 + [m]) && r[1..] == d[1..];
      TaggedAppend(k, d[0].1, m);
      assert Pairs(r) == Tagged(k, d[0].1) + [(m, k)] + Pairs(d[1..]);
    } else {
      PairsAppendTo(d[1..], k, m);
      var r := AppendTo(d, k, m);
      assert r[0] == d[0] && r[1..] == AppendTo(d[1..], k, m);
    }
  }

  /** Grouping neither loses nor duplicates a record: each `(member, key)`
      record appears exactly as often as it was read. */
  lemma {:induction false} GroupPreservesRecords<M, K>(recs: seq<(M, K)>)
    ensures multiset(Pairs(Group(recs))) == multiset(recs)
    decreases |recs|
  {
    if |recs| > 0 {
      var init := recs[..|recs| - 1];
      var last := recs[|recs| - 1];
      assert recs == init + [last];
      GroupSnoc(init, last);
      GroupPreservesRecords(init);
      PairsAppendTo(Group(init), last.1, last.0);
      assert multiset(recs) == multiset(init) + multiset{last};
    }
  }
}
