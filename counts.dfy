// The per-community statistics the charts compute from readNCall's
// `data['Communities']`: member counts keyed by a prefixed community id,
// and the number of distinct endpoints of a community's edges.

module CommunityCounts {
  import opened Wrappers
  import opened Strings
  import opened OrderedDict
  import opened CommunityFiles

  /** `{prefix + str(id): len(members)}` in dictionary order, before the
      comprehension merges equal keys. */
  function KeyedCounts(prefix: string, c: Communities): (r: seq<(string, int)>)
    ensures |r| == |c|
    ensures forall i :: 0 <= i < |c| ==> r[i] == (prefix + IntToString(c[i].0), |c[i].1|)
  {
    seq(|c|, i requires 0 <= i < |c| => (prefix + IntToString(c[i].0), |c[i].1|))
  }

  /** The count dictionary the comprehension builds. */
  function MemberCounts(prefix: string, c: Communities): Dict<string, int>
  {
    PutAll(KeyedCounts(prefix, c))
  }

  lemma PrefixedInjective(prefix: string, a: int, b: int)
    requires prefix + IntToString(a) == prefix + IntToString(b)
    ensures a == b
  {
    assert IntToString(a) == (prefix + IntToString(a))[|prefix|..];
    assert IntToString(b) == (prefix + IntToString(b))[|prefix|..];
    IntToStringInjective(a, b);
  }

  /** The prefixed keys are distinct exactly when the community ids are:
      printing an id with a prefix loses nothing. */
  lemma KeyedCountsDistinct(prefix: string, c: Communities)
    ensures DistinctKeys(KeyedCounts(prefix, c)) <==> DistinctKeys(c)
  {
    var r := KeyedCounts(prefix, c);
    if DistinctKeys(c) {
      forall i, j | 0 <= i < j < |r| ensures r[i].0 != r[j].0 {
        if r[i].0 == r[j].0 {
          PrefixedInjective(prefix, c[i].0, c[j].0);
        }
      }
    }
  }

  /** Distinct community ids give distinct keys, so the dictionary has one
      entry per community, in the communities' order, valued by its number
      of members. */
  lemma MemberCountsExactly(prefix: string, c: Communities)
    requires DistinctKeys(c)
    ensures MemberCounts(prefix, c) == KeyedCounts(prefix, c)
    ensures DistinctKeys(MemberCounts(prefix, c))
  {
    KeyedCountsDistinct(prefix, c);
    PutAllDistinct(KeyedCounts(prefix, c));
  }

  lemma {:induction false} GetKeyed(prefix: string, c: Communities, id: int)
    ensures Get(KeyedCounts(prefix, c), prefix + IntToString(id)) ==
              match Get(c, id) case None => None case Some(ms) => Some(|ms|)
    decreases |c|
  {
    if |c| > 0 {
      GetKeyed(prefix, c[1..], id);
      assert KeyedCounts(prefix, c)[1..] == KeyedCounts(prefix, c[1..]);
      if c[0].0 != id && prefix + IntToString(c[0].0) == prefix + IntToString(id) {
        PrefixedInjective(prefix, c[0].0, id);
      }
    }
  }

  /** The count stored under `prefix + str(id)` is the size of community
      `id`, and there is none for an id that has no community. */
  lemma GetMemberCounts(prefix: string, c: Communities, id: int)
    requires DistinctKeys(c)
    ensures Get(MemberCounts(prefix, c), prefix + IntToString(id)) ==
              match Get(c, id) case None => None case Some(ms) => Some(|ms|)
  {
    MemberCountsExactly(prefix, c);
    GetKeyed(prefix, c, id);
  }

  /** The node set `{edge[0], edge[1] for edge in members}`; indexing a
      vertex id, which is an int, raises. */
  function Endpoints(ms: seq<Member>): Result<set<int>>
    decreases |ms|
  {
    if |ms| == 0 then Ok({})
    else
      match Endpoints(ms[..|ms| - 1])
      case Err => Err
      case Ok(nodes) =>
        var last := ms[|ms| - 1];
        if last.Vertex? then Err else Ok(nodes + {last.v1, last.v2})
  }

  predicate IsEndpoint(ms: seq<Member>, x: int)
  {
    exists i :: 0 <= i < |ms| && ms[i].Edge? && (ms[i].v1 == x || ms[i].v2 == x)
  }

  /** The set exists exactly when every member is an edge; it then holds
      exactly the endpoints of those edges, so it has at most twice as many
      nodes as there are edges. */
  lemma {:induction false} EndpointsSet(ms: seq<Member>)
    ensures Endpoints(ms).Ok? <==> forall i :: 0 <= i < |ms| ==> ms[i].Edge?
    ensures Endpoints(ms).Ok? ==> |Endpoints(ms).value| <= 2 * |ms|
    ensures Endpoints(ms).Ok? ==> forall x :: x in Endpoints(ms).value <==> IsEndpoint(ms, x)
    decreases |ms|
  {
    if |ms| > 0 {
      var init := ms[..|ms| - 1];
      var last := ms[|ms| - 1];
      EndpointsSet(init);
      assert forall i :: 0 <= i < |init| ==> init[i] == ms[i];
      if Endpoints(ms).Ok? {
        var nodes := Endpoints(init).value;
        assert |nodes + {last.v1, last.v2}| <= |nodes| + 2 by {
          assert nodes + {last.v1, last.v2} == (nodes + {last.v1}) + {last.v2};
        }
        forall x ensures x in Endpoints(ms).value <==> IsEndpoint(ms, x) {
          if IsEndpoint(ms, x) {
            var i :| 0 <= i < |ms| && ms[i].Edge? && (ms[i].v1 == x || ms[i].v2 == x);
            if i < |init| {
              assert IsEndpoint(init, x);
            }
          }
          if x in nodes {
            var i :| 0 <= i < |init| && init[i].Edge? && (init[i].v1 == x || init[i].v2 == x);
            assert ms[i] == init[i];
          }
        }
      }
    }
  }

  /** The loop `for edge in edges: nodes.add(edge[0]); nodes.add(edge[1])`. */
  method CollectEndpoints(ms: seq<Member>) returns (r: Result<set<int>>)
    ensures r == Endpoints(ms)
  {
    var nodes: set<int> := {};
    var j := 0;
    while j < |ms|
      invariant 0 <= j <= |ms|
      invariant Endpoints(ms[..j]) == Ok(nodes)
    {
      var m := ms[j];
      if m.Vertex? {
        EndpointsSet(ms);
        return Err;
      }
      assert ms[..j + 1][..j] == ms[..j];
      nodes := nodes + {m.v1, m.v2};
      j := j + 1;
    }
    assert ms[..j] == ms;
    r := Ok(nodes);
  }

  /** `(id, number of distinct endpoints)` for each community, failing on
      the first community with a vertex member. */
  function EndpointCounts(c: Communities): (r: Result<seq<(int, int)>>)
    ensures r.Ok? ==> |r.value| == |c|
    decreases |c|
  {
    if |c| == 0 then Ok([])
    else
      match EndpointCounts(c[..|c| - 1])
      case Err => Err
      case Ok(es) =>
        match Endpoints(c[|c| - 1].1)
        case Err => Err
        case Ok(nodes) => Ok(es + [(c[|c| - 1].0, |nodes|)])
  }

  lemma EndpointCountsSnoc(c: Communities, i: nat, es: seq<(int, int)>, nodes: set<int>)
    requires i < |c| && EndpointCounts(c[..i]) == Ok(es) && Endpoints(c[i].1) == Ok(nodes)
    ensures EndpointCounts(c[..i + 1]) == Ok(es + [(c[i].0, |nodes|)])
  {
    assert c[..i + 1][..i] == c[..i];
  }

  /** The endpoint counts exist exactly when every member is an edge; then
      each community's count is the size of its endpoint set. */
  lemma {:induction false} EndpointCountsAt(c: Communities)
    ensures EndpointCounts(c).Ok? <==> forall i, j :: 0 <= i < |c| && 0 <= j < |c[i].1| ==> c[i].1[j].Edge?
    ensures EndpointCounts(c).Ok? ==>
              forall i :: 0 <= i < |c| ==>
                && Endpoints(c[i].1).Ok?
                && EndpointCounts(c).value[i] == (c[i].0, |Endpoints(c[i].1).value|)
    decreases |c|
  {
    if |c| > 0 {
      var init := c[..|c| - 1];
      EndpointCountsAt(init);
      EndpointsSet(c[|c| - 1].1);
      assert forall i :: 0 <= i < |init| ==> init[i] == c[i];
    }
  }
}
