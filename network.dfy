// The `.net` network files read by readNCall (vizCaller.py): the cluster
// name, the vertex count and the edge count on the first three lines, then
// from line `vertexCount + 3` on one `node1,node2,weight` edge per line.

module NetworkFiles {
  import opened Wrappers
  import opened Strings

  /** An edge line; the weight is kept as the text `float` accepted. */
  datatype WeightedEdge = WeightedEdge(node1: string, node2: string, weight: string)

  /** What the `.net` branch hands to the renderer. */
  datatype NetworkData = NetworkData(
    clusterName: string,
    noVertices: string,
    noEdges: string,
    edges: seq<WeightedEdge>)

  /** Where Python's slice `lines[x:]` of `n` lines starts. */
  function SliceStart(x: int, n: nat): (k: nat)
    ensures k <= n
    ensures 0 <= x <= n ==> k == x
    ensures x > n ==> k == n
    ensures x < 0 ==> k == (if n + x >= 0 then n + x else 0)
  {
    if x >= 0 then (if x <= n then x else n)
    else if n + x >= 0 then n + x
    else 0
  }

  /** `node1, node2, weigth = line.strip().split(',')` and `float(weigth)`:
      exactly three fields, the last a float. */
  function ParseEdge(line: string): (r: Option<WeightedEdge>)
    ensures r.Some? ==> IsFloatText(r.value.weight)
    ensures r.Some? ==> Join([r.value.node1, r.value.node2, r.value.weight], ",") == Strip(line)
    ensures r.None? <==> |Split(Strip(line), ',')| != 3 || !IsFloatText(Split(Strip(line), ',')[2])
  {
    var fields := Split(Strip(line), ',');
    JoinSplit(Strip(line), ',');
    if |fields| == 3 && IsFloatText(fields[2]) then
      assert fields == [fields[0], fields[1], fields[2]];
      Some(WeightedEdge(fields[0], fields[1], fields[2]))
    else None
  }

  /** Every line of the file, parsed as an edge line. */
  function ParsedLines(lines: seq<string>): (r: seq<Option<WeightedEdge>>)
    ensures |r| == |lines|
    decreases |lines|
  {
    if |lines| == 0 then []
    else ParsedLines(lines[..|lines| - 1]) + [ParseEdge(lines[|lines| - 1])]
  }

  lemma {:induction false} ParsedLinesAt(lines: seq<string>, j: nat)
    requires j < |lines|
    ensures ParsedLines(lines)[j] == ParseEdge(lines[j])
    decreases |lines|
  {
    if j < |lines| - 1 {
      ParsedLinesAt(lines[..|lines| - 1], j);
    }
  }

  /** The edges of lines `lo` to `hi - 1`; one bad line fails them all. */
  function EdgesOf(parsed: seq<Option<WeightedEdge>>, lo: nat, hi: nat): Result<seq<WeightedEdge>>
    requires lo <= hi <= |parsed|
    decreases hi - lo
  {
    if hi == lo then Ok([])
    else
      match EdgesOf(parsed, lo, hi - 1)
      case Err => Err
      case Ok(es) =>
        match parsed[hi - 1]
        case None => Err
        case Some(e) => Ok(es + [e])
  }

  /** The first edge line. */
  function EdgeStart(lines: seq<string>, vertices: int): nat
  {
    SliceStart(vertices + 3, |lines|)
  }

  /** What reading a whole `.net` file yields: a missing header line, a
      vertex count that is not an int, or a bad edge line raises. */
  function NetworkFile(lines: seq<string>): Result<NetworkData>
  {
    if |lines| < 3 then Err
    else
      match ParseInt(lines[1])
      case None => Err
      case Some(v) =>
        match EdgesOf(ParsedLines(lines), EdgeStart(lines, v), |lines|)
        case Err => Err
        case Ok(es) => Ok(NetworkData(Strip(lines[0]), Strip(lines[1]), Strip(lines[2]), es))
  }

  /** The `.net` branch of readNCall. */
  method ReadNetworkFile(lines: seq<string>) returns (r: Result<NetworkData>)
    ensures r == NetworkFile(lines)
  {
    if |lines| < 3 {
      return Err;
    }
    var clusterName := Strip(lines[0]);
    var noVertices := Strip(lines[1]);
    var noEdges := Strip(lines[2]);
    var v := ParseInt(noVertices);
    ParseIntStrip(lines[1]);
    if v.None? {
      return Err;
    }
    var start := SliceStart(v.value + 3, |lines|);
    ghost var parsed := ParsedLines(lines);
    var edges: seq<WeightedEdge> := [];
    var j := start;
    while j < |lines|
      invariant start <= j <= |lines|
      invariant EdgesOf(parsed, start, j) == Ok(edges)
    {
      ParsedLinesAt(lines, j);
      var e := ParseEdge(lines[j]);
      if e.None? {
        EdgesErrSticks(parsed, start, j + 1, |lines|);
        return Err;
      }
      edges := edges + [e.value];
      j := j + 1;
    }
    r := Ok(NetworkData(clusterName, noVertices, noEdges, edges));
  }

  lemma {:induction false} EdgesErrSticks(parsed: seq<Option<WeightedEdge>>, lo: nat, n: nat, m: nat)
    requires lo <= n <= m <= |parsed| && EdgesOf(parsed, lo, n).Err?
    ensures EdgesOf(parsed, lo, m).Err?
    decreases m - n
  {
    if n < m {
      EdgesErrSticks(parsed, lo, n + 1, m);
    }
  }

  /** The edges are the parsed lines from `lo` on, one each, in file order. */
  lemma {:induction false} EdgesOfAt(parsed: seq<Option<WeightedEdge>>, lo: nat, hi: nat)
    requires lo <= hi <= |parsed| && EdgesOf(parsed, lo, hi).Ok?
    ensures |EdgesOf(parsed, lo, hi).value| == hi - lo
    ensures forall i :: 0 <= i < hi - lo ==> parsed[lo + i] == Some(EdgesOf(parsed, lo, hi).value[i])
    decreases hi - lo
  {
    if hi > lo {
      EdgesOfAt(parsed, lo, hi - 1);
    }
  }

  /** Edge lines that all parse give their edges. */
  lemma {:induction false} EdgesOfAllParse(parsed: seq<Option<WeightedEdge>>, lo: nat, hi: nat)
    requires lo <= hi <= |parsed|
    requires forall j :: lo <= j < hi ==> parsed[j].Some?
    ensures EdgesOf(parsed, lo, hi).Ok?
    decreases hi - lo
  {
    if hi > lo {
      EdgesOfAllParse(parsed, lo, hi - 1);
    }
  }

  lemma BadEdgeFails(parsed: seq<Option<WeightedEdge>>, lo: nat, j: nat)
    requires lo <= j < |parsed| && parsed[j].None?
    ensures EdgesOf(parsed, lo, |parsed|).Err?
  {
    if EdgesOf(parsed, lo, j).Err? {
      EdgesErrSticks(parsed, lo, j, j + 1);
    }
    EdgesErrSticks(parsed, lo, j + 1, |parsed|);
  }

  lemma ParsedLinesAll(lines: seq<string>)
    ensures forall j :: 0 <= j < |lines| ==> ParsedLines(lines)[j] == ParseEdge(lines[j])
  {
    forall j | 0 <= j < |lines| ensures ParsedLines(lines)[j] == ParseEdge(lines[j]) {
      ParsedLinesAt(lines, j);
    }
  }

  lemma NetworkFileUnfold(lines: seq<string>, v: int)
    requires |lines| >= 3 && ParseInt(lines[1]) == Some(v)
    ensures NetworkFile(lines).Ok? <==> EdgesOf(ParsedLines(lines), EdgeStart(lines, v), |lines|).Ok?
  {
  }

  /** A `.net` file reads exactly when it has its three header lines, an
      int vertex count, and every line from the first edge line on is an
      edge. */
  lemma NetworkFileOk(lines: seq<string>)
    ensures NetworkFile(lines).Ok? <==>
              |lines| >= 3 && ParseInt(lines[1]).Some? &&
              forall j :: EdgeStart(lines, ParseInt(lines[1]).value) <= j < |lines| ==> ParseEdge(lines[j]).Some?
  {
    if |lines| >= 3 && ParseInt(lines[1]).Some? {
      var start := EdgeStart(lines, ParseInt(lines[1]).value);
      var parsed := ParsedLines(lines);
      NetworkFileUnfold(lines, ParseInt(lines[1]).value);
      ParsedLinesAll(lines);
      if forall j :: start <= j < |lines| ==> ParseEdge(lines[j]).Some? {
        EdgesOfAllParse(parsed, start, |lines|);
        assert EdgesOf(parsed, start, |lines|).Ok?;
      } else {
        var j :| start <= j < |lines| && ParseEdge(lines[j]).None?;
        BadEdgeFails(parsed, start, j);
        assert EdgesOf(parsed, start, |lines|).Err?;
      }
    }
  }

  /** The renderer gets the stripped first line as cluster name and the
      edges of the lines from the first edge line on, one each, in file
      order. */
  lemma NetworkFileEdges(lines: seq<string>)
    requires NetworkFile(lines).Ok?
    ensures |lines| >= 3 && ParseInt(lines[1]).Some?
    ensures var start := EdgeStart(lines, ParseInt(lines[1]).value);
            var d := NetworkFile(lines).value;
            && d.clusterName == Strip(lines[0])
            && |d.edges| == |lines| - start
            && forall i :: 0 <= i < |d.edges| ==> ParseEdge(lines[start + i]) == Some(d.edges[i])
  {
    var start := EdgeStart(lines, ParseInt(lines[1]).value);
    ParsedLinesAll(lines);
    EdgesOfAt(ParsedLines(lines), start, |lines|);
  }

  /** The line an edge is written as. */
  function FormatEdge(e: WeightedEdge): string
  {
    e.node1 + "," + e.node2 + "," + e.weight
  }

  /** An edge without commas in its fields, without whitespace at either end
      of the line and with a float weight reads back from its line. */
  lemma ParseFormatEdge(e: WeightedEdge)
    requires ',' !in e.node1 && ',' !in e.node2 && ',' !in e.weight
    requires |e.node1| > 0 && !IsSpace(e.node1[0])
    requires |e.weight| > 0 && !IsSpace(e.weight[|e.weight| - 1])
    requires IsFloatText(e.weight)
    ensures ParseEdge(FormatEdge(e)) == Some(e)
  {
    var line := FormatEdge(e);
    assert line[0] == e.node1[0];
    assert line[|line| - 1] == e.weight[|e.weight| - 1];
    StripUnchanged(line);
    assert line == e.node1 + [','] + (e.node2 + [','] + e.weight);
    SplitField(e.node1, ',', e.node2 + [','] + e.weight);
    SplitField(e.node2, ',', e.weight);
    SplitWithoutSeparator(e.weight, ',');
  }
}
