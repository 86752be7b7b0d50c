// The data shaping of barChartViz.visualization: one bar per community,
// its height the number of edges (`.ecom`) or of distinct endpoints
// (`.vcom`), the bars in descending order, and the name of the HTML file
// written.

module BarChart {
  import opened Wrappers
  import opened Strings
  import opened OrderedDict
  import opened Paths
  import opened CommunityFiles
  import opened CommunityCounts
  import opened Ranking
  import ReadNCall
  import VizCaller

  /** `input_file_extension` and `nodes_OR_edges`: set for a `.ecom` or a
      `.vcom` input only. */
  function Kind(inputFile: string): Option<(string, string)>
  {
    if EndsWith(inputFile, ".ecom") then Some(("ecom", "edges"))
    else if EndsWith(inputFile, ".vcom") then Some(("vcom", "vertices"))
    else None
  }

  /** `(id, len(members))` for each community, in order. */
  function Sizes(c: Communities): (r: seq<(int, int)>)
    ensures |r| == |c|
  {
    seq(|c|, i requires 0 <= i < |c| => (c[i].0, |c[i].1|))
  }

  lemma SizesSnoc(c: Communities, i: nat)
    requires i < |c|
    ensures Sizes(c[..i + 1]) == Sizes(c[..i]) + [(c[i].0, |c[i].1|)]
  {
  }

  /** `unique_EdgesorNodes_InEachCommunity` after the loop: member counts
      for `.ecom`, endpoint counts for `.vcom` (indexing a vertex id raises),
      and nothing for any other input. */
  function CountsOf(inputFile: string, c: Communities): Result<Dict<int, int>>
  {
    if EndsWith(inputFile, ".ecom") then Ok(PutAll(Sizes(c)))
    else if EndsWith(inputFile, ".vcom") then
      match EndpointCounts(c) case Err => Err case Ok(es) => Ok(PutAll(es))
    else Ok([])
  }

  /** The loop over `communityData.items()`. */
  method CountEachCommunity(inputFile: string, c: Communities) returns (r: Result<Dict<int, int>>)
    ensures r == CountsOf(inputFile, c)
  {
    var ecom, vcom := EndsWith(inputFile, ".ecom"), EndsWith(inputFile, ".vcom");
    var unique: Dict<int, int> := [];
    ghost var es: seq<(int, int)> := [];
    var i := 0;
    while i < |c|
      invariant 0 <= i <= |c|
      invariant unique == PutAll(es)
      invariant ecom ==> es == Sizes(c[..i])
      invariant !ecom && vcom ==> EndpointCounts(c[..i]) == Ok(es)
      invariant !ecom && !vcom ==> es == []
    {
      var (id, members) := c[i];
      if ecom {
        SizesSnoc(c, i);
        PutAllSnoc(es, (id, |members|));
        es := es + [(id, |members|)];
        unique := Put(unique, id, |members|);
      } else if vcom {
        var nodes := CollectEndpoints(members);
        if nodes.Err? {
          EndpointsSet(members);
          EndpointCountsAt(c);
          return Err;
        }
        EndpointCountsSnoc(c, i, es, nodes.value);
        PutAllSnoc(es, (id, |nodes.value|));
        es := es + [(id, |nodes.value|)];
        unique := Put(unique, id, |nodes.value|);
      }
      i := i + 1;
    }
    assert c[..i] == c;
    r := Ok(unique);
  }

  /** What the bar chart is drawn from, the file it writes under `endPath`
      and the path it returns under `mln_User`. */
  datatype BarChartView = BarChartView(bars: Dict<int, int>, noun: string, written: string, returned: string)

  /** `bar_chart_{cluster}_{extension}.html` */
  function ArtifactFile(cluster: string, ext: string): string
  {
    "bar_chart_" + cluster + "_" + ext + ".html"
  }

  /** barChartViz.visualization on community data. A missing community
      map, a vertex member of a `.vcom` community and an input that is
      neither `.ecom` nor `.vcom` (its extension is never assigned) give
      False. */
  function Chart(data: CommunityData, mlnUser: string, endPath: string, inputFile: string, cluster: string): Result<BarChartView>
  {
    match data.communities
    case None => Err
    case Some(c) =>
      match CountsOf(inputFile, c)
      case Err => Err
      case Ok(unique) =>
        match Kind(inputFile)
        case None => Err
        case Some(kind) =>
          var name := ArtifactFile(cluster, kind.0);
          Ok(BarChartView(PutAll(SortDesc(unique)), kind.1, VisualizationPath(endPath, name), VisualizationPath(mlnUser, name)))
  }

  /** The renderer on the arguments readNCall hands it: `data.get` on an
      edge list and `.endswith` on a flag raise. */
  function OnArgs(args: seq<ReadNCall.Arg>): Result<BarChartView>
    requires |args| == 8 && args[2].Text? && args[3].Text? && args[7].Text?
  {
    if !args[6].Text? || !args[0].Data? then Err
    else Chart(args[0].data, args[2].text, args[3].text, args[6].text, args[7].text)
  }

  // Properties of the bar chart.

  /** The chart is drawn exactly when there is a community map, the input is
      `.ecom` or `.vcom`, and for `.vcom` every member is an edge. */
  lemma ChartDrawn(data: CommunityData, mlnUser: string, endPath: string, inputFile: string, cluster: string)
    ensures Chart(data, mlnUser, endPath, inputFile, cluster).Ok? <==>
              && data.communities.Some?
              && (EndsWith(inputFile, ".ecom") || EndsWith(inputFile, ".vcom"))
              && (!EndsWith(inputFile, ".ecom") ==>
                    forall i, j :: 0 <= i < |data.communities.value| && 0 <= j < |data.communities.value[i].1| ==>
                      data.communities.value[i].1[j].Edge?)
  {
    if data.communities.Some? {
      EndpointCountsAt(data.communities.value);
    }
  }

  /** A vertex-community file lists vertex ids, so as soon as one of its
      communities is non-empty the `.vcom` branch raises and the chart is
      not drawn. */
  lemma VertexFileFails(lines: seq<string>, mlnUser: string, endPath: string, inputFile: string, cluster: string, i: nat)
    requires CommunityFile(VertexCommunities, lines).Ok?
    requires EndsWith(inputFile, ".vcom") && !EndsWith(inputFile, ".ecom")
    requires var d := CommunityFile(VertexCommunities, lines).value;
             d.communities.Some? && i < |d.communities.value| && |d.communities.value[i].1| > 0
    ensures Chart(CommunityFile(VertexCommunities, lines).value, mlnUser, endPath, inputFile, cluster).Err?
  {
    var d := CommunityFile(VertexCommunities, lines).value;
    FoldFormat(VertexCommunities, lines, |lines|);
    assert d.communities.value[i].1[0].Vertex?;
    ChartDrawn(d, mlnUser, endPath, inputFile, cluster);
  }

  /** Distinct community ids give one bar per community: for `.ecom` its
      number of members, for `.vcom` its number of distinct endpoints. */
  lemma CountsPerCommunity(inputFile: string, c: Communities)
    requires DistinctKeys(c) && CountsOf(inputFile, c).Ok?
    ensures DistinctKeys(CountsOf(inputFile, c).value)
    ensures EndsWith(inputFile, ".ecom") ==> CountsOf(inputFile, c).value == Sizes(c)
    ensures !EndsWith(inputFile, ".ecom") && EndsWith(inputFile, ".vcom") ==>
              && |CountsOf(inputFile, c).value| == |c|
              && forall i :: 0 <= i < |c| ==>
                   && Endpoints(c[i].1).Ok?
                   && CountsOf(inputFile, c).value[i] == (c[i].0, |Endpoints(c[i].1).value|)
  {
    if EndsWith(inputFile, ".ecom") {
      var s := Sizes(c);
      assert DistinctKeys(s) by {
        forall i, j | 0 <= i < j < |s| ensures s[i].0 != s[j].0 {
          assert s[i].0 == c[i].0 && s[j].0 == c[j].0;
        }
      }
      PutAllDistinct(s);
    } else if EndsWith(inputFile, ".vcom") {
      var es := EndpointCounts(c).value;
      EndpointCountsAt(c);
      assert DistinctKeys(es) by {
        forall i, j | 0 <= i < j < |es| ensures es[i].0 != es[j].0 {
          assert es[i].0 == c[i].0 && es[j].0 == c[j].0;
        }
      }
      PutAllDistinct(es);
    }
  }

  /** The bars are the counts, each once, tallest first; bars of equal
      height keep the communities' order. */
  lemma BarsSorted(data: CommunityData, mlnUser: string, endPath: string, inputFile: string, cluster: string, v: int)
    requires Chart(data, mlnUser, endPath, inputFile, cluster).Ok?
    requires DistinctKeys(data.communities.value)
    ensures var bars := Chart(data, mlnUser, endPath, inputFile, cluster).value.bars;
            var unique := CountsOf(inputFile, data.communities.value).value;
            && bars == SortDesc(unique)
            && SortedDesc(bars)
            && multiset(bars) == multiset(unique)
            && WithCount(bars, v) == WithCount(unique, v)
  {
    var unique := CountsOf(inputFile, data.communities.value).value;
    CountsPerCommunity(inputFile, data.communities.value);
    SortDescDistinct(unique);
    PutAllDistinct(SortDesc(unique));
    SortDescSorted(unique);
    SortDescPermutation(unique);
    SortDescStable(unique, v);
  }

  /** The returned path names the chart after the extension, under the
      user's directory; the file is written under `endPath`. */
  lemma ChartPaths(data: CommunityData, mlnUser: string, endPath: string, inputFile: string, cluster: string)
    requires Chart(data, mlnUser, endPath, inputFile, cluster).Ok?
    ensures var v := Chart(data, mlnUser, endPath, inputFile, cluster).value;
            var ext := if EndsWith(inputFile, ".ecom") then "ecom" else "vcom";
            && v.returned == VisualizationPath(mlnUser, ArtifactFile(cluster, ext))
            && v.written == VisualizationPath(endPath, ArtifactFile(cluster, ext))
            && v.noun == (if ext == "ecom" then "edges" else "vertices")
  {
  }

  /** The file written is never the one createViz checks, which is spelled
      `barchart_...`: a bar chart is drawn anew on every call. */
  lemma NeverTheCheckedArtifact(cluster: string, ext: string, cluster': string, ext': string, root: string)
    ensures VisualizationPath(root, ArtifactFile(cluster, ext)) != VizCaller.CheckedPath(root, "barchart", cluster', ext')
  {
    var a := ArtifactFile(cluster, ext);
    var b := VizCaller.ArtifactName("barchart", cluster', ext');
    assert a[0] == 'b' && a[3] == '_';
    assert b[0] == 'b' && b[3] == 'c';
    ReadNCall.VisualizationPathInjective(root, a, b);
  }

  /** The bar chart reads the data, both user paths, the input path and
      the cluster name from the places readNCall puts them. */
  lemma OnCommunityArgs(args: seq<ReadNCall.Arg>, data: CommunityData, mlnUser: string, endPath: string, inputFile: string, cluster: string)
    requires |args| == 8 && args[0] == ReadNCall.Data(data) && args[2] == ReadNCall.Text(mlnUser) && args[3] == ReadNCall.Text(endPath)
    requires args[6] == ReadNCall.Text(inputFile) && args[7] == ReadNCall.Text(cluster)
    ensures OnArgs(args) == Chart(data, mlnUser, endPath, inputFile, cluster)
  {
  }

  /** What readNCall hands the bar chart for a community input: the parse
      of the input, the user paths, the input path and the derived cluster
      name. */
  lemma CalledByReadNCall(fs: VizCaller.FileSystem, path: string, mappingDir: string, mlnUser: string, vizType: string, endPath: string)
    requires var o := ReadNCall.ReadNCallSpec(fs, path, mappingDir, mlnUser, vizType, endPath);
             o.Rendered? && o.renderer == VizCaller.BarChart && !EndsWith(path, ".net")
    ensures var o := ReadNCall.ReadNCallSpec(fs, path, mappingDir, mlnUser, vizType, endPath);
            var f := if EndsWith(path, ".ecom") then EdgeCommunities else VertexCommunities;
            && path in fs.lines && CommunityFile(f, fs.lines[path]).Ok? && Username(mlnUser).Ok?
            && |o.args| == 8 && o.args[2].Text? && o.args[3].Text? && o.args[7].Text?
            && OnArgs(o.args) == Chart(CommunityFile(f, fs.lines[path]).value, mlnUser, endPath, path,
                                       FinalClusterName(BaseName(path), Username(mlnUser).value))
  {
    ReadNCall.CommunityCallArgs(fs, path, mappingDir, mlnUser, vizType, endPath);
    var f := if EndsWith(path, ".ecom") then EdgeCommunities else VertexCommunities;
    var args := ReadNCall.ReadNCallSpec(fs, path, mappingDir, mlnUser, vizType, endPath).args;
    assert args[0] == args[..4][0] && args[2] == args[..4][2] && args[3] == args[..4][3];
    OnCommunityArgs(args,
                    CommunityFile(f, fs.lines[path]).value, mlnUser, endPath, path,
                    FinalClusterName(BaseName(path), Username(mlnUser).value));
  }

  /** readNCall on a `.vcom` file with a non-empty community, asked for a
      bar chart, calls it on data it cannot count: the chart returns False
      whenever no artifact is reused. */
  lemma VertexInputChartFails(fs: VizCaller.FileSystem, path: string, mappingDir: string, mlnUser: string, vizType: string, endPath: string, i: nat)
    requires var o := ReadNCall.ReadNCallSpec(fs, path, mappingDir, mlnUser, vizType, endPath);
             o.Rendered? && o.renderer == VizCaller.BarChart && EndsWith(path, ".vcom")
    requires path in fs.lines && CommunityFile(VertexCommunities, fs.lines[path]).Ok?
    requires var d := CommunityFile(VertexCommunities, fs.lines[path]).value;
             d.communities.Some? && i < |d.communities.value| && |d.communities.value[i].1| > 0
    ensures var o := ReadNCall.ReadNCallSpec(fs, path, mappingDir, mlnUser, vizType, endPath);
            |o.args| == 8 && o.args[2].Text? && o.args[3].Text? && o.args[7].Text? && OnArgs(o.args).Err?
  {
    assert !EndsWith(path, ".net") && !EndsWith(path, ".ecom") by {
      assert path[|path| - 1] == 'm';
    }
    CalledByReadNCall(fs, path, mappingDir, mlnUser, vizType, endPath);
    VertexFileFails(fs.lines[path], mlnUser, endPath, path, FinalClusterName(BaseName(path), Username(mlnUser).value), i);
  }
}
