// The data shaping of bubbleChartViz.visualization: it reads the input file
// again with the vertex-community parser, sizes one bubble per community
// by its number of vertices, and names the HTML file after the input.

module BubbleChart {
  import opened Wrappers
  import opened Strings
  import opened OrderedDict
  import opened Paths
  import opened CommunityFiles
  import opened CommunityCounts
  import opened CommunityReader
  import ReadNCall
  import VizCaller

  /** `input_file.split('.')[-1]` */
  function ExtensionPart(inputFile: string): string
  {
    var parts := Split(inputFile, '.');
    parts[|parts| - 1]
  }

  /** `os.path.splitext(os.path.basename(input_file))[0].split('.')[0]` */
  function ChartName(inputFile: string): string
  {
    Split(Splitext(Basename(inputFile)).0, '.')[0]
  }

  /** `bubblechart_{name}_{extension}.html` */
  function ArtifactFile(inputFile: string): string
  {
    "bubblechart_" + ChartName(inputFile) + "_" + ExtensionPart(inputFile) + ".html"
  }

  /** The loop that fills `comNames` and `comSizes` from the count
      dictionary, in its order. */
  method Columns(counts: Dict<string, int>) returns (names: seq<string>, sizes: seq<int>)
    ensures names == Keys(counts) && sizes == Values(counts)
  {
    names, sizes := [], [];
    var i := 0;
    while i < |counts|
      invariant 0 <= i <= |counts| && |names| == i && |sizes| == i
      invariant forall k :: 0 <= k < i ==> names[k] == counts[k].0 && sizes[k] == counts[k].1
    {
      var (key, value) := counts[i];
      names := names + [key];
      sizes := sizes + [value];
      i := i + 1;
    }
    forall k | 0 <= k < |counts| ensures names[k] == Keys(counts)[k] {
      KeysAt(counts, k);
    }
  }

  /** What the bubbles are drawn from and where the page goes. */
  datatype BubbleView = BubbleView(names: seq<string>, sizes: seq<int>, layer: string, written: string, returned: string)

  /** bubbleChartViz.visualization, which ignores the parsed data it is
      given and reads `input_file` itself. A file that cannot be opened or
      parsed, a missing `Communities` or `Layer` entry, and a file without
      communities (the `max` over no circles) raise. */
  function Bubble(fs: VizCaller.FileSystem, inputFile: string, mlnUser: string, endPath: string): Result<BubbleView>
  {
    if inputFile !in fs.lines then Err
    else
      match CommunityFile(VertexCommunities, fs.lines[inputFile])
      case Err => Err
      case Ok(d) =>
        match d.communities
        case None => Err
        case Some(c) =>
          var counts := MemberCounts("c", c);
          if d.layer.None? || |counts| == 0 then Err
          else
            Ok(BubbleView(Keys(counts), Values(counts), d.layer.value,
                          VisualizationPath(endPath, ArtifactFile(inputFile)),
                          VisualizationPath(mlnUser, ArtifactFile(inputFile))))
  }

  /** The re-parse of lines 18-35: the same header and allocation loops as
      readNCall's `.vcom` branch, on the file named by the argument. */
  method Reparse(fs: VizCaller.FileSystem, inputFile: string) returns (r: Result<CommunityData>)
    ensures r == if inputFile in fs.lines then CommunityFile(VertexCommunities, fs.lines[inputFile]) else Err
  {
    if inputFile !in fs.lines {
      return Err;
    }
    r := ReadCommunityFile(VertexCommunities, fs.lines[inputFile]);
  }

  /** bubbleChartViz.visualization step by step: the re-parse, the count
      dictionary, the two columns and the file name. */
  method Visualization(fs: VizCaller.FileSystem, inputFile: string, mlnUser: string, endPath: string) returns (r: Result<BubbleView>)
    ensures r == Bubble(fs, inputFile, mlnUser, endPath)
  {
    var parsed := Reparse(fs, inputFile);
    if parsed.Err? || parsed.value.communities.None? {
      return Err;
    }
    var d := parsed.value;
    var counts := MemberCounts("c", d.communities.value);
    var names, sizes := Columns(counts);
    if d.layer.None? || |counts| == 0 {
      return Err;
    }
    var name := ArtifactFile(inputFile);
    r := Ok(BubbleView(names, sizes, d.layer.value, VisualizationPath(endPath, name), VisualizationPath(mlnUser, name)));
  }

  /** The renderer on the arguments readNCall hands it: the input path, or
      for a network input the mapping flag, formatted as text. */
  function OnArgs(fs: VizCaller.FileSystem, args: seq<ReadNCall.Arg>): Result<BubbleView>
    requires |args| == 8 && args[2].Text? && args[3].Text?
  {
    match args[6]
    case Text(p) => Bubble(fs, p, args[2].text, args[3].text)
    case Flag(b) => Bubble(fs, if b then "True" else "False", args[2].text, args[3].text)
    case _ => Err
  }

  // Properties of the bubble chart.

  /** The bubble chart reads both user paths and the input path from the
      places readNCall puts them. */
  lemma OnCommunityArgs(fs: VizCaller.FileSystem, args: seq<ReadNCall.Arg>, inputFile: string, mlnUser: string, endPath: string)
    requires |args| == 8 && args[2] == ReadNCall.Text(mlnUser) && args[3] == ReadNCall.Text(endPath) && args[6] == ReadNCall.Text(inputFile)
    ensures OnArgs(fs, args) == Bubble(fs, inputFile, mlnUser, endPath)
  {
  }

  /** What readNCall hands the bubble chart for a community input makes it
      draw the input file itself under the user's paths. */
  lemma CalledByReadNCall(fs: VizCaller.FileSystem, path: string, mappingDir: string, mlnUser: string, vizType: string, endPath: string)
    requires var o := ReadNCall.ReadNCallSpec(fs, path, mappingDir, mlnUser, vizType, endPath);
             o.Rendered? && o.renderer == VizCaller.BubbleChart && !EndsWith(path, ".net")
    ensures var o := ReadNCall.ReadNCallSpec(fs, path, mappingDir, mlnUser, vizType, endPath);
            && |o.args| == 8 && o.args[2].Text? && o.args[3].Text?
            && OnArgs(fs, o.args) == Bubble(fs, path, mlnUser, endPath)
  {
    ReadNCall.CommunityCallArgs(fs, path, mappingDir, mlnUser, vizType, endPath);
    var args := ReadNCall.ReadNCallSpec(fs, path, mappingDir, mlnUser, vizType, endPath).args;
    assert args[2] == args[..4][2] && args[3] == args[..4][3];
    OnCommunityArgs(fs, args, path, mlnUser, endPath);
  }

  /** The chart is drawn exactly when the file opens and parses as a
      vertex-community file with a layer and at least one community. */
  lemma BubbleDrawn(fs: VizCaller.FileSystem, inputFile: string, mlnUser: string, endPath: string)
    ensures Bubble(fs, inputFile, mlnUser, endPath).Ok? <==>
              && inputFile in fs.lines
              && CommunityFile(VertexCommunities, fs.lines[inputFile]).Ok?
              && CommunityFile(VertexCommunities, fs.lines[inputFile]).value.communities.Some?
              && CommunityFile(VertexCommunities, fs.lines[inputFile]).value.layer.Some?
              && |CommunityFile(VertexCommunities, fs.lines[inputFile]).value.communities.value| > 0
  {
    if inputFile in fs.lines && CommunityFile(VertexCommunities, fs.lines[inputFile]).Ok? {
      var lines := fs.lines[inputFile];
      var d := CommunityFile(VertexCommunities, lines).value;
      if d.communities.Some? {
        FoldDistinct(VertexCommunities, lines, |lines|);
        MemberCountsExactly("c", d.communities.value);
      }
    }
  }

  /** One bubble per community, in the file's order of first mention: its
      label `'c' + str(id)`, which `strip` leaves as it is, and its size the
      number of vertices listed for it. */
  lemma BubblePerCommunity(fs: VizCaller.FileSystem, inputFile: string, mlnUser: string, endPath: string)
    requires Bubble(fs, inputFile, mlnUser, endPath).Ok?
    ensures var v := Bubble(fs, inputFile, mlnUser, endPath).value;
            var c := CommunityFile(VertexCommunities, fs.lines[inputFile]).value.communities.value;
            && |v.names| == |v.sizes| == |c|
            && forall i :: 0 <= i < |c| ==>
                 && v.names[i] == "c" + Strip(IntToString(c[i].0))
                 && v.sizes[i] == |c[i].1|
                 && forall j :: 0 <= j < |c[i].1| ==> c[i].1[j].Vertex?
  {
    var lines := fs.lines[inputFile];
    var c := CommunityFile(VertexCommunities, lines).value.communities.value;
    FoldDistinct(VertexCommunities, lines, |lines|);
    FoldFormat(VertexCommunities, lines, |lines|);
    CountColumns(c);
  }

  /** The two columns of the count dictionary of distinct communities. */
  lemma CountColumns(c: Communities)
    requires DistinctKeys(c)
    ensures var counts := MemberCounts("c", c);
            && |Keys(counts)| == |Values(counts)| == |c|
            && forall i :: 0 <= i < |c| ==>
                 Keys(counts)[i] == "c" + Strip(IntToString(c[i].0)) && Values(counts)[i] == |c[i].1|
  {
    MemberCountsExactly("c", c);
    var counts := MemberCounts("c", c);
    forall i | 0 <= i < |c| ensures Keys(counts)[i] == "c" + Strip(IntToString(c[i].0)) {
      KeysAt(counts, i);
      IntToStringStripped(c[i].0);
    }
  }

  /** Different communities get different labels. */
  lemma LabelsDistinct(fs: VizCaller.FileSystem, inputFile: string, mlnUser: string, endPath: string, i: nat, j: nat)
    requires Bubble(fs, inputFile, mlnUser, endPath).Ok?
    requires i < j < |Bubble(fs, inputFile, mlnUser, endPath).value.names|
    ensures Bubble(fs, inputFile, mlnUser, endPath).value.names[i] != Bubble(fs, inputFile, mlnUser, endPath).value.names[j]
  {
    var lines := fs.lines[inputFile];
    var c := CommunityFile(VertexCommunities, lines).value.communities.value;
    FoldDistinct(VertexCommunities, lines, |lines|);
    MemberCountsExactly("c", c);
    var counts := MemberCounts("c", c);
    KeysAt(counts, i);
    KeysAt(counts, j);
  }

  /** The chart is named after the input's base name, whatever splitext
      would cut off, and a `.vcom` input gives the extension `vcom`. */
  lemma NameParts(inputFile: string)
    ensures ChartName(inputFile) == BaseName(inputFile)
    ensures EndsWith(inputFile, ".vcom") ==> ExtensionPart(inputFile) == "vcom"
  {
    SplitextBaseName(inputFile);
    if EndsWith(inputFile, ".vcom") {
      VcomPart(inputFile);
    }
  }

  lemma VcomPart(inputFile: string)
    requires EndsWith(inputFile, ".vcom")
    ensures ExtensionPart(inputFile) == "vcom"
  {
    var a := inputFile[..|inputFile| - 5];
    assert inputFile == a + ['.'] + "vcom";
    SplitLast(a, '.', "vcom");
  }

  /** Two artifacts of one graph type and extension under one root are the
      same path only for the same cluster name. */
  lemma SamePathSameCluster(root: string, graph: string, base: string, cluster: string, ext: string)
    requires |graph| > 0 && graph[0] != '/'
    ensures (VisualizationPath(root, VizCaller.ArtifactName(graph, base, ext)) == VisualizationPath(root, VizCaller.ArtifactName(graph, cluster, ext)))
              <==> base == cluster
  {
    var a := VizCaller.ArtifactName(graph, base, ext);
    var b := VizCaller.ArtifactName(graph, cluster, ext);
    if base != cluster {
      var tail := "_" + VizCaller.Suffix(ext) + ".html";
      assert a == graph + "_" + base + tail;
      assert b == graph + "_" + cluster + tail;
      if |a| == |b| {
        assert a[|graph| + 1..|a| - |tail|] == base;
        assert b[|graph| + 1..|b| - |tail|] == cluster;
      }
      assert a[0] == graph[0] && b[0] == graph[0];
      ReadNCall.VisualizationPathInjective(root, a, b);
    }
  }

  lemma BubbleGraph()
    ensures VizCaller.GraphType("bubble_chart_visualization") == "bubblechart"
  {
  }

  /** The checked artifact of an input for the bubble chart. */
  lemma CheckedBubble(path: string, mlnUser: string)
    requires Username(mlnUser).Ok?
    ensures ReadNCall.CheckedArtifact(path, mlnUser, "bubble_chart_visualization")
              == VisualizationPath(mlnUser, VizCaller.ArtifactName("bubblechart", FinalClusterName(BaseName(path), Username(mlnUser).value), VizCaller.DetectExtension(path)))
  {
    BubbleGraph();
  }

  lemma BubbleNameForm(name: string)
    ensures "bubblechart_" + name + "_" + "vcom" + ".html" == VizCaller.ArtifactName("bubblechart", name, ".vcom")
  {
    assert "bubblechart" + "_" == "bubblechart_";
  }

  /** A `.vcom` input's bubble chart carries the name createViz would give
      it for its base name. */
  lemma VcomArtifact(path: string)
    requires EndsWith(path, ".vcom")
    ensures ArtifactFile(path) == VizCaller.ArtifactName("bubblechart", BaseName(path), ".vcom")
  {
    NameParts(path);
    BubbleNameForm(BaseName(path));
  }

  /** For a `.vcom` input the path returned is the one createViz checks for
      the bubble chart exactly when the base name carries no `{user}_` tag:
      with a tag, the next call looks for a file that is never written and
      draws the chart again. */
  lemma ReturnsCheckedArtifact(path: string, mlnUser: string)
    requires Username(mlnUser).Ok?
    requires VizCaller.DetectExtension(path) == ".vcom"
    ensures (VisualizationPath(mlnUser, ArtifactFile(path)) == ReadNCall.CheckedArtifact(path, mlnUser, "bubble_chart_visualization"))
              <==> FinalClusterName(BaseName(path), Username(mlnUser).value) == BaseName(path)
  {
    CheckedBubble(path, mlnUser);
    VcomArtifact(path);
    SamePathSameCluster(mlnUser, "bubblechart", BaseName(path), FinalClusterName(BaseName(path), Username(mlnUser).value), ".vcom");
  }
}
