// The naming, caching and dispatch decisions of vizCaller.py: the artifact
// name createViz checks, its regenerate-or-reuse decision over file
// modification times, the visualization-type tables and the extension
// readNCall detects.

module VizCaller {
  import opened Wrappers
  import opened Strings
  import opened Paths
  import Mapper

  /** What readNCall can see of the disk: the modification time of every
      existing path, and the contents of the files it opens. */
  datatype FileSystem = FileSystem(
    mtime: map<string, int>,
    lines: map<string, seq<string>>,
    rows: map<string, seq<Mapper.Row>>)

  predicate Exists(fs: FileSystem, p: string)
  {
    p in fs.mtime
  }

  /** The artifact kind createViz expects for an input extension. */
  function Suffix(ext: string): (s: string)
    ensures s in {"ecom", "vcom", "Network"}
    ensures s == "ecom" <==> ext == ".ecom"
    ensures s == "vcom" <==> ext == ".vcom"
  {
    if ext == ".ecom" then "ecom"
    else if ext == ".vcom" then "vcom"
    else "Network"
  }

  /** `{vizGraphType}_{clusterName}_{suffix}.html` */
  function ArtifactName(graph: string, cluster: string, ext: string): string
  {
    graph + "_" + cluster + "_" + Suffix(ext) + ".html"
  }

  /** The path createViz checks. */
  function CheckedPath(root: string, graph: string, cluster: string, ext: string): string
  {
    VisualizationPath(root, ArtifactName(graph, cluster, ext))
  }

  /** createViz: regenerate when the artifact is missing or the input file is
      strictly newer than it; the input's time is read only when the
      artifact exists, and reading it for a missing input raises. */
  function CreateViz(fs: FileSystem, root: string, cluster: string, graph: string, ext: string, inputFile: string): (r: Result<bool>)
    ensures !Exists(fs, CheckedPath(root, graph, cluster, ext)) ==> r == Ok(true)
    ensures Exists(fs, CheckedPath(root, graph, cluster, ext)) ==>
              r == if Exists(fs, inputFile)
                   then Ok(fs.mtime[inputFile] > fs.mtime[CheckedPath(root, graph, cluster, ext)])
                   else Err
  {
    var viz := CheckedPath(root, graph, cluster, ext);
    if viz !in fs.mtime then Ok(true)
    else if inputFile !in fs.mtime then Err
    else Ok(fs.mtime[inputFile] > fs.mtime[viz])
  }

  /** The file system after a renderer writes `path` at time `t`. */
  function Write(fs: FileSystem, path: string, t: int): FileSystem
  {
    fs.(mtime := fs.mtime[path := t])
  }

  /** Writing the checked artifact no earlier than the input's last change
      makes the next createViz reuse it; an equal time counts as fresh. */
  lemma WrittenArtifactReused(fs: FileSystem, root: string, cluster: string, graph: string, ext: string, inputFile: string, t: int)
    requires Exists(fs, inputFile) && inputFile != CheckedPath(root, graph, cluster, ext)
    requires t >= fs.mtime[inputFile]
    ensures CreateViz(Write(fs, CheckedPath(root, graph, cluster, ext), t), root, cluster, graph, ext, inputFile) == Ok(false)
  {
  }

  /** Changing the input after the artifact was written forces a
      regeneration. */
  lemma TouchedInputRegenerates(fs: FileSystem, root: string, cluster: string, graph: string, ext: string, inputFile: string, t: int)
    requires Exists(fs, CheckedPath(root, graph, cluster, ext)) && inputFile != CheckedPath(root, graph, cluster, ext)
    requires t > fs.mtime[CheckedPath(root, graph, cluster, ext)]
    ensures CreateViz(Write(fs, inputFile, t), root, cluster, graph, ext, inputFile) == Ok(true)
  {
  }

  /** For one graph type and cluster, two inputs share the checked artifact
      exactly when their extensions give the same suffix: `.ecom` and
      `.vcom` each have their own, every other extension shares
      `Network`. */
  lemma ArtifactNameSuffix(graph: string, cluster: string, ext: string, ext': string)
    ensures ArtifactName(graph, cluster, ext) == ArtifactName(graph, cluster, ext') <==> Suffix(ext) == Suffix(ext')
    ensures ext != ".ecom" && ext != ".vcom" && ext' != ".ecom" && ext' != ".vcom" ==>
              ArtifactName(graph, cluster, ext) == ArtifactName(graph, cluster, ext')
  {
    var pre := graph + "_" + cluster + "_";
    var a, b := Suffix(ext) + ".html", Suffix(ext') + ".html";
    assert ArtifactName(graph, cluster, ext) == pre + a;
    assert ArtifactName(graph, cluster, ext') == pre + b;
    if pre + a == pre + b {
      assert a == (pre + a)[|pre|..];
      assert b == (pre + b)[|pre|..];
      assert a[0] == b[0];
    }
  }

  // The visualization types.

  datatype Renderer =
    | Plotly | Bokeh | BokehDc | Pyvis | MapRenderer
    | WordCloud | BubbleChart | CommunityNetwork | BarChart

  /** The key of each renderer in both tables of vizCaller.py. */
  function VizTypeName(r: Renderer): string
  {
    match r
    case Plotly => "plotly_visualization"
    case Bokeh => "bokeh_visualization"
    case BokehDc => "bokeh_dc_visualization"
    case Pyvis => "pyvis_visualization"
    case MapRenderer => "map_visualization"
    case WordCloud => "word_cloud_visualization"
    case BubbleChart => "bubble_chart_visualization"
    case CommunityNetwork => "community_network_visualization"
    case BarChart => "bar_chart_visualization"
  }

  /** `vizDictionary[key]`, failing for an unknown key. */
  function RendererOf(key: string): (r: Option<Renderer>)
    ensures r.Some? ==> VizTypeName(r.value) == key
  {
    if key == "plotly_visualization" then Some(Plotly)
    else if key == "bokeh_visualization" then Some(Bokeh)
    else if key == "bokeh_dc_visualization" then Some(BokehDc)
    else if key == "pyvis_visualization" then Some(Pyvis)
    else if key == "map_visualization" then Some(MapRenderer)
    else if key == "word_cloud_visualization" then Some(WordCloud)
    else if key == "bubble_chart_visualization" then Some(BubbleChart)
    else if key == "community_network_visualization" then Some(CommunityNetwork)
    else if key == "bar_chart_visualization" then Some(BarChart)
    else None
  }

  /** Every renderer is reached by its own key and by no other. */
  lemma RendererOfName(r: Renderer, key: string)
    ensures RendererOf(VizTypeName(r)) == Some(r)
    ensures RendererOf(key) == Some(r) <==> key == VizTypeName(r)
  {
  }

  /** readNCall looks the renderer up under the lower-cased type. */
  function Dispatch(vizType: string): Option<Renderer>
  {
    RendererOf(LowerAscii(vizType))
  }

  // The keys of vizDictionary are written in lower case, three at a time.

  lemma NetworkKeysLower(r: Renderer)
    requires r.Plotly? || r.Bokeh? || r.BokehDc?
    ensures NoCapitals(VizTypeName(r))
  {
    if r.Plotly? { assert NoCapitals("plotly_visualization"); }
    else if r.Bokeh? { assert NoCapitals("bokeh_visualization"); }
    else { assert NoCapitals("bokeh_dc_visualization"); }
  }

  lemma GraphKeysLower(r: Renderer)
    requires r.Pyvis? || r.MapRenderer? || r.CommunityNetwork?
    ensures NoCapitals(VizTypeName(r))
  {
    if r.Pyvis? { assert NoCapitals("pyvis_visualization"); }
    else if r.MapRenderer? { assert NoCapitals("map_visualization"); }
    else { assert NoCapitals("community_network_visualization"); }
  }

  lemma ChartKeysLower(r: Renderer)
    requires r.WordCloud? || r.BubbleChart? || r.BarChart?
    ensures NoCapitals(VizTypeName(r))
  {
    if r.WordCloud? { assert NoCapitals("word_cloud_visualization"); }
    else if r.BubbleChart? { assert NoCapitals("bubble_chart_visualization"); }
    else { assert NoCapitals("bar_chart_visualization"); }
  }

  /** Every key of vizDictionary is in lower case already, so lowering the
      type reaches each renderer by its own key, and a type reaches a
      renderer exactly when its lower case is that renderer's key. */
  lemma DispatchOwnKey(r: Renderer, vizType: string)
    ensures Dispatch(VizTypeName(r)) == Some(r)
    ensures Dispatch(vizType) == Some(r) <==> LowerAscii(vizType) == VizTypeName(r)
  {
    if r.Plotly? || r.Bokeh? || r.BokehDc? {
      NetworkKeysLower(r);
    } else if r.Pyvis? || r.MapRenderer? || r.CommunityNetwork? {
      GraphKeysLower(r);
    } else {
      ChartKeysLower(r);
    }
    LowerAsciiFixes(VizTypeName(r));
    RendererOfName(r, LowerAscii(vizType));
  }


  /** `viz_type_to_graph_type.get(vizType, 'unknown')`, with the type as
      given. */
  function GraphType(vizType: string): (g: string)
    ensures |g| > 0 && g[0] != '/'
  {
    if vizType == "plotly_visualization" then "plotly"
    else if vizType == "bokeh_visualization" then "bokeh"
    else if vizType == "bokeh_dc_visualization" then "bokeh"
    else if vizType == "community_network_visualization" then "bokeh"
    else if vizType == "pyvis_visualization" then "pyvis"
    else if vizType == "map_visualization" then "map"
    else if vizType == "word_cloud_visualization" then "wordcloud"
    else if vizType == "bubble_chart_visualization" then "bubblechart"
    else if vizType == "bar_chart_visualization" then "barchart"
    else "unknown"
  }

  /** The graph type of each renderer's own key. */
  function GraphOf(r: Renderer): string
  {
    match r
    case Plotly => "plotly"
    case Bokeh | BokehDc | CommunityNetwork => "bokeh"
    case Pyvis => "pyvis"
    case MapRenderer => "map"
    case WordCloud => "wordcloud"
    case BubbleChart => "bubblechart"
    case BarChart => "barchart"
  }

  /** The two tables have the same keys: a type has a graph type exactly
      when it names a renderer, and then it is that renderer's. */
  lemma GraphTypeAgrees(vizType: string)
    ensures GraphType(vizType) != "unknown" <==> RendererOf(vizType).Some?
    ensures RendererOf(vizType).Some? ==> GraphType(vizType) == GraphOf(RendererOf(vizType).value)
  {
    if RendererOf(vizType).Some? {
      var r := RendererOf(vizType).value;
      assert vizType == VizTypeName(r);
      GraphOfName(r);
    }
  }

  lemma GraphOfName(r: Renderer)
    ensures GraphType(VizTypeName(r)) == GraphOf(r)
  {
    match r
    case Plotly =>
    case Bokeh =>
    case BokehDc =>
    case Pyvis =>
    case MapRenderer =>
    case WordCloud =>
    case BubbleChart =>
    case CommunityNetwork =>
    case BarChart =>
  }

  /** The three bokeh-family renderers share the graph type, so on the same
      input they check one and the same artifact. */
  lemma BokehFamilyShares(root: string, cluster: string, ext: string)
    ensures GraphType("bokeh_visualization") == GraphType("bokeh_dc_visualization") == GraphType("community_network_visualization") == "bokeh"
    ensures forall v :: GraphType(v) == "bokeh" <==> v in {"bokeh_visualization", "bokeh_dc_visualization", "community_network_visualization"}
    ensures && CheckedPath(root, GraphType("bokeh_visualization"), cluster, ext) == CheckedPath(root, GraphType("bokeh_dc_visualization"), cluster, ext)
            && CheckedPath(root, GraphType("bokeh_visualization"), cluster, ext) == CheckedPath(root, GraphType("community_network_visualization"), cluster, ext)
  {
  }

  /** The graph-type lookup does not lower-case: a type in mixed case still
      reaches its renderer but checks the artifact of graph type
      `unknown`. */
  lemma MixedCaseTypeIsUnknown()
    ensures GraphType("Bokeh_Visualization") == "unknown"
    ensures Dispatch("Bokeh_Visualization") == Some(Bokeh)
  {
    var s := "Bokeh_Visualization";
    assert s[0] == 'B' && s[6] == 'V';
    assert LowerAscii(s) == "bokeh_visualization";
  }

  // Extension detection.

  predicate HasInputExtension(path: string)
  {
    EndsWith(path, ".ecom") || EndsWith(path, ".net") || EndsWith(path, ".vcom")
  }

  /** Which of the three input extensions, without its dot, ends the path. */
  function InputWord(path: string): (w: string)
    requires HasInputExtension(path)
    ensures (w == "ecom" || w == "net" || w == "vcom") && EndsWith(path, "." + w)
  {
    if EndsWith(path, ".ecom") then "ecom" else if EndsWith(path, ".net") then "net" else "vcom"
  }

  /** No path ends in two of the input extensions. */
  lemma InputWordOf(path: string, w: string)
    requires w in {"ecom", "net", "vcom"} && EndsWith(path, "." + w)
    ensures HasInputExtension(path) && InputWord(path) == w
  {
    var n := |path|;
    assert path[n - |w| - 1..] == "." + w;
    if w == "net" {
      assert path[n - 1] == 't';
    } else if w == "vcom" {
      assert path[n - 4] == 'v' && path[n - 1] == 'm';
    }
  }

  lemma DottedWord(w: string)
    requires w == "ecom" || w == "net" || w == "vcom"
    ensures "." + w == ".ecom" || "." + w == ".net" || "." + w == ".vcom"
    ensures '.' !in w && '/' !in w
  {
  }

  /** `os.path.splitext(path)[-1]` when the path ends in one of the three
      input extensions, else `""`. */
  function DetectExtension(path: string): (ext: string)
    ensures ext == "" || ext == ".ecom" || ext == ".net" || ext == ".vcom"
    ensures ext != "" ==> EndsWith(path, ext)
    ensures !HasInputExtension(path) ==> ext == ""
  {
    if HasInputExtension(path) then
      var w := InputWord(path);
      DottedWord(w);
      SplitextOfSuffix(path, w);
      var e := Splitext(path).1;
      assert e == "" || (e == "." + w && EndsWith(path, e));
      e
    else ""
  }

  /** A path ending in `"." + w` has extension `"." + w`, unless its file
      name is the bare extension after nothing but dots (a hidden file). */
  lemma DetectExtensionOf(path: string, w: string)
    requires w in {"ecom", "net", "vcom"} && EndsWith(path, "." + w)
    ensures var d := |path| - |w| - 1;
            NameStart(path) <= d &&
            DetectExtension(path) == if AllDots(path[NameStart(path)..d]) then "" else "." + w
  {
    InputWordOf(path, w);
    SplitextOfSuffix(path, w);
  }

  // The cache-hit path.

  /** The name part readNCall uses for an existing artifact. */
  function Replacer(ext: string): string
  {
    if ext == ".vcom" then "vcom"
    else if ext == ".ecom" then "ecom"
    else if ext == ".net" then "Network"
    else ""
  }

  /** The path readNCall returns when createViz says to reuse. */
  function CachedPath(root: string, graph: string, cluster: string, ext: string): string
  {
    VisualizationPath(root, graph + "_" + cluster + "_" + Replacer(ext) + ".html")
  }

  /** For the three input kinds the returned path is the one checked; for
      any other input the checked name ends in `_Network.html` but the
      returned one in `_.html`, a file createViz never looked at. */
  lemma CachedPathIsChecked(root: string, graph: string, cluster: string, ext: string)
    ensures ext in {".ecom", ".net", ".vcom"} ==> CachedPath(root, graph, cluster, ext) == CheckedPath(root, graph, cluster, ext)
    ensures ext !in {".ecom", ".net", ".vcom"} ==>
              && EndsWith(ArtifactName(graph, cluster, ext), "_Network.html")
              && CachedPath(root, graph, cluster, ext) == VisualizationPath(root, graph + "_" + cluster + "_.html")
  {
    if ext !in {".ecom", ".net", ".vcom"} {
      var name := ArtifactName(graph, cluster, ext);
      assert name == (graph + "_" + cluster) + "_Network.html";
      assert graph + "_" + cluster + "_" + "" + ".html" == graph + "_" + cluster + "_.html";
    }
  }

  /** The returned name for an unknown extension differs from the checked
      one. */
  lemma CachedPathMissesOther(graph: string, cluster: string, ext: string)
    requires ext !in {".ecom", ".net", ".vcom"}
    ensures graph + "_" + cluster + "_" + Replacer(ext) + ".html" != ArtifactName(graph, cluster, ext)
  {
    var a := graph + "_" + cluster + "_" + Replacer(ext) + ".html";
    var b := ArtifactName(graph, cluster, ext);
    assert |a| + 7 == |b|;
  }
}
