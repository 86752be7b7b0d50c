// readNCall (vizCaller.py): from an input path, a mapping directory, the
// user's directory and a visualization type, to the path of an existing
// artifact, a call of one renderer, nothing, or False.

module ReadNCall {
  import opened Wrappers
  import opened Strings
  import opened Paths
  import opened VizUtils
  import opened CommunityFiles
  import opened CommunityReader
  import opened NetworkFiles
  import Mapper
  import opened VizCaller

  /** A positional argument of a renderer call. The networkx graph built
      beside the community data carries no content here. */
  datatype Arg =
    | Edges(edges: seq<WeightedEdge>)
    | Data(data: CommunityData)
    | MapperArg(mapping: Mapper.Mapping)
    | Text(text: string)
    | Flag(flag: bool)
    | GraphArg

  /** What readNCall returns: False, the path of an artifact it reuses,
      `None` (an input with none of the three extensions), or whatever the
      renderer's `visualization` returns for these arguments. */
  datatype Outcome =
    | Failed
    | Cached(path: string)
    | NothingReturned
    | Rendered(renderer: Renderer, args: seq<Arg>)

  /** The values readNCall binds before it decides anything. */
  datatype Setting = Setting(
    datasetType: string,
    base: string,
    user: string,
    clusterName: string,
    ext: string,
    graph: string,
    mappingPath: string,
    present: bool)

  /** The first part of readNCall; only the user-name lookup can fail. */
  function Prepare(fs: FileSystem, path: string, mappingDir: string, mlnUser: string, vizType: string): (r: Result<Setting>)
    ensures r.Err? <==> Username(mlnUser).Err?
    ensures r.Ok? ==>
              && r.value.base == BaseName(path)
              && r.value.clusterName == FinalClusterName(BaseName(path), Username(mlnUser).value)
              && r.value.ext == DetectExtension(path)
              && r.value.graph == GraphType(vizType)
              && r.value.present == Exists(fs, JoinPath(mappingDir, BaseName(path) + ".map"))
  {
    match Username(mlnUser)
    case Err => Err
    case Ok(user) =>
      var base := BaseName(path);
      var mappingPath := JoinPath(mappingDir, base + ".map");
      Ok(Setting(DetermineDatasetType(path), base, user, FinalClusterName(base, user),
                 DetectExtension(path), GraphType(vizType), mappingPath, Exists(fs, mappingPath)))
  }

  /** The parsed input file, chosen by how the path ends. */
  datatype Input = NetInput(net: NetworkData) | ComInput(com: CommunityData) | NoInput

  /** The parsing branch of readNCall: a file that cannot be opened or does
      not parse raises. */
  function ReadInput(fs: FileSystem, path: string): (r: Result<Input>)
    ensures EndsWith(path, ".net") ==>
              r == if path in fs.lines then (match NetworkFile(fs.lines[path]) case Ok(d) => Ok(NetInput(d)) case Err => Err) else Err
    ensures !EndsWith(path, ".net") && EndsWith(path, ".ecom") ==>
              r == if path in fs.lines then (match CommunityFile(EdgeCommunities, fs.lines[path]) case Ok(d) => Ok(ComInput(d)) case Err => Err) else Err
    ensures HasInputExtension(path) && !EndsWith(path, ".net") && !EndsWith(path, ".ecom") ==>
              r == if path in fs.lines then (match CommunityFile(VertexCommunities, fs.lines[path]) case Ok(d) => Ok(ComInput(d)) case Err => Err) else Err
    ensures !HasInputExtension(path) ==> r == Ok(NoInput)
  {
    if !HasInputExtension(path) then Ok(NoInput)
    else if path !in fs.lines then Err
    else if EndsWith(path, ".net") then
      match NetworkFile(fs.lines[path])
      case Ok(d) => Ok(NetInput(d))
      case Err => Err
    else
      var f := if EndsWith(path, ".ecom") then EdgeCommunities else VertexCommunities;
      match CommunityFile(f, fs.lines[path])
      case Ok(d) => Ok(ComInput(d))
      case Err => Err
  }

  /** create_mapper on the mapping file, when there is one. */
  function LoadMapper(fs: FileSystem, s: Setting): (r: Result<Mapper.Mapping>)
    ensures !s.present ==> r == Ok([])
    ensures s.present ==> r == if s.mappingPath in fs.rows then Mapper.MapperOf(fs.rows[s.mappingPath], true) else Err
  {
    if !s.present then Ok([])
    else if s.mappingPath !in fs.rows then Err
    else Mapper.MapperOf(fs.rows[s.mappingPath], true)
  }

  /** The eight arguments readNCall passes to the function it looked up. */
  function CallArgs(input: Input, mapping: Mapper.Mapping, s: Setting, path: string, mlnUser: string, endPath: string): seq<Arg>
    requires !input.NoInput?
  {
    match input
    case NetInput(d) =>
      [Edges(d.edges), MapperArg(mapping), Text(mlnUser), Text(endPath), Text(d.noEdges), Text(d.noVertices), Flag(s.present), Text(d.clusterName)]
    case ComInput(d) =>
      [Data(d), MapperArg(mapping), Text(mlnUser), Text(endPath), Flag(s.present), GraphArg, Text(path), Text(s.clusterName)]
  }

  /** What a wrapper of vizDictionary hands on: the bokeh wrappers put the
      dataset type in seventh place, the community-network wrapper in fifth,
      and the word-cloud wrapper puts the detected extension where the
      input path was. */
  function WrapperArgs(r: Renderer, args: seq<Arg>, datasetType: string, ext: string): (res: seq<Arg>)
    requires |args| == 8
    ensures |res| == 8
    ensures r in {Bokeh, BokehDc} ==> res == args[6 := Text(datasetType)]
    ensures r == CommunityNetwork ==> res == args[4 := Text(datasetType)]
    ensures r == WordCloud ==> res == args[6 := Text(ext)]
    ensures r in {Plotly, Pyvis, MapRenderer, BubbleChart, BarChart} ==> res == args
  {
    match r
    case Bokeh | BokehDc => args[6 := Text(datasetType)]
    case CommunityNetwork => args[4 := Text(datasetType)]
    case WordCloud => args[6 := Text(ext)]
    case _ => args
  }

  /** The branch taken when createViz says to build the artifact. */
  function Create(fs: FileSystem, s: Setting, path: string, mlnUser: string, vizType: string, endPath: string): Outcome
  {
    match ReadInput(fs, path)
    case Err => Failed
    case Ok(input) =>
      match LoadMapper(fs, s)
      case Err => Failed
      case Ok(mapping) =>
        match Dispatch(vizType)
        case None => Failed
        case Some(r) =>
          if input.NoInput? then NothingReturned
          else Rendered(r, WrapperArgs(r, CallArgs(input, mapping, s, path, mlnUser, endPath), s.datasetType, s.ext))
  }

  /** readNCall(path, mappingDir, mlnUser, vizType), with `endPath` the
      relative form of `mlnUser` and every exception turned into False. */
  function ReadNCallSpec(fs: FileSystem, path: string, mappingDir: string, mlnUser: string, vizType: string, endPath: string): Outcome
  {
    match Prepare(fs, path, mappingDir, mlnUser, vizType)
    case Err => Failed
    case Ok(s) =>
      match CreateViz(fs, mlnUser, s.clusterName, s.graph, s.ext, path)
      case Err => Failed
      case Ok(true) => Create(fs, s, path, mlnUser, vizType, endPath)
      case Ok(false) => Cached(CachedPath(mlnUser, s.graph, s.clusterName, s.ext))
  }

  /** The parsing branch, reading the file the way the source does. */
  method ReadInputFile(fs: FileSystem, path: string) returns (r: Result<Input>)
    ensures r == ReadInput(fs, path)
  {
    if !HasInputExtension(path) {
      return Ok(NoInput);
    }
    if path !in fs.lines {
      return Err;
    }
    if EndsWith(path, ".net") {
      var net := ReadNetworkFile(fs.lines[path]);
      if net.Err? {
        return Err;
      }
      return Ok(NetInput(net.value));
    }
    var f := if EndsWith(path, ".ecom") then EdgeCommunities else VertexCommunities;
    var com := ReadCommunityFile(f, fs.lines[path]);
    if com.Err? {
      return Err;
    }
    return Ok(ComInput(com.value));
  }

  /** create_mapper, run on the mapping file when there is one. */
  method ReadMapper(fs: FileSystem, s: Setting) returns (r: Result<Mapper.Mapping>)
    ensures r == LoadMapper(fs, s)
  {
    if s.present && s.mappingPath !in fs.rows {
      return Err;
    }
    var rows := if s.present then fs.rows[s.mappingPath] else [];
    r := Mapper.CreateMapper(rows, s.present);
  }

  /** readNCall itself, running the three readers in the source's order. */
  method Run(fs: FileSystem, path: string, mappingDir: string, mlnUser: string, vizType: string, endPath: string) returns (r: Outcome)
    ensures r == ReadNCallSpec(fs, path, mappingDir, mlnUser, vizType, endPath)
  {
    var prepared := Prepare(fs, path, mappingDir, mlnUser, vizType);
    if prepared.Err? {
      return Failed;
    }
    var s := prepared.value;
    var create := CreateViz(fs, mlnUser, s.clusterName, s.graph, s.ext, path);
    if create.Err? {
      return Failed;
    }
    if !create.value {
      return Cached(CachedPath(mlnUser, s.graph, s.clusterName, s.ext));
    }
    var input := ReadInputFile(fs, path);
    if input.Err? {
      return Failed;
    }
    var mapping := ReadMapper(fs, s);
    if mapping.Err? {
      return Failed;
    }
    var renderer := Dispatch(vizType);
    if renderer.None? {
      return Failed;
    }
    if input.value.NoInput? {
      return NothingReturned;
    }
    r := Rendered(renderer.value, WrapperArgs(renderer.value, CallArgs(input.value, mapping.value, s, path, mlnUser, endPath), s.datasetType, s.ext));
  }

  // Properties of readNCall.

  /** Without a user name in `mln_User` readNCall returns False, whatever
      the input. */
  lemma NoUserFails(fs: FileSystem, path: string, mappingDir: string, mlnUser: string, vizType: string, endPath: string)
    requires Username(mlnUser).Err?
    ensures ReadNCallSpec(fs, path, mappingDir, mlnUser, vizType, endPath) == Failed
  {
  }

  /** The artifact createViz checks for this input. */
  function CheckedArtifact(path: string, mlnUser: string, vizType: string): string
    requires Username(mlnUser).Ok?
  {
    CheckedPath(mlnUser, GraphType(vizType), FinalClusterName(BaseName(path), Username(mlnUser).value), DetectExtension(path))
  }

  /** An existing artifact no older than the input is reused: for the three
      input kinds its own path comes back; for a path whose extension was not
      detected, the returned path is a different file. */
  lemma FreshArtifactReused(fs: FileSystem, path: string, mappingDir: string, mlnUser: string, vizType: string, endPath: string)
    requires Username(mlnUser).Ok?
    requires Exists(fs, CheckedArtifact(path, mlnUser, vizType)) && Exists(fs, path)
    requires fs.mtime[path] <= fs.mtime[CheckedArtifact(path, mlnUser, vizType)]
    ensures ReadNCallSpec(fs, path, mappingDir, mlnUser, vizType, endPath).Cached?
    ensures DetectExtension(path) != "" ==>
              ReadNCallSpec(fs, path, mappingDir, mlnUser, vizType, endPath) == Cached(CheckedArtifact(path, mlnUser, vizType))
    ensures DetectExtension(path) == "" ==>
              ReadNCallSpec(fs, path, mappingDir, mlnUser, vizType, endPath).path != CheckedArtifact(path, mlnUser, vizType)
  {
    var g, c, e := GraphType(vizType), FinalClusterName(BaseName(path), Username(mlnUser).value), DetectExtension(path);
    ReuseOutcome(fs, path, mappingDir, mlnUser, vizType, endPath);
    CachedPathIsChecked(mlnUser, g, c, e);
    if e == "" {
      CachedPathMissesOther(g, c, e);
      GraphTypeNotRooted(g, c, e);
      VisualizationPathInjective(mlnUser, g + "_" + c + "_" + Replacer(e) + ".html", ArtifactName(g, c, e));
    }
  }

  lemma ReuseOutcome(fs: FileSystem, path: string, mappingDir: string, mlnUser: string, vizType: string, endPath: string)
    requires Username(mlnUser).Ok?
    requires Exists(fs, CheckedArtifact(path, mlnUser, vizType)) && Exists(fs, path)
    requires fs.mtime[path] <= fs.mtime[CheckedArtifact(path, mlnUser, vizType)]
    ensures ReadNCallSpec(fs, path, mappingDir, mlnUser, vizType, endPath) ==
            Cached(CachedPath(mlnUser, GraphType(vizType), FinalClusterName(BaseName(path), Username(mlnUser).value), DetectExtension(path)))
  {
  }

  /** No graph type starts with `/`, so artifact names stay relative. */
  lemma GraphTypeNotRooted(graph: string, cluster: string, ext: string)
    requires |graph| > 0 && graph[0] != '/'
    ensures !StartsWith(graph + "_" + cluster + "_" + Replacer(ext) + ".html", "/")
    ensures !StartsWith(ArtifactName(graph, cluster, ext), "/")
  {
    assert (graph + "_" + cluster + "_" + Replacer(ext) + ".html")[0] == graph[0];
    assert ArtifactName(graph, cluster, ext)[0] == graph[0];
  }

  /** Two different relative names are two different files. */
  lemma VisualizationPathInjective(root: string, a: string, b: string)
    requires !StartsWith(a, "/") && !StartsWith(b, "/") && a != b
    ensures VisualizationPath(root, a) != VisualizationPath(root, b)
  {
    var dir := JoinPath(root, "visualization");
    var pre := if dir == "" || EndsWith(dir, "/") then dir else dir + "/";
    assert VisualizationPath(root, a) == pre + a;
    assert VisualizationPath(root, b) == pre + b;
    assert (pre + a)[|pre|..] == a;
    assert (pre + b)[|pre|..] == b;
  }

  /** Once the renderer has written the checked artifact, no earlier than the
      input's last change, the next call with the same arguments reuses it. */
  lemma SecondCallReuses(fs: FileSystem, path: string, mappingDir: string, mlnUser: string, vizType: string, endPath: string, t: int)
    requires Username(mlnUser).Ok? && DetectExtension(path) != ""
    requires Exists(fs, path) && path != CheckedArtifact(path, mlnUser, vizType) && t >= fs.mtime[path]
    ensures ReadNCallSpec(Write(fs, CheckedArtifact(path, mlnUser, vizType), t), path, mappingDir, mlnUser, vizType, endPath)
            == Cached(CheckedArtifact(path, mlnUser, vizType))
  {
    var a := CheckedArtifact(path, mlnUser, vizType);
    var written := Write(fs, a, t);
    WrittenIsFresh(fs, a, path, t);
    FreshArtifactReused(written, path, mappingDir, mlnUser, vizType, endPath);
  }

  /** After the write the artifact exists and is no older than the input. */
  lemma WrittenIsFresh(fs: FileSystem, a: string, path: string, t: int)
    requires Exists(fs, path) && path != a && t >= fs.mtime[path]
    ensures var w := Write(fs, a, t); Exists(w, a) && Exists(w, path) && w.mtime[path] <= w.mtime[a]
  {
  }

  /** A missing artifact, or an input changed after it, means the input is
      parsed; an input that cannot be opened or parsed gives False. */
  lemma UnreadableInputFails(fs: FileSystem, path: string, mappingDir: string, mlnUser: string, vizType: string, endPath: string)
    requires Username(mlnUser).Ok?
    requires !Exists(fs, CheckedArtifact(path, mlnUser, vizType)) ||
             (Exists(fs, path) && fs.mtime[path] > fs.mtime[CheckedArtifact(path, mlnUser, vizType)])
    requires HasInputExtension(path)
    requires || path !in fs.lines
             || (EndsWith(path, ".net") && NetworkFile(fs.lines[path]).Err?)
             || (!EndsWith(path, ".net") && EndsWith(path, ".ecom") && CommunityFile(EdgeCommunities, fs.lines[path]).Err?)
             || (!EndsWith(path, ".net") && !EndsWith(path, ".ecom") && CommunityFile(VertexCommunities, fs.lines[path]).Err?)
    ensures ReadNCallSpec(fs, path, mappingDir, mlnUser, vizType, endPath) == Failed
  {
  }

  /** Only a renderer named by the lower-cased type is ever called, and
      only on an input with one of the three extensions; an unknown type can
      still reuse an artifact of graph type `unknown`. */
  lemma RendererIsLookedUp(fs: FileSystem, path: string, mappingDir: string, mlnUser: string, vizType: string, endPath: string)
    ensures ReadNCallSpec(fs, path, mappingDir, mlnUser, vizType, endPath).Rendered? ==>
              && HasInputExtension(path)
              && Dispatch(vizType).Some?
              && ReadNCallSpec(fs, path, mappingDir, mlnUser, vizType, endPath).renderer == Dispatch(vizType).value
              && VizTypeName(ReadNCallSpec(fs, path, mappingDir, mlnUser, vizType, endPath).renderer) == LowerAscii(vizType)
    ensures ReadNCallSpec(fs, path, mappingDir, mlnUser, vizType, endPath).NothingReturned? ==>
              !HasInputExtension(path) && Dispatch(vizType).Some?
    ensures Dispatch(vizType).None? ==>
              ReadNCallSpec(fs, path, mappingDir, mlnUser, vizType, endPath).Failed? ||
              ReadNCallSpec(fs, path, mappingDir, mlnUser, vizType, endPath).Cached?
  {
    var o := ReadNCallSpec(fs, path, mappingDir, mlnUser, vizType, endPath);
    if !o.Failed? && !o.Cached? {
      var s := SpecCreates(fs, path, mappingDir, mlnUser, vizType, endPath);
      CreateLooksUp(fs, s, path, mlnUser, vizType, endPath);
    }
  }

  /** Outside False and reuse, readNCall's result is that of its create
      branch. */
  lemma SpecCreates(fs: FileSystem, path: string, mappingDir: string, mlnUser: string, vizType: string, endPath: string) returns (s: Setting)
    requires !ReadNCallSpec(fs, path, mappingDir, mlnUser, vizType, endPath).Failed?
    requires !ReadNCallSpec(fs, path, mappingDir, mlnUser, vizType, endPath).Cached?
    ensures Prepare(fs, path, mappingDir, mlnUser, vizType) == Ok(s)
    ensures ReadNCallSpec(fs, path, mappingDir, mlnUser, vizType, endPath) == Create(fs, s, path, mlnUser, vizType, endPath)
  {
    s := Prepare(fs, path, mappingDir, mlnUser, vizType).value;
  }

  lemma CreateLooksUp(fs: FileSystem, s: Setting, path: string, mlnUser: string, vizType: string, endPath: string)
    ensures Create(fs, s, path, mlnUser, vizType, endPath).Rendered? ==>
              && HasInputExtension(path)
              && Dispatch(vizType) == Some(Create(fs, s, path, mlnUser, vizType, endPath).renderer)
              && VizTypeName(Create(fs, s, path, mlnUser, vizType, endPath).renderer) == LowerAscii(vizType)
    ensures Create(fs, s, path, mlnUser, vizType, endPath).NothingReturned? ==>
              !HasInputExtension(path) && Dispatch(vizType).Some?
    ensures Dispatch(vizType).None? ==> Create(fs, s, path, mlnUser, vizType, endPath).Failed?
  {
    if ReadInput(fs, path).Ok? && ReadInput(fs, path).value.NoInput? {
      assert !HasInputExtension(path);
    }
  }

  /** The arguments a `.net` input is rendered with: its edges in file
      order, the mapping, the user directory and its relative form, the
      edge and vertex counts as text, whether a mapping file exists, and the
      cluster name from the file's own first line. The wrappers replace the
      edge count (community network) or the mapping flag (bokeh: the dataset
      type; word cloud: the detected extension). */
  lemma NetworkCallArgs(fs: FileSystem, path: string, mappingDir: string, mlnUser: string, vizType: string, endPath: string)
    requires ReadNCallSpec(fs, path, mappingDir, mlnUser, vizType, endPath).Rendered?
    requires EndsWith(path, ".net")
    ensures path in fs.lines && NetworkFile(fs.lines[path]).Ok?
    ensures var o := ReadNCallSpec(fs, path, mappingDir, mlnUser, vizType, endPath);
            var d := NetworkFile(fs.lines[path]).value;
            var s := Prepare(fs, path, mappingDir, mlnUser, vizType).value;
            && Prepare(fs, path, mappingDir, mlnUser, vizType).Ok?
            && LoadMapper(fs, s).Ok?
            && |o.args| == 8
            && o.args[..4] == [Edges(d.edges), MapperArg(LoadMapper(fs, s).value), Text(mlnUser), Text(endPath)]
            && o.args[4] == (if o.renderer == CommunityNetwork then Text(DetermineDatasetType(path)) else Text(d.noEdges))
            && o.args[5] == Text(d.noVertices)
            && o.args[6] == (if o.renderer in {Bokeh, BokehDc} then Text(DetermineDatasetType(path))
                             else if o.renderer == WordCloud then Text(DetectExtension(path))
                             else Flag(s.present))
            && o.args[7] == Text(Strip(fs.lines[path][0]))
  {
    NetworkCallShape(fs, path, mappingDir, mlnUser, vizType, endPath);
    var o := ReadNCallSpec(fs, path, mappingDir, mlnUser, vizType, endPath);
    var s := Prepare(fs, path, mappingDir, mlnUser, vizType).value;
    NetArgs(o.renderer, NetworkFile(fs.lines[path]).value, LoadMapper(fs, s).value, s, path, mlnUser, endPath);
  }

  lemma NetArgs(r: Renderer, d: NetworkData, m: Mapper.Mapping, s: Setting, path: string, mlnUser: string, endPath: string)
    ensures var a := WrapperArgs(r, CallArgs(NetInput(d), m, s, path, mlnUser, endPath), s.datasetType, s.ext);
            && a[..4] == [Edges(d.edges), MapperArg(m), Text(mlnUser), Text(endPath)]
            && a[4] == (if r == CommunityNetwork then Text(s.datasetType) else Text(d.noEdges))
            && a[5] == Text(d.noVertices)
            && a[6] == (if r in {Bokeh, BokehDc} then Text(s.datasetType) else if r == WordCloud then Text(s.ext) else Flag(s.present))
            && a[7] == Text(d.clusterName)
  {
    var c := CallArgs(NetInput(d), m, s, path, mlnUser, endPath);
    var a := WrapperArgs(r, c, s.datasetType, s.ext);
    assert a[..4] == c[..4];
  }

  lemma NetworkCallShape(fs: FileSystem, path: string, mappingDir: string, mlnUser: string, vizType: string, endPath: string)
    requires ReadNCallSpec(fs, path, mappingDir, mlnUser, vizType, endPath).Rendered?
    requires EndsWith(path, ".net")
    ensures path in fs.lines && NetworkFile(fs.lines[path]).Ok?
    ensures Prepare(fs, path, mappingDir, mlnUser, vizType).Ok?
    ensures var s := Prepare(fs, path, mappingDir, mlnUser, vizType).value;
            var o := ReadNCallSpec(fs, path, mappingDir, mlnUser, vizType, endPath);
            && LoadMapper(fs, s).Ok?
            && o.args == WrapperArgs(o.renderer, CallArgs(NetInput(NetworkFile(fs.lines[path]).value), LoadMapper(fs, s).value, s, path, mlnUser, endPath), s.datasetType, s.ext)
  {
    var s := SpecCreates(fs, path, mappingDir, mlnUser, vizType, endPath);
    assert ReadInput(fs, path) == Ok(NetInput(NetworkFile(fs.lines[path]).value));
  }

  /** The arguments an `.ecom` or `.vcom` input is rendered with: the parsed
      data, the mapping, the user directory and its relative form, whether a
      mapping file exists, the graph, the input path and the derived cluster
      name. The wrappers replace the mapping flag (community network: the
      dataset type) or the input path (bokeh: the dataset type; word cloud:
      the detected extension). */
  lemma CommunityCallArgs(fs: FileSystem, path: string, mappingDir: string, mlnUser: string, vizType: string, endPath: string)
    requires ReadNCallSpec(fs, path, mappingDir, mlnUser, vizType, endPath).Rendered?
    requires !EndsWith(path, ".net")
    ensures var f := if EndsWith(path, ".ecom") then EdgeCommunities else VertexCommunities;
            path in fs.lines && CommunityFile(f, fs.lines[path]).Ok?
    ensures Username(mlnUser).Ok?
    ensures var f := if EndsWith(path, ".ecom") then EdgeCommunities else VertexCommunities;
            var o := ReadNCallSpec(fs, path, mappingDir, mlnUser, vizType, endPath);
            var s := Prepare(fs, path, mappingDir, mlnUser, vizType).value;
            && LoadMapper(fs, s).Ok?
            && |o.args| == 8
            && o.args[..4] == [Data(CommunityFile(f, fs.lines[path]).value), MapperArg(LoadMapper(fs, s).value), Text(mlnUser), Text(endPath)]
            && o.args[4] == (if o.renderer == CommunityNetwork then Text(DetermineDatasetType(path)) else Flag(s.present))
            && o.args[5] == GraphArg
            && o.args[6] == (if o.renderer in {Bokeh, BokehDc} then Text(DetermineDatasetType(path))
                             else if o.renderer == WordCloud then Text(DetectExtension(path))
                             else Text(path))
            && o.args[7] == Text(FinalClusterName(BaseName(path), Username(mlnUser).value))
  {
    CommunityCallShape(fs, path, mappingDir, mlnUser, vizType, endPath);
    var f := if EndsWith(path, ".ecom") then EdgeCommunities else VertexCommunities;
    var o := ReadNCallSpec(fs, path, mappingDir, mlnUser, vizType, endPath);
    var s := Prepare(fs, path, mappingDir, mlnUser, vizType).value;
    ComArgs(o.renderer, CommunityFile(f, fs.lines[path]).value, LoadMapper(fs, s).value, s, path, mlnUser, endPath);
  }

  lemma ComArgs(r: Renderer, d: CommunityData, m: Mapper.Mapping, s: Setting, path: string, mlnUser: string, endPath: string)
    ensures var a := WrapperArgs(r, CallArgs(ComInput(d), m, s, path, mlnUser, endPath), s.datasetType, s.ext);
            && a[..4] == [Data(d), MapperArg(m), Text(mlnUser), Text(endPath)]
            && a[4] == (if r == CommunityNetwork then Text(s.datasetType) else Flag(s.present))
            && a[5] == GraphArg
            && a[6] == (if r in {Bokeh, BokehDc} then Text(s.datasetType) else if r == WordCloud then Text(s.ext) else Text(path))
            && a[7] == Text(s.clusterName)
  {
    var c := CallArgs(ComInput(d), m, s, path, mlnUser, endPath);
    var a := WrapperArgs(r, c, s.datasetType, s.ext);
    assert a[..4] == c[..4];
  }

  lemma CommunityCallShape(fs: FileSystem, path: string, mappingDir: string, mlnUser: string, vizType: string, endPath: string)
    requires ReadNCallSpec(fs, path, mappingDir, mlnUser, vizType, endPath).Rendered?
    requires !EndsWith(path, ".net")
    ensures var f := if EndsWith(path, ".ecom") then EdgeCommunities else VertexCommunities;
            path in fs.lines && CommunityFile(f, fs.lines[path]).Ok?
    ensures Prepare(fs, path, mappingDir, mlnUser, vizType).Ok?
    ensures var f := if EndsWith(path, ".ecom") then EdgeCommunities else VertexCommunities;
            var s := Prepare(fs, path, mappingDir, mlnUser, vizType).value;
            var o := ReadNCallSpec(fs, path, mappingDir, mlnUser, vizType, endPath);
            && LoadMapper(fs, s).Ok?
            && o.args == WrapperArgs(o.renderer, CallArgs(ComInput(CommunityFile(f, fs.lines[path]).value), LoadMapper(fs, s).value, s, path, mlnUser, endPath), s.datasetType, s.ext)
  {
    var s := SpecCreates(fs, path, mappingDir, mlnUser, vizType, endPath);
    var f := if EndsWith(path, ".ecom") then EdgeCommunities else VertexCommunities;
    assert ReadInput(fs, path) == Ok(ComInput(CommunityFile(f, fs.lines[path]).value));
  }
}
