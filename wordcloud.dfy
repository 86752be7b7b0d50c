// The data shaping of wordCloudViz.visualization: the word frequencies
// (members per community), the unique-node counts of edge communities, the
// legend text and the name of the HTML file it writes.

module WordCloudChart {
  import opened Wrappers
  import opened Strings
  import opened OrderedDict
  import opened Paths
  import opened CommunityFiles
  import opened CommunityCounts
  import opened Ranking
  import ReadNCall
  import VizCaller

  /** `input_file_extension.split('.')[1]`: the text between the first dot
      and the next; without a dot the index raises. */
  function ExtensionText(ext: string): (r: Result<string>)
    ensures r.Err? <==> '.' !in ext
    ensures r.Ok? ==> '.' !in r.value
  {
    SplitCountHasSeparator(ext, '.');
    var parts := Split(ext, '.');
    if |parts| < 2 then Err else Ok(parts[1])
  }

  /** The extensions readNCall detects give their names without the dot. */
  lemma ExtensionTextOf(w: string)
    requires '.' !in w
    ensures ExtensionText("." + w) == Ok(w)
  {
    SplitField("", '.', w);
    SplitWithoutSeparator(w, '.');
    assert "" + ['.'] + w == "." + w;
  }

  /** The extension readNCall passes for a path it did not recognise is
      empty, and the word cloud then fails. */
  lemma NoExtensionFails()
    ensures ExtensionText("").Err?
  {
  }

  /** The entity word of the legend. */
  function Noun(t: string): (n: string)
    ensures n in {"nodes", "edges"} && (n == "nodes" <==> t == "vcom")
  {
    if t == "vcom" then "nodes" else "edges"
  }

  /** `uniqueNodesInEachCommunity` for an edge-community file: the nested
      loops over each community's edges, adding both endpoints to a set. */
  method UniqueNodesInEachCommunity(c: Communities) returns (r: Result<Dict<int, int>>)
    ensures r == match EndpointCounts(c) case Err => Err case Ok(es) => Ok(PutAll(es))
  {
    var unique: Dict<int, int> := [];
    ghost var es: seq<(int, int)> := [];
    var i := 0;
    while i < |c|
      invariant 0 <= i <= |c|
      invariant EndpointCounts(c[..i]) == Ok(es) && unique == PutAll(es)
    {
      var (id, members) := c[i];
      var nodes := CollectEndpoints(members);
      if nodes.Err? {
        EndpointsSet(members);
        EndpointCountsAt(c);
        return Err;
      }
      assert c[..i + 1][..i] == c[..i];
      ghost var prev := es;
      es := es + [(id, |nodes.value|)];
      assert es[..|es| - 1] == prev;
      unique := Put(unique, id, |nodes.value|);
      i := i + 1;
    }
    assert c[..i] == c;
    r := Ok(unique);
  }

  /** The unique-node counts, for an `ecom` extension only. */
  function UniqueNodes(t: string, c: Communities): Result<Dict<int, int>>
  {
    if t != "ecom" then Ok([])
    else match EndpointCounts(c) case Err => Err case Ok(es) => Ok(PutAll(es))
  }

  /** `coms_to_display = min(10, len(verticesInEachCommunity))` */
  function ComsToDisplay(n: nat): (k: nat)
    ensures k <= 10 && k <= n && (k == n || k == 10)
  {
    if n < 10 then n else 10
  }

  /** The second legend line; its `Top 10` alternative needs more than ten
      communities on display, which `min` rules out. */
  function Heading(layer: string, coms: nat): string
  {
    if coms <= 10 then "All communities in " + layer + " Layer:\n"
    else "Top 10 Communities in " + layer + " Layer:\n"
  }

  lemma HeadingIsAll(layer: string, n: nat)
    ensures Heading(layer, ComsToDisplay(n)) == "All communities in " + layer + " Layer:\n"
  {
  }

  /** `f"{key}: {value} {nodes_OR_edges}"` */
  function VcomEntry(e: (string, int), noun: string): string
  {
    e.0 + ": " + IntToString(e.1) + " " + noun
  }

  function VcomEntries(top: seq<(string, int)>, noun: string): (r: seq<string>)
    ensures |r| == |top| && forall i :: 0 <= i < |top| ==> r[i] == VcomEntry(top[i], noun)
  {
    seq(|top|, i requires 0 <= i < |top| => VcomEntry(top[i], noun))
  }

  /** A legend line names its community first, ends with the noun, and the
      count between them reads back as the community's size. */
  lemma VcomEntryReadsBack(e: (string, int), noun: string)
    ensures var line := VcomEntry(e, noun);
            && StartsWith(line, e.0 + ": ")
            && EndsWith(line, " " + noun)
            && |e.0| + 2 <= |line| - |noun| - 1
            && ParseInt(line[|e.0| + 2..|line| - |noun| - 1]) == Some(e.1)
  {
    var line := VcomEntry(e, noun);
    assert line == (e.0 + ": ") + IntToString(e.1) + (" " + noun);
    assert line[|e.0| + 2..|line| - |noun| - 1] == IntToString(e.1);
    ParseIntToString(e.1);
  }

  /** The vertex-community legend body: the largest communities first, as
      many as are displayed. */
  function VcomLegend(counts: Dict<string, int>, coms: nat, noun: string): string
  {
    Join(VcomEntries(Top(SortDesc(counts), coms), noun), "\n")
  }

  /** The figures of one edge-community legend line. */
  datatype EcomLine = EcomLine(id: int, nodes: int, edges: int)

  /** The line `f"C{key}: {value} nodes, {edges} edges"`, up to the two
      float figures (average degree and density) that follow it. */
  function EcomText(l: EcomLine): string
  {
    "C" + IntToString(l.id) + ": " + IntToString(l.nodes) + " nodes, " + IntToString(l.edges) + " edges"
  }

  /** The key `f"C{key}"` of community `key` in the count dictionaries. */
  function Label(id: int): string
  {
    "C" + IntToString(id)
  }

  /** `edgesInEachCommunity.get(naming(id))`, for any way `naming` of keying
      a community. */
  function EdgeCount<K(==)>(counts: Dict<K, int>, naming: int -> K, id: int): Option<int>
  {
    Get(counts, naming(id))
  }

  /** The lines for the listed `(id, unique nodes)` entries; a community
      without a count makes the arithmetic on `None` raise. */
  function EcomEntries<K(==)>(top: seq<(int, int)>, counts: Dict<K, int>, naming: int -> K): (r: Result<seq<EcomLine>>)
    ensures r.Ok? ==> |r.value| == |top|
    decreases |top|
  {
    if |top| == 0 then Ok([])
    else
      match EcomEntries(top[..|top| - 1], counts, naming)
      case Err => Err
      case Ok(lines) =>
        var last := top[|top| - 1];
        match EdgeCount(counts, naming, last.0)
        case None => Err
        case Some(edges) => Ok(lines + [EcomLine(last.0, last.1, edges)])
  }

  /** The loop that builds `community_legend_text`. */
  method EcomLegendLines<K(==)>(top: seq<(int, int)>, counts: Dict<K, int>, naming: int -> K) returns (r: Result<seq<EcomLine>>)
    ensures r == EcomEntries(top, counts, naming)
  {
    var lines: seq<EcomLine> := [];
    var i := 0;
    while i < |top|
      invariant 0 <= i <= |top|
      invariant EcomEntries(top[..i], counts, naming) == Ok(lines)
    {
      var (id, nodes) := top[i];
      var edges := EdgeCount(counts, naming, id);
      assert top[..i + 1][..i] == top[..i];
      if edges.None? {
        EcomEntriesErrSticks(top, counts, naming, i + 1, |top|);
        assert top[..|top|] == top;
        return Err;
      }
      lines := lines + [EcomLine(id, nodes, edges.value)];
      i := i + 1;
    }
    assert top[..i] == top;
    r := Ok(lines);
  }

  lemma {:induction false} EcomEntriesErrSticks<K>(top: seq<(int, int)>, counts: Dict<K, int>, naming: int -> K, n: nat, m: nat)
    requires n <= m <= |top| && EcomEntries(top[..n], counts, naming).Err?
    ensures EcomEntries(top[..m], counts, naming).Err?
    decreases m - n
  {
    if n < m {
      assert top[..n + 1][..n] == top[..n];
      EcomEntriesErrSticks(top, counts, naming, n + 1, m);
    }
  }

  /** With a count for every listed community, the lines are the listed
      entries in order, each with its community's count. */
  lemma {:induction false} EcomEntriesAll<K>(top: seq<(int, int)>, counts: Dict<K, int>, naming: int -> K)
    requires forall i :: 0 <= i < |top| ==> EdgeCount(counts, naming, top[i].0).Some?
    ensures EcomEntries(top, counts, naming).Ok?
    ensures forall i :: 0 <= i < |top| ==>
              EcomEntries(top, counts, naming).value[i] == EcomLine(top[i].0, top[i].1, EdgeCount(counts, naming, top[i].0).value)
    decreases |top|
  {
    if |top| > 0 {
      var n := |top| - 1;
      var init := top[..n];
      assert forall i :: 0 <= i < n ==> init[i] == top[i];
      EcomEntriesAll(init, counts, naming);
    }
  }

  /** The legend body for the extension text `t`. */
  function LegendBody(t: string, counts: Dict<string, int>, unique: Dict<int, int>, coms: nat): Result<string>
  {
    if t == "vcom" then Ok(VcomLegend(counts, coms, Noun(t)))
    else if t == "ecom" then
      match EcomEntries(Top(SortDesc(unique), coms), counts, Label)
      case Err => Err
      case Ok(lines) => Ok(Join(seq(|lines|, i requires 0 <= i < |lines| => EcomText(lines[i])), "\n"))
    else Ok("")
  }

  /** The whole legend: the community total, the heading and the body. */
  function Legend(layer: string, total: int, coms: nat, body: string): string
  {
    "Total Communities in " + layer + " Layer: " + IntToString(total) + "\n" + Heading(layer, coms) + body
  }

  /** What the word cloud is drawn from and where its page goes. */
  datatype WordCloudView = WordCloudView(frequencies: Dict<string, int>, legend: string, path: string)

  /** The artifact name, from the extension text. */
  function ArtifactFile(cluster: string, t: string): string
  {
    "wordcloud_" + cluster + "_" + t + ".html"
  }

  /** wordCloudViz.visualization(data, ..., input_file_extension, cluster)
      with `endPath` the relative form of `mln_User`. A missing community
      map, layer or community count, an extension without a dot, a vertex
      among edge-community members, and an empty frequency table (which the
      word cloud library refuses) give False. */
  function WordCloud(data: CommunityData, ext: string, endPath: string, cluster: string): Result<WordCloudView>
  {
    match data.communities
    case None => Err
    case Some(c) =>
      match ExtensionText(ext)
      case Err => Err
      case Ok(t) =>
        match UniqueNodes(t, c)
        case Err => Err
        case Ok(unique) =>
          var counts := MemberCounts("C", c);
          if |counts| == 0 || data.layer.None? || data.numCommunities.None? then Err
          else
            var coms := ComsToDisplay(|counts|);
            match LegendBody(t, counts, unique, coms)
            case Err => Err
            case Ok(body) =>
              var legend := Legend(data.layer.value, data.numCommunities.value, coms, body);
              Ok(WordCloudView(counts, legend, VisualizationPath(endPath, ArtifactFile(cluster, t))))
  }

  /** The renderer on the arguments readNCall hands it: `data['Communities']`
      on an edge list and `.split` on a non-string raise. */
  function OnArgs(args: seq<ReadNCall.Arg>): Result<WordCloudView>
    requires |args| == 8 && args[3].Text? && args[7].Text?
  {
    if !args[0].Data? || !args[6].Text? then Err
    else WordCloud(args[0].data, args[6].text, args[3].text, args[7].text)
  }

  // Properties of the word cloud.

  /** The word cloud reads the data, `endPath`, the extension and the
      cluster name from the places readNCall's wrapper puts them. */
  lemma OnCommunityArgs(args: seq<ReadNCall.Arg>, data: CommunityData, endPath: string, ext: string, cluster: string)
    requires |args| == 8 && args[0] == ReadNCall.Data(data) && args[3] == ReadNCall.Text(endPath)
    requires args[6] == ReadNCall.Text(ext) && args[7] == ReadNCall.Text(cluster)
    ensures OnArgs(args) == WordCloud(data, ext, endPath, cluster)
  {
  }

  /** What readNCall hands the word cloud for a community input: the parse
      of the input, the detected extension in place of the input path, and
      the derived cluster name. */
  lemma CalledByReadNCall(fs: VizCaller.FileSystem, path: string, mappingDir: string, mlnUser: string, vizType: string, endPath: string)
    requires var o := ReadNCall.ReadNCallSpec(fs, path, mappingDir, mlnUser, vizType, endPath);
             o.Rendered? && o.renderer == VizCaller.WordCloud && !EndsWith(path, ".net")
    ensures var o := ReadNCall.ReadNCallSpec(fs, path, mappingDir, mlnUser, vizType, endPath);
            var f := if EndsWith(path, ".ecom") then EdgeCommunities else VertexCommunities;
            && path in fs.lines && CommunityFile(f, fs.lines[path]).Ok? && Username(mlnUser).Ok?
            && |o.args| == 8 && o.args[3].Text? && o.args[7].Text?
            && OnArgs(o.args) == WordCloud(CommunityFile(f, fs.lines[path]).value, VizCaller.DetectExtension(path), endPath,
                                           FinalClusterName(BaseName(path), Username(mlnUser).value))
  {
    ReadNCall.CommunityCallArgs(fs, path, mappingDir, mlnUser, vizType, endPath);
    var f := if EndsWith(path, ".ecom") then EdgeCommunities else VertexCommunities;
    var args := ReadNCall.ReadNCallSpec(fs, path, mappingDir, mlnUser, vizType, endPath).args;
    assert args[0] == args[..4][0] && args[2] == args[..4][2] && args[3] == args[..4][3];
    OnCommunityArgs(args,
                    CommunityFile(f, fs.lines[path]).value, endPath, VizCaller.DetectExtension(path),
                    FinalClusterName(BaseName(path), Username(mlnUser).value));
  }

  /** The word frequencies have one entry `'C' + str(id)` per community, in
      the communities' order, weighted by its number of members. */
  lemma Frequencies(data: CommunityData, ext: string, endPath: string, cluster: string)
    requires WordCloud(data, ext, endPath, cluster).Ok?
    requires DistinctKeys(data.communities.value)
    ensures WordCloud(data, ext, endPath, cluster).value.frequencies == KeyedCounts("C", data.communities.value)
  {
    MemberCountsExactly("C", data.communities.value);
  }

  /** The vertex-community legend lists the communities with the most
      members first, among equal sizes in dictionary order, and no more than
      are displayed: every listed count is at least every unlisted one. */
  lemma VcomLegendOrder(counts: Dict<string, int>, n: nat)
    ensures var top := Top(SortDesc(counts), ComsToDisplay(n));
            && VcomLegend(counts, ComsToDisplay(n), "nodes") == Join(VcomEntries(top, "nodes"), "\n")
            && |top| <= 10
            && SortedDesc(top)
            && multiset(top) <= multiset(counts)
            && forall i, j :: 0 <= i < |top| <= j < |counts| ==> top[i].1 >= SortDesc(counts)[j].1
  {
    var k := ComsToDisplay(n);
    var r := SortDesc(counts);
    var top := Top(r, k);
    SortDescSorted(counts);
    SortDescPermutation(counts);
    TopOfSorted(counts, k);
    assert r == top + r[|top|..];
    assert multiset(r) == multiset(top) + multiset(r[|top|..]);
    assert SortedDesc(top) by {
      forall i, j | 0 <= i < j < |top| ensures top[i].1 >= top[j].1 {
        assert top[i] == r[i] && top[j] == r[j];
      }
    }
  }

  /** Every community has its unique-node count, the size of the set of
      its edges' endpoints. */
  lemma UniqueNodeCounts(c: Communities)
    requires DistinctKeys(c)
    requires UniqueNodes("ecom", c).Ok?
    ensures UniqueNodes("ecom", c).value == EndpointCounts(c).value
    ensures |EndpointCounts(c).value| == |c|
    ensures forall i :: 0 <= i < |c| ==>
              && Endpoints(c[i].1).Ok?
              && EndpointCounts(c).value[i] == (c[i].0, |Endpoints(c[i].1).value|)
              && |Endpoints(c[i].1).value| <= 2 * |c[i].1|
  {
    var es := EndpointCounts(c).value;
    EndpointCountsAt(c);
    forall i | 0 <= i < |c| ensures |Endpoints(c[i].1).value| <= 2 * |c[i].1| {
      EndpointsSet(c[i].1);
    }
    assert DistinctKeys(es) by {
      forall i, j | 0 <= i < j < |es| ensures es[i].0 != es[j].0 {
        assert es[i].0 == c[i].0 && es[j].0 == c[j].0;
      }
    }
    PutAllDistinct(es);
  }

  /** The edge-community legend lists the communities with the most unique
      nodes first and no more than are displayed; the edge count on each line
      is the size of that community, looked up under `'C' + str(id)`. */
  lemma EcomLegendCounts(c: Communities, coms: nat)
    requires DistinctKeys(c)
    requires UniqueNodes("ecom", c).Ok?
    ensures var top := Top(SortDesc(UniqueNodes("ecom", c).value), coms);
            && SortedDesc(top)
            && EcomEntries(top, MemberCounts("C", c), Label).Ok?
            && forall i :: 0 <= i < |top| ==>
                 && Get(c, top[i].0).Some?
                 && top[i].1 <= 2 * |Get(c, top[i].0).value|
                 && EcomEntries(top, MemberCounts("C", c), Label).value[i] == EcomLine(top[i].0, top[i].1, |Get(c, top[i].0).value|)
  {
    UniqueNodeCounts(c);
    var es := EndpointCounts(c).value;
    var r := SortDesc(es);
    var top := Top(r, coms);
    SortDescSorted(es);
    SortDescPermutation(es);
    TopOfSorted(es, coms);
    assert SortedDesc(top) by {
      forall i, j | 0 <= i < j < |top| ensures top[i].1 >= top[j].1 {
        assert top[i] == r[i] && top[j] == r[j];
      }
    }
    forall i | 0 <= i < |top|
      ensures Get(c, top[i].0).Some? && top[i].1 <= 2 * |Get(c, top[i].0).value|
      ensures EdgeCount(MemberCounts("C", c), Label, top[i].0) == Some(|Get(c, top[i].0).value|)
    {
      assert top[i] == r[i];
      assert r[i] in multiset(es);
      var k :| 0 <= k < |es| && es[k] == r[i];
      GetAt(c, k);
      GetMemberCounts("C", c, c[k].0);
      assert Label(top[i].0) == "C" + IntToString(top[i].0);
    }
    EcomEntriesAll(top, MemberCounts("C", c), Label);
  }

  /** For the two community extensions the page written is, by name, the
      artifact createViz checks for graph type `wordcloud`. */
  lemma ArtifactMatchesCheck(cluster: string, w: string)
    requires w in {"ecom", "vcom"}
    ensures ExtensionText("." + w) == Ok(w)
    ensures ArtifactFile(cluster, w) == VizCaller.ArtifactName("wordcloud", cluster, "." + w)
  {
    ExtensionTextOf(w);
    if w == "ecom" {
      assert "." + w == ".ecom";
    } else {
      assert "." + w == ".vcom";
    }
  }

  /** The unique-node counts exist unless an edge-community file has a
      vertex member. */
  lemma UniqueNodesOk(t: string, c: Communities)
    ensures UniqueNodes(t, c).Ok? <==>
              (t == "ecom" ==> forall i, j :: 0 <= i < |c| && 0 <= j < |c[i].1| ==> c[i].1[j].Edge?)
  {
    EndpointCountsAt(c);
  }

  /** Every legend body is written once the unique-node counts exist. */
  lemma LegendBodyOk(t: string, c: Communities, coms: nat)
    requires DistinctKeys(c) && UniqueNodes(t, c).Ok?
    ensures LegendBody(t, MemberCounts("C", c), UniqueNodes(t, c).value, coms).Ok?
  {
    if t == "ecom" {
      EcomLegendCounts(c, coms);
    }
  }

  /** The word cloud is drawn exactly when there is a community map with at
      least one community, a layer name and a community count, the extension
      has a dot, and, for edge communities, every member is an edge. */
  lemma WordCloudDrawn(data: CommunityData, ext: string, endPath: string, cluster: string)
    requires data.communities.Some? ==> DistinctKeys(data.communities.value)
    ensures WordCloud(data, ext, endPath, cluster).Ok? <==>
              && data.communities.Some?
              && '.' in ext
              && |data.communities.value| > 0
              && data.layer.Some?
              && data.numCommunities.Some?
              && (ExtensionText(ext).value == "ecom" ==>
                    forall i, j :: 0 <= i < |data.communities.value| && 0 <= j < |data.communities.value[i].1| ==>
                      data.communities.value[i].1[j].Edge?)
  {
    if data.communities.Some? && '.' in ext {
      var c := data.communities.value;
      var t := ExtensionText(ext).value;
      MemberCountsExactly("C", c);
      UniqueNodesOk(t, c);
      if UniqueNodes(t, c).Ok? {
        LegendBodyOk(t, c, ComsToDisplay(|c|));
      }
    }
  }

  /** The page goes to `visualization/wordcloud_{cluster}_{extension}.html`
      under the user's directory. */
  lemma WordCloudPath(data: CommunityData, ext: string, endPath: string, cluster: string)
    requires WordCloud(data, ext, endPath, cluster).Ok?
    ensures ExtensionText(ext).Ok?
    ensures WordCloud(data, ext, endPath, cluster).value.path ==
              VisualizationPath(endPath, ArtifactFile(cluster, ExtensionText(ext).value))
  {
  }
}
