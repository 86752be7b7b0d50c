# Multilayer network dashboard: the visualization caller, in Dafny

This project models the server-side core of a dashboard for multilayer network
analysis results. Given an input file, a mapping directory, the user's
directory and a visualization type, `readNCall` does the following:

- It classifies the dataset by keywords in the path.
- It derives the user name and the cluster name.
- It asks `createViz` whether the artifact
  `visualization/{graphType}_{cluster}_{suffix}.html` must be regenerated. The
  decision depends on whether the artifact exists and on the modification
  times.
- If the artifact can be reused, it returns that artifact's path.
- Otherwise it parses the input:
  - a `.net` edge list;
  - a `.ecom` edge-community file;
  - a `.vcom` vertex-community file.
- It builds the node mapper with `create_mapper`.
- It calls the renderer that `vizDictionary` names for the type, and returns
  what that renderer returns.
- Any exception along the way makes it return `False`.

Three of the renderers reshape the community data before they draw it:

- the word cloud (`wordCloudViz.py`);
- the bar chart (`barChartViz.py`);
- the bubble chart (`bubbleChartViz.py`).

`vizUTILS.py` holds the dataset classifier and the search-link builder.

## Modules

| module | file | what it holds |
|---|---|---|
| `Wrappers`, `Strings` | `strings.dfy` | `Option`/`Result`, and the Python string operations used: `split`, `strip`, `replace`, `startswith`, `int()`, `str(int)`, and the ASCII decimal text `float()` accepts |
| `OrderedDict` | `odict.dfy` | insertion-ordered dictionaries as entry sequences: `get`, `d[k] = v`, and grouping records by key |
| `Ranking` | `ranking.dfy` | the stable descending `sorted(..., key=value, reverse=True)` and the `[:k]` truncation |
| `Paths` | `paths.dfy` | `basename`, `splitext`, `join`, the user-name search and the cluster-name strip |
| `VizCaller` | `vizcaller.dfy` | `createViz`, the two visualization-type tables, extension detection and the cache-hit path |
| `Mapper` | `mapper.dfy` | `create_mapper` over already tokenized CSV rows |
| `NetworkFiles` | `network.dfy` | the `.net` parser |
| `CommunityFiles` | `communities.dfy` | the `.ecom`/`.vcom` parser as functions, and its properties |
| `CommunityReader` | `community_reader.dfy` | the parser's loops as methods, proved against `CommunityFiles` |
| `CommunityExample` | `community_example.dfy` | the worked `.vcom` example written beside the parser in the source |
| `VizUtils` | `vizutils.dfy` | `determine_dataset_type`, `quote_plus`, `create_url` |
| `ReadNCall` | `readncall.dfy` | `readNCall` and the `vizDictionary` wrappers |
| `CommunityCounts` | `counts.dfy` | the per-community member counts and unique-endpoint counts the charts share |
| `WordCloudChart`, `BarChart`, `BubbleChart` | `wordcloud.dfy`, `barchart.dfy`, `bubblechart.dfy` | the data shaping and file names of the three charts |

The file system is a value:

- the modification time of every existing path;
- the lines of each text file readNCall opens;
- the CSV rows of each mapping file.

Each Python exception that `readNCall` catches becomes an `Err`, and
`ReadNCallSpec` turns it into `Failed`. For example:

- a missing file;
- `int()` of a non-number;
- an unpacking with the wrong number of fields;
- a missing dictionary key;
- indexing an `int`;
- an unbound `username`.

`endPath`, the relative form of `mln_User` that `os.path.relpath` computes
against the working directory, is a parameter.

## Model

| member | source | states |
|---|---|---|
| VizCaller.Suffix | vizCaller.py:37-42 | the suffix is `ecom` exactly for `.ecom`, `vcom` exactly for `.vcom`, and `Network` for every other extension, the empty one included |
| VizCaller.ArtifactNameSuffix | vizCaller.py:37-46 | for one graph type and cluster, two inputs share the checked artifact exactly when their extensions give the same suffix. Every extension other than `.ecom` and `.vcom` (`.net` and the empty one included) shares the `Network` artifact |
| VizCaller.CreateViz | vizCaller.py:44-61 | a missing artifact means regenerate. For an existing one, the call raises if the input has no modification time. Otherwise it regenerates exactly when the input is strictly newer than the artifact |
| VizCaller.WrittenArtifactReused | vizCaller.py:49-61 | after the artifact is written no earlier than the input's last change, createViz says reuse; equal times count as fresh |
| VizCaller.TouchedInputRegenerates | vizCaller.py:54-61 | touching the input after the artifact was written forces a regeneration |
| VizCaller.RendererOf | vizCaller.py:146-156 | a found renderer is the one whose key was looked up |
| VizCaller.RendererOfName | vizCaller.py:146-156 | each of the nine renderers is reached by its own key and by no other key |
| VizCaller.DispatchOwnKey | vizCaller.py:146-156 | every vizDictionary key is written in lower case, so `vizDictionary[vizType.lower()]` reaches each renderer through its own key. A type reaches a renderer exactly when its lower case is that renderer's key |
| VizCaller.GraphType | vizCaller.py:209-220 | the graph type is never empty and never starts with `/`, so artifact names are relative |
| VizCaller.GraphTypeAgrees | vizCaller.py:209-220 | the graph-type table and vizDictionary have the same keys. A type has a graph type other than `unknown` exactly when it names a renderer, and the graph type is that renderer's |
| VizCaller.GraphOfName | vizCaller.py:209-220 | each renderer's key maps to its graph type |
| VizCaller.BokehFamilyShares | vizCaller.py:211-213 | `bokeh_visualization`, `bokeh_dc_visualization` and `community_network_visualization` all map to `bokeh`, and they are the only keys that do. On one input the three therefore check one and the same artifact path |
| VizCaller.MixedCaseTypeIsUnknown | vizCaller.py:220 | the graph-type lookup does not lower-case the type but the renderer lookup at line 309 does. `Bokeh_Visualization` therefore reaches the bokeh renderer while checking an artifact of graph type `unknown` |
| VizCaller.InputWord | vizCaller.py:206 | for a path ending in one of the three input extensions, which one it is |
| VizCaller.InputWordOf | vizCaller.py:206 | no path ends in two of the input extensions |
| VizCaller.DetectExtension | vizCaller.py:206 | the detected extension is empty or one of `.ecom`, `.net`, `.vcom`, and a detected one ends the path. A path without one of the three endings gives `""` |
| VizCaller.DetectExtensionOf | vizCaller.py:206 | a path ending in `.w` has the extension `.w`, except a file name made only of dots and that ending, which `splitext` treats as having no extension |
| VizCaller.CachedPathIsChecked | vizCaller.py:316-327 | for `.ecom`, `.net` and `.vcom` the returned path is the path createViz checked. For any other extension the checked name ends in `_Network.html` but the returned one is `{graph}_{cluster}_.html` |
| VizCaller.CachedPathMissesOther | vizCaller.py:318-325 | for an undetected extension the returned name differs from the checked one |
| Paths.Basename | vizCaller.py:191 | `os.path.basename` is the longest suffix of the path without `/`: either the whole path or everything after its last `/` |
| Paths.Splitext | vizCaller.py:206 | `os.path.splitext` splits the path into root and extension, and the extension is empty or starts with `.` |
| Paths.SplitextOfSuffix | vizCaller.py:206 | how `splitext` treats a path ending in a dotted word, including the leading-dots rule |
| Paths.BaseName | vizCaller.py:191 | the base name `basename(p).split('.')[0]` is the file name up to its first dot (all of it when it has none), and so contains neither `.` nor `/` |
| Paths.SplitextBaseName | bubbleChartViz.py:14 | the bubble chart's `splitext(basename(p))[0].split('.')[0]` is readNCall's base name |
| Paths.Username | vizCaller.py:196-203 | the last `/`-field of `mln_User` is the user name when it is neither empty nor hidden. Otherwise the second-to-last field is, under the same test. The lookup fails exactly when neither qualifies |
| Paths.UsernameOfUserDir | vizCaller.py:196-203 | the user's directory, with or without a trailing `/`, and a hidden directory inside it all give that user |
| Paths.NoUserInHiddenDirs | vizCaller.py:196-203 | a directory whose last two fields are empty or hidden gives no user name |
| Paths.FinalClusterNameStripsUser | vizCaller.py:223-225 | a base name `{user}_{rest}` in which `rest` holds no further `{user}_` gives cluster name `rest` |
| Paths.FinalClusterNameUnchanged | vizCaller.py:223-225 | a base name without `{user}_` is its own cluster name |
| Mapper.RowEntry | vizCaller.py:95-104 | an empty row raises, and an entry's key is the stripped first field. A 2-field row is always stored, with its stripped label. A 3-field row is stored with its stripped (lon, lat) texts exactly when both are float text, and raises otherwise. A longer row whose second field holds a comma is stored with that field's second and third comma parts exactly when it splits into three parts and both are float text, and raises otherwise. Rows of other shapes are ignored |
| Mapper.ReadRow | vizCaller.py:95-104 | one loop iteration reads the row's entry |
| Mapper.CreateMapper | vizCaller.py:88-105 | the row loop computes the mapping defined by the fold over the rows after the header. It is empty when no file is present |
| Mapper.MapFoldStep | vizCaller.py:94-104 | one row raises, is ignored, or stores its entry under its id, overwriting |
| Mapper.MapperGet | vizCaller.py:88-105 | the value stored for an id is that of the last row for it |
| Mapper.MapperAbsent | vizCaller.py:90 | without a mapping file the mapper is empty |
| Mapper.HeaderIgnored | vizCaller.py:93 | whatever the first row holds, it is never read |
| NetworkFiles.SliceStart | vizCaller.py:247 | where `lines[x:]` starts, for every `x` including negative and out-of-range ones |
| NetworkFiles.ParseEdge | vizCaller.py:248-249 | an edge line parses exactly when its stripped text splits into three fields and the third is float text. The fields rejoin to the stripped line |
| NetworkFiles.ReadNetworkFile | vizCaller.py:238-249 | the `.net` loop computes the file's parse |
| NetworkFiles.EdgesOfAt | vizCaller.py:247-249 | the edges are the parsed lines from the start line on, one each, in file order |
| NetworkFiles.BadEdgeFails | vizCaller.py:248 | one malformed edge line makes the whole read fail |
| NetworkFiles.NetworkFileOk | vizCaller.py:238-249 | a `.net` file reads exactly when it has three header lines, the vertex count parses as an int, and every line from `vertexCount + 3` on is an edge line |
| NetworkFiles.NetworkFileEdges | vizCaller.py:242-249 | the cluster name, the vertex count and the edge count are the stripped first three lines. The edges are those of the lines from `vertexCount + 3` on |
| NetworkFiles.ParseFormatEdge | vizCaller.py:248-249 | an edge written as `node1,node2,weight` reads back as itself |
| CommunityFiles.ParseRecord | vizCaller.py:273 | a parsed allocation line is an edge in an `.ecom` file and a vertex in a `.vcom` file |
| CommunityFiles.ParseFormatRecord | vizCaller.py:300 | every record written as `v1,v2,c` or `v,c` reads back as itself |
| CommunityFiles.StepAtVertices | vizCaller.py:263-264 | the vertex header sets the vertex count from the next line, or raises |
| CommunityFiles.StepAtCount | vizCaller.py:265-266 | the community-count header sets the community count from the next line, or raises |
| CommunityFiles.StepOnValueLine | vizCaller.py:260-269 | a line that is not a `#` line changes nothing in the header loop |
| CommunityFiles.StepAtAllocation | vizCaller.py:269-279 | the allocation header replaces the communities by the grouping of every record after it, and a malformed line raises |
| CommunityFiles.StepElsewhere | vizCaller.py:260-268 | no other line touches the communities |
| CommunityFiles.AllocationGroups | vizCaller.py:270-279 | building the dictionary line by line is grouping the records by community, each under its first-mention key |
| CommunityFiles.CommunitiesAfter | vizCaller.py:260-279 | the communities are those recorded after the last allocation header seen so far |
| CommunityFiles.LastAllocationWins | vizCaller.py:269-279 | a parsed file's communities are the grouping of the records after its last allocation header |
| CommunityFiles.NoAllocationNoCommunities | vizCaller.py:253-270 | without an allocation header there is no `Communities` entry |
| CommunityFiles.MalformedRecordFails | vizCaller.py:271-273 | one malformed line after an allocation header, a blank line included, fails the whole file |
| CommunityFiles.MissingValueFails | vizCaller.py:262-268 | a value header on the last line has no value line and fails |
| CommunityFiles.RecordsOfFormat | vizCaller.py:273 | every record read has the file's member kind |
| CommunityFiles.GroupFormat | vizCaller.py:277-279 | grouping keeps every member's kind |
| CommunityFiles.FoldFormat | vizCaller.py:260-304 | a `.ecom` file lists only edges and a `.vcom` file only vertices |
| CommunityFiles.FoldDistinct | vizCaller.py:277-279 | each community id is listed once |
| CommunityFiles.RecordsPreserved | vizCaller.py:277-279 | after the last allocation header, each `(member, community)` record appears exactly once under its community |
| CommunityReader.GroupLines | vizCaller.py:271-279 | the allocation loop computes the grouping of the records, or raises on a malformed line |
| CommunityReader.ReadAllocation | vizCaller.py:269-279 | the allocation branch's inner loop gives the grouping of the records from the given line on |
| CommunityReader.ReadLine | vizCaller.py:260-279 | one iteration of the header loop |
| CommunityReader.ReadCommunityFile | vizCaller.py:257-304 | the header loop computes the community file's parse, for both formats |
| CommunityExample.ExampleGroup | vizCaller.py:280 | the records `1,1 2,1 3,1 4,2 5,3 6,4` group into `{1:[1,2,3], 2:[4], 3:[5], 4:[6]}` |
| CommunityExample.VertexFileExample | vizCaller.py:281-304 | the example `.vcom` file reads as `Layer`, `NumVertices` 6, `NumCommunities` 4 and those communities |
| OrderedDict.Get | vizCaller.py:277 | `d.get(k)` is missing exactly when `k` is not a key |
| OrderedDict.GetPut | vizCaller.py:98 | after `d[k] = v`, `k` holds `v` and every other key keeps its value |
| OrderedDict.PutAllDistinct | barChartViz.py:20-28 | filling a dictionary from entries with distinct keys keeps them all, in order |
| OrderedDict.GroupKeys | vizCaller.py:277-279 | the keys of a grouping are the communities in order of first mention |
| OrderedDict.GroupGet | vizCaller.py:277-279 | a community's list holds exactly the members recorded under it, in record order |
| OrderedDict.GroupPreservesRecords | vizCaller.py:277-279 | grouping neither loses nor duplicates a record |
| OrderedDict.GroupDistinctKeys | vizCaller.py:277-279 | the grouping lists each community once |
| Strings.JoinSplit | vizCaller.py:248 | `sep.join(s.split(sep)) == s` |
| Strings.StripIdempotent | vizCaller.py:95 | stripping a stripped text changes nothing |
| Strings.ParseIntToString | vizCaller.py:263-266 | `int(str(n)) == n` |
| Strings.IntToStringInjective | wordCloudViz.py:26 | different ints print differently |
| Strings.LowerAsciiFixes | vizCaller.py:309 | `lower()` leaves no ASCII capital behind, leaves text without capitals unchanged, and lowering twice is lowering once |
| VizUtils.DatasetTypeIsFirstKeyword | vizUTILS.py:20-30 | classification is a priority search over the keyword table |
| VizUtils.DatasetTypeExactly | vizUTILS.py:20-30 | each type is chosen exactly when its keyword occurs and no earlier keyword does |
| VizUtils.DatasetTypeUnknown | vizUTILS.py:30 | `unknown` exactly when no keyword occurs |
| VizUtils.DatasetTypeExample | vizUTILS.py:22-27 | a path naming both IMDb and DBLP is a movies dataset |
| VizUtils.QuoteChar | vizUTILS.py:51 | a character is left as it is exactly when it is unreserved |
| VizUtils.QuotePlusUnreserved | vizUTILS.py:62 | text of unreserved characters passes `quote_plus` unchanged |
| VizUtils.QuotePlusAlphabet | vizUTILS.py:52 | encoded text holds only unreserved characters, `+`, `%` and hex digits, so it cannot break the query |
| VizUtils.CreateUrl | vizUTILS.py:49-75 | None for an unlisted type or the label `"0"`. A listed type with another label raises exactly when the label lacks the fields its branch indexes. Every link is a maps or a search query |
| VizUtils.AirportUrl | vizUTILS.py:49-52 | an airport link is the maps query for the encoded third field followed by `+airport` |
| VizUtils.AirportQuery | vizUTILS.py:51-52 | for a label `id,lat,code...` the airport link searches for `code` |
| VizUtils.MoviesUrl | vizUTILS.py:54-59 | a movie link searches for the encoded second field followed by ` IMDb` |
| VizUtils.MoviesQuery | vizUTILS.py:57-59 | for a label `id,title...` the movie link searches for the title |
| VizUtils.CountyUrl | vizUTILS.py:60-62 | a county link searches for the whole encoded label followed by `+county` |
| VizUtils.CountyQuery | vizUTILS.py:62 | a county name of unreserved characters is searched for as it is |
| VizUtils.DblpQuery | vizUTILS.py:63-68 | a DBLP link searches, unencoded, for everything after the first comma |
| VizUtils.AccidentUrl | vizUTILS.py:69-74 | an Accident link is the maps query for the first two fields rejoined |
| VizUtils.AccidentQuery | vizUTILS.py:73-74 | the Accident location is the label up to its second comma, or the whole label if it has at most one comma |
| VizUtils.FirstTwoFieldsPrefix | vizUTILS.py:73 | the rejoined first two fields are a prefix of the label: the whole label if it has at most two fields, otherwise the part before the second comma |
| ReadNCall.Prepare | vizCaller.py:188-231 | only the user-name lookup can fail. The setting holds the base name, the stripped cluster name, the detected extension, the graph type and whether the mapping file exists |
| ReadNCall.ReadInput | vizCaller.py:238-304 | `.net` paths go to the network parser and `.ecom` paths to the edge-community parser. Other matching paths go to the vertex-community parser. An unopenable or unparsable file raises, and any other path reads nothing |
| ReadNCall.ReadInputFile | vizCaller.py:238-304 | the branching reader computes `ReadInput` |
| ReadNCall.LoadMapper | vizCaller.py:307 | the mapper is empty without a mapping file; otherwise it is `create_mapper` of its rows |
| ReadNCall.ReadMapper | vizCaller.py:307 | the mapper step computes `LoadMapper` |
| ReadNCall.WrapperArgs | vizCaller.py:109-143 | the bokeh wrappers put the dataset type in seventh place and the community-network wrapper puts it in fifth. The word-cloud wrapper passes the detected extension in place of the input path. The other wrappers pass their arguments on unchanged |
| ReadNCall.Run | vizCaller.py:182-330 | readNCall, run step by step, returns `ReadNCallSpec` |
| ReadNCall.NoUserFails | vizCaller.py:196-225 | without a user name in `mln_User` the result is False, whatever the input |
| ReadNCall.FreshArtifactReused | vizCaller.py:236-327 | an existing artifact no older than the input is reused. For a detected extension its own path comes back; otherwise a different path does |
| ReadNCall.SecondCallReuses | vizCaller.py:236-327 | once the checked artifact is written no earlier than the input's last change, the next identical call returns it |
| ReadNCall.UnreadableInputFails | vizCaller.py:236-330 | when regeneration is due, an input that cannot be opened or parsed gives False |
| ReadNCall.RendererIsLookedUp | vizCaller.py:309-315 | only the renderer named by the lower-cased type is called, and only on one of the three input kinds. An unknown type gives False unless an artifact is reused |
| ReadNCall.NetworkCallArgs | vizCaller.py:312-313 | a `.net` input is rendered with its edges, the mapper, both user paths, the edge and vertex counts as text, the mapping flag and the file's own cluster name, with the wrappers' substitutions |
| ReadNCall.CommunityCallArgs | vizCaller.py:314-315 | a community input is rendered with its parsed data, the mapper, both user paths, the mapping flag, the graph, the input path and the derived cluster name, with the wrappers' substitutions |
| ReadNCall.VisualizationPathInjective | vizCaller.py:46 | different relative names under one root are different files |
| ReadNCall.GraphTypeNotRooted | vizCaller.py:44-46 | a graph type that is not rooted gives an artifact name that is not rooted, so the artifact always lies under `visualization/` |
| CommunityCounts.KeyedCountsDistinct | wordCloudViz.py:26 | the prefixed keys `prefix + str(id)` are distinct exactly when the community ids are |
| CommunityCounts.MemberCountsExactly | wordCloudViz.py:26 | with distinct ids the comprehension loses no community |
| CommunityCounts.GetMemberCounts | wordCloudViz.py:65 | looking a community up under `prefix + str(id)` gives its member count |
| CommunityCounts.EndpointsSet | wordCloudViz.py:18-23 | the endpoint set exists exactly when every member is an edge. It is the set of both ends of every edge, and so holds at most twice as many nodes as there are edges |
| CommunityCounts.CollectEndpoints | wordCloudViz.py:19-22 | the `set.add` loop computes the endpoint set, or raises on a vertex member |
| CommunityCounts.EndpointCountsAt | barChartViz.py:23-28 | the endpoint counts exist exactly when every member of every community is an edge, and then give each community its number of endpoints |
| Ranking.SortDescSorted | barChartViz.py:35 | the sort puts values in descending order |
| Ranking.SortDescPermutation | barChartViz.py:35 | the sort is a permutation of the entries |
| Ranking.SortDescStable | barChartViz.py:35 | entries of equal value keep their order |
| Ranking.SortDescKeys | barChartViz.py:35 | the sorted dictionary has exactly the original keys |
| Ranking.TopOfSorted | wordCloudViz.py:59 | every entry kept by the truncation has a value at least that of every entry dropped |
| WordCloudChart.ExtensionText | wordCloudViz.py:11 | `split('.')[1]` raises exactly when there is no dot, and its result has no dot |
| WordCloudChart.ExtensionTextOf | wordCloudViz.py:11 | the three detected extensions give their words |
| WordCloudChart.NoExtensionFails | wordCloudViz.py:11 | an undetected extension makes the word cloud fail |
| WordCloudChart.Noun | wordCloudViz.py:13 | the legend word is `nodes` exactly for `vcom`, otherwise `edges` |
| WordCloudChart.UniqueNodesInEachCommunity | wordCloudViz.py:15-23 | the nested loop gives every community its number of endpoints, or raises |
| WordCloudChart.UniqueNodeCounts | wordCloudViz.py:16-23 | each unique-node count is the size of that community's endpoint set, at most twice its number of edges |
| WordCloudChart.Frequencies | wordCloudViz.py:26 | the word frequencies have one `'C' + str(id)` entry per community, in order, valued by its member count |
| WordCloudChart.ComsToDisplay | wordCloudViz.py:29 | `min(10, n)` |
| WordCloudChart.HeadingIsAll | wordCloudViz.py:56 | the heading always reads "All communities", because at most ten are shown |
| WordCloudChart.VcomEntryReadsBack | wordCloudViz.py:59 | a legend line starts with `{key}: ` and ends with ` {noun}`, and the count between them parses back as the community's size |
| WordCloudChart.VcomLegendOrder | wordCloudViz.py:59 | the vertex legend lists at most `coms_to_display` communities, largest first, and none left out is larger |
| WordCloudChart.EcomEntries | wordCloudViz.py:64-71 | one legend line per listed community |
| WordCloudChart.EcomLegendLines | wordCloudViz.py:62-72 | the legend loop computes the listed lines, raising when an edge count is missing |
| WordCloudChart.EcomEntriesAll | wordCloudViz.py:64-71 | with an edge count for every listed community, each line carries its id, its unique nodes and its edge count |
| WordCloudChart.EcomLegendCounts | wordCloudViz.py:64-65 | the edge legend lists the communities with the most unique nodes. Each edge count is that community's number of edges, looked up under `'C' + str(id)`, and its node count is at most twice that |
| WordCloudChart.UniqueNodesOk | wordCloudViz.py:16-23 | the counts exist unless an `ecom` community lists a vertex |
| WordCloudChart.LegendBodyOk | wordCloudViz.py:58-72 | once the counts exist, the legend body is always written |
| WordCloudChart.WordCloudDrawn | wordCloudViz.py:9-72 | the word cloud is drawn exactly when the data has communities (at least one), a layer and a community count, the extension has a dot, and for `ecom` every member is an edge |
| WordCloudChart.WordCloudPath | wordCloudViz.py:102 | the page goes to `visualization/wordcloud_{cluster}_{ext}.html` under `endPath` |
| WordCloudChart.ArtifactMatchesCheck | wordCloudViz.py:102 | for `ecom` and `vcom` the page written has the name createViz checks for graph type `wordcloud` |
| WordCloudChart.CalledByReadNCall | vizCaller.py:129-131 | for a community input, readNCall's call of the word cloud is the word cloud of the input's parse with the detected extension in place of the input path |
| BarChart.CountEachCommunity | barChartViz.py:17-28 | the loop gives member counts for `.ecom`, endpoint counts for `.vcom` (raising on a vertex) and nothing otherwise |
| BarChart.ChartDrawn | barChartViz.py:6-61 | the chart is drawn exactly when there are communities, the input ends in `.ecom` or `.vcom`, and for `.vcom` every member is an edge |
| BarChart.VertexFileFails | barChartViz.py:23-28 | a parsed `.vcom` file with a non-empty community never yields a bar chart |
| BarChart.CountsPerCommunity | barChartViz.py:20-28 | one bar per community: its number of members for `.ecom`, its number of endpoints for `.vcom` |
| BarChart.BarsSorted | barChartViz.py:35 | the bars are the counts, each once, tallest first, with ties in community order |
| BarChart.ChartPaths | barChartViz.py:56-58 | it writes `bar_chart_{cluster}_{ext}.html` under `endPath` and returns it under `mln_User`, with noun `edges` or `vertices` |
| BarChart.NeverTheCheckedArtifact | barChartViz.py:56-58 | that name is never the `barchart_...` name createViz checks, so a bar chart is never reused |
| BarChart.CalledByReadNCall | vizCaller.py:314-315 | for a community input, readNCall's call of the bar chart is the chart of the input's parse under the user's paths, named by the input path and the derived cluster name |
| BarChart.VertexInputChartFails | barChartViz.py:23-28 | asked for a bar chart of a parsed `.vcom` file with a non-empty community, readNCall calls the chart on members it cannot index, so the call returns False |
| BubbleChart.Reparse | bubbleChartViz.py:18-35 | the re-parse is the vertex-community parse of the file, or raises if it cannot be opened |
| BubbleChart.Columns | bubbleChartViz.py:42-46 | `comNames` and `comSizes` are the dictionary's keys and values, in its order |
| BubbleChart.Visualization | bubbleChartViz.py:11-96 | the chart, run step by step, gives `Bubble` |
| BubbleChart.BubbleDrawn | bubbleChartViz.py:18-66 | the chart is drawn exactly when the file parses as a vertex-community file with a layer and at least one community |
| BubbleChart.BubblePerCommunity | bubbleChartViz.py:37-46 | one bubble per community, in order, labelled `'c' + str(id)` and sized by its vertex count |
| BubbleChart.CountColumns | bubbleChartViz.py:37-46 | the two columns of the count dictionary of distinct communities |
| BubbleChart.LabelsDistinct | bubbleChartViz.py:37-38 | different communities get different labels |
| BubbleChart.NameParts | bubbleChartViz.py:13-14 | the chart is named after readNCall's base name, and a `.vcom` path gives the extension `vcom` |
| BubbleChart.VcomArtifact | bubbleChartViz.py:94-96 | a `.vcom` input's page has the name createViz gives graph type `bubblechart` for its base name |
| BubbleChart.CheckedBubble | vizCaller.py:217 | the bubble-chart type makes readNCall check an artifact of graph type `bubblechart` |
| BubbleChart.ReturnsCheckedArtifact | bubbleChartViz.py:96 | for a `.vcom` input, the returned path is the one createViz checks exactly when the base name has no `{user}_` tag |
| BubbleChart.SamePathSameCluster | bubbleChartViz.py:94-96 | two artifacts of one graph type and extension are the same file only for the same cluster name |
| BubbleChart.CalledByReadNCall | vizCaller.py:133-135 | for a community input, readNCall's call of the bubble chart re-reads the input file itself under the user's paths |

## Left out

- Drawing and the libraries behind it are not modelled:
  - networkx graph building (the graph argument carries nothing);
  - plotly, bokeh, pyvis, matplotlib, WordCloud, circlify and pandas figures;
  - base64 image embedding and the HTML writing.
  - A renderer's result is its view: the data it draws from and the paths it writes and returns.
- Renderer-only files are not part of this model: plotlyVisualization.py, bokehVisualization.py, bokehVisualization_dc.py, pyvisVisualization.py, mapVisualization.py and communityNetworkViz.py. `ReadNCall` names the renderer and its arguments instead of calling it.
- Real I/O is not modelled:
  - `os.path.exists` and `getmtime` become a map of modification times;
  - file contents become given lines;
  - `os.path.relpath(mln_User)` is the parameter `endPath`;
  - CSV tokenizing (quoted fields) is taken as done;
  - the `print` logging is dropped.
- The module globals `dataset_type` and `input_file_extension` are passed as arguments rather than assigned and read back.
- Floating point is not modelled. A weight or coordinate is kept as text, and only its form is checked. The average degree and density of the word-cloud legend are not computed.
- Strings.IsFloatText: it accepts what `float()` accepts in ASCII: an optional sign and `inf`, `infinity` or `nan`, or a decimal mantissa with an optional exponent. It rejects the underscores between digits and the non-ASCII decimal digits that `float()` also takes, so the model fails such a weight where the source reads it.
- WordCloudChart.EcomText: the legend line stops after the edge count. The two `:.2f` float figures that follow it are not modelled.
- `Strings.ParseInt` accepts ASCII digits, a sign and surrounding whitespace. It does not accept the underscores or non-ASCII digits that Python's `int()` also takes. `Strings.LowerAscii` folds only ASCII letters.
- BubbleChart.Bubble: the `sort_values` by size before drawing only reorders the circles, and is not modelled. Of the final `max` over the circles, only its failure on an empty list is modelled.
- BubbleChart.OnArgs and BarChart.OnArgs: readNCall always passes the user paths as text. These functions therefore require text in those argument places rather than modelling another kind of argument there.
- CommunityReader.ReadAllocation classifies every line before its loop, where the source classifies inside the loop. Classifying has no effect and raises nothing, so the result is the same.
- Termination of a renderer that hangs, and concurrency between requests, are not modelled.
