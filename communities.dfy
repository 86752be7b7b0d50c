// The `.ecom` and `.vcom` community files read by readNCall
// (vizCaller.py): a header block of `# ...` lines, each followed by its
// value line, then the allocation of edges or vertices to communities.

module CommunityFiles {
  import opened Wrappers
  import opened Strings
  import opened OrderedDict

  /** A community member: a vertex id (`.vcom`) or an edge `(v1, v2)` (`.ecom`). */
  datatype Member = Vertex(id: int) | Edge(v1: int, v2: int)

  datatype Format = EdgeCommunities | VertexCommunities

  /** Community id to its members, in order of first mention. */
  type Communities = Dict<int, seq<Member>>

  /** The `data` dictionary of readNCall: a field is `None` while its key
      has not been set. */
  datatype CommunityData = CommunityData(
    layer: Option<string>,
    numVertices: Option<int>,
    numCommunities: Option<int>,
    numCommunityEdges: Option<int>,
    communities: Option<Communities>)

  const NoData := CommunityData(None, None, None, None, None)

  function LayerHeader(f: Format): string
  {
    match f
    case EdgeCommunities => "# Edge Community File for Layer"
    case VertexCommunities => "# Vertex Community File for Layer"
  }

  const VerticesHeader := "# Number of Vertices"

  function CountHeader(f: Format): string
  {
    match f
    case EdgeCommunities => "# Number of Non-Singleton Communities"
    case VertexCommunities => "# Number of Total Communities"
  }

  /** Only `.ecom` files have this header. */
  const CommunityEdgesHeader := "# Number of Community Edges"

  function AllocationHeader(f: Format): string
  {
    match f
    case EdgeCommunities => "# Edge Community Allocation"
    case VertexCommunities => "# Vertex Community Allocation"
  }

  predicate IsComment(line: string)
  {
    StartsWith(line, "#")
  }

  predicate IsFormatMember(f: Format, m: Member)
  {
    match f
    case EdgeCommunities => m.Edge?
    case VertexCommunities => m.Vertex?
  }

  /** `map(int, fields)`, failing if any field is not an int. */
  function ParseInts(fields: seq<string>): (r: Option<seq<int>>)
    ensures r.Some? ==> |r.value| == |fields|
    decreases |fields|
  {
    if |fields| == 0 then Some([])
    else
      match ParseInt(fields[0])
      case None => None
      case Some(n) =>
        match ParseInts(fields[1..])
        case None => None
        case Some(ns) => Some([n] + ns)
  }

  /** Each parsed value is the parse of its field. */
  lemma {:induction false} ParseIntsAt(fields: seq<string>, i: nat)
    requires i < |fields| && ParseInts(fields).Some?
    ensures ParseInt(fields[i]) == Some(ParseInts(fields).value[i])
    decreases |fields|
  {
    if i > 0 {
      ParseIntsAt(fields[1..], i - 1);
    }
  }

  /** One allocation line: `v1,v2,community` in an `.ecom` file and
      `vertex,community` in a `.vcom` file, every field an int. */
  function ParseRecord(f: Format, line: string): (r: Option<(Member, int)>)
    ensures r.Some? ==> IsFormatMember(f, r.value.0)
  {
    match ParseInts(Split(Strip(line), ','))
    case None => None
    case Some(ns) =>
      match f
      case EdgeCommunities => if |ns| == 3 then Some((Edge(ns[0], ns[1]), ns[2])) else None
      case VertexCommunities => if |ns| == 2 then Some((Vertex(ns[0]), ns[1])) else None
  }

  /** The allocation line a record is written as. */
  function FormatRecord(rec: (Member, int)): string
  {
    match rec.0
    case Edge(a, b) => IntToString(a) + "," + IntToString(b) + "," + IntToString(rec.1)
    case Vertex(v) => IntToString(v) + "," + IntToString(rec.1)
  }

  lemma IntToStringShape(n: int)
    ensures ',' !in IntToString(n)
    ensures '-' !in IntToString(n)[1..]
    ensures !IsSpace(IntToString(n)[0]) && !IsSpace(IntToString(n)[|IntToString(n)| - 1])
  {
    var d := NatToString(if n < 0 then -n else n);
    assert forall i :: 0 <= i < |d| ==> IsDigit(d[i]);
    if n < 0 {
      assert IntToString(n) == "-" + d;
      assert IntToString(n)[1..] == d;
    }
  }

  /** Three fields without commas split back apart. */
  lemma SplitThree(a: string, b: string, c: string)
    requires ',' !in a && ',' !in b && ',' !in c
    ensures Split(a + "," + b + "," + c, ',') == [a, b, c]
  {
    assert a + "," + b + "," + c == a + [','] + (b + [','] + c);
    SplitField(a, ',', b + [','] + c);
    SplitField(b, ',', c);
    SplitWithoutSeparator(c, ',');
  }

  lemma SplitTwoFields(a: string, b: string)
    requires ',' !in a && ',' !in b
    ensures Split(a + "," + b, ',') == [a, b]
  {
    assert a + "," + b == a + [','] + b;
    SplitField(a, ',', b);
    SplitWithoutSeparator(b, ',');
  }

  /** A line that starts and ends with printed ints has no surrounding
      whitespace. */
  lemma StripJoined(line: string, a: int, c: int)
    requires |line| >= |IntToString(a)| && |line| >= |IntToString(c)|
    requires line[0] == IntToString(a)[0]
    requires line[|line| - 1] == IntToString(c)[|IntToString(c)| - 1]
    ensures Strip(line) == line
  {
    IntToStringShape(a);
    IntToStringShape(c);
    StripUnchanged(line);
  }

  lemma ParseIntsCons(x: string, rest: seq<string>, n: int)
    requires ParseInt(x) == Some(n)
    ensures ParseInts([x] + rest) == match ParseInts(rest) case None => None case Some(ns) => Some([n] + ns)
  {
    assert ([x] + rest)[1..] == rest;
  }

  /** Printed ints parse back. */
  lemma ParsePrintedTwo(a: int, b: int)
    ensures ParseInts([IntToString(a), IntToString(b)]) == Some([a, b])
  {
    var x, y := IntToString(a), IntToString(b);
    ParseIntToString(a);
    ParseIntToString(b);
    assert ParseInts([]) == Some([]);
    ParseIntsCons(y, [], b);
    assert [y] + [] == [y] && [b] + [] == [b];
    assert ParseInts([y]) == Some([b]);
    ParseIntsCons(x, [y], a);
    assert [x] + [y] == [x, y] && [a] + [b] == [a, b];
  }

  lemma ParsePrintedThree(a: int, b: int, c: int)
    ensures ParseInts([IntToString(a), IntToString(b), IntToString(c)]) == Some([a, b, c])
  {
    var x, y, z := IntToString(a), IntToString(b), IntToString(c);
    ParseIntToString(a);
    ParsePrintedTwo(b, c);
    ParseIntsCons(x, [y, z], a);
    assert [x] + [y, z] == [x, y, z] && [a] + [b, c] == [a, b, c];
  }

  /** Every record reads back from the line it is written as. */
  lemma ParseFormatRecord(f: Format, rec: (Member, int))
    requires IsFormatMember(f, rec.0)
    ensures ParseRecord(f, FormatRecord(rec)) == Some(rec)
  {
    var c := rec.1;
    IntToStringShape(c);
    match rec.0
    case Edge(a, b) =>
      IntToStringShape(a);
      IntToStringShape(b);
      var line := FormatRecord(rec);
      StripJoined(line, a, c);
      SplitThree(IntToString(a), IntToString(b), IntToString(c));
      ParsePrintedThree(a, b, c);
    case Vertex(v) =>
      IntToStringShape(v);
      StripJoined(FormatRecord(rec), v, c);
      SplitTwoFields(IntToString(v), IntToString(c));
      ParsePrintedTwo(v, c);
  }

  /** How the allocation loop treats one line. */
  datatype LineKind = CommentLine | RecordLine(rec: (Member, int)) | BadLine

  function ClassifyLine(f: Format, line: string): LineKind
  {
    if IsComment(line) then CommentLine
    else
      match ParseRecord(f, line)
      case None => BadLine
      case Some(rec) => RecordLine(rec)
  }

  /** Every line of the file, classified. */
  function Classify(f: Format, lines: seq<string>): (r: seq<LineKind>)
    ensures |r| == |lines|
    decreases |lines|
  {
    if |lines| == 0 then []
    else Classify(f, lines[..|lines| - 1]) + [ClassifyLine(f, lines[|lines| - 1])]
  }

  lemma {:induction false} ClassifyAt(f: Format, lines: seq<string>, j: nat)
    requires j < |lines|
    ensures Classify(f, lines)[j] == ClassifyLine(f, lines[j])
    decreases |lines|
  {
    if j < |lines| - 1 {
      ClassifyAt(f, lines[..|lines| - 1], j);
    }
  }

  /** The records of lines `lo` to `hi - 1`, skipping `#` lines; any other
      line that is not a record makes the parse fail. */
  function RecordsOf(kinds: seq<LineKind>, lo: nat, hi: nat): Result<seq<(Member, int)>>
    requires lo <= hi <= |kinds|
    decreases hi - lo
  {
    if hi == lo then Ok([])
    else
      match RecordsOf(kinds, lo, hi - 1)
      case Err => Err
      case Ok(recs) =>
        match kinds[hi - 1]
        case CommentLine => Ok(recs)
        case BadLine => Err
        case RecordLine(rec) => Ok(recs + [rec])
  }

  /** `int(lines[i + 1].strip())` for the value line of a header at `i`. */
  function IntValue(lines: seq<string>, i: nat): Result<int>
  {
    if i + 1 < |lines| then
      match ParseInt(lines[i + 1])
      case None => Err
      case Some(v) => Ok(v)
    else Err
  }

  /** One iteration of the header loop at line `i`: the first header the line
      starts with sets its field from the next line; the allocation header
      replaces the communities by those recorded in all later lines. */
  function Step(f: Format, lines: seq<string>, i: nat, d: CommunityData): Result<CommunityData>
    requires i < |lines|
  {
    var line := lines[i];
    if StartsWith(line, LayerHeader(f)) then
      if i + 1 < |lines| then Ok(d.(layer := Some(Strip(lines[i + 1])))) else Err
    else if StartsWith(line, VerticesHeader) then
      match IntValue(lines, i)
      case Err => Err
      case Ok(v) => Ok(d.(numVertices := Some(v)))
    else if StartsWith(line, CountHeader(f)) then
      match IntValue(lines, i)
      case Err => Err
      case Ok(v) => Ok(d.(numCommunities := Some(v)))
    else if f == EdgeCommunities && StartsWith(line, CommunityEdgesHeader) then
      match IntValue(lines, i)
      case Err => Err
      case Ok(v) => Ok(d.(numCommunityEdges := Some(v)))
    else if StartsWith(line, AllocationHeader(f)) then
      match RecordsOf(Classify(f, lines), i + 1, |lines|)
      case Err => Err
      case Ok(recs) => Ok(d.(communities := Some(Group(recs))))
    else Ok(d)
  }

  /** The data after the first `n` iterations of the header loop. */
  function ParseFold(f: Format, lines: seq<string>, n: nat): Result<CommunityData>
    requires n <= |lines|
  {
    if n == 0 then Ok(NoData)
    else
      match ParseFold(f, lines, n - 1)
      case Err => Err
      case Ok(d) => Step(f, lines, n - 1, d)
  }

  /** What reading a whole community file yields. */
  function CommunityFile(f: Format, lines: seq<string>): Result<CommunityData>
  {
    ParseFold(f, lines, |lines|)
  }

  /** Once the loop has raised, the file fails. */
  lemma {:induction false} FoldErrSticks(f: Format, lines: seq<string>, n: nat, m: nat)
    requires n <= m <= |lines| && ParseFold(f, lines, n).Err?
    ensures ParseFold(f, lines, m).Err?
    decreases m - n
  {
    if n < m {
      FoldErrSticks(f, lines, n + 1, m);
    }
  }

  lemma {:induction false} RecordsErrSticks(kinds: seq<LineKind>, lo: nat, n: nat, m: nat)
    requires lo <= n <= m <= |kinds| && RecordsOf(kinds, lo, n).Err?
    ensures RecordsOf(kinds, lo, m).Err?
    decreases m - n
  {
    if n < m {
      RecordsErrSticks(kinds, lo, n + 1, m);
    }
  }

  /** The communities the allocation loop has built after lines `lo` to
      `hi - 1`: each record is appended under its community. */
  function Allocation(kinds: seq<LineKind>, lo: nat, hi: nat): Result<Communities>
    requires lo <= hi <= |kinds|
    decreases hi - lo
  {
    if hi == lo then Ok([])
    else
      match Allocation(kinds, lo, hi - 1)
      case Err => Err
      case Ok(c) =>
        match kinds[hi - 1]
        case CommentLine => Ok(c)
        case BadLine => Err
        case RecordLine(rec) => Ok(AppendTo(c, rec.1, rec.0))
  }

  /** Building the communities line by line is grouping the records. */
  lemma {:induction false} AllocationGroups(kinds: seq<LineKind>, lo: nat, hi: nat)
    requires lo <= hi <= |kinds|
    ensures Allocation(kinds, lo, hi) == match RecordsOf(kinds, lo, hi) case Err => Err case Ok(recs) => Ok(Group(recs))
    decreases hi - lo
  {
    if hi > lo {
      AllocationGroups(kinds, lo, hi - 1);
      var prev := RecordsOf(kinds, lo, hi - 1);
      if prev.Ok? && kinds[hi - 1].RecordLine? {
        GroupSnoc(prev.value, kinds[hi - 1].rec);
      }
    }
  }

  lemma {:induction false} AllocationErrSticks(kinds: seq<LineKind>, lo: nat, n: nat, m: nat)
    requires lo <= n <= m <= |kinds| && Allocation(kinds, lo, n).Err?
    ensures Allocation(kinds, lo, m).Err?
    decreases m - n
  {
    if n < m {
      AllocationErrSticks(kinds, lo, n + 1, m);
    }
  }

  // Properties of the parse.

  /** Two prefixes that differ at a position within both cannot both start
      a line. */
  lemma PrefixClash(line: string, p: string, q: string, i: nat)
    requires i < |p| && i < |q| && p[i] != q[i]
    ensures !(StartsWith(line, p) && StartsWith(line, q))
  {
    if StartsWith(line, p) {
      assert line[i] == p[i];
    }
  }

  /** An allocation header is none of the headers tested before it. */
  lemma AllocationIsNoOtherHeader(f: Format, line: string)
    requires StartsWith(line, AllocationHeader(f))
    ensures !StartsWith(line, LayerHeader(f)) && !StartsWith(line, VerticesHeader)
    ensures !StartsWith(line, CountHeader(f)) && !StartsWith(line, CommunityEdgesHeader)
  {
    var a := AllocationHeader(f);
    PrefixClash(line, a, LayerHeader(f), if f == EdgeCommunities then 17 else 19);
    PrefixClash(line, a, VerticesHeader, 2);
    PrefixClash(line, a, CountHeader(f), 2);
    PrefixClash(line, a, CommunityEdgesHeader, 2);
  }

  /** The number-of-vertices header sets the vertex count. */
  lemma StepAtVertices(f: Format, lines: seq<string>, i: nat, d: CommunityData)
    requires i < |lines| && StartsWith(lines[i], VerticesHeader)
    ensures Step(f, lines, i, d) ==
              match IntValue(lines, i) case Err => Err case Ok(v) => Ok(d.(numVertices := Some(v)))
  {
    PrefixClash(lines[i], VerticesHeader, LayerHeader(f), 2);
  }

  /** The number-of-communities header sets the community count. */
  lemma StepAtCount(f: Format, lines: seq<string>, i: nat, d: CommunityData)
    requires i < |lines| && StartsWith(lines[i], CountHeader(f))
    ensures Step(f, lines, i, d) ==
              match IntValue(lines, i) case Err => Err case Ok(v) => Ok(d.(numCommunities := Some(v)))
  {
    PrefixClash(lines[i], CountHeader(f), LayerHeader(f), 2);
    PrefixClash(lines[i], CountHeader(f), VerticesHeader, 12);
  }

  /** A line that is not a `#` line changes nothing. */
  lemma StepOnValueLine(f: Format, lines: seq<string>, i: nat, d: CommunityData)
    requires i < |lines| && !IsComment(lines[i])
    ensures Step(f, lines, i, d) == Ok(d)
  {
    var line := lines[i];
    HeaderIsComment(line, LayerHeader(f));
    HeaderIsComment(line, VerticesHeader);
    HeaderIsComment(line, CountHeader(f));
    HeaderIsComment(line, CommunityEdgesHeader);
    HeaderIsComment(line, AllocationHeader(f));
  }

  lemma HeaderIsComment(line: string, header: string)
    requires |header| > 0 && header[0] == '#'
    ensures StartsWith(line, header) ==> IsComment(line)
  {
    if StartsWith(line, header) {
      assert line[0] == header[0];
    }
  }

  /** At an allocation header the step replaces the communities by the
      grouping of all later records. */
  lemma StepAtAllocation(f: Format, lines: seq<string>, i: nat, d: CommunityData)
    requires i < |lines| && StartsWith(lines[i], AllocationHeader(f))
    ensures Step(f, lines, i, d) ==
              match RecordsOf(Classify(f, lines), i + 1, |lines|)
              case Err => Err
              case Ok(recs) => Ok(d.(communities := Some(Group(recs))))
  {
    AllocationIsNoOtherHeader(f, lines[i]);
  }

  lemma AllocationStep(f: Format, lines: seq<string>, i: nat, d: CommunityData, recs: seq<(Member, int)>)
    requires i < |lines| && StartsWith(lines[i], AllocationHeader(f)) && ParseFold(f, lines, i) == Ok(d)
    requires RecordsOf(Classify(f, lines), i + 1, |lines|) == Ok(recs)
    ensures ParseFold(f, lines, i + 1) == Ok(d.(communities := Some(Group(recs))))
  {
    StepAtAllocation(f, lines, i, d);
  }

  /** Any other line leaves the communities as they are. */
  lemma StepElsewhere(f: Format, lines: seq<string>, i: nat, d: CommunityData)
    requires i < |lines| && !StartsWith(lines[i], AllocationHeader(f))
    requires Step(f, lines, i, d).Ok?
    ensures Step(f, lines, i, d).value.communities == d.communities
  {
  }

  /** The communities are those recorded after the last allocation header:
      every earlier allocation is discarded. */
  lemma {:induction false} CommunitiesAfter(f: Format, lines: seq<string>, k: nat, n: nat)
    requires k < n <= |lines| && StartsWith(lines[k], AllocationHeader(f))
    requires forall j :: k < j < n ==> !StartsWith(lines[j], AllocationHeader(f))
    requires ParseFold(f, lines, n).Ok?
    ensures RecordsOf(Classify(f, lines), k + 1, |lines|).Ok?
    ensures ParseFold(f, lines, n).value.communities == Some(Group(RecordsOf(Classify(f, lines), k + 1, |lines|).value))
    decreases n
  {
    if n == k + 1 {
      StepAtAllocation(f, lines, k, ParseFold(f, lines, k).value);
    } else {
      CommunitiesAfter(f, lines, k, n - 1);
      StepElsewhere(f, lines, n - 1, ParseFold(f, lines, n - 1).value);
    }
  }

  lemma LastAllocationWins(f: Format, lines: seq<string>, k: nat)
    requires k < |lines| && StartsWith(lines[k], AllocationHeader(f))
    requires forall j :: k < j < |lines| ==> !StartsWith(lines[j], AllocationHeader(f))
    requires CommunityFile(f, lines).Ok?
    ensures RecordsOf(Classify(f, lines), k + 1, |lines|).Ok?
    ensures CommunityFile(f, lines).value.communities == Some(Group(RecordsOf(Classify(f, lines), k + 1, |lines|).value))
  {
    CommunitiesAfter(f, lines, k, |lines|);
  }

  /** Without an allocation header the file has no communities. */
  lemma {:induction false} NoAllocationNoCommunities(f: Format, lines: seq<string>, n: nat)
    requires n <= |lines|
    requires forall j :: 0 <= j < n ==> !StartsWith(lines[j], AllocationHeader(f))
    requires ParseFold(f, lines, n).Ok?
    ensures ParseFold(f, lines, n).value.communities == None
    decreases n
  {
    if n > 0 {
      NoAllocationNoCommunities(f, lines, n - 1);
      StepElsewhere(f, lines, n - 1, ParseFold(f, lines, n - 1).value);
    }
  }

  /** One malformed line after an allocation header, blank lines included,
      aborts the whole parse. */
  lemma MalformedRecordFails(f: Format, lines: seq<string>, k: nat, j: nat)
    requires k < j < |lines| && StartsWith(lines[k], AllocationHeader(f))
    requires !IsComment(lines[j]) && ParseRecord(f, lines[j]).None?
    ensures CommunityFile(f, lines).Err?
  {
    var kinds := Classify(f, lines);
    ClassifyAt(f, lines, j);
    assert RecordsOf(kinds, k + 1, j + 1).Err?;
    RecordsErrSticks(kinds, k + 1, j + 1, |lines|);
    if ParseFold(f, lines, k).Ok? {
      StepAtAllocation(f, lines, k, ParseFold(f, lines, k).value);
    }
    assert ParseFold(f, lines, k + 1).Err?;
    FoldErrSticks(f, lines, k + 1, |lines|);
  }

  /** A value header on the last line has no value line to read. */
  lemma MissingValueFails(f: Format, lines: seq<string>)
    requires |lines| > 0
    requires var last := lines[|lines| - 1];
             StartsWith(last, LayerHeader(f)) || StartsWith(last, VerticesHeader) || StartsWith(last, CountHeader(f))
    ensures CommunityFile(f, lines).Err?
  {
  }

  /** Every record read by an allocation loop has the file's kind. */
  lemma {:induction false} RecordsOfFormat(f: Format, lines: seq<string>, lo: nat, hi: nat)
    requires lo <= hi <= |lines|
    requires RecordsOf(Classify(f, lines), lo, hi).Ok?
    ensures forall r :: r in RecordsOf(Classify(f, lines), lo, hi).value ==> IsFormatMember(f, r.0)
    decreases hi - lo
  {
    if hi > lo {
      RecordsOfFormat(f, lines, lo, hi - 1);
      ClassifyAt(f, lines, hi - 1);
    }
  }

  /** Every member listed under any community. */
  predicate AllOfFormat(f: Format, c: Communities)
  {
    forall i, j :: 0 <= i < |c| && 0 <= j < |c[i].1| ==> IsFormatMember(f, c[i].1[j])
  }

  lemma {:induction false} PairsMember<K, M>(d: Dict<K, seq<M>>, i: nat, j: nat)
    requires i < |d| && j < |d[i].1|
    ensures (d[i].1[j], d[i].0) in Pairs(d)
    decreases i
  {
    if i == 0 {
      assert Tagged(d[0].0, d[0].1)[j] == (d[0].1[j], d[0].0);
    } else {
      PairsMember(d[1..], i - 1, j);
    }
  }

  lemma GroupFormat(f: Format, recs: seq<(Member, int)>)
    requires forall r :: r in recs ==> IsFormatMember(f, r.0)
    ensures AllOfFormat(f, Group(recs))
  {
    var c := Group(recs);
    GroupPreservesRecords(recs);
    forall i, j | 0 <= i < |c| && 0 <= j < |c[i].1| ensures IsFormatMember(f, c[i].1[j]) {
      PairsMember(c, i, j);
      assert (c[i].1[j], c[i].0) in multiset(recs);
    }
  }

  /** A `.ecom` file lists only edges and a `.vcom` file only vertices. */
  lemma {:induction false} FoldFormat(f: Format, lines: seq<string>, n: nat)
    requires n <= |lines| && ParseFold(f, lines, n).Ok?
    requires ParseFold(f, lines, n).value.communities.Some?
    ensures AllOfFormat(f, ParseFold(f, lines, n).value.communities.value)
    decreases n
  {
    var d := ParseFold(f, lines, n - 1).value;
    if StartsWith(lines[n - 1], AllocationHeader(f)) {
      StepAtAllocation(f, lines, n - 1, d);
      RecordsOfFormat(f, lines, n, |lines|);
      GroupFormat(f, RecordsOf(Classify(f, lines), n, |lines|).value);
    } else {
      StepElsewhere(f, lines, n - 1, d);
      FoldFormat(f, lines, n - 1);
    }
  }

  /** Each community id is listed once. */
  lemma {:induction false} FoldDistinct(f: Format, lines: seq<string>, n: nat)
    requires n <= |lines| && ParseFold(f, lines, n).Ok?
    requires ParseFold(f, lines, n).value.communities.Some?
    ensures DistinctKeys(ParseFold(f, lines, n).value.communities.value)
    decreases n
  {
    var d := ParseFold(f, lines, n - 1).value;
    if StartsWith(lines[n - 1], AllocationHeader(f)) {
      StepAtAllocation(f, lines, n - 1, d);
      GroupDistinctKeys(RecordsOf(Classify(f, lines), n, |lines|).value);
    } else {
      StepElsewhere(f, lines, n - 1, d);
      FoldDistinct(f, lines, n - 1);
    }
  }

  /** The records after the last allocation header all reach the result,
      each exactly as often as it was read, under its own community in
      record order. */
  lemma RecordsPreserved(f: Format, lines: seq<string>, k: nat)
    requires k < |lines| && StartsWith(lines[k], AllocationHeader(f))
    requires forall j :: k < j < |lines| ==> !StartsWith(lines[j], AllocationHeader(f))
    requires CommunityFile(f, lines).Ok?
    ensures RecordsOf(Classify(f, lines), k + 1, |lines|).Ok?
    ensures CommunityFile(f, lines).value.communities.Some?
    ensures var recs := RecordsOf(Classify(f, lines), k + 1, |lines|).value;
            var c := CommunityFile(f, lines).value.communities.value;
            && multiset(Pairs(c)) == multiset(recs)
            && DistinctKeys(c)
            && forall id :: Get(c, id) == if HasRecord(recs, id) then Some(Members(recs, id)) else None
  {
    LastAllocationWins(f, lines, k);
    var recs := RecordsOf(Classify(f, lines), k + 1, |lines|).value;
    GroupPreservesRecords(recs);
    GroupDistinctKeys(recs);
    forall id ensures Get(Group(recs), id) == if HasRecord(recs, id) then Some(Members(recs, id)) else None {
      GroupGet(recs, id);
    }
  }
}
