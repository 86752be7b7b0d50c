// The loops of readNCall's `.ecom` and `.vcom` branches, each proved to
// compute the parse defined in CommunityFiles.

module CommunityReader {
  import opened Wrappers
  import opened Strings
  import opened OrderedDict
  import opened CommunityFiles

  /** The inner loop of readNCall's allocation branch: group the records of
      every later line. Classifying a line has no effect, so the lines are
      classified up front and the loop then walks their kinds. */
  method ReadAllocation(f: Format, lines: seq<string>, lo: nat) returns (r: Result<Communities>)
    requires lo <= |lines|
    ensures r == match RecordsOf(Classify(f, lines), lo, |lines|) case Err => Err case Ok(recs) => Ok(Group(recs))
  {
    var kinds := Classify(f, lines);
    r := GroupLines(kinds, lo);
    AllocationGroups(kinds, lo, |lines|);
  }

  /** The loop itself: a malformed line raises, a record is appended to the
      list of its community. */
  method GroupLines(kinds: seq<LineKind>, lo: nat) returns (r: Result<Communities>)
    requires lo <= |kinds|
    ensures r == Allocation(kinds, lo, |kinds|)
  {
    var comms: Communities := [];
    var j := lo;
    while j < |kinds|
      invariant lo <= j <= |kinds|
      invariant Allocation(kinds, lo, j) == Ok(comms)
    {
      var kind := kinds[j];
      if kind.BadLine? {
        AllocationErrSticks(kinds, lo, j + 1, |kinds|);
        return Err;
      } else if kind.RecordLine? {
        comms := AppendTo(comms, kind.rec.1, kind.rec.0);
      }
      j := j + 1;
    }
    return Ok(comms);
  }

  /** One iteration of the header loop. */
  method ReadLine(f: Format, lines: seq<string>, i: nat, data: CommunityData) returns (r: Result<CommunityData>)
    requires i < |lines|
    ensures r == Step(f, lines, i, data)
  {
    var line := lines[i];
    if StartsWith(line, LayerHeader(f)) {
      if i + 1 >= |lines| {
        return Err;
      }
      return Ok(data.(layer := Some(Strip(lines[i + 1]))));
    } else if StartsWith(line, VerticesHeader) || StartsWith(line, CountHeader(f)) ||
              (f == EdgeCommunities && StartsWith(line, CommunityEdgesHeader)) {
      if i + 1 >= |lines| || ParseInt(lines[i + 1]).None? {
        return Err;
      }
      var v := ParseInt(lines[i + 1]).value;
      if StartsWith(line, VerticesHeader) {
        return Ok(data.(numVertices := Some(v)));
      } else if StartsWith(line, CountHeader(f)) {
        return Ok(data.(numCommunities := Some(v)));
      } else {
        return Ok(data.(numCommunityEdges := Some(v)));
      }
    } else if StartsWith(line, AllocationHeader(f)) {
      var comms := ReadAllocation(f, lines, i + 1);
      if comms.Err? {
        return Err;
      }
      return Ok(data.(communities := Some(comms.value)));
    }
    return Ok(data);
  }

  /** The body of readNCall's `.ecom` and `.vcom` branches: the header loop
      over every line, with the allocation loop inside it. */
  method ReadCommunityFile(f: Format, lines: seq<string>) returns (r: Result<CommunityData>)
    ensures r == CommunityFile(f, lines)
  {
    var data := NoData;
    var i := 0;
    while i < |lines|
      invariant 0 <= i <= |lines|
      invariant ParseFold(f, lines, i) == Ok(data)
    {
      var next := ReadLine(f, lines, i, data);
      if next.Err? {
        FoldErrSticks(f, lines, i + 1, |lines|);
        return Err;
      }
      data := next.value;
      i := i + 1;
    }
    return Ok(data);
  }
}
