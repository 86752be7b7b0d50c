// The worked example of a vertex community file: six vertices in four
// communities, read line by line as readNCall (vizCaller.py) reads it.

module CommunityExample {
  import opened Wrappers
  import opened Strings
  import opened OrderedDict
  import opened CommunityFiles

  const ExampleLines: seq<string> := [
    "# Vertex Community File for Layer", "0",
    "# Number of Vertices", "6",
    "# Number of Total Communities", "4",
    "# Vertex Community Allocation",
    "1,1", "2,1", "3,1", "4,2", "5,3", "6,4"]

  const ExampleRecords: seq<(Member, int)> :=
    [(Vertex(1), 1), (Vertex(2), 1), (Vertex(3), 1), (Vertex(4), 2), (Vertex(5), 3), (Vertex(6), 4)]

  lemma DigitRecord(v: nat, c: nat, line: string)
    requires v < 10 && c < 10 && line == [DigitChar(v), ',', DigitChar(c)]
    ensures ClassifyLine(VertexCommunities, line) == RecordLine((Vertex(v), c))
  {
    assert IntToString(v) == [DigitChar(v)];
    assert IntToString(c) == [DigitChar(c)];
    assert FormatRecord((Vertex(v), c)) == line;
    ParseFormatRecord(VertexCommunities, (Vertex(v), c));
  }

  lemma RecordsOfSnoc(kinds: seq<LineKind>, lo: nat, hi: nat, recs: seq<(Member, int)>, rec: (Member, int))
    requires lo < hi <= |kinds| && RecordsOf(kinds, lo, hi - 1) == Ok(recs) && kinds[hi - 1] == RecordLine(rec)
    ensures RecordsOf(kinds, lo, hi) == Ok(recs + [rec])
  {
  }

  lemma ExampleLineKind(lines: seq<string>, j: nat)
    requires lines == ExampleLines && 7 <= j < 13
    ensures Classify(VertexCommunities, lines)[j] == RecordLine(ExampleRecords[j - 7])
  {
    ClassifyAt(VertexCommunities, lines, j);
    var v, c := ExampleRecords[j - 7].0.id, ExampleRecords[j - 7].1;
    ExampleRecordLine(j);
    DigitRecord(v, c, lines[j]);
  }

  /** Record line `j` spells its record in digits. */
  lemma ExampleRecordLine(j: nat)
    requires 7 <= j < 13
    ensures var rec := ExampleRecords[j - 7];
            && rec.0.id < 10 && rec.1 < 10
            && ExampleLines[j] == [DigitChar(rec.0.id), ',', DigitChar(rec.1)]
  {
  }

  lemma ExampleAllocation()
    ensures RecordsOf(Classify(VertexCommunities, ExampleLines), 7, 13) == Ok(ExampleRecords)
  {
    var lines := ExampleLines;
    var kinds := Classify(VertexCommunities, lines);
    var r := ExampleRecords;
    assert RecordsOf(kinds, 7, 7) == Ok(r[..0]);
    for j := 8 to 14
      invariant RecordsOf(kinds, 7, j - 1) == Ok(r[..j - 8])
    {
      ExampleLineKind(lines, j - 1);
      RecordsOfSnoc(kinds, 7, j, r[..j - 8], r[j - 8]);
      assert r[..j - 8] + [r[j - 8]] == r[..j - 7];
    }
    assert r[..6] == r;
  }

  const ExampleCommunities: Communities :=
    [(1, [Vertex(1), Vertex(2), Vertex(3)]), (2, [Vertex(4)]), (3, [Vertex(5)]), (4, [Vertex(6)])]

  /** A record under the only key grouped so far joins that key's list. */
  lemma GroupSameKey(recs: seq<(Member, int)>, k: int, ms: seq<Member>, m: Member)
    requires Group(recs) == [(k, ms)]
    ensures Group(recs + [(m, k)]) == [(k, ms + [m])]
  {
    GroupSnoc(recs, (m, k));
    AppendToHead(k, ms, m, []);
  }

  /** The first three records share community 1. */
  lemma ExampleGroupHead(r: seq<(Member, int)>)
    requires r == ExampleRecords[..3]
    ensures Group(r) == [(1, [Vertex(1), Vertex(2), Vertex(3)])]
  {
    var v1, v2, v3 := Vertex(1), Vertex(2), Vertex(3);
    var a := [(v1, 1)];
    var b := a + [(v2, 1)];
    assert r == b + [(v3, 1)];
    assert Group(a) == [(1, [v1])] by {
      GroupSnoc([], (v1, 1));
      assert [] + [(v1, 1)] == a;
    }
    GroupSameKey(a, 1, [v1], v2);
    GroupSameKey(b, 1, [v1] + [v2], v3);
    assert [v1] + [v2] + [v3] == [v1, v2, v3];
  }

  /** Each later record opens a community of its own. */
  lemma ExampleGroupTail(r: seq<(Member, int)>, i: nat, g: Communities)
    requires 3 <= i < 6 && r == ExampleRecords[..i + 1]
    requires Group(r[..i]) == g && r[i].1 !in Keys(g)
    ensures Group(r) == g + [(r[i].1, [r[i].0])]
  {
    assert r == r[..i] + [r[i]];
    GroupSnoc(r[..i], r[i]);
    AppendToNew(g, r[i].1, r[i].0);
  }

  lemma ExampleGroup()
    ensures Group(ExampleRecords) == ExampleCommunities
  {
    var r := ExampleRecords;
    var g: Communities := [(1, [Vertex(1), Vertex(2), Vertex(3)])];
    ExampleGroupHead(r[..3]);
    assert Keys(g) == [1];
    assert r[..4][..3] == r[..3];
    ExampleGroupTail(r[..4], 3, g);
    g := g + [(2, [Vertex(4)])];
    assert Keys(g) == [1, 2];
    assert r[..5][..4] == r[..4];
    ExampleGroupTail(r[..5], 4, g);
    g := g + [(3, [Vertex(5)])];
    assert Keys(g) == [1, 2, 3];
    assert r[..6] == r && r[..6][..5] == r[..5];
    ExampleGroupTail(r, 5, g);
  }

  lemma DigitValue(lines: seq<string>, i: nat, v: nat)
    requires v < 10 && i + 1 < |lines| && lines[i + 1] == [DigitChar(v)]
    ensures IntValue(lines, i) == Ok(v)
  {
    assert IntToString(v) == [DigitChar(v)];
    ParseIntToString(v);
  }

  lemma ExampleLayer(lines: seq<string>)
    requires lines == ExampleLines
    ensures ParseFold(VertexCommunities, lines, 2) == Ok(NoData.(layer := Some("0")))
  {
    assert Strip("0") == "0";
    StepOnValueLine(VertexCommunities, lines, 1, NoData.(layer := Some("0")));
  }

  lemma ExampleVertices(lines: seq<string>, d: CommunityData)
    requires lines == ExampleLines && ParseFold(VertexCommunities, lines, 2) == Ok(d)
    ensures ParseFold(VertexCommunities, lines, 4) == Ok(d.(numVertices := Some(6)))
  {
    DigitValue(lines, 2, 6);
    StepAtVertices(VertexCommunities, lines, 2, d);
    StepOnValueLine(VertexCommunities, lines, 3, d.(numVertices := Some(6)));
  }

  lemma ExampleCount(lines: seq<string>, d: CommunityData)
    requires lines == ExampleLines && ParseFold(VertexCommunities, lines, 4) == Ok(d)
    ensures ParseFold(VertexCommunities, lines, 6) == Ok(d.(numCommunities := Some(4)))
  {
    DigitValue(lines, 4, 4);
    StepAtCount(VertexCommunities, lines, 4, d);
    StepOnValueLine(VertexCommunities, lines, 5, d.(numCommunities := Some(4)));
  }

  lemma ExampleHeaders(lines: seq<string>)
    requires lines == ExampleLines
    ensures ParseFold(VertexCommunities, lines, 6) ==
      Ok(CommunityData(Some("0"), Some(6), Some(4), None, None))
  {
    ExampleLayer(lines);
    var d := NoData.(layer := Some("0"));
    ExampleVertices(lines, d);
    ExampleCount(lines, d.(numVertices := Some(6)));
  }

  lemma ExampleAllocationHeader()
    ensures |ExampleLines| == 13 && StartsWith(ExampleLines[6], AllocationHeader(VertexCommunities))
  {
  }

  lemma ExampleAllocationStep(lines: seq<string>)
    requires lines == ExampleLines
    ensures ParseFold(VertexCommunities, lines, 7) ==
      Ok(CommunityData(Some("0"), Some(6), Some(4), None, Some(ExampleCommunities)))
  {
    ExampleHeaders(lines);
    ExampleAllocation();
    ExampleGroup();
    ExampleAllocationHeader();
    AllocationStep(VertexCommunities, lines, 6, CommunityData(Some("0"), Some(6), Some(4), None, None), ExampleRecords);
  }

  lemma ExampleRecordLines(lines: seq<string>)
    requires lines == ExampleLines
    ensures forall n :: 7 <= n < 13 ==> !IsComment(lines[n])
  {
    forall n | 7 <= n < 13 ensures !IsComment(lines[n]) {
      assert lines[n][0] != '#';
    }
  }

  lemma ExampleFile(lines: seq<string>)
    requires lines == ExampleLines
    ensures CommunityFile(VertexCommunities, lines) ==
      Ok(CommunityData(Some("0"), Some(6), Some(4), None, Some(ExampleCommunities)))
  {
    var d := CommunityData(Some("0"), Some(6), Some(4), None, Some(ExampleCommunities));
    ExampleAllocationStep(lines);
    ExampleRecordLines(lines);
    for n := 7 to 13
      invariant ParseFold(VertexCommunities, lines, n) == Ok(d)
    {
      StepOnValueLine(VertexCommunities, lines, n, d);
    }
  }

  /** A `.vcom` file declaring 6 vertices in 4 communities. */
  lemma VertexFileExample()
    ensures CommunityFile(VertexCommunities, ExampleLines) ==
      Ok(CommunityData(Some("0"), Some(6), Some(4), None, Some(ExampleCommunities)))
  {
    ExampleFile(ExampleLines);
  }
}
