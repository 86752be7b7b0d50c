// create_mapper (vizCaller.py): the optional `.map` CSV file that gives a
// label or a (longitude, latitude) pair to node ids. Rows arrive already
// split into fields by the CSV reader.

module Mapper {
  import opened Wrappers
  import opened Strings
  import opened OrderedDict

  /** A label, or coordinates kept as the text `float` accepted. */
  datatype MapValue = Label(text: string) | Coord(lon: string, lat: string)

  type Row = seq<string>
  type Mapping = Dict<string, MapValue>

  predicate IsCoord(v: MapValue)
  {
    v.Coord? && IsFloatText(v.lon) && IsFloatText(v.lat)
  }

  /** What one row after the header contributes: a failure, nothing, or an
      entry for its stripped node id. An empty row has no id to read;
      coordinates that are not floats and a second field that does not
      split into exactly three parts raise. */
  function RowEntry(row: Row): (r: Result<Option<(string, MapValue)>>)
    ensures |row| == 0 ==> r.Err?
    ensures r.Ok? && r.value.Some? ==> r.value.value.0 == Strip(row[0])
    ensures r.Ok? && r.value.Some? ==>
              || (|row| == 2 && r.value.value.1 == Label(Strip(row[1])))
              || (|row| == 3 && IsCoord(r.value.value.1))
              || (|row| > 3 && ',' in row[1] && IsCoord(r.value.value.1))
    ensures |row| == 1 || (|row| > 3 && ',' !in row[1]) ==> r == Ok(None)
    ensures |row| == 2 ==> r == Ok(Some((Strip(row[0]), Label(Strip(row[1])))))
    ensures |row| == 3 ==>
              && (r.Ok? <==> IsFloatText(Strip(row[1])) && IsFloatText(Strip(row[2])))
              && (r.Ok? ==> r.value == Some((Strip(row[0]), Coord(Strip(row[1]), Strip(row[2])))))
    ensures |row| > 3 && ',' in row[1] ==>
              var p := Split(row[1], ',');
              && (r.Ok? <==> |p| == 3 && IsFloatText(p[1]) && IsFloatText(p[2]))
              && (r.Ok? ==> r.value == Some((Strip(row[0]), Coord(p[1], p[2]))))
  {
    if |row| == 0 then Err
    else
      var id := Strip(row[0]);
      if |row| == 2 then Ok(Some((id, Label(Strip(row[1])))))
      else if |row| == 3 then
        var lon, lat := Strip(row[1]), Strip(row[2]);
        if IsFloatText(lon) && IsFloatText(lat) then Ok(Some((id, Coord(lon, lat)))) else Err
      else if |row| > 3 && ',' in row[1] then
        var parts := Split(row[1], ',');
        if |parts| == 3 && IsFloatText(parts[1]) && IsFloatText(parts[2]) then
          Ok(Some((id, Coord(parts[1], parts[2]))))
        else Err
      else Ok(None)
  }

  /** Every row, read as an entry. */
  function Entries(rows: seq<Row>): (r: seq<Result<Option<(string, MapValue)>>>)
    ensures |r| == |rows|
    decreases |rows|
  {
    if |rows| == 0 then []
    else Entries(rows[..|rows| - 1]) + [RowEntry(rows[|rows| - 1])]
  }

  lemma {:induction false} EntriesAt(rows: seq<Row>, j: nat)
    requires j < |rows|
    ensures Entries(rows)[j] == RowEntry(rows[j])
    decreases |rows|
  {
    if j < |rows| - 1 {
      EntriesAt(rows[..|rows| - 1], j);
    }
  }

  /** The mapping after rows 1 to `n - 1`: each entry is stored under its
      id, replacing an earlier value. */
  function MapFold(entries: seq<Result<Option<(string, MapValue)>>>, n: nat): Result<Mapping>
    requires 1 <= n <= |entries|
  {
    if n == 1 then Ok([])
    else
      match MapFold(entries, n - 1)
      case Err => Err
      case Ok(m) =>
        match entries[n - 1]
        case Err => Err
        case Ok(None) => Ok(m)
        case Ok(Some(e)) => Ok(Put(m, e.0, e.1))
  }

  /** What create_mapper returns: `{}` without a mapping file; a file
      without even a header row raises. */
  function MapperOf(rows: seq<Row>, present: bool): Result<Mapping>
  {
    if !present then Ok([])
    else if |rows| == 0 then Err
    else MapFold(Entries(rows), |rows|)
  }

  lemma MapFoldStep(entries: seq<Result<Option<(string, MapValue)>>>, i: nat, m: Mapping)
    requires 1 <= i < |entries| && MapFold(entries, i) == Ok(m)
    ensures entries[i].Err? ==> MapFold(entries, i + 1).Err?
    ensures entries[i] == Ok(None) ==> MapFold(entries, i + 1) == Ok(m)
    ensures entries[i].Ok? && entries[i].value.Some? ==>
              MapFold(entries, i + 1) == Ok(Put(m, entries[i].value.value.0, entries[i].value.value.1))
  {
  }

  /** Reads row `i` of the file. */
  method ReadRow(rows: seq<Row>, i: nat) returns (e: Result<Option<(string, MapValue)>>)
    requires i < |rows|
    ensures e == Entries(rows)[i]
  {
    EntriesAt(rows, i);
    e := RowEntry(rows[i]);
  }

  /** The loop over the rows after the header. */
  method CreateMapper(rows: seq<Row>, present: bool) returns (r: Result<Mapping>)
    ensures r == MapperOf(rows, present)
  {
    var mapper: Mapping := [];
    if !present {
      return Ok(mapper);
    }
    if |rows| == 0 {
      return Err;
    }
    ghost var entries := Entries(rows);
    var i := 1;
    while i < |rows|
      invariant 1 <= i <= |rows|
      invariant MapFold(entries, i) == Ok(mapper)
    {
      var entry := ReadRow(rows, i);
      MapFoldStep(entries, i, mapper);
      if entry.Err? {
        MapFoldErrSticks(entries, i + 1, |rows|);
        return Err;
      }
      if entry.value.Some? {
        mapper := Put(mapper, entry.value.value.0, entry.value.value.1);
      }
      i := i + 1;
    }
    r := Ok(mapper);
  }

  lemma {:induction false} MapFoldErrSticks(entries: seq<Result<Option<(string, MapValue)>>>, n: nat, m: nat)
    requires 1 <= n <= m <= |entries| && MapFold(entries, n).Err?
    ensures MapFold(entries, m).Err?
    decreases m - n
  {
    if n < m {
      MapFoldErrSticks(entries, n + 1, m);
    }
  }

  /** The value of the last of rows 1 to `n - 1` with id `id`. */
  function LastValue(entries: seq<Result<Option<(string, MapValue)>>>, n: nat, id: string): Option<MapValue>
    requires 1 <= n <= |entries|
  {
    if n == 1 then None
    else
      match entries[n - 1]
      case Ok(Some(e)) => if e.0 == id then Some(e.1) else LastValue(entries, n - 1, id)
      case _ => LastValue(entries, n - 1, id)
  }

  lemma {:induction false} MapFoldGet(entries: seq<Result<Option<(string, MapValue)>>>, n: nat, id: string)
    requires 1 <= n <= |entries| && MapFold(entries, n).Ok?
    ensures Get(MapFold(entries, n).value, id) == LastValue(entries, n, id)
    decreases n
  {
    if n > 1 {
      MapFoldGet(entries, n - 1, id);
      match entries[n - 1]
      case Ok(Some(e)) =>
        GetPut(MapFold(entries, n - 1).value, e.0, e.1, id);
      case _ =>
    }
  }

  /** A node id maps to the value of the last row that gives it one; ids no
      row gives are absent. */
  lemma MapperGet(rows: seq<Row>, present: bool, id: string)
    requires present && MapperOf(rows, present).Ok?
    ensures |rows| >= 1
    ensures Get(MapperOf(rows, present).value, id) == LastValue(Entries(rows), |rows|, id)
  {
    MapFoldGet(Entries(rows), |rows|, id);
  }

  /** Without a mapping file the mapping is empty. */
  lemma MapperAbsent(rows: seq<Row>, id: string)
    ensures MapperOf(rows, false) == Ok([])
    ensures Get(MapperOf(rows, false).value, id).None?
  {
  }

  /** The header row is never read. */
  lemma {:induction false} HeaderIgnored(rows: seq<Row>, header: Row)
    requires |rows| >= 1
    ensures MapperOf([header] + rows[1..], true) == MapperOf(rows, true)
  {
    var rows' := [header] + rows[1..];
    forall j | 1 <= j < |rows| ensures Entries(rows')[j] == Entries(rows)[j] {
      assert rows'[j] == rows[j];
      EntriesAt(rows, j);
      EntriesAt(rows', j);
    }
    MapFoldSame(Entries(rows'), Entries(rows), |rows|);
  }

  lemma {:induction false} MapFoldSame(a: seq<Result<Option<(string, MapValue)>>>, b: seq<Result<Option<(string, MapValue)>>>, n: nat)
    requires 1 <= n <= |a| && n <= |b|
    requires forall j :: 1 <= j < n ==> a[j] == b[j]
    ensures MapFold(a, n) == MapFold(b, n)
    decreases n
  {
    if n > 1 {
      MapFoldSame(a, b, n - 1);
    }
  }
}
