// vizUTILS.py: classifying a dataset by its path and building the
// search-engine link shown for a node label.

module VizUtils {
  import opened Wrappers
  import opened Strings

  /** The path keywords in the order they are tried, with the dataset type
      each one selects. */
  const DatasetKeywords: seq<(string, string)> := [
    ("Airlines", "airport"),
    ("IMDb", "movies"),
    ("USCounty", "USCounty"),
    ("DBLP", "DBLP"),
    ("Accident", "Accident")
  ]

  /** `determine_dataset_type` */
  function DetermineDatasetType(path: string): string
  {
    if Contains(path, "Airlines") then "airport"
    else if Contains(path, "IMDb") then "movies"
    else if Contains(path, "USCounty") then "USCounty"
    else if Contains(path, "DBLP") then "DBLP"
    else if Contains(path, "Accident") then "Accident"
    else "unknown"
  }

  /** The type of the first keyword of the table that occurs in the path. */
  function FirstKeywordType(table: seq<(string, string)>, path: string): string
    decreases |table|
  {
    if |table| == 0 then "unknown"
    else if Contains(path, table[0].0) then table[0].1
    else FirstKeywordType(table[1..], path)
  }

  /** Classification is a priority search over the keyword table: the
      first keyword present wins, and no keyword means `unknown`. */
  lemma DatasetTypeIsFirstKeyword(path: string)
    ensures DetermineDatasetType(path) == FirstKeywordType(DatasetKeywords, path)
  {
    var t := DatasetKeywords;
    assert t[1..][1..][1..][1..][1..] == [];
  }

  predicate DistinctTypes(table: seq<(string, string)>)
  {
    (forall j, k :: 0 <= j < k < |table| ==> table[j].1 != table[k].1) &&
    (forall j :: 0 <= j < |table| ==> table[j].1 != "unknown")
  }

  /** The search yields `unknown` or the type of some entry. */
  lemma {:induction false} FirstKeywordTypeFrom(table: seq<(string, string)>, path: string)
    ensures var r := FirstKeywordType(table, path);
            r == "unknown" || exists j :: 0 <= j < |table| && r == table[j].1
    decreases |table|
  {
    if |table| > 0 && !Contains(path, table[0].0) {
      FirstKeywordTypeFrom(table[1..], path);
      var r := FirstKeywordType(table, path);
      if r != "unknown" {
        var j :| 0 <= j < |table[1..]| && r == table[1..][j].1;
        assert r == table[j + 1].1;
      }
    }
  }

  /** With distinct types, entry `i` is chosen exactly when its keyword
      occurs and no earlier keyword does. */
  lemma {:induction false} FirstKeywordExactly(table: seq<(string, string)>, path: string, i: nat)
    requires i < |table| && DistinctTypes(table)
    ensures FirstKeywordType(table, path) == table[i].1 <==>
              Contains(path, table[i].0) && forall j :: 0 <= j < i ==> !Contains(path, table[j].0)
    decreases |table|
  {
    if Contains(path, table[0].0) {
      if i > 0 {
        assert table[0].1 != table[i].1;
      }
    } else {
      assert DistinctTypes(table[1..]) by {
        forall j, k | 0 <= j < k < |table[1..]| ensures table[1..][j].1 != table[1..][k].1 {
          assert table[j + 1].1 != table[k + 1].1;
        }
      }
      if i > 0 {
        FirstKeywordExactly(table[1..], path, i - 1);
        assert forall j :: 0 <= j < i - 1 ==> table[1..][j] == table[j + 1];
        assert (forall j :: 0 <= j < i ==> !Contains(path, table[j].0)) <==>
               (forall j :: 0 <= j < i - 1 ==> !Contains(path, table[1..][j].0));
      } else {
        FirstKeywordTypeFrom(table[1..], path);
      }
    }
  }

  /** With no type named `unknown`, the search yields `unknown` exactly when
      no keyword occurs. */
  lemma {:induction false} FirstKeywordUnknown(table: seq<(string, string)>, path: string)
    requires forall j :: 0 <= j < |table| ==> table[j].1 != "unknown"
    ensures FirstKeywordType(table, path) == "unknown" <==>
              forall j :: 0 <= j < |table| ==> !Contains(path, table[j].0)
    decreases |table|
  {
    if |table| > 0 && !Contains(path, table[0].0) {
      FirstKeywordUnknown(table[1..], path);
      assert forall j :: 0 <= j < |table| - 1 ==> table[1..][j] == table[j + 1];
      assert (forall j :: 0 <= j < |table| ==> !Contains(path, table[j].0)) <==>
             (forall j :: 0 <= j < |table| - 1 ==> !Contains(path, table[1..][j].0));
    }
  }

  /** Each dataset type is chosen exactly when its keyword occurs in the
      path and no earlier keyword does. */
  lemma DatasetTypeExactly(path: string, i: nat)
    requires i < |DatasetKeywords|
    ensures DetermineDatasetType(path) == DatasetKeywords[i].1 <==>
              Contains(path, DatasetKeywords[i].0) &&
              forall j :: 0 <= j < i ==> !Contains(path, DatasetKeywords[j].0)
  {
    DatasetTypeIsFirstKeyword(path);
    FirstKeywordExactly(DatasetKeywords, path, i);
  }

  /** The type is `unknown` exactly when no keyword occurs in the path. */
  lemma DatasetTypeUnknown(path: string)
    ensures DetermineDatasetType(path) == "unknown" <==>
              forall j :: 0 <= j < |DatasetKeywords| ==> !Contains(path, DatasetKeywords[j].0)
  {
    DatasetTypeIsFirstKeyword(path);
    FirstKeywordUnknown(DatasetKeywords, path);
  }

  /** A path naming both IMDb and DBLP is a movies dataset. */
  lemma DatasetTypeExample()
    ensures DetermineDatasetType("IMDb_DBLP") == "movies"
  {
    var p := "IMDb_DBLP";
    assert StartsWith(p, "IMDb");
    assert p[0] == 'I' && p[1] == 'M';
    assert !StartsWith(p, "Airlines") && !StartsWith(p[1..], "Airlines");
    NotContainsShort(p[2..], "Airlines");
  }

  /** A pattern longer than a string never occurs in it. */
  lemma {:induction false} NotContainsShort(s: string, t: string)
    requires |t| > |s|
    ensures !Contains(s, t)
    decreases |s|
  {
    if |s| > 0 {
      NotContainsShort(s[1..], t);
    }
  }

  /** Characters `quote_plus` leaves alone: ASCII letters, digits and `_.-~`. */
  predicate IsUnreserved(c: char)
  {
    ('a' <= c <= 'z') || ('A' <= c <= 'Z') || ('0' <= c <= '9') || c == '_' || c == '.' || c == '-' || c == '~'
  }

  function HexDigit(d: nat): (c: char)
    requires d < 16
    ensures ('0' <= c <= '9') || ('A' <= c <= 'F')
  {
    if d < 10 then (('0' as int) + d) as char else (('A' as int) + d - 10) as char
  }

  /** The UTF-8 encoding of one Unicode scalar value. */
  function Utf8(c: char): (r: seq<nat>)
    ensures 1 <= |r| <= 4 && forall i :: 0 <= i < |r| ==> r[i] < 256
  {
    var n := c as int;
    if n < 0x80 then [n]
    else if n < 0x800 then [0xC0 + n / 64, 0x80 + n % 64]
    else if n < 0x10000 then [0xE0 + n / 4096, 0x80 + (n / 64) % 64, 0x80 + n % 64]
    else [0xF0 + n / 262144, 0x80 + (n / 4096) % 64, 0x80 + (n / 64) % 64, 0x80 + n % 64]
  }

  function PercentBytes(bs: seq<nat>): (r: string)
    requires forall i :: 0 <= i < |bs| ==> bs[i] < 256
    ensures |r| == 3 * |bs|
    decreases |bs|
  {
    if |bs| == 0 then ""
    else ['%', HexDigit(bs[0] / 16), HexDigit(bs[0] % 16)] + PercentBytes(bs[1..])
  }

  function QuoteChar(c: char): (r: string)
    ensures r == [c] <==> IsUnreserved(c)
  {
    if IsUnreserved(c) then [c]
    else if c == ' ' then "+"
    else PercentBytes(Utf8(c))
  }

  /** `urllib.parse.quote_plus(s)`: form encoding, a space becomes `+` and
      every other character outside the unreserved set becomes the `%XX`
      escapes of its UTF-8 bytes. */
  function QuotePlus(s: string): string
    decreases |s|
  {
    if |s| == 0 then "" else QuoteChar(s[0]) + QuotePlus(s[1..])
  }

  /** Text made of unreserved characters passes through unchanged. */
  lemma {:induction false} QuotePlusUnreserved(s: string)
    requires forall i :: 0 <= i < |s| ==> IsUnreserved(s[i])
    ensures QuotePlus(s) == s
    decreases |s|
  {
    if |s| > 0 {
      QuotePlusUnreserved(s[1..]);
      assert [s[0]] + s[1..] == s;
    }
  }

  /** The encoded text never holds a space or a comma, so it cannot break
      the query it is placed in. */
  lemma {:induction false} QuotePlusAlphabet(s: string)
    ensures forall i :: 0 <= i < |QuotePlus(s)| ==>
              var c := QuotePlus(s)[i]; IsUnreserved(c) || c == '+' || c == '%' || ('A' <= c <= 'F')
    decreases |s|
  {
    if |s| > 0 {
      QuotePlusAlphabet(s[1..]);
      var q := QuoteChar(s[0]);
      if !IsUnreserved(s[0]) && s[0] != ' ' {
        PercentAlphabet(Utf8(s[0]));
      }
      assert QuotePlus(s) == q + QuotePlus(s[1..]);
    }
  }

  lemma {:induction false} PercentAlphabet(bs: seq<nat>)
    requires forall i :: 0 <= i < |bs| ==> bs[i] < 256
    ensures forall i :: 0 <= i < |PercentBytes(bs)| ==>
              var c := PercentBytes(bs)[i]; c == '%' || ('0' <= c <= '9') || ('A' <= c <= 'F')
    decreases |bs|
  {
    if |bs| > 0 {
      PercentAlphabet(bs[1..]);
    }
  }

  const MapsQuery := "https://www.google.com/maps/search/?api=1&query="
  const SearchQuery := "https://www.google.com/search?q="

  predicate IsListedType(datasetType: string)
  {
    datasetType in {"airport", "movies", "USCounty", "DBLP", "Accident"}
  }

  /** `create_url(node_label, dataset_type)`. `Ok(None)` is the function
      returning None; `Err` is an IndexError from a nodeLabel with too few
      comma-separated fields. */
  function CreateUrl(nodeLabel: string, datasetType: string): (r: Result<Option<string>>)
    ensures !IsListedType(datasetType) || nodeLabel == "0" ==> r == Ok(None)
    ensures IsListedType(datasetType) && nodeLabel != "0" ==>
              (r.Err? <==> (datasetType == "airport" && |Split(nodeLabel, ',')| < 3) ||
                           ((datasetType == "movies" || datasetType == "DBLP") && ',' !in nodeLabel))
    ensures r.Ok? && r.value.Some? ==> StartsWith(r.value.value, MapsQuery) || StartsWith(r.value.value, SearchQuery)
  {
    if !IsListedType(datasetType) || nodeLabel == "0" then Ok(None)
    else
      var fields := Split(nodeLabel, ',');
      if datasetType == "airport" then
        if |fields| < 3 then Err
        else Ok(Some(MapsQuery + QuotePlus(fields[2]) + "+airport"))
      else if datasetType == "movies" then
        if |fields| < 2 then
          SplitWithoutSeparatorCount(nodeLabel, ',');
          Err
        else
          SplitCountHasSeparator(nodeLabel, ',');
          Ok(Some(SearchQuery + QuotePlus(fields[1] + " IMDb")))
      else if datasetType == "USCounty" then
        Ok(Some(SearchQuery + QuotePlus(nodeLabel) + "+county"))
      else if datasetType == "DBLP" then
        var parts := SplitOnce(nodeLabel, ',');
        if |parts| < 2 then Err else Ok(Some(SearchQuery + parts[1]))
      else
        Ok(Some(MapsQuery + FirstTwoFields(nodeLabel)))
  }

  /** A DBLP link searches for everything after the first comma, unencoded. */
  lemma DblpQuery(nodeLabel: string)
    requires nodeLabel != "0" && ',' in nodeLabel
    ensures exists head, q :: ',' !in head && nodeLabel == head + "," + q &&
              CreateUrl(nodeLabel, "DBLP") == Ok(Some(SearchQuery + q))
  {
    var parts := SplitOnce(nodeLabel, ',');
    assert nodeLabel == parts[0] + "," + parts[1];
    assert CreateUrl(nodeLabel, "DBLP") == Ok(Some(SearchQuery + parts[1]));
  }

  lemma {:induction false} JoinTail(f: seq<string>, sep: string)
    requires |f| > 2
    ensures Join(f, sep) == Join(f[..2], sep) + sep + Join(f[2..], sep)
  {
    assert f[1..][1..] == f[2..];
    assert f[..2][1..] == [f[1]];
  }

  /** The first two comma-separated fields of a label, rejoined. */
  function FirstTwoFields(nodeLabel: string): string
  {
    var fields := Split(nodeLabel, ',');
    Join(fields[..if |fields| < 2 then |fields| else 2], ",")
  }

  lemma AccidentUrl(nodeLabel: string)
    requires nodeLabel != "0"
    ensures CreateUrl(nodeLabel, "Accident") == Ok(Some(MapsQuery + FirstTwoFields(nodeLabel)))
  {
  }

  /** The location is the label up to its second comma, or the whole label
      when it has at most one comma. */
  lemma FirstTwoFieldsPrefix(nodeLabel: string)
    ensures StartsWith(nodeLabel, FirstTwoFields(nodeLabel))
    ensures |Split(nodeLabel, ',')| <= 2 ==> FirstTwoFields(nodeLabel) == nodeLabel
    ensures |Split(nodeLabel, ',')| > 2 ==>
              var loc := FirstTwoFields(nodeLabel);
              |loc| < |nodeLabel| && nodeLabel[|loc|] == ',' && |Split(loc, ',')| == 2
  {
    var f := Split(nodeLabel, ',');
    JoinSplit(nodeLabel, ',');
    if |f| <= 2 {
      assert f[..|f|] == f;
    } else {
      var loc := Join(f[..2], ",");
      JoinTail(f, ",");
      assert nodeLabel == loc + "," + Join(f[2..], ",");
      assert nodeLabel[..|loc|] == loc;
      assert loc == f[0] + "," + f[1];
      SplitTwo(f[0], f[1]);
    }
  }

  /** An Accident link searches for the label up to its second comma: the
      whole label when it has at most one comma. */
  lemma AccidentQuery(nodeLabel: string)
    requires nodeLabel != "0"
    ensures exists loc :: CreateUrl(nodeLabel, "Accident") == Ok(Some(MapsQuery + loc)) &&
              StartsWith(nodeLabel, loc) &&
              (|Split(nodeLabel, ',')| <= 2 ==> loc == nodeLabel) &&
              (|Split(nodeLabel, ',')| > 2 ==> |loc| < |nodeLabel| && nodeLabel[|loc|] == ',' && |Split(loc, ',')| == 2)
  {
    AccidentUrl(nodeLabel);
    FirstTwoFieldsPrefix(nodeLabel);
    var loc := FirstTwoFields(nodeLabel);
    assert CreateUrl(nodeLabel, "Accident") == Ok(Some(MapsQuery + loc));
  }

  lemma SplitTwo(a: string, b: string)
    requires ',' !in a && ',' !in b
    ensures |Split(a + "," + b, ',')| == 2
  {
    assert a + "," + b == a + [','] + b;
    SplitField(a, ',', b);
    SplitWithoutSeparator(b, ',');
  }

  /** A field boundary: the rest of a label after a field is empty or
      starts the next field. */
  predicate FieldEnd(tail: string)
  {
    tail == "" || tail[0] == ','
  }

  /** The first field of `w + tail` is `w`. */
  lemma SplitFirst(w: string, tail: string)
    requires ',' !in w && FieldEnd(tail)
    ensures Split(w + tail, ',')[0] == w
  {
    if tail == "" {
      assert w + tail == w;
      SplitWithoutSeparator(w, ',');
    } else {
      assert w + tail == w + [','] + tail[1..];
      SplitField(w, ',', tail[1..]);
    }
  }

  /** An airport link searches for the third field of the label, encoded,
      followed by `+airport`. */
  lemma AirportUrl(nodeLabel: string)
    requires nodeLabel != "0" && |Split(nodeLabel, ',')| >= 3
    ensures CreateUrl(nodeLabel, "airport") == Ok(Some(MapsQuery + QuotePlus(Split(nodeLabel, ',')[2]) + "+airport"))
  {
    assert IsListedType("airport");
  }

  /** A movie link searches for the second field of the label with ` IMDb`
      appended, the whole encoded. */
  lemma MoviesUrl(nodeLabel: string)
    requires nodeLabel != "0" && |Split(nodeLabel, ',')| >= 2
    ensures CreateUrl(nodeLabel, "movies") == Ok(Some(SearchQuery + QuotePlus(Split(nodeLabel, ',')[1] + " IMDb")))
  {
    assert IsListedType("movies");
  }

  /** The fields of `id,lat,code...` are `id`, `lat` and `code` first. */
  lemma ThreeFields(id: string, lat: string, code: string, tail: string)
    requires ',' !in id && ',' !in lat && ',' !in code && FieldEnd(tail)
    ensures var f := Split(id + "," + lat + "," + code + tail, ',');
            |f| >= 3 && f[0] == id && f[1] == lat && f[2] == code
  {
    var rest := lat + "," + code + tail;
    assert id + "," + lat + "," + code + tail == id + [','] + rest;
    SplitField(id, ',', rest);
    TwoFields(lat, code, tail);
  }

  /** The fields of `id,title...` are `id` and `title` first. */
  lemma TwoFields(id: string, title: string, tail: string)
    requires ',' !in id && ',' !in title && FieldEnd(tail)
    ensures var f := Split(id + "," + title + tail, ',');
            |f| >= 2 && f[0] == id && f[1] == title
  {
    assert id + "," + title + tail == id + [','] + (title + tail);
    SplitField(id, ',', title + tail);
    SplitFirst(title, tail);
  }

  /** For a label `id,lat,code` (maybe with more fields) the airport link
      searches for the airport code. */
  lemma AirportQuery(id: string, lat: string, code: string, tail: string)
    requires ',' !in id && ',' !in lat && ',' !in code && FieldEnd(tail)
    ensures CreateUrl(id + "," + lat + "," + code + tail, "airport") ==
              Ok(Some(MapsQuery + QuotePlus(code) + "+airport"))
  {
    var s := id + "," + lat + "," + code + tail;
    ThreeFields(id, lat, code, tail);
    assert |s| >= 2;
    AirportUrl(s);
  }

  /** For a label `id,title` (maybe with more fields) the movie link
      searches for the title. */
  lemma MoviesQuery(id: string, title: string, tail: string)
    requires ',' !in id && ',' !in title && FieldEnd(tail)
    ensures CreateUrl(id + "," + title + tail, "movies") ==
              Ok(Some(SearchQuery + QuotePlus(title + " IMDb")))
  {
    var s := id + "," + title + tail;
    TwoFields(id, title, tail);
    assert |s| >= 1 && s[|id|] == ',';
    MoviesUrl(s);
  }

  /** A county link searches for the whole label, encoded, followed by
      `+county`. */
  lemma CountyUrl(nodeLabel: string)
    requires nodeLabel != "0"
    ensures CreateUrl(nodeLabel, "USCounty") == Ok(Some(SearchQuery + QuotePlus(nodeLabel) + "+county"))
  {
    assert IsListedType("USCounty");
  }

  /** A county name of letters, digits and `_.-~` is searched for as it
      is. */
  lemma CountyQuery(nodeLabel: string)
    requires nodeLabel != "0"
    requires forall i :: 0 <= i < |nodeLabel| ==> IsUnreserved(nodeLabel[i])
    ensures CreateUrl(nodeLabel, "USCounty") == Ok(Some(SearchQuery + nodeLabel + "+county"))
  {
    CountyUrl(nodeLabel);
    QuotePlusUnreserved(nodeLabel);
  }
}
