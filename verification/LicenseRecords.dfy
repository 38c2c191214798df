/** The package records of the licence metadata, from its JSON form and from its CSV form. */
module LicenseRecords {
  import opened JsHeap
  import opened Csv

  const TAB: Unit := 9
  const AT: Unit := 64
  const NUL: Unit := 0

  const NAME: Text := [110, 97, 109, 101]
  const VERSIONS: Text := [118, 101, 114, 115, 105, 111, 110, 115]
  const LICENSE: Text := [108, 105, 99, 101, 110, 115, 101]
  const HEADER: Row := [NAME, VERSIONS, LICENSE]

  datatype Package = Package(name: Text, versions: seq<Text>, license: Text)

  /** One record: a package identity and its licence. */
  function Identified(name: Text, version: Text, license: Text): Text {
    name + [AT] + version + [TAB] + license
  }

  function JsonRecords(packages: seq<Package>): set<Text> {
    set i, j | 0 <= i < |packages| && 0 <= j < |packages[i].versions| ::
      Identified(packages[i].name, packages[i].versions[j], packages[i].license)
  }

  function Joined(parts: seq<Text>, separator: Unit): Text {
    if parts == [] then []
    else if |parts| == 1 then parts[0]
    else parts[0] + [separator] + Joined(parts[1..], separator)
  }

  function Split(text: Text, separator: Unit): (parts: seq<Text>)
    ensures parts != []
  {
    if text == [] then [[]]
    else
      var rest := Split(text[1..], separator);
      if text[0] == separator then [[]] + rest else [[text[0]] + rest[0]] + rest[1..]
  }

  /** Splitting undoes joining, as long as no part holds the separator. */
  lemma {:induction false} SplitOfJoined(parts: seq<Text>, separator: Unit)
    requires parts != [] && forall part :: part in parts ==> separator !in part
    ensures Split(Joined(parts, separator), separator) == parts
    decreases |parts|, if parts == [] then 0 else |parts[0]|
  {
    var head, text := parts[0], Joined(parts, separator);
    assert separator !in head;
    if head != [] {
      var shorter := [head[1..]] + parts[1..];
      forall part | part in shorter ensures separator !in part {
        assert part == head[1..] || part in parts;
      }
      SplitOfJoined(shorter, separator);
      assert shorter[1..] == parts[1..];
      assert text[1..] == Joined(shorter, separator) && text[0] == head[0];
      assert [head[0]] + head[1..] == head && parts == [head] + parts[1..];
    } else if |parts| > 1 {
      SplitOfJoined(parts[1..], separator);
      assert text[1..] == Joined(parts[1..], separator) && text[0] == separator;
      assert parts == [head] + parts[1..];
    } else {
      assert parts == [[]];
    }
  }

  /** All records of one CSV row; none if a cell or a version is empty. */
  function RowRecords(row: Row): Option<set<Text>>
    requires |row| == 3
  {
    var versions := Split(row[1], COMMA);
    if row[0] == [] || row[1] == [] || row[2] == [] || [] in versions then None
    else Some(set j | 0 <= j < |versions| :: Identified(row[0], versions[j], row[2]))
  }

  function AllRecords(rows: seq<Row>): Option<set<Text>>
    requires forall row :: row in rows ==> |row| == 3
  {
    if rows == [] then Some({}) else Merged(RowRecords(rows[0]), AllRecords(rows[1..]))
  }

  /** The header is compared after joining its cells with NUL, and every other row must have as many cells. */
  function CsvRecords(content: Text): Option<set<Text>> {
    match Parsed(content)
    case None => None
    case Some(rows) =>
      if rows == [] || Joined(rows[0], NUL) != Joined(HEADER, NUL) then None
      else if exists row :: row in rows[1..] && |row| != 3 then None
      else AllRecords(rows[1..])
  }

  /** The reader's loop over rows and versions, row by row into one set. */
  method PnpmCsvRecords(content: Text) returns (r: Option<set<Text>>)
    ensures r == CsvRecords(content)
  {
    var parsed := ParseCsv(content);
    if parsed.None? {
      return None;
    }
    var rows := parsed.value;
    if rows == [] || Joined(rows[0], NUL) != Joined(HEADER, NUL) {
      return None;
    }
    if exists row :: row in rows[1..] && |row| != 3 {
      return None;
    }
    r := ReadRows(rows[1..]);
  }

  method ReadRows(rows: seq<Row>) returns (r: Option<set<Text>>)
    requires forall row :: row in rows ==> |row| == 3
    ensures r == AllRecords(rows)
  {
    var records: set<Text> := {};
    MergedWithNothing(AllRecords(rows));
    assert rows[0..] == rows;
    for i := 0 to |rows|
      invariant AllRecords(rows) == Merged(Some(records), AllRecords(rows[i..]))
    {
      assert rows[i..][1..] == rows[i + 1..] && rows[i] in rows;
      var row := ReadRow(rows[i]);
      MergedAssociates(Some(records), row, AllRecords(rows[i + 1..]));
      if row.None? {
        return None;
      }
      records := records + row.value;
    }
    assert rows[|rows|..] == [];
    r := Some(records);
  }

  /** One row's loop over its versions. */
  method ReadRow(row: Row) returns (r: Option<set<Text>>)
    requires |row| == 3
    ensures r == RowRecords(row)
  {
    if row[0] == [] || row[1] == [] || row[2] == [] {
      return None;
    }
    var versions := Split(row[1], COMMA);
    var records: set<Text> := {};
    for j := 0 to |versions|
      invariant [] !in versions[..j]
      invariant records == set k | 0 <= k < j :: Identified(row[0], versions[k], row[2])
    {
      if versions[j] == [] {
        assert [] in versions;
        return None;
      }
      assert versions[..j + 1] == versions[..j] + [versions[j]];
      records := records + {Identified(row[0], versions[j], row[2])};
    }
    assert versions[..|versions|] == versions;
    r := Some(records);
  }

  lemma MergedAssociates(a: Option<set<Text>>, b: Option<set<Text>>, c: Option<set<Text>>)
    ensures Merged(Merged(a, b), c) == Merged(a, Merged(b, c))
  {
    if a.Some? && b.Some? && c.Some? {
      assert a.value + b.value + c.value == a.value + (b.value + c.value);
    }
  }

  lemma MergedWithNothing(r: Option<set<Text>>)
    ensures Merged(Some({}), r) == r
  {
    if r.Some? {
      assert {} + r.value == r.value;
    }
  }

  function Merged(a: Option<set<Text>>, b: Option<set<Text>>): Option<set<Text>> {
    match (a, b)
    case (Some(x), Some(y)) => Some(x + y)
    case _ => None
  }

  /** A package as the metadata admits it, whose versions hold no comma. */
  predicate Listable(p: Package) {
    p.name != [] && p.license != [] && p.versions != []
    && forall version :: version in p.versions ==> version != [] && COMMA !in version
  }

  /** A header line, then one line for each package, its fields quoted and its lines ended in any admitted way. */
  predicate Lists(lines: seq<Line>, packages: seq<Package>) {
    && |lines| == |packages| + 1 && (forall line :: line in lines ==> PrintableLine(line))
    && Texts(lines[0].cells) == HEADER
    && forall i :: 0 <= i < |packages| ==>
         Texts(lines[i + 1].cells) == [packages[i].name, Joined(packages[i].versions, COMMA), packages[i].license]
  }

  function PackageRecords(p: Package): set<Text> {
    set j | 0 <= j < |p.versions| :: Identified(p.name, p.versions[j], p.license)
  }

  lemma RowOfPackage(p: Package)
    requires Listable(p)
    ensures RowRecords([p.name, Joined(p.versions, COMMA), p.license]) == Some(PackageRecords(p))
  {
    SplitOfJoined(p.versions, COMMA);
    assert p.versions[0] in p.versions;
  }

  lemma {:induction false} JsonRecordsUnfold(packages: seq<Package>)
    requires packages != []
    ensures JsonRecords(packages) == PackageRecords(packages[0]) + JsonRecords(packages[1..])
  {
    var p := packages[0];
    forall r | r in JsonRecords(packages) ensures r in PackageRecords(p) + JsonRecords(packages[1..]) {
      var i, j :| 0 <= i < |packages| && 0 <= j < |packages[i].versions|
        && r == Identified(packages[i].name, packages[i].versions[j], packages[i].license);
      if i > 0 {
        assert packages[1..][i - 1] == packages[i];
      }
    }
    forall r | r in JsonRecords(packages[1..]) ensures r in JsonRecords(packages) {
      var i, j :| 0 <= i < |packages| - 1 && 0 <= j < |packages[1..][i].versions|
        && r == Identified(packages[1..][i].name, packages[1..][i].versions[j], packages[1..][i].license);
      assert packages[i + 1] == packages[1..][i];
    }
  }

  lemma {:induction false} RecordsOfPackages(rows: seq<Row>, packages: seq<Package>)
    requires |rows| == |packages| && forall p :: p in packages ==> Listable(p)
    requires forall i :: 0 <= i < |rows| ==>
      rows[i] == [packages[i].name, Joined(packages[i].versions, COMMA), packages[i].license]
    ensures AllRecords(rows) == Some(JsonRecords(packages))
  {
    if rows == [] {
      assert JsonRecords(packages) == {};
    } else {
      RowOfPackage(packages[0]);
      RecordsOfPackages(rows[1..], packages[1..]);
      JsonRecordsUnfold(packages);
    }
  }

  lemma {:induction false} RowsOfLines(lines: seq<Line>)
    ensures |Rows(lines)| == |lines| && forall i :: 0 <= i < |lines| ==> Rows(lines)[i] == Texts(lines[i].cells)
  {
    if lines != [] {
      RowsOfLines(lines[1..]);
    }
  }

  /** Metadata printed as CSV reads back as the records of its JSON form. */
  lemma PrintedRecordsReadBack(lines: seq<Line>, packages: seq<Package>)
    requires Lists(lines, packages) && forall p :: p in packages ==> Listable(p)
    ensures CsvRecords(PrintLines(lines)) == Some(JsonRecords(packages))
  {
    ParsePrinted(lines);
    RowsOfLines(lines);
    var rows := Rows(lines)[1..];
    assert forall i :: 0 <= i < |rows| ==> rows[i] == Texts(lines[i + 1].cells);
    RecordsOfPackages(rows, packages);
  }

  /** The members of one set that the other lacks; `sort` only orders them. */
  function Difference(left: set<Text>, right: set<Text>): set<Text> {
    set r | r in left && r !in right
  }

  datatype Finding = Missing(records: set<Text>) | Unexpected(records: set<Text>)

  /** What the JSON form has and the CSV form lacks, then the other way round, each only if there is any. */
  function Findings(json: set<Text>, csv: set<Text>): seq<Finding> {
    (if Difference(json, csv) == {} then [] else [Missing(Difference(json, csv))])
    + (if Difference(csv, json) == {} then [] else [Unexpected(Difference(csv, json))])
  }

  /** Nothing is reported exactly when both sides hold the same records. */
  method ComparePnpmCsv(content: Text, packages: seq<Package>) returns (findings: Option<seq<Finding>>)
    ensures findings.Some? <==> CsvRecords(content).Some?
    ensures findings == Some([]) <==> CsvRecords(content) == Some(JsonRecords(packages))
    ensures findings.Some? ==> findings.value == Findings(JsonRecords(packages), CsvRecords(content).value)
  {
    var csvRecords := PnpmCsvRecords(content);
    if csvRecords.None? {
      return None;
    }
    var jsonRecords := JsonRecords(packages);
    var missing := Difference(jsonRecords, csvRecords.value);
    var list: seq<Finding> := [];
    if missing != {} {
      list := list + [Missing(missing)];
    }
    var unexpected := Difference(csvRecords.value, jsonRecords);
    if unexpected != {} {
      list := list + [Unexpected(unexpected)];
    }
    SameByDifferences(jsonRecords, csvRecords.value);
    findings := Some(list);
  }

  lemma SameByDifferences(a: set<Text>, b: set<Text>)
    ensures a == b <==> Difference(a, b) == {} && Difference(b, a) == {}
  {
    if Difference(a, b) == {} && Difference(b, a) == {} {
      forall r ensures r in a <==> r in b {
        assert r in Difference(a, b) <==> r in a && r !in b;
        assert r in Difference(b, a) <==> r in b && r !in a;
      }
    }
  }
}
