/** The ingestion loop: every delivery-log unit (a file name and its grid
    of cells) is dated from its name, its header row is located, its
    columns resolved, and each data row after the header normalised into a
    record appended to one growing list. */
module Ingest {
  import opened Wrappers
  import opened Text
  import opened Dates
  import opened FilenameDate
  import opened Table
  import opened Normalize

  /** One CSV file: its path and its cells. */
  datatype Unit = Unit(name: string, grid: Grid)

  /** `os.path.basename` */
  function BaseName(path: string): string
  {
    AfterLast(path, '/')
  }

  /** The row loop body for one unit's columns, date and name. */
  function Normalizer(cols: Columns, date: int, source: string): Row -> Option<Record>
  {
    row => NormalizeRow(row, cols, date, source)
  }

  /** The records the rows give, in row order, `norm` deciding each row. */
  function RowsRecords(rows: seq<Row>, norm: Row -> Option<Record>): (rs: seq<Record>)
    ensures |rs| <= |rows|
  {
    if |rows| == 0 then []
    else
      var init := RowsRecords(rows[..|rows| - 1], norm);
      match norm(rows[|rows| - 1])
      case Some(r) => init + [r]
      case None => init
  }

  /** The records one unit contributes: none when its name gives no date,
      when no row is a header, or when a column is missing; otherwise the
      records of the rows after the header row. */
  function UnitRecords(u: Unit): seq<Record>
  {
    match ParseDateFromFilename(u.name)
    case None => []
    case Some(d) =>
      var h := HeaderIndex(u.grid);
      if h < 0 then []
      else
        match ResolveColumns(ColumnNames(u.grid[h]))
        case None => []
        case Some(cols) => RowsRecords(u.grid[h + 1..], Normalizer(cols, DayNumber(d), BaseName(u.name)))
  }

  /** `f` of each element of `xs`, concatenated in order. */
  function ConcatMap<T, U>(f: T -> seq<U>, xs: seq<T>): seq<U>
  {
    if |xs| == 0 then []
    else ConcatMap(f, xs[..|xs| - 1]) + f(xs[|xs| - 1])
  }

  /** The records of all units, unit after unit. */
  function AllRecords(units: seq<Unit>): seq<Record>
  {
    ConcatMap(UnitRecords, units)
  }

  /** `process_files` over units already read: the file loop appending
      each unit's records to one list. */
  method ProcessFiles(units: seq<Unit>) returns (records: seq<Record>)
    ensures records == AllRecords(units)
  {
    records := [];
    var i := 0;
    while i < |units|
      invariant 0 <= i <= |units|
      invariant records == AllRecords(units[..i])
    {
      assert units[..i + 1][..i] == units[..i];
      var rs := ReadUnit(units[i]);
      records := records + rs;
      i := i + 1;
    }
    assert units[..|units|] == units;
  }

  /** The body of the file loop for one unit: the date from the name, the
      header search, the column lookup, and the row loop. */
  method ReadUnit(u: Unit) returns (rs: seq<Record>)
    ensures rs == UnitRecords(u)
  {
    rs := [];
    var date := ParseDateFromFilename(u.name);
    if date.Some? {
      var h := FindHeader(u.grid);
      if h != -1 {
        var cols := ResolveColumns(ColumnNames(u.grid[h]));
        if cols.Some? {
          rs := ReadRows(u.grid[h + 1..], cols.value, DayNumber(date.value), BaseName(u.name));
        }
      }
    }
  }

  /** The row loop: each row after the header is normalised and kept when
      it gives a record. */
  method ReadRows(rows: seq<Row>, cols: Columns, day: int, source: string) returns (rs: seq<Record>)
    ensures rs == RowsRecords(rows, Normalizer(cols, day, source))
  {
    ghost var norm := Normalizer(cols, day, source);
    rs := [];
    var j := 0;
    while j < |rows|
      invariant 0 <= j <= |rows|
      invariant rs == RowsRecords(rows[..j], norm)
    {
      assert rows[..j + 1][..j] == rows[..j];
      var r := NormalizeRow(rows[j], cols, day, source);
      assert norm(rows[j]) == r;
      if r.Some? {
        rs := rs + [r.value];
      }
      j := j + 1;
    }
    assert rows[..|rows|] == rows;
  }

  /** A record comes from some row, and every row that normalises gives its
      record. */
  lemma {:induction false} RowsRecordsMembers(rows: seq<Row>, norm: Row -> Option<Record>)
    ensures forall r :: r in RowsRecords(rows, norm) <==>
              exists j :: 0 <= j < |rows| && norm(rows[j]) == Some(r)
    decreases |rows|
  {
    if |rows| > 0 {
      var init := rows[..|rows| - 1];
      RowsRecordsMembers(init, norm);
      forall j | 0 <= j < |init| ensures init[j] == rows[j] { }
    }
  }

  /** Mapping over a concatenation concatenates the results. */
  lemma {:induction false} ConcatMapAppend<T, U>(f: T -> seq<U>, xs: seq<T>, ys: seq<T>)
    ensures ConcatMap(f, xs + ys) == ConcatMap(f, xs) + ConcatMap(f, ys)
    decreases |ys|
  {
    if |ys| == 0 {
      assert xs + ys == xs;
    } else {
      var init := ys[..|ys| - 1];
      assert (xs + ys)[..|xs + ys| - 1] == xs + init;
      ConcatMapAppend(f, xs, init);
    }
  }

  /** The records of the units' concatenation are the concatenation of
      their records: units are independent of each other. */
  lemma AllRecordsAppend(us: seq<Unit>, vs: seq<Unit>)
    ensures AllRecords(us + vs) == AllRecords(us) + AllRecords(vs)
  {
    ConcatMapAppend(UnitRecords, us, vs);
  }

  /** A unit contributes records only if its name gives a date and some
      row is a header. */
  lemma UnitRecordsNeedHeader(u: Unit)
    requires UnitRecords(u) != []
    ensures ParseDateFromFilename(u.name).Some?
    ensures exists h :: 0 <= h < |u.grid| && IsHeaderRow(u.grid[h])
  {
    HeaderFromSpec(u.grid, 0);
  }

  /** Each record of a unit comes from a row after the header, read with
      the resolved columns, the unit's date and its base name. */
  lemma UnitRecordsSpec(u: Unit, r: Record)
    requires r in UnitRecords(u)
    ensures var d := ParseDateFromFilename(u.name);
            var h := HeaderIndex(u.grid);
            d.Some? && 0 <= h < |u.grid|
            && ResolveColumns(ColumnNames(u.grid[h])).Some?
            && r.date == DayNumber(d.value) && r.source == BaseName(u.name)
            && exists j :: h < j < |u.grid|
                 && NormalizeRow(u.grid[j], ResolveColumns(ColumnNames(u.grid[h])).value,
                                 r.date, r.source) == Some(r)
  {
    var d := ParseDateFromFilename(u.name);
    var h := HeaderIndex(u.grid);
    var cols := ResolveColumns(ColumnNames(u.grid[h])).value;
    var rows := u.grid[h + 1..];
    var norm := Normalizer(cols, DayNumber(d.value), BaseName(u.name));
    assert UnitRecords(u) == RowsRecords(rows, norm);
    RowsRecordsMembers(rows, norm);
    var k :| 0 <= k < |rows| && norm(rows[k]) == Some(r);
    NormalizeRowSpec(rows[k], cols, DayNumber(d.value), BaseName(u.name));
    assert rows[k] == u.grid[h + 1 + k];
  }

  /** A grid without a header row contributes nothing. */
  lemma NoHeaderNoRecords(u: Unit)
    requires forall j :: 0 <= j < |u.grid| ==> !IsHeaderRow(u.grid[j])
    ensures UnitRecords(u) == []
  {
    HeaderFromSpec(u.grid, 0);
  }

  /** A header without a `Gallons` or `Qty` column contributes nothing. */
  lemma NoQuantityColumnNoRecords(u: Unit)
    requires var h := HeaderIndex(u.grid);
             0 <= h < |u.grid|
             && forall c :: c in ColumnNames(u.grid[h]) ==> !Contains(c, "Gallons") && !Contains(c, "Qty")
    ensures UnitRecords(u) == []
  {
    var names := ColumnNames(u.grid[HeaderIndex(u.grid)]);
    ResolveColumnsSpec(names);
    assert forall j :: 0 <= j < |names| ==> names[j] in names;
  }

  /** Every record of every unit is well formed. */
  lemma {:induction false} AllRecordsWellFormed(units: seq<Unit>)
    ensures forall r :: r in AllRecords(units) ==> WellFormed(r)
    decreases |units|
  {
    if |units| > 0 {
      AllRecordsWellFormed(units[..|units| - 1]);
      var u := units[|units| - 1];
      forall r | r in UnitRecords(u) ensures WellFormed(r) {
        UnitRecordsSpec(u, r);
        var h := HeaderIndex(u.grid);
        var cols := ResolveColumns(ColumnNames(u.grid[h])).value;
        var j :| h < j < |u.grid| && NormalizeRow(u.grid[j], cols, r.date, r.source) == Some(r);
        NormalizeRowWellFormed(u.grid[j], cols, r.date, r.source);
      }
    }
  }

  /** Every record's date is a day of the operating year. */
  lemma {:induction false} AllRecordsInYear(units: seq<Unit>)
    ensures forall r :: r in AllRecords(units) ==> 0 <= r.date < 365
    decreases |units|
  {
    if |units| > 0 {
      AllRecordsInYear(units[..|units| - 1]);
      forall r | r in UnitRecords(units[|units| - 1]) ensures 0 <= r.date < 365 {
        UnitRecordsSpec(units[|units| - 1], r);
      }
    }
  }

  /** A one-row delivery log named `NOV 29`: its header names the three
      columns exactly, and its one data row gives one record, dated 29
      November, with the customer trimmed and upper-cased and the comma
      dropped from the quantity. */
  lemma ExampleUnit(u: Unit)
    requires u == Unit("NOV 29", [["Customer Name", "Product", "Gallons"], ["acme ", "ur", "1,250"]])
    ensures UnitRecords(u) == [Record(DayNumber(Date(11, 29)), "ACME", "UR", 1250.0, "NOV 29")]
  {
    var day := DayNumber(Date(11, 29));
    var norm := Normalizer(Columns(0, 1, 2), day, "NOV 29");
    ExampleUnitRows(u);
    ExampleRow(u.grid[1], day);
    RowsRecordsOne(u.grid[1], norm, Record(day, "ACME", "UR", 1250.0, "NOV 29"));
  }

  /** The example unit's records are those of its one data row. */
  lemma ExampleUnitRows(u: Unit)
    requires u == Unit("NOV 29", [["Customer Name", "Product", "Gallons"], ["acme ", "ur", "1,250"]])
    ensures UnitRecords(u) == RowsRecords([u.grid[1]], Normalizer(Columns(0, 1, 2), DayNumber(Date(11, 29)), "NOV 29"))
  {
    ExampleDate(u.name);
    ExampleHeaderIndex(u.grid);
    ExampleColumns(u.grid[0]);
    ExampleBaseName(u.name);
    assert u.grid[1..] == [u.grid[1]];
    UnitRecordsFromParts(u, Date(11, 29), 0, Columns(0, 1, 2));
  }

  lemma ExampleBaseName(name: string)
    requires name == "NOV 29"
    ensures BaseName(name) == name
  {
    AfterLastAbsent(name, '/');
  }

  /** The records of a unit whose date, header and columns are known. */
  lemma UnitRecordsFromParts(u: Unit, d: Date, h: nat, cols: Columns)
    requires ParseDateFromFilename(u.name) == Some(d)
    requires HeaderIndex(u.grid) == h && h < |u.grid|
    requires ResolveColumns(ColumnNames(u.grid[h])) == Some(cols)
    ensures UnitRecords(u) == RowsRecords(u.grid[h + 1..], Normalizer(cols, DayNumber(d), BaseName(u.name)))
  {
  }

  lemma RowsRecordsOne(row: Row, norm: Row -> Option<Record>, r: Record)
    requires norm(row) == Some(r)
    ensures RowsRecords([row], norm) == [r]
  {
    assert [row][..0] == [];
  }

  lemma ExampleDate(name: string)
    requires name == "NOV 29"
    ensures ParseDateFromFilename(name) == Some(Date(11, 29))
  {
    assert Upper(name) == name;
    DayPartPlain(name);
    ExampleSearch();
    TokenNov29Parses(name);
  }

  lemma ExampleHeaderIndex(grid: Grid)
    requires grid == [["Customer Name", "Product", "Gallons"], ["acme ", "ur", "1,250"]]
    ensures HeaderIndex(grid) == 0
  {
    var header := grid[0];
    assert Lower(header[0]) == "customer name";
    assert Lower(header[1]) == "product";
    OccursAtIff(Lower(header[0]), "customer name", 0);
    ContainsIff(Lower(header[0]), "customer name");
    OccursAtIff(Lower(header[1]), "product", 0);
    ContainsIff(Lower(header[1]), "product");
    HeaderFromCells(header, 0, 1);
  }

  /** The header's names are its cells, and they resolve to columns 0, 1
      and 2. */
  lemma ExampleColumns(header: Row)
    requires header == ["Customer Name", "Product", "Gallons"]
    ensures ResolveColumns(ColumnNames(header)) == Some(Columns(0, 1, 2))
  {
    ExampleNames(header);
    ExampleResolve(ColumnNames(header));
  }

  lemma ExampleNames(header: Row)
    requires header == ["Customer Name", "Product", "Gallons"]
    ensures ColumnNames(header) == header
  {
    NameCustomer(header[0]);
    NameOneWord(header[1]);
    NameOneWord(header[2]);
    NamesFixed(header);
  }

  /** A header whose every cell is its own column name names itself. */
  lemma NamesFixed(header: Row)
    requires |header| == 3
    requires ColumnName(header[0]) == header[0] && ColumnName(header[1]) == header[1]
    requires ColumnName(header[2]) == header[2]
    ensures ColumnNames(header) == header
  {
  }

  lemma ExampleResolve(names: seq<string>)
    requires names == ["Customer Name", "Product", "Gallons"]
    ensures ResolveColumns(names) == Some(Columns(0, 1, 2))
  {
    ExampleKeys(names);
    assert QuantityKeys[1..] == ["Qty"] && QuantityKeys[1..][1..] == [];
    assert MentionsAny(names[0], CustomerKeys);
    assert !MentionsAny(names[0], ProductKeys) && MentionsAny(names[1], ProductKeys);
    assert !MentionsAny(names[0], QuantityKeys) && !MentionsAny(names[1], QuantityKeys);
    assert MentionsAny(names[2], QuantityKeys);
    assert FirstColumnWith(names, CustomerKeys, 0) == Some(0);
    assert FirstColumnWith(names, ProductKeys, 1) == Some(1);
    assert FirstColumnWith(names, ProductKeys, 0) == Some(1);
    assert FirstColumnWith(names, QuantityKeys, 2) == Some(2);
    assert FirstColumnWith(names, QuantityKeys, 1) == Some(2);
    assert FirstColumnWith(names, QuantityKeys, 0) == Some(2);
  }

  lemma ExampleKeys(names: seq<string>)
    requires names == ["Customer Name", "Product", "Gallons"]
    ensures Contains(names[0], "Customer") && Contains(names[1], "Product") && Contains(names[2], "Gallons")
    ensures !Contains(names[0], "Product") && !Contains(names[0], "Gallons") && !Contains(names[0], "Qty")
    ensures !Contains(names[1], "Gallons") && !Contains(names[1], "Qty")
  {
    assert names[0][0..8] == "Customer";
    OccursAtIff(names[0], "Customer", 0);
    ContainsIff(names[0], "Customer");
    OccursAtIff(names[1], "Product", 0);
    ContainsIff(names[1], "Product");
    OccursAtIff(names[2], "Gallons", 0);
    ContainsIff(names[2], "Gallons");
    CharAbsent(names[0], "Product", 0);
    CharAbsent(names[0], "Gallons", 0);
    CharAbsent(names[0], "Qty", 0);
    CharAbsent(names[1], "Gallons", 0);
    CharAbsent(names[1], "Qty", 0);
  }

  lemma NameCustomer(c: string)
    requires c == "Customer Name"
    ensures ColumnName(c) == c
  {
    StripAt(c, 0, |c|);
    assert c[0..|c|] == c;
    forall i | 0 <= i < |c| ensures Title(c)[i] == c[i] {
      assert i == 0 || i == 8 || i == 9 || (0 < i < 8) || (9 < i < 13);
    }
  }

  /** The one-word header names are already stripped and title-cased. */
  lemma NameOneWord(c: string)
    requires c == "Product" || c == "Gallons"
    ensures ColumnName(c) == c
  {
    StripAt(c, 0, |c|);
    assert c[0..|c|] == c;
    forall i | 0 <= i < |c| ensures Title(c)[i] == c[i] {
    }
  }

  /** The data row gives the trimmed, upper-cased customer, the canonical
      product and the quantity without its comma. */
  lemma ExampleRow(row: Row, day: int)
    requires row == ["acme ", "ur", "1,250"]
    ensures NormalizeRow(row, Columns(0, 1, 2), day, "NOV 29") == Some(Record(day, "ACME", "UR", 1250.0, "NOV 29"))
  {
    ExampleCustomer(row[0]);
    ExampleProduct(row[1]);
    ThousandsSeparator();
    NormalizeRowFromParts(row, Columns(0, 1, 2), day, "NOV 29", "ACME", "UR", 1250.0);
  }

  lemma ExampleCustomer(c: string)
    requires c == "acme "
    ensures CleanText(c) == "ACME" && !RejectedCustomer("ACME")
  {
    StripAt(c, 0, 4);
    assert c[0..4] == "acme";
    assert Upper("acme") == "ACME";
    CharAbsent("ACME", "SUM OF", 0);
  }

  lemma ExampleProduct(c: string)
    requires c == "ur"
    ensures Canonicalize(CleanText(c)) == "UR"
  {
    StripAt(c, 0, 2);
    assert c[0..2] == "ur";
    assert Upper("ur") == "UR";
    CanonicalNamesFixed();
  }

  /** The record of a row whose cleaned cells are known. */
  lemma NormalizeRowFromParts(row: Row, cols: Columns, date: int, source: string, cust: string, prod: string, g: real)
    requires CleanText(Cell(row, cols.customer)) == cust && !RejectedCustomer(cust)
    requires Canonicalize(CleanText(Cell(row, cols.product))) == prod
    requires ParseQuantity(Cell(row, cols.quantity)) == Some(g) && g > 0.0
    ensures NormalizeRow(row, cols, date, source) == Some(Record(date, cust, prod, g, source))
  {
  }
}
