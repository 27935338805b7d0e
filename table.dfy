/** Locating the data block of a sheet: the header row, the normalised
    column names, and the three columns the ingestion reads. A sheet is a
    grid of cells already converted to text (`row.astype(str)`: an empty
    cell reads `nan`). */
module Table {
  import opened Wrappers
  import opened Text

  type Row = seq<string>
  type Grid = seq<Row>

  /** The row's cells joined by spaces and lower-cased contain both
      `customer name` and `product`. */
  predicate IsHeaderRow(row: Row)
  {
    var text := Lower(Join(row, " "));
    Contains(text, "customer name") && Contains(text, "product")
  }

  /** Index of the first element at or after `i` satisfying `p`, `-1`
      when there is none. */
  function FirstFrom<T>(p: T -> bool, xs: seq<T>, i: nat): (r: int)
    requires i <= |xs|
    ensures r == -1 || i <= r < |xs|
    decreases |xs| - i
  {
    if i == |xs| then -1
    else if p(xs[i]) then i
    else FirstFrom(p, xs, i + 1)
  }

  /** `FirstFrom` finds the first element satisfying `p`, and `-1` means
      none does. */
  lemma {:induction false} FirstFromSpec<T>(p: T -> bool, xs: seq<T>, i: nat)
    requires i <= |xs|
    ensures var r := FirstFrom(p, xs, i);
            (r >= 0 ==> p(xs[r]) && forall j :: i <= j < r ==> !p(xs[j]))
            && (r == -1 <==> forall j :: i <= j < |xs| ==> !p(xs[j]))
    decreases |xs| - i
  {
    if i < |xs| && !p(xs[i]) {
      FirstFromSpec(p, xs, i + 1);
    }
  }

  /** Index of the first header row at or after `i`, `-1` when there is
      none: the value `header_idx` ends the search loop with. */
  function HeaderFrom(grid: Grid, i: nat): (r: int)
    requires i <= |grid|
    ensures r == -1 || i <= r < |grid|
  {
    FirstFrom(IsHeaderRow, grid, i)
  }

  function HeaderIndex(grid: Grid): int
  {
    HeaderFrom(grid, 0)
  }

  /** `HeaderFrom` finds the first header row, and `-1` means none. */
  lemma HeaderFromSpec(grid: Grid, i: nat)
    requires i <= |grid|
    ensures var r := HeaderFrom(grid, i);
            (r >= 0 ==> IsHeaderRow(grid[r]) && forall j :: i <= j < r ==> !IsHeaderRow(grid[j]))
            && (r == -1 <==> forall j :: i <= j < |grid| ==> !IsHeaderRow(grid[j]))
  {
    FirstFromSpec(IsHeaderRow, grid, i);
  }

  /** The header search of the ingestion loop: rows are examined in order
      and the loop stops at the first header row. */
  method FindHeader(grid: Grid) returns (idx: int)
    ensures idx == HeaderIndex(grid)
    ensures -1 <= idx < |grid|
    ensures idx >= 0 ==> IsHeaderRow(grid[idx]) && forall j :: 0 <= j < idx ==> !IsHeaderRow(grid[j])
    ensures idx == -1 <==> forall j :: 0 <= j < |grid| ==> !IsHeaderRow(grid[j])
  {
    HeaderFromSpec(grid, 0);
    idx := -1;
    var i := 0;
    while i < |grid|
      invariant 0 <= i <= |grid|
      invariant HeaderFrom(grid, i) == HeaderFrom(grid, 0)
    {
      if IsHeaderRow(grid[i]) {
        idx := i;
        break;
      }
      i := i + 1;
    }
  }

  /** The lower-cased text of a joined row contains the lower-cased text of
      each of its cells. */
  lemma {:induction false} CellInJoin(row: Row, i: nat, pat: string)
    requires i < |row| && Contains(Lower(row[i]), pat)
    ensures Contains(Lower(Join(row, " ")), pat)
    decreases |row|
  {
    if |row| > 1 {
      var rest := Join(row[1..], " ");
      if i == 0 {
        LowerContainsInConcat("", row[0], " " + rest, pat);
        assert "" + row[0] + (" " + rest) == Join(row, " ");
      } else {
        assert row[1..][i - 1] == row[i];
        CellInJoin(row[1..], i - 1, pat);
        LowerContainsInConcat(row[0] + " ", rest, "", pat);
        assert row[0] + " " + rest + "" == Join(row, " ");
      }
    }
  }

  /** A pattern in the lower-cased middle of a concatenation is in the
      lower-cased whole. */
  lemma LowerContainsInConcat(a: string, x: string, b: string, pat: string)
    requires Contains(Lower(x), pat)
    ensures Contains(Lower(a + x + b), pat)
  {
    LowerConcat(a + x, b);
    LowerConcat(a, x);
    ContainsInConcat(Lower(a), Lower(x), Lower(b), pat);
  }

  /** A row with a cell mentioning `customer name` and a cell mentioning
      `product`, in any case, is a header row. */
  lemma HeaderFromCells(row: Row, i: nat, j: nat)
    requires i < |row| && j < |row|
    requires Contains(Lower(row[i]), "customer name") && Contains(Lower(row[j]), "product")
    ensures IsHeaderRow(row)
  {
    CellInJoin(row, i, "customer name");
    CellInJoin(row, j, "product");
  }

  /** `str(c).strip().title()` */
  function ColumnName(cell: string): (r: string)
    ensures |r| <= |cell|
  {
    StripSpec(cell);
    Title(Strip(cell))
  }

  function ColumnNames(header: Row): (names: seq<string>)
    ensures |names| == |header|
    ensures forall j :: 0 <= j < |header| ==> names[j] == ColumnName(header[j])
  {
    seq(|header|, j requires 0 <= j < |header| => ColumnName(header[j]))
  }

  /** Some keyword of `keys` occurs in `name`. */
  predicate MentionsAny(name: string, keys: seq<string>)
    decreases |keys|
  {
    |keys| > 0 && (Contains(name, keys[0]) || MentionsAny(name, keys[1..]))
  }

  lemma {:induction false} MentionsAnyIff(name: string, keys: seq<string>)
    ensures MentionsAny(name, keys) <==> exists k :: 0 <= k < |keys| && Contains(name, keys[k])
    decreases |keys|
  {
    if |keys| > 0 {
      MentionsAnyIff(name, keys[1..]);
      if !Contains(name, keys[0]) && MentionsAny(name, keys[1..]) {
        var k :| 0 <= k < |keys[1..]| && Contains(name, keys[1..][k]);
        assert Contains(name, keys[k + 1]);
      }
      if exists k :: 0 <= k < |keys| && Contains(name, keys[k]) {
        var k :| 0 <= k < |keys| && Contains(name, keys[k]);
        if k > 0 {
          assert keys[1..][k - 1] == keys[k];
        }
      }
    }
  }

  /** Index of the first column, from `i` on, whose name mentions one of
      `keys`: the `next(...)` and list-comprehension-head lookups. */
  function FirstColumnWith(names: seq<string>, keys: seq<string>, i: nat): (r: Option<nat>)
    requires i <= |names|
    ensures r.Some? ==> i <= r.value < |names|
    decreases |names| - i
  {
    if i == |names| then None
    else if MentionsAny(names[i], keys) then Some(i)
    else FirstColumnWith(names, keys, i + 1)
  }

  lemma {:induction false} FirstColumnWithSpec(names: seq<string>, keys: seq<string>, i: nat)
    requires i <= |names|
    ensures var r := FirstColumnWith(names, keys, i);
            (r.Some? ==> MentionsAny(names[r.value], keys)
                         && forall j :: i <= j < r.value ==> !MentionsAny(names[j], keys))
            && (r.None? <==> forall j :: i <= j < |names| ==> !MentionsAny(names[j], keys))
    decreases |names| - i
  {
    if i < |names| && !MentionsAny(names[i], keys) {
      FirstColumnWithSpec(names, keys, i + 1);
    }
  }

  const CustomerKeys: seq<string> := ["Customer"]
  const ProductKeys: seq<string> := ["Product"]
  const QuantityKeys: seq<string> := ["Gallons", "Qty"]

  /** Positions of the customer, product and quantity columns. */
  datatype Columns = Columns(customer: nat, product: nat, quantity: nat)

  /** The three columns, or `None` when any of them is missing (the unit
      is then skipped). */
  function ResolveColumns(names: seq<string>): (r: Option<Columns>)
    ensures r.Some? ==> r.value.customer < |names| && r.value.product < |names|
                        && r.value.quantity < |names|
  {
    match (FirstColumnWith(names, CustomerKeys, 0), FirstColumnWith(names, ProductKeys, 0),
           FirstColumnWith(names, QuantityKeys, 0))
    case (Some(c), Some(p), Some(q)) => Some(Columns(c, p, q))
    case _ => None
  }

  /** The resolved columns are the first mentioning `Customer`, the first
      mentioning `Product`, and the first, in column order, mentioning
      `Gallons` or `Qty`; resolution fails exactly when one of the three
      keywords is in no column name. */
  lemma ResolveColumnsSpec(names: seq<string>)
    ensures var r := ResolveColumns(names);
            r.Some? ==>
              var cols := r.value;
              Contains(names[cols.customer], "Customer")
              && (forall j :: 0 <= j < cols.customer ==> !Contains(names[j], "Customer"))
              && Contains(names[cols.product], "Product")
              && (forall j :: 0 <= j < cols.product ==> !Contains(names[j], "Product"))
              && (Contains(names[cols.quantity], "Gallons") || Contains(names[cols.quantity], "Qty"))
              && (forall j :: 0 <= j < cols.quantity ==>
                    !Contains(names[j], "Gallons") && !Contains(names[j], "Qty"))
    ensures ResolveColumns(names).None? <==>
            (forall j :: 0 <= j < |names| ==> !Contains(names[j], "Customer"))
            || (forall j :: 0 <= j < |names| ==> !Contains(names[j], "Product"))
            || (forall j :: 0 <= j < |names| ==> !Contains(names[j], "Gallons") && !Contains(names[j], "Qty"))
  {
    FirstColumnWithSpec(names, CustomerKeys, 0);
    FirstColumnWithSpec(names, ProductKeys, 0);
    FirstColumnWithSpec(names, QuantityKeys, 0);
    forall j | 0 <= j < |names|
      ensures MentionsAny(names[j], CustomerKeys) <==> Contains(names[j], "Customer")
      ensures MentionsAny(names[j], ProductKeys) <==> Contains(names[j], "Product")
      ensures MentionsAny(names[j], QuantityKeys) <==>
              Contains(names[j], "Gallons") || Contains(names[j], "Qty")
    {
      MentionsAnyIff(names[j], CustomerKeys);
      MentionsAnyIff(names[j], ProductKeys);
      MentionsAnyIff(names[j], QuantityKeys);
    }
  }

  /** A `Qty` column before a `Gallons` column is the quantity column: the
      two keywords are searched together, not `Gallons` first. */
  lemma QtyBeforeGallons(names: seq<string>, q: nat, g: nat)
    requires q < g < |names|
    requires Contains(names[q], "Qty") && Contains(names[g], "Gallons")
    requires forall j :: 0 <= j < q ==> !Contains(names[j], "Gallons") && !Contains(names[j], "Qty")
    requires ResolveColumns(names).Some?
    ensures ResolveColumns(names).value.quantity == q
  {
    ResolveColumnsSpec(names);
  }
}
