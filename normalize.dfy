/** Turning one data row into a delivery record: the customer reject
    list, product canonicalisation by the ordered product map, and the
    comma-stripped quantity with its positivity gate. */
module Normalize {
  import opened Wrappers
  import opened Text
  import opened Numbers
  import opened Table

  /** The product map in its listed order: a key and the canonical name
      it stands for. */
  const ProductMap: seq<(string, string)> :=
    [("LD", "LD"), ("LD-DYED", "LD-Dyed"), ("LD - DYED", "LD-Dyed"), ("UR", "UR"),
     ("LP", "LP"), ("UNLEADED", "UR"), ("RED DIESEL", "LD-Dyed"), ("CLEAR DIESEL", "LD")]

  /** Index of the first key, from entry `i` on, that occurs in `prod`. */
  function FirstProductKey(prod: string, i: nat): (r: Option<nat>)
    requires i <= |ProductMap|
    ensures r.Some? ==> i <= r.value < |ProductMap|
    decreases |ProductMap| - i
  {
    if i == |ProductMap| then None
    else if Contains(prod, ProductMap[i].0) then Some(i)
    else FirstProductKey(prod, i + 1)
  }

  lemma {:induction false} FirstProductKeySpec(prod: string, i: nat)
    requires i <= |ProductMap|
    ensures var r := FirstProductKey(prod, i);
            (r.Some? ==> Contains(prod, ProductMap[r.value].0)
                         && forall j :: i <= j < r.value ==> !Contains(prod, ProductMap[j].0))
            && (r.None? <==> forall j :: i <= j < |ProductMap| ==> !Contains(prod, ProductMap[j].0))
    decreases |ProductMap| - i
  {
    if i < |ProductMap| && !Contains(prod, ProductMap[i].0) {
      FirstProductKeySpec(prod, i + 1);
    }
  }

  /** The canonical product name: the value of the first key occurring in
      the (upper-cased) product, or the product itself. */
  function Canonicalize(prod: string): string
  {
    match FirstProductKey(prod, 0)
    case Some(k) => ProductMap[k].1
    case None => prod
  }

  /** The canonical name is the value of the first key, in listed order,
      that is a substring of the product; with no such key the product is
      passed through unchanged. */
  lemma CanonicalizeSpec(prod: string)
    ensures (exists k :: 0 <= k < |ProductMap| && Contains(prod, ProductMap[k].0)
               && (forall j :: 0 <= j < k ==> !Contains(prod, ProductMap[j].0))
               && Canonicalize(prod) == ProductMap[k].1)
            || ((forall j :: 0 <= j < |ProductMap| ==> !Contains(prod, ProductMap[j].0))
               && Canonicalize(prod) == prod)
  {
    FirstProductKeySpec(prod, 0);
  }

  /** Every product containing `LD` becomes `LD`, dyed or not. */
  lemma ContainsLDIsLD(prod: string)
    requires Contains(prod, "LD")
    ensures Canonicalize(prod) == "LD"
  {
  }

  /** Every text containing `LD-DYED` or `LD - DYED` contains `LD`. */
  lemma DyedKeysContainLD(prod: string)
    requires Contains(prod, "LD-DYED") || Contains(prod, "LD - DYED")
    ensures Contains(prod, "LD")
  {
    if Contains(prod, "LD-DYED") {
      assert "LD-DYED"[..2] == "LD";
      ContainsPrefix(prod, "LD-DYED", "LD");
    } else {
      assert "LD - DYED"[..2] == "LD";
      ContainsPrefix(prod, "LD - DYED", "LD");
    }
  }

  /** So the entries `LD-DYED` and `LD - DYED` never decide: the map never
      yields `LD-Dyed` through them. */
  lemma DyedKeysShadowed(prod: string)
    ensures FirstProductKey(prod, 0) != Some(1) && FirstProductKey(prod, 0) != Some(2)
  {
    FirstProductKeySpec(prod, 0);
    if FirstProductKey(prod, 0) == Some(1) || FirstProductKey(prod, 0) == Some(2) {
      DyedKeysContainLD(prod);
    }
  }

  /** The letter pairs that open the keys before `RED DIESEL` do not
      appear in `RED DIESEL BULK`. */
  lemma RedDieselNoLD() ensures NoPairFrom("RED DIESEL BULK", 'L', 'D', 0) { }
  lemma RedDieselNoUR() ensures NoPairFrom("RED DIESEL BULK", 'U', 'R', 0) { }
  lemma RedDieselNoLP() ensures NoPairFrom("RED DIESEL BULK", 'L', 'P', 0) { }
  lemma RedDieselNoUN() ensures NoPairFrom("RED DIESEL BULK", 'U', 'N', 0) { }

  lemma RedDieselBulkKeys(p: string)
    requires p == "RED DIESEL BULK"
    ensures forall j :: 0 <= j < 6 ==> !Contains(p, ProductMap[j].0)
    ensures Contains(p, "RED DIESEL")
  {
    RedDieselNoLD();
    RedDieselNoUR();
    RedDieselNoLP();
    RedDieselNoUN();
    PairAbsent(p, "LD");
    if Contains(p, "LD-DYED") || Contains(p, "LD - DYED") {
      DyedKeysContainLD(p);
    }
    PairAbsent(p, "UR");
    PairAbsent(p, "LP");
    PairAbsent(p, "UNLEADED");
    RedDieselPrefix(p);
  }

  lemma RedDieselPrefix(p: string)
    requires p == "RED DIESEL BULK"
    ensures Contains(p, "RED DIESEL")
  {
    assert p[0..10] == "RED DIESEL" by {
      assert forall k :: 0 <= k < 10 ==> p[k] == "RED DIESEL"[k];
    }
    OccursAtIff(p, "RED DIESEL", 0);
  }

  /** `RED DIESEL BULK` contains no earlier key, so it is dyed diesel. */
  lemma RedDieselBulk()
    ensures Canonicalize("RED DIESEL BULK") == "LD-Dyed"
  {
    RedDieselBulkKeys("RED DIESEL BULK");
    FirstProductKeySpec("RED DIESEL BULK", 0);
    assert FirstProductKey("RED DIESEL BULK", 6) == Some(6);
  }

  /** The canonical names `LD`, `UR` and `LP` map to themselves. */
  lemma CanonicalNamesFixed()
    ensures Canonicalize("LD") == "LD"
    ensures Canonicalize("UR") == "UR"
    ensures Canonicalize("LP") == "LP"
  {
    assert OccursAt("LD", "LD", 0) && OccursAt("UR", "UR", 0) && OccursAt("LP", "LP", 0);
    CharAbsent("UR", "LD", 0);
    CharAbsent("LP", "LD", 1);
    CharAbsent("LP", "LD-DYED", 1);
    CharAbsent("LP", "LD - DYED", 1);
    CharAbsent("LP", "UR", 0);
    assert FirstProductKey("LP", 4) == Some(4);
  }

  /** But `LD-Dyed`, read again as a product, becomes `LD`: canonicalisation
      is not idempotent. */
  lemma DyedNameNotFixed()
    ensures Canonicalize(Upper("LD-Dyed")) == "LD"
  {
    assert Upper("LD-Dyed")[0] == 'L' && Upper("LD-Dyed")[1] == 'D';
    assert OccursAt(Upper("LD-Dyed"), "LD", 0);
  }

  /** A blank product is kept: an empty cell, read as `nan`, gives the
      product `NAN`, and a cell of whitespace only gives the empty name. */
  lemma BlankProductKept(ws: string)
    requires |ws| > 0 && forall k :: 0 <= k < |ws| ==> IsSpace(ws[k])
    ensures Canonicalize(CleanText("nan")) == "NAN"
    ensures Canonicalize(CleanText(ws)) == ""
  {
    var n := CleanText("nan");
    assert n == "NAN";
    NoKeyPassesThrough(n);
    StripSpec(ws);
    var e := CleanText(ws);
    assert e == "";
    NoKeyPassesThrough(e);
  }

  /** A product with no `L`, `U`, `R` or `C` contains no key of the map
      and is passed through. */
  lemma NoKeyPassesThrough(p: string)
    requires 'L' !in p && 'U' !in p && 'R' !in p && 'C' !in p
    ensures Canonicalize(p) == p
  {
    forall j | 0 <= j < |ProductMap| ensures !Contains(p, ProductMap[j].0) {
      CharAbsent(p, ProductMap[j].0, 0);
    }
    FirstProductKeySpec(p, 0);
  }

  /** Customers that are not deliveries: blanks, `nan` cells and total
      lines. `NONE` is not on the list. */
  predicate RejectedCustomer(cust: string)
  {
    cust in ["NAN", "", "TOTAL", "GRAND TOTAL"] || Contains(cust, "SUM OF")
  }

  /** The text of cell `j` of a row; a row too short to have it reads as
      an empty cell, `nan`. */
  function Cell(row: Row, j: nat): string
  {
    if j < |row| then row[j] else "nan"
  }

  /** `str(cell).strip().upper()` */
  function CleanText(cell: string): string
  {
    Upper(Strip(cell))
  }

  /** `float(str(cell).replace(',', ''))` */
  function ParseQuantity(cell: string): Option<real>
  {
    ParseFloat(RemoveAll(cell, ","))
  }

  /** A comma anywhere in the cell is ignored. */
  lemma QuantityIgnoresComma(a: string, b: string)
    ensures ParseQuantity(a + "," + b) == ParseQuantity(a + b)
  {
    RemoveCharConcat(a + ",", b, ',', 0);
    RemoveCharConcat(a, ",", ',', 0);
    OccursChar(",", ',', 0);
    assert RemoveFrom(",", ",", 0) == RemoveFrom(",", ",", 1) == [];
    RemoveCharConcat(a, b, ',', 0);
    assert RemoveAll(a + "," + b, ",") == RemoveAll(a + b, ",");
  }

  lemma ThousandsText(q: string)
    requires q == "1,250"
    ensures RemoveAll(q, ",") == "1250"
  {
    QuantityIgnoresComma("1", "250");
    RemoveFromSkip(q, ",", 0, 1);
    OccursChar(q, ',', 1);
    assert RemoveFrom(q, ",", 1) == RemoveFrom(q, ",", 2);
    RemoveFromSkip(q, ",", 2, 5);
    assert q[0..1] + q[2..5] == "1250";
  }

  /** `1,250` is read as 1250. */
  lemma PlainThousand(q: string)
    requires q == "1250"
    ensures ParseFloat(q) == Some(1250.0)
  {
    ParseFloatDigits(q);
    DigitsThousand();
  }

  lemma DigitsThousand()
    ensures DigitsValue("1250") == 1250
  {
    assert DigitsValue("1") == 1;
    assert "12"[..1] == "1" && DigitsValue("12") == 12;
    assert "125"[..2] == "12" && DigitsValue("125") == 125;
    assert "1250"[..3] == "125";
  }

  lemma ThousandsSeparator()
    ensures ParseQuantity("1,250") == Some(1250.0)
  {
    ThousandsText("1,250");
    PlainThousand("1250");
  }

  /** A delivery record. `date` is the day number of the file's date. */
  datatype Record = Record(date: int, customer: string, product: string, gallons: real, source: string)

  /** The row loop body: `None` where the row is skipped (rejected
      customer, unreadable or non-positive quantity), otherwise the record
      it appends. */
  function NormalizeRow(row: Row, cols: Columns, date: int, source: string): Option<Record>
  {
    var cust := CleanText(Cell(row, cols.customer));
    if RejectedCustomer(cust) then None
    else
      var prod := CleanText(Cell(row, cols.product));
      match ParseQuantity(Cell(row, cols.quantity))
      case None => None
      case Some(g) =>
        if g > 0.0 then Some(Record(date, cust, Canonicalize(prod), g, source)) else None
  }

  /** A row yields a record exactly when its customer is not rejected and
      its quantity reads as a positive number; the record then carries the
      file's date and name, the cleaned customer, the canonical product and
      that quantity. */
  lemma NormalizeRowSpec(row: Row, cols: Columns, date: int, source: string)
    ensures var cust := CleanText(Cell(row, cols.customer));
            var q := ParseQuantity(Cell(row, cols.quantity));
            NormalizeRow(row, cols, date, source).Some? <==>
              !RejectedCustomer(cust) && q.Some? && q.value > 0.0
    ensures var r := NormalizeRow(row, cols, date, source);
            r.Some? ==>
              r.value.date == date && r.value.source == source
              && r.value.customer == CleanText(Cell(row, cols.customer))
              && r.value.product == Canonicalize(CleanText(Cell(row, cols.product)))
              && Some(r.value.gallons) == ParseQuantity(Cell(row, cols.quantity))
  {
  }

  /** What every record satisfies. */
  predicate WellFormed(r: Record)
  {
    r.gallons > 0.0 && !RejectedCustomer(r.customer) && r.customer != ""
    && Upper(r.customer) == r.customer
  }

  /** Upper-casing twice changes nothing more. */
  lemma UpperIdempotent(s: string)
    ensures Upper(Upper(s)) == Upper(s)
  {
  }

  /** Every record has a positive quantity and a non-empty, upper-case
      customer off the reject list. */
  lemma NormalizeRowWellFormed(row: Row, cols: Columns, date: int, source: string)
    requires NormalizeRow(row, cols, date, source).Some?
    ensures WellFormed(NormalizeRow(row, cols, date, source).value)
  {
    UpperIdempotent(Strip(Cell(row, cols.customer)));
  }

  /** The customer is compared after trimming and upper-casing, so case
      and surrounding whitespace do not matter. */
  lemma CustomerCaseInsensitive(row1: Row, row2: Row, cols: Columns, date: int, source: string)
    requires CleanText(Cell(row1, cols.customer)) == CleanText(Cell(row2, cols.customer))
    requires Cell(row1, cols.product) == Cell(row2, cols.product)
    requires Cell(row1, cols.quantity) == Cell(row2, cols.quantity)
    ensures NormalizeRow(row1, cols, date, source) == NormalizeRow(row2, cols, date, source)
  {
  }

  /** A quantity written with a minus sign never passes the gate. */
  lemma NegativeQuantitySkipped(row: Row, cols: Columns, date: int, source: string)
    requires var t := Strip(RemoveAll(Cell(row, cols.quantity), ","));
             |t| > 0 && t[0] == '-'
    ensures NormalizeRow(row, cols, date, source).None?
  {
  }

  /** A quantity with no digit in it cannot be read and skips the row. */
  lemma UnreadableQuantitySkipped(row: Row, cols: Columns, date: int, source: string)
    requires var q := RemoveAll(Cell(row, cols.quantity), ",");
             forall k :: 0 <= k < |q| ==> !IsDigit(q[k])
    ensures NormalizeRow(row, cols, date, source).None?
  {
    var q := RemoveAll(Cell(row, cols.quantity), ",");
    if ParseFloat(q).Some? {
      ParseFloatNeedsDigit(q);
    }
  }
}
