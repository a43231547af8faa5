/** The three normalisations of etl/etl_pipeline.py. Each one reads a
    column of the caller's frame, converts it cell by cell and writes it
    back into the same frame; the frame keeps every row. The string
    parsers behind pd.to_numeric and pd.to_datetime are parameters: a
    parser returns None for text it cannot read, and the normalisation
    turns that into a missing cell instead of raising. */
module Normalize {

  import opened Wrappers
  import opened Calendar
  import opened Text
  import opened Frames

  const Price := "price"
  const Email := "email"
  const OrderDate := "order_date"
  const UnitPrice := "unit_price"
  const Quantity := "quantity"
  const TotalAmount := "total_amount"

  // ---------------------------------------------------------------- cells

  /** pd.to_numeric(errors='coerce') on one cell: numbers stay, text is
      parsed, anything else or anything unparseable becomes missing. */
  function ToNumeric(parseNumber: string -> Option<real>, v: Value): (r: Value)
    ensures r.Num? || r.Missing?
    ensures v.Num? ==> r == v
    ensures v.Missing? ==> r.Missing?
  {
    match v
    case Num(_) => v
    case Str(s) => if parseNumber(s).Some? then Num(parseNumber(s).value) else Missing
    case _ => Missing
  }

  /** pd.to_datetime(errors='coerce') on one cell: a timestamp stays, text
      is parsed, and a parse that fails or gives a day outside the
      Timestamp range becomes missing (NaT). */
  function ToDatetime(parseDate: string -> Option<Date>, v: Value): (r: Value)
    ensures r.Stamp? || r.Missing?
    ensures v.Stamp? ==> r == v
    ensures v.Missing? ==> r.Missing?
  {
    match v
    case Stamp(_) => v
    case Str(s) =>
      if parseDate(s).Some? && InTimestampRange(parseDate(s).value)
      then Stamp(parseDate(s).value) else Missing
    case _ => Missing
  }

  /** .str.lower().str.strip() on one cell: text is normalised, and any
      other cell (missing, or not text) gives missing. */
  function CleanEmail(v: Value): (r: Value)
    ensures r.Str? <==> v.Str?
  {
    if v.Str? then Str(Clean(v.s)) else Missing
  }

  /** unit_price * quantity on one row: a missing factor makes the product
      missing. */
  function Times(a: Value, b: Value): (r: Value)
    ensures r.Num? <==> a.Num? && b.Num?
  {
    if a.Num? && b.Num? then Num(a.x * b.x) else Missing
  }

  // -------------------------------------------------------------- columns

  /** pd.to_numeric(errors='coerce') on a whole column. */
  function NumericValues(parseNumber: string -> Option<real>, vs: seq<Value>): (r: seq<Value>)
    ensures |r| == |vs|
    ensures forall i :: 0 <= i < |vs| ==>
      && (r[i].Num? || r[i].Missing?)
      && (vs[i].Num? ==> r[i] == vs[i])
      && (vs[i].Missing? ==> r[i].Missing?)
  {
    seq(|vs|, i requires 0 <= i < |vs| => ToNumeric(parseNumber, vs[i]))
  }

  /** pd.to_datetime(errors='coerce') on a whole column. */
  function DatetimeValues(parseDate: string -> Option<Date>, vs: seq<Value>): (r: seq<Value>)
    ensures |r| == |vs|
    ensures forall i :: 0 <= i < |vs| ==>
      && (r[i].Stamp? || r[i].Missing?)
      && (vs[i].Stamp? ==> r[i] == vs[i])
      && (vs[i].Missing? ==> r[i].Missing?)
  {
    seq(|vs|, i requires 0 <= i < |vs| => ToDatetime(parseDate, vs[i]))
  }

  /** .str.lower().str.strip() on a whole column. */
  function CleanValues(vs: seq<Value>): (r: seq<Value>)
    ensures |r| == |vs|
    ensures forall i :: 0 <= i < |vs| ==> (r[i].Str? <==> vs[i].Str?)
  {
    seq(|vs|, i requires 0 <= i < |vs| => CleanEmail(vs[i]))
  }

  /** The element-wise product of two columns. */
  function TimesValues(a: seq<Value>, b: seq<Value>): (r: seq<Value>)
    requires |a| == |b|
    ensures |r| == |a|
    ensures forall i :: 0 <= i < |a| ==> (r[i].Num? <==> a[i].Num? && b[i].Num?)
  {
    seq(|a|, i requires 0 <= i < |a| => Times(a[i], b[i]))
  }

  /** Whether the .str accessor accepts the column: a column read from CSV
      is text when some cell is text, and numeric (including all-missing)
      otherwise; an empty column is accepted. */
  predicate TextColumn(vs: seq<Value>)
    ensures (exists i :: 0 <= i < |vs| && vs[i].Str?) ==> TextColumn(vs)
    ensures |vs| > 0 && (forall i :: 0 <= i < |vs| ==> vs[i].Missing? || vs[i].Num?) ==> !TextColumn(vs)
  {
    |vs| == 0 || exists i :: 0 <= i < |vs| && vs[i].Str?
  }

  /** after has the same columns as before and differs at most in cols. */
  predicate ChangedOnly(before: Row, after: Row, cols: set<string>) {
    && after.Keys == before.Keys
    && forall c :: c in before && c !in cols ==> after[c] == before[c]
  }

  // ------------------------------------------------------------- products

  /** normalize_products on a frame's value. */
  function ProductsSpec(parseNumber: string -> Option<real>, t: Table): (r: Outcome)
    requires WellFormed(t)
    ensures WellFormed(r.table) && r.table.columns == t.columns && |r.table.rows| == |t.rows|
    ensures r.status == if Price in t.columns then Ok else Raised(KeyError(Price))
    ensures r.status.Raised? ==> r.table == t
    ensures r.status.Ok? ==> forall i :: 0 <= i < |t.rows| ==>
      && ChangedOnly(t.rows[i], r.table.rows[i], {Price})
      && r.table.rows[i][Price] == ToNumeric(parseNumber, t.rows[i][Price])
  {
    if Price !in t.columns then Outcome(Raised(KeyError(Price)), t)
    else Outcome(Ok, Assign(t, Price, NumericValues(parseNumber, Column(t, Price))))
  }

  /** Every price after normalisation is a number or missing, and a price
      that was already a number is kept. */
  lemma ProductsPrices(parseNumber: string -> Option<real>, t: Table)
    requires WellFormed(t) && Price in t.columns
    ensures var r := ProductsSpec(parseNumber, t);
      forall i :: 0 <= i < |r.table.rows| ==>
        && (r.table.rows[i][Price].Num? || r.table.rows[i][Price].Missing?)
        && (t.rows[i][Price].Num? ==> r.table.rows[i][Price] == t.rows[i][Price])
        && (t.rows[i][Price].Missing? ==> r.table.rows[i][Price].Missing?)
  {
  }

  /** Normalising the products a second time changes nothing. */
  lemma ProductsIdempotent(parseNumber: string -> Option<real>, t: Table)
    requires WellFormed(t)
    ensures var r := ProductsSpec(parseNumber, t);
      ProductsSpec(parseNumber, r.table) == r
  {
    var r := ProductsSpec(parseNumber, t);
    if r.status.Ok? {
      var u := r.table;
      assert NumericValues(parseNumber, Column(u, Price)) == Column(u, Price);
      AssignOwnColumn(u, Price);
    }
  }

  /** normalize_products (etl/etl_pipeline.py:20-22): price is replaced in
      the caller's frame. */
  method NormalizeProducts(df: Frame, parseNumber: string -> Option<real>) returns (status: Status)
    requires df.Valid()
    modifies df
    ensures df.Valid()
    ensures Outcome(status, df.Snapshot()) == ProductsSpec(parseNumber, old(df.Snapshot()))
  {
    if Price !in df.columns {
      return Raised(KeyError(Price));
    }
    df.Set(Price, NumericValues(parseNumber, df.Get(Price)));
    status := Ok;
  }

  // ------------------------------------------------------------ customers

  /** normalize_customers on a frame's value. */
  function CustomersSpec(t: Table): (r: Outcome)
    requires WellFormed(t)
    ensures WellFormed(r.table) && r.table.columns == t.columns && |r.table.rows| == |t.rows|
    ensures r.status ==
      if Email !in t.columns then Raised(KeyError(Email))
      else if !TextColumn(Column(t, Email)) then Raised(AttributeError(Email))
      else Ok
    ensures r.status.Raised? ==> r.table == t
    ensures r.status.Ok? ==> forall i :: 0 <= i < |t.rows| ==>
      && ChangedOnly(t.rows[i], r.table.rows[i], {Email})
      && r.table.rows[i][Email] == CleanEmail(t.rows[i][Email])
  {
    if Email !in t.columns then Outcome(Raised(KeyError(Email)), t)
    else if !TextColumn(Column(t, Email)) then Outcome(Raised(AttributeError(Email)), t)
    else Outcome(Ok, Assign(t, Email, CleanValues(Column(t, Email))))
  }

  /** Each present email becomes its lower-cased, stripped form, which has
      no upper-case letter and no surrounding whitespace; a missing email
      stays missing. */
  lemma CustomersEmails(t: Table)
    requires WellFormed(t)
    ensures var r := CustomersSpec(t);
      r.status.Ok? ==> forall i :: 0 <= i < |t.rows| ==>
        var before, after := t.rows[i][Email], r.table.rows[i][Email];
        && (before.Str? ==> after == Str(Strip(Lower(before.s))) && IsClean(after.s))
        && (!before.Str? ==> after.Missing?)
  {
    var r := CustomersSpec(t);
    if r.status.Ok? {
      forall i | 0 <= i < |t.rows| && t.rows[i][Email].Str?
        ensures IsClean(r.table.rows[i][Email].s)
      {
        CleanIsClean(t.rows[i][Email].s);
      }
    }
  }

  /** Normalising the customers a second time changes nothing. */
  lemma CustomersIdempotent(t: Table)
    requires WellFormed(t)
    ensures var r := CustomersSpec(t);
      CustomersSpec(r.table) == r
  {
    var r := CustomersSpec(t);
    if r.status.Ok? {
      var vs := Column(t, Email);
      ColumnOfAssign(t, Email, CleanValues(vs));
      CleanedColumnIsFixed(vs);
      AssignOwnColumn(r.table, Email);
    }
  }

  /** Cleaning an email column that was already cleaned changes nothing,
      and a cleaned text column is still text. */
  lemma CleanedColumnIsFixed(vs: seq<Value>)
    ensures CleanValues(CleanValues(vs)) == CleanValues(vs)
    ensures TextColumn(vs) ==> TextColumn(CleanValues(vs))
  {
    var ws := CleanValues(vs);
    forall i | 0 <= i < |vs|
      ensures CleanEmail(ws[i]) == ws[i]
    {
      CleanedCellIsFixed(vs[i]);
    }
    assert CleanValues(ws) == ws;
    CleanedColumnIsText(vs);
  }

  lemma CleanedColumnIsText(vs: seq<Value>)
    ensures TextColumn(vs) ==> TextColumn(CleanValues(vs))
  {
    if |vs| > 0 && TextColumn(vs) {
      var k :| 0 <= k < |vs| && vs[k].Str?;
      assert CleanValues(vs)[k].Str?;
    }
  }

  lemma CleanedCellIsFixed(v: Value)
    ensures CleanEmail(CleanEmail(v)) == CleanEmail(v)
  {
    if v.Str? {
      CleanIdempotent(v.s);
    }
  }

  /** normalize_customers (etl/etl_pipeline.py:24-26): email is replaced in
      the caller's frame. */
  method NormalizeCustomers(df: Frame) returns (status: Status)
    requires df.Valid()
    modifies df
    ensures df.Valid()
    ensures Outcome(status, df.Snapshot()) == CustomersSpec(old(df.Snapshot()))
  {
    if Email !in df.columns {
      return Raised(KeyError(Email));
    }
    var emails := df.Get(Email);
    if !TextColumn(emails) {
      return Raised(AttributeError(Email));
    }
    df.Set(Email, CleanValues(emails));
    status := Ok;
  }

  // ---------------------------------------------------------------- sales

  /** What normalize_sales makes of one row that has the three columns. */
  predicate SaleNormalized(parseNumber: string -> Option<real>, parseDate: string -> Option<Date>,
                           before: Row, after: Row)
    requires OrderDate in before && UnitPrice in before && Quantity in before
  {
    && after.Keys == before.Keys + {TotalAmount}
    && after[OrderDate] == ToDatetime(parseDate, before[OrderDate])
    && after[UnitPrice] == ToNumeric(parseNumber, before[UnitPrice])
    && after[Quantity] == ToNumeric(parseNumber, before[Quantity])
    && after[TotalAmount] == Times(after[UnitPrice], after[Quantity])
    && forall c :: c in before && c !in {OrderDate, UnitPrice, Quantity, TotalAmount} ==>
         after[c] == before[c]
  }

  /** normalize_sales on a frame's value: four assignments in order; a
      missing column raises KeyError after the earlier assignments have
      already been made. */
  function SalesSpec(parseNumber: string -> Option<real>, parseDate: string -> Option<Date>,
                     t: Table): (r: Outcome)
    requires WellFormed(t)
    ensures WellFormed(r.table) && |r.table.rows| == |t.rows|
    ensures r.status.Ok? <==> OrderDate in t.columns && UnitPrice in t.columns && Quantity in t.columns
    ensures r.status.Ok? ==>
      r.table.columns == if TotalAmount in t.columns then t.columns else t.columns + [TotalAmount]
    ensures r.status.Raised? ==> r.table.columns == t.columns
    ensures OrderDate !in t.columns ==> r == Outcome(Raised(KeyError(OrderDate)), t)
    ensures OrderDate in t.columns && UnitPrice !in t.columns ==> r.status == Raised(KeyError(UnitPrice))
    ensures OrderDate in t.columns && UnitPrice in t.columns && Quantity !in t.columns ==>
      r.status == Raised(KeyError(Quantity))
  {
    if OrderDate !in t.columns then Outcome(Raised(KeyError(OrderDate)), t)
    else
      var t1 := Assign(t, OrderDate, DatetimeValues(parseDate, Column(t, OrderDate)));
      if UnitPrice !in t1.columns then Outcome(Raised(KeyError(UnitPrice)), t1)
      else
        var t2 := Assign(t1, UnitPrice, NumericValues(parseNumber, Column(t1, UnitPrice)));
        if Quantity !in t2.columns then Outcome(Raised(KeyError(Quantity)), t2)
        else
          var t3 := Assign(t2, Quantity, NumericValues(parseNumber, Column(t2, Quantity)));
          var t4 := Assign(t3, TotalAmount, TimesValues(Column(t3, UnitPrice), Column(t3, Quantity)));
          Outcome(Ok, t4)
  }

  /** A successful run converts the three columns of every row, sets
      total_amount from the converted factors and keeps every other cell. */
  lemma SalesRows(parseNumber: string -> Option<real>, parseDate: string -> Option<Date>, t: Table)
    requires WellFormed(t)
    ensures var r := SalesSpec(parseNumber, parseDate, t);
      r.status.Ok? ==> forall i :: 0 <= i < |t.rows| ==>
        SaleNormalized(parseNumber, parseDate, t.rows[i], r.table.rows[i])
  {
    var r := SalesSpec(parseNumber, parseDate, t);
    if r.status.Ok? {
      var t1 := Assign(t, OrderDate, DatetimeValues(parseDate, Column(t, OrderDate)));
      var t2 := Assign(t1, UnitPrice, NumericValues(parseNumber, Column(t1, UnitPrice)));
      var t3 := Assign(t2, Quantity, NumericValues(parseNumber, Column(t2, Quantity)));
      assert r.table == Assign(t3, TotalAmount, TimesValues(Column(t3, UnitPrice), Column(t3, Quantity)));
      forall i | 0 <= i < |t.rows|
        ensures SaleNormalized(parseNumber, parseDate, t.rows[i], r.table.rows[i])
      {
        assert t3.rows[i][OrderDate] == ToDatetime(parseDate, t.rows[i][OrderDate]);
        assert t3.rows[i][UnitPrice] == ToNumeric(parseNumber, t.rows[i][UnitPrice]);
      }
    }
  }

  /** A missing column stops the run with KeyError, and the columns
      converted before it stay converted while nothing else changes. */
  lemma SalesPartial(parseNumber: string -> Option<real>, parseDate: string -> Option<Date>, t: Table)
    requires WellFormed(t)
    ensures var r := SalesSpec(parseNumber, parseDate, t);
      OrderDate in t.columns && UnitPrice !in t.columns ==>
        forall i :: 0 <= i < |t.rows| ==>
          && ChangedOnly(t.rows[i], r.table.rows[i], {OrderDate})
          && r.table.rows[i][OrderDate] == ToDatetime(parseDate, t.rows[i][OrderDate])
    ensures var r := SalesSpec(parseNumber, parseDate, t);
      OrderDate in t.columns && UnitPrice in t.columns && Quantity !in t.columns ==>
        forall i :: 0 <= i < |t.rows| ==>
          && ChangedOnly(t.rows[i], r.table.rows[i], {OrderDate, UnitPrice})
          && r.table.rows[i][OrderDate] == ToDatetime(parseDate, t.rows[i][OrderDate])
          && r.table.rows[i][UnitPrice] == ToNumeric(parseNumber, t.rows[i][UnitPrice])
  {
  }

  /** total_amount is unit_price * quantity when both are present and is
      missing exactly when either is. */
  lemma TotalAmountPropagates(parseNumber: string -> Option<real>, parseDate: string -> Option<Date>,
                              t: Table)
    requires WellFormed(t)
    ensures var r := SalesSpec(parseNumber, parseDate, t);
      r.status.Ok? ==> forall i :: 0 <= i < |r.table.rows| ==>
        var row := r.table.rows[i];
        && UnitPrice in row && Quantity in row && TotalAmount in row
        && (row[UnitPrice].Num? || row[UnitPrice].Missing?)
        && (row[Quantity].Num? || row[Quantity].Missing?)
        && (row[TotalAmount].Num? <==> row[UnitPrice].Num? && row[Quantity].Num?)
        && (row[TotalAmount].Missing? <==> row[UnitPrice].Missing? || row[Quantity].Missing?)
        && (row[TotalAmount].Num? ==> row[TotalAmount].x == row[UnitPrice].x * row[Quantity].x)
  {
    var r := SalesSpec(parseNumber, parseDate, t);
    SalesRows(parseNumber, parseDate, t);
    if r.status.Ok? {
      forall i | 0 <= i < |r.table.rows|
        ensures var row := r.table.rows[i];
          && UnitPrice in row && Quantity in row && TotalAmount in row
          && (row[TotalAmount].Missing? <==> row[UnitPrice].Missing? || row[Quantity].Missing?)
      {
        assert SaleNormalized(parseNumber, parseDate, t.rows[i], r.table.rows[i]);
      }
    }
  }

  /** Normalising the sales a second time changes nothing: the parsed
      cells parse to themselves and total_amount, now present, is
      recomputed in place to the same values; after a KeyError the
      converted columns convert to themselves and the same column is
      missing again. */
  lemma SalesIdempotent(parseNumber: string -> Option<real>, parseDate: string -> Option<Date>,
                        t: Table)
    requires WellFormed(t)
    ensures var r := SalesSpec(parseNumber, parseDate, t);
      SalesSpec(parseNumber, parseDate, r.table) == r
  {
    var r := SalesSpec(parseNumber, parseDate, t);
    SalesRows(parseNumber, parseDate, t);
    if r.status.Ok? {
      var u := r.table;
      forall i | 0 <= i < |u.rows|
        ensures SaleNormalized(parseNumber, parseDate, t.rows[i], u.rows[i])
      {
      }
      assert DatetimeValues(parseDate, Column(u, OrderDate)) == Column(u, OrderDate);
      AssignOwnColumn(u, OrderDate);
      assert NumericValues(parseNumber, Column(u, UnitPrice)) == Column(u, UnitPrice);
      AssignOwnColumn(u, UnitPrice);
      assert NumericValues(parseNumber, Column(u, Quantity)) == Column(u, Quantity);
      AssignOwnColumn(u, Quantity);
      assert TimesValues(Column(u, UnitPrice), Column(u, Quantity)) == Column(u, TotalAmount);
      AssignOwnColumn(u, TotalAmount);
    } else {
      FailedSalesRepeat(parseNumber, parseDate, t);
    }
  }

  /** A run that raised KeyError raises it again on the frame it left,
      which it leaves as it is. */
  lemma FailedSalesRepeat(parseNumber: string -> Option<real>, parseDate: string -> Option<Date>,
                          t: Table)
    requires WellFormed(t) && SalesSpec(parseNumber, parseDate, t).status.Raised?
    ensures var r := SalesSpec(parseNumber, parseDate, t);
      SalesSpec(parseNumber, parseDate, r.table) == r
  {
    var r := SalesSpec(parseNumber, parseDate, t);
    if OrderDate in t.columns {
      var u := r.table;
      SalesPartial(parseNumber, parseDate, t);
      assert DatetimeValues(parseDate, Column(u, OrderDate)) == Column(u, OrderDate);
      AssignOwnColumn(u, OrderDate);
      if UnitPrice in t.columns {
        assert NumericValues(parseNumber, Column(u, UnitPrice)) == Column(u, UnitPrice);
        AssignOwnColumn(u, UnitPrice);
      }
    }
  }

  /** normalize_sales (etl/etl_pipeline.py:28-33): three columns are
      replaced and total_amount is set, in the caller's frame. */
  method NormalizeSales(df: Frame, parseNumber: string -> Option<real>,
                        parseDate: string -> Option<Date>) returns (status: Status)
    requires df.Valid()
    modifies df
    ensures df.Valid()
    ensures Outcome(status, df.Snapshot()) == SalesSpec(parseNumber, parseDate, old(df.Snapshot()))
  {
    if OrderDate !in df.columns {
      return Raised(KeyError(OrderDate));
    }
    df.Set(OrderDate, DatetimeValues(parseDate, df.Get(OrderDate)));
    if UnitPrice !in df.columns {
      return Raised(KeyError(UnitPrice));
    }
    df.Set(UnitPrice, NumericValues(parseNumber, df.Get(UnitPrice)));
    if Quantity !in df.columns {
      return Raised(KeyError(Quantity));
    }
    df.Set(Quantity, NumericValues(parseNumber, df.Get(Quantity)));
    df.Set(TotalAmount, TimesValues(df.Get(UnitPrice), df.Get(Quantity)));
    status := Ok;
  }
}
