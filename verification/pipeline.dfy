/** The sales path of the batch job on a two-row input: normalize_sales on
    a freshly read frame, then build_date_dim on its order dates. */
module Pipeline {

  import opened Wrappers
  import opened Calendar
  import opened Frames
  import opened Normalize
  import opened DateDim

  const SaleDay: Timestamp := Date(2024, 5, 1)

  /** A two-row sales frame as read_csv would produce it: two sales of
      2024-05-01, the second with the unit price "bad". */
  function SalesInput(): (t: Table)
    ensures WellFormed(t)
  {
    var first := map[OrderDate := Str("2024-05-01"), UnitPrice := Str("10"), Quantity := Num(3.0)];
    var second := map[OrderDate := Str("2024-05-01"), UnitPrice := Str("bad"), Quantity := Num(2.0)];
    var columns := [OrderDate, UnitPrice, Quantity];
    assert (set c | c in columns) == first.Keys == second.Keys;
    Table(columns, [first, second])
  }

  /** The three columns are read row by row: a unit price "10" times a
      quantity 3 is 30, an unreadable unit price leaves the total missing,
      and the date text becomes the timestamp. */
  lemma SaleRow(parseNumber: string -> Option<real>, parseDate: string -> Option<Date>,
                before: Row, after: Row)
    requires parseNumber("10") == Some(10.0) && parseNumber("bad") == None
    requires parseDate("2024-05-01") == Some(Date(2024, 5, 1))
    requires OrderDate in before && UnitPrice in before && Quantity in before
    requires before[OrderDate] == Str("2024-05-01") && before[Quantity].Num?
    requires before[UnitPrice] == Str("10") || before[UnitPrice] == Str("bad")
    requires SaleNormalized(parseNumber, parseDate, before, after)
    ensures after[OrderDate] == Stamp(SaleDay)
    ensures after[TotalAmount] ==
      if before[UnitPrice] == Str("10") then Num(10.0 * before[Quantity].x) else Missing
  {
  }

  lemma Pair<T>(s: seq<T>, a: T, b: T)
    requires |s| == 2 && s[0] == a && s[1] == b
    ensures s == [a, b]
  {
  }

  /** On this input the run succeeds and yields the totals 30 and missing. */
  lemma TotalsOfInput(parseNumber: string -> Option<real>, parseDate: string -> Option<Date>)
    requires parseNumber("10") == Some(10.0) && parseNumber("bad") == None
    requires parseDate("2024-05-01") == Some(Date(2024, 5, 1))
    ensures var r := SalesSpec(parseNumber, parseDate, SalesInput());
      r.status == Ok && Column(r.table, TotalAmount) == [Num(30.0), Missing]
  {
    var t := SalesInput();
    var r := SalesSpec(parseNumber, parseDate, t);
    assert OrderDate in t.columns && UnitPrice in t.columns && Quantity in t.columns;
    SalesRows(parseNumber, parseDate, t);
    SaleRow(parseNumber, parseDate, t.rows[0], r.table.rows[0]);
    SaleRow(parseNumber, parseDate, t.rows[1], r.table.rows[1]);
    Pair(Column(r.table, TotalAmount), Num(30.0), Missing);
  }

  /** On this input both order dates parse to 2024-05-01. */
  lemma DatesOfInput(parseNumber: string -> Option<real>, parseDate: string -> Option<Date>)
    requires parseNumber("10") == Some(10.0) && parseNumber("bad") == None
    requires parseDate("2024-05-01") == Some(Date(2024, 5, 1))
    ensures var r := SalesSpec(parseNumber, parseDate, SalesInput());
      r.status == Ok && OrderDates(Column(r.table, OrderDate)) == [Some(SaleDay), Some(SaleDay)]
  {
    var t := SalesInput();
    var r := SalesSpec(parseNumber, parseDate, t);
    assert OrderDate in t.columns && UnitPrice in t.columns && Quantity in t.columns;
    SalesRows(parseNumber, parseDate, t);
    SaleRow(parseNumber, parseDate, t.rows[0], r.table.rows[0]);
    SaleRow(parseNumber, parseDate, t.rows[1], r.table.rows[1]);
    var dates := Column(r.table, OrderDate);
    Pair(dates, Stamp(SaleDay), Stamp(SaleDay));
    Pair(OrderDates(dates), Some(SaleDay), Some(SaleDay));
  }

  lemma DimOfRepeatedDay()
    ensures var rows := BuildDateDim([Some(SaleDay), Some(SaleDay)]);
      |rows| == 1 && rows[0].dateKey == 20240501 && rows[0].dayOfWeek == "Wednesday"
  {
    var a := SaleDay;
    assert [Some(a)][..0] == [];
    assert Present([Some(a)]) == [a];
    assert [Some(a), Some(a)][..1] == [Some(a)];
    assert Present([Some(a), Some(a)]) == [a, a];
    assert [a][..0] == [];
    assert Unique([a]) == [a];
    assert [a, a][..1] == [a];
    assert DistinctDates([Some(a), Some(a)]) == [a];
    DateKeyValue(a);
    KnownWeekday();
  }

  /** Two sales of the same day, one with an unreadable unit price: the
      run succeeds, the first sale gets total 30 and the second a missing
      total, and the date dimension has one row, 20240501, a Wednesday. */
  method SalesScenario(parseNumber: string -> Option<real>, parseDate: string -> Option<Date>)
    returns (status: Status, totals: seq<Value>, dim: seq<DateRow>)
    requires parseNumber("10") == Some(10.0) && parseNumber("bad") == None
    requires parseDate("2024-05-01") == Some(Date(2024, 5, 1))
    ensures status == Ok
    ensures totals == [Num(30.0), Missing]
    ensures |dim| == 1 && dim[0].dateKey == 20240501 && dim[0].dayOfWeek == "Wednesday"
  {
    var df := new Frame(SalesInput());
    status := NormalizeSales(df, parseNumber, parseDate);
    TotalsOfInput(parseNumber, parseDate);
    DatesOfInput(parseNumber, parseDate);
    totals := df.Get(TotalAmount);
    dim := BuildDateDim(OrderDates(df.Get(OrderDate)));
    DimOfRepeatedDay();
  }
}
