/** build_date_dim: the date dimension derived from the parsed order dates.
    Missing dates are dropped (dropna), the rest are de-duplicated in order
    of first appearance (unique), and every distinct day gets one row:
    its YYYYMMDD key, the day itself, year, month, day and weekday name. */
module DateDim {

  import opened Wrappers
  import opened Calendar
  import opened Frames

  /** One row of the date dimension. Its fields are the output columns
      date_key, date, year, month, day and day_of_week, in that order. */
  datatype DateRow = DateRow(
    dateKey: int, date: Timestamp, year: int, month: int, day: int, dayOfWeek: string)

  // ------------------------------------------ strftime('%Y%m%d').astype(int)

  function Pow10(n: nat): (p: nat)
    ensures p >= 1
  {
    if n == 0 then 1 else 10 * Pow10(n - 1)
  }

  function DigitChar(k: int): (c: char)
    requires 0 <= k < 10
    ensures '0' <= c <= '9'
  {
    ('0' as int + k) as char
  }

  /** n written with exactly width decimal digits, zero-padded on the left. */
  function Pad(n: nat, width: nat): (s: string)
    ensures |s| == width
    ensures forall k :: 0 <= k < |s| ==> '0' <= s[k] <= '9'
  {
    if width == 0 then [] else Pad(n / 10, width - 1) + [DigitChar(n % 10)]
  }

  /** int(s) for a string of decimal digits. */
  function DigitsValue(s: string): (v: int)
    ensures (forall k :: 0 <= k < |s| ==> '0' <= s[k] <= '9') ==> 0 <= v < Pow10(|s|)
  {
    if s == [] then 0 else DigitsValue(s[..|s| - 1]) * 10 + (s[|s| - 1] as int - '0' as int)
  }

  /** d.strftime('%Y%m%d') */
  function Yyyymmdd(d: Timestamp): (s: string)
    ensures |s| == 8
    ensures forall k :: 0 <= k < |s| ==> '0' <= s[k] <= '9'
  {
    Pad(d.year, 4) + Pad(d.month, 2) + Pad(d.day, 2)
  }

  /** date_key: the YYYYMMDD text of the day read back as an integer. */
  function DateKey(d: Timestamp): (k: int)
    ensures 0 <= k < 100000000
  {
    DigitsValue(Yyyymmdd(d))
  }

  lemma {:induction false} PadValue(n: nat, width: nat)
    requires n < Pow10(width)
    ensures DigitsValue(Pad(n, width)) == n
  {
    if width > 0 {
      var p := Pad(n / 10, width - 1);
      var s := p + [DigitChar(n % 10)];
      assert s[..|s| - 1] == p;
      PadValue(n / 10, width - 1);
    }
  }

  lemma {:induction false} DigitsValueConcat(a: string, b: string)
    ensures DigitsValue(a + b) == DigitsValue(a) * Pow10(|b|) + DigitsValue(b)
  {
    if b == [] {
      assert a + b == a;
    } else {
      var b' := b[..|b| - 1];
      var c := b[|b| - 1];
      assert (a + b)[..|a + b| - 1] == a + b';
      DigitsValueConcat(a, b');
      var x, p, y, k := DigitsValue(a), Pow10(|b'|), DigitsValue(b'), c as int - '0' as int;
      assert DigitsValue(a + b) == DigitsValue(a + b') * 10 + k;
      assert b[..|b| - 1] == b';
      assert DigitsValue(b) == y * 10 + k;
      assert Pow10(|b|) == 10 * p;
      ShiftDigit(x, p, y, k);
    }
  }

  lemma ShiftDigit(x: int, p: int, y: int, k: int)
    ensures (x * p + y) * 10 + k == x * (10 * p) + (y * 10 + k)
  {
  }

  /** The key is 10000 * year + 100 * month + day. */
  lemma DateKeyValue(d: Timestamp)
    ensures DateKey(d) == 10000 * d.year + 100 * d.month + d.day
  {
    var y, m, dd := Pad(d.year, 4), Pad(d.month, 2), Pad(d.day, 2);
    assert Pow10(2) == 100 && Pow10(4) == 10000;
    PadValue(d.year, 4);
    PadValue(d.month, 2);
    PadValue(d.day, 2);
    DigitsValueConcat(y, m);
    DigitsValueConcat(y + m, dd);
  }

  /** The key identifies the day and sorts as the calendar does: one day is
      before another exactly when its key is smaller, which is also
      exactly when fewer days have elapsed to it. */
  lemma DateKeyOrder(a: Timestamp, b: Timestamp)
    ensures a == b <==> DateKey(a) == DateKey(b)
    ensures Before(a, b) <==> DateKey(a) < DateKey(b)
    ensures DayNumber(a) < DayNumber(b) <==> DateKey(a) < DateKey(b)
  {
    DateKeyValue(a);
    DateKeyValue(b);
    DayNumberOrder(a, b);
  }

  // --------------------------------------------------------- dropna, unique

  /** dropna(): the present values, in order. */
  function Present<T(!new)>(xs: seq<Option<T>>): (r: seq<T>)
    ensures forall x :: x in r <==> Some(x) in xs
  {
    if xs == [] then []
    else
      var p := xs[..|xs| - 1];
      assert xs == p + [xs[|xs| - 1]];
      var o := xs[|xs| - 1];
      Present(p) + (if o.Some? then [o.value] else [])
  }

  /** unique(): each value once, in order of first appearance. */
  function Unique<T(==,!new)>(xs: seq<T>): (r: seq<T>)
    ensures forall x :: x in r <==> x in xs
    ensures Distinct(r)
  {
    if xs == [] then []
    else
      var p := xs[..|xs| - 1];
      assert xs == p + [xs[|xs| - 1]];
      var r := Unique(p);
      var x := xs[|xs| - 1];
      if x in r then r else r + [x]
  }

  /** Position of the first occurrence of x in xs. */
  function IndexOf<T(==)>(xs: seq<T>, x: T): (k: nat)
    requires x in xs
    ensures k < |xs| && xs[k] == x && x !in xs[..k]
  {
    if xs[0] == x then 0 else 1 + IndexOf(xs[1..], x)
  }

  lemma IndexOfExtend<T>(p: seq<T>, x: T, y: T)
    requires y in p
    ensures IndexOf(p + [x], y) == IndexOf(p, y)
  {
    var k1, k2 := IndexOf(p + [x], y), IndexOf(p, y);
    assert (p + [x])[k2] == y;
  }

  lemma IndexOfLast<T>(p: seq<T>, x: T)
    requires x !in p
    ensures IndexOf(p + [x], x) == |p|
  {
  }

  /** unique() keeps the order in which values first appear. */
  lemma {:induction false} UniqueOrder<T(!new)>(xs: seq<T>)
    ensures forall i, j :: 0 <= i < j < |Unique(xs)| ==>
      IndexOf(xs, Unique(xs)[i]) < IndexOf(xs, Unique(xs)[j])
  {
    if xs != [] {
      var p := xs[..|xs| - 1];
      var x := xs[|xs| - 1];
      assert xs == p + [x];
      var r' := Unique(p);
      var r := Unique(xs);
      UniqueOrder(p);
      assert r == if x in r' then r' else r' + [x];
      forall i, j | 0 <= i < j < |r|
        ensures IndexOf(xs, r[i]) < IndexOf(xs, r[j])
      {
        assert r[i] == r'[i] && r'[i] in p;
        IndexOfExtend(p, x, r[i]);
        if j < |r'| {
          assert r[j] == r'[j] && r'[j] in p;
          IndexOfExtend(p, x, r[j]);
        } else {
          assert r[j] == x && x !in p;
          IndexOfLast(p, x);
        }
      }
    }
  }

  /** dropna() keeps the order in which values first appear. */
  lemma {:induction false} PresentOrder<T(!new)>(xs: seq<Option<T>>, x: T, y: T)
    requires Some(x) in xs && Some(y) in xs
    requires IndexOf(Present(xs), x) < IndexOf(Present(xs), y)
    ensures IndexOf(xs, Some(x)) < IndexOf(xs, Some(y))
  {
    var p := xs[..|xs| - 1];
    var o := xs[|xs| - 1];
    assert xs == p + [o];
    var q := Present(p);
    assert Present(xs) == q + (if o.Some? then [o.value] else []);
    if Some(x) in p && Some(y) in p {
      IndexOfExtend(p, o, Some(x));
      IndexOfExtend(p, o, Some(y));
      assert x in q && y in q;
      if o.Some? {
        assert Present(xs) == q + [o.value];
        IndexOfExtend(q, o.value, x);
        IndexOfExtend(q, o.value, y);
      } else {
        assert Present(xs) == q;
      }
      PresentOrder(p, x, y);
    } else if Some(y) !in p {
      IndexOfLast(p, Some(y));
      if Some(x) in p {
        IndexOfExtend(p, o, Some(x));
      }
    } else {
      IndexOfLast(q, x);
      IndexOfExtend(q, x, y);
    }
  }

  lemma {:induction false} DistinctCardinality<T>(s: seq<T>)
    requires Distinct(s)
    ensures |set x | x in s| == |s|
  {
    if s != [] {
      var p := s[..|s| - 1];
      var x := s[|s| - 1];
      assert s == p + [x];
      DistinctCardinality(p);
      assert (set y | y in s) == (set y | y in p) + {x};
      assert x !in p;
    }
  }

  // ------------------------------------------------------------ the table

  /** The row build_date_dim derives from one day. */
  function MakeRow(d: Timestamp): (r: DateRow)
    ensures r.date == d && r.dayOfWeek in DayNames
    ensures 0 <= r.dateKey < 100000000
  {
    DateRow(DateKey(d), d, d.year, d.month, d.day, DayName(d))
  }

  /** The distinct present dates, in order of first appearance. */
  function DistinctDates(dates: seq<Option<Timestamp>>): (r: seq<Timestamp>)
    ensures forall d :: d in r <==> Some(d) in dates
    ensures Distinct(r)
  {
    Unique(Present(dates))
  }

  /** build_date_dim (etl/etl_pipeline.py:35-43). */
  function BuildDateDim(dates: seq<Option<Timestamp>>): (rows: seq<DateRow>)
    ensures |rows| == |DistinctDates(dates)|
  {
    var u := DistinctDates(dates);
    seq(|u|, i requires 0 <= i < |u| => MakeRow(u[i]))
  }

  /** The parsed order-date column as build_date_dim reads it: a timestamp
      is a date, anything else is NaT. */
  function OrderDates(vs: seq<Value>): (dates: seq<Option<Timestamp>>)
    ensures |dates| == |vs|
    ensures forall i :: 0 <= i < |vs| ==> (dates[i].Some? <==> vs[i].Stamp?)
  {
    seq(|vs|, i requires 0 <= i < |vs| => if vs[i].Stamp? then Some(vs[i].t) else None)
  }

  /** Every row's key is its YYYYMMDD number, its year, month and day are
      the date's, and its weekday is the date's Gregorian weekday name. */
  lemma DateDimRows(dates: seq<Option<Timestamp>>)
    ensures var rows := BuildDateDim(dates);
      forall i :: 0 <= i < |rows| ==>
        && rows[i].dateKey == 10000 * rows[i].year + 100 * rows[i].month + rows[i].day
        && rows[i].year == rows[i].date.year
        && rows[i].month == rows[i].date.month
        && rows[i].day == rows[i].date.day
        && rows[i].dayOfWeek == DayName(rows[i].date)
  {
    var rows := BuildDateDim(dates);
    forall i | 0 <= i < |rows|
      ensures rows[i].dateKey == 10000 * rows[i].year + 100 * rows[i].month + rows[i].day
    {
      DateKeyValue(rows[i].date);
    }
  }

  /** The rows hold exactly the distinct non-missing input dates, each
      once, so their keys are distinct too; no date, no row. */
  lemma DateDimDates(dates: seq<Option<Timestamp>>)
    ensures var rows := BuildDateDim(dates);
      && (forall i :: 0 <= i < |rows| ==> Some(rows[i].date) in dates)
      && (forall k :: 0 <= k < |dates| && dates[k].Some? ==>
            exists i :: 0 <= i < |rows| && rows[i].date == dates[k].value)
      && (forall i, j :: 0 <= i < j < |rows| ==>
            rows[i].date != rows[j].date && rows[i].dateKey != rows[j].dateKey)
      && (|rows| == 0 <==> forall k :: 0 <= k < |dates| ==> dates[k].None?)
  {
    var rows := BuildDateDim(dates);
    var u := DistinctDates(dates);
    forall k | 0 <= k < |dates| && dates[k].Some?
      ensures exists i :: 0 <= i < |rows| && rows[i].date == dates[k].value
    {
      assert dates[k].value in u;
      var i :| 0 <= i < |u| && u[i] == dates[k].value;
      assert rows[i].date == dates[k].value;
    }
    forall i, j | 0 <= i < j < |rows|
      ensures rows[i].date != rows[j].date && rows[i].dateKey != rows[j].dateKey
    {
      DateKeyOrder(rows[i].date, rows[j].date);
    }
    if |rows| != 0 {
      assert Some(rows[0].date) in dates;
    }
  }

  /** The number of rows is the number of distinct non-missing dates. */
  lemma DateDimCount(dates: seq<Option<Timestamp>>)
    ensures |BuildDateDim(dates)| == |set d | d in Present(dates)|
  {
    var u := DistinctDates(dates);
    DistinctCardinality(u);
    assert (set d | d in u) == (set d | d in Present(dates));
  }

  /** Rows come in the order in which their dates first appear among the
      input dates. */
  lemma DateDimOrder(dates: seq<Option<Timestamp>>)
    ensures var rows := BuildDateDim(dates);
      forall i, j :: 0 <= i < j < |rows| ==>
        IndexOf(dates, Some(rows[i].date)) < IndexOf(dates, Some(rows[j].date))
  {
    var rows := BuildDateDim(dates);
    var present := Present(dates);
    UniqueOrder(present);
    forall i, j | 0 <= i < j < |rows|
      ensures IndexOf(dates, Some(rows[i].date)) < IndexOf(dates, Some(rows[j].date))
    {
      PresentOrder(dates, rows[i].date, rows[j].date);
    }
  }

  lemma PresentExample(a: Timestamp, b: Timestamp)
    ensures Present([Some(a), Some(a), Some(b)]) == [a, a, b]
  {
    var dates := [Some(a), Some(a), Some(b)];
    assert [Some(a)][..0] == [];
    assert Present([Some(a)]) == [a];
    assert dates[..2] == [Some(a), Some(a)] && dates[..2][..1] == [Some(a)];
    assert Present(dates[..2]) == [a, a];
  }

  lemma UniqueExample(a: Timestamp, b: Timestamp)
    requires a != b
    ensures Unique([a, a, b]) == [a, b]
  {
    var p := [a, a, b];
    assert [a][..0] == [];
    assert Unique([a]) == [a];
    assert p[..2] == [a, a] && p[..2][..1] == [a];
    assert Unique(p[..2]) == [a];
  }

  /** Two sales on 2023-01-01 and one on 2023-01-02 give two rows, keyed
      20230101 and 20230102. */
  lemma DuplicateDatesExample()
    ensures var rows := BuildDateDim([Some(Date(2023, 1, 1)), Some(Date(2023, 1, 1)), Some(Date(2023, 1, 2))]);
      |rows| == 2 && rows[0].dateKey == 20230101 && rows[1].dateKey == 20230102
  {
    var a: Timestamp, b: Timestamp := Date(2023, 1, 1), Date(2023, 1, 2);
    DuplicateDatesDistinct(a, b);
    var rows := BuildDateDim([Some(a), Some(a), Some(b)]);
    assert rows[0] == MakeRow(a) && rows[1] == MakeRow(b);
    DateKeyValue(a);
    DateKeyValue(b);
  }

  lemma DuplicateDatesDistinct(a: Timestamp, b: Timestamp)
    requires a != b
    ensures DistinctDates([Some(a), Some(a), Some(b)]) == [a, b]
  {
    PresentExample(a, b);
    UniqueExample(a, b);
  }
}
