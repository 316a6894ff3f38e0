/**
 * Monthly wine-sales aggregation and the train/test split (activity3/activity3.py).
 *
 * `transformando_datos` renames the eight columns, reads `date_int` as a
 * year-month, sums `sales` per month in month order and fills every missing
 * month between the first and the last with 0. `sarima_pipeline` then keeps
 * the last two months for testing. Everything here is a pure function on
 * values; a month is represented by its index year * 12 + (month - 1).
 */
module WineSales {
  import opened Wrappers

  /** A spreadsheet cell as pandas reads it: a number, text, or empty (NaN). */
  datatype Cell = Num(n: int) | Text(s: string) | Blank

  datatype Frame = Frame(columns: seq<string>, rows: seq<seq<Cell>>)

  /** The exceptions the transformation can raise. */
  datatype TransformError =
    | LengthMismatch(got: nat)   // df.columns = ... with a different column count
    | BadDate                    // a date_int that the format '%Y%m' does not match
    | BadSales                   // a sales value that cannot be summed

  datatype YearMonth = YearMonth(year: int, month: int)

  /** One input row after parsing: its month index and its sales. */
  datatype Sale = Sale(month: int, amount: int)

  /** One entry of the monthly series: a month index and its total. */
  datatype MonthTotal = MonthTotal(month: int, total: int)

  const NewColumns: seq<string> :=
    ["id", "date_int", "product_name", "price", "sales", "reviews", "brand", "searches"]
  const DateColumn := 1
  const SalesColumn := 4

  predicate Rectangular(f: Frame) {
    forall i :: 0 <= i < |f.rows| ==> |f.rows[i]| == |f.columns|
  }

  // ---------------------------------------------------------------------------
  // Months

  function MonthIndex(ym: YearMonth): int {
    ym.year * 12 + ym.month - 1
  }

  /** The month-start a month index stands for. */
  function MonthOf(k: int): YearMonth {
    YearMonth(k / 12, k % 12 + 1)
  }

  lemma MonthIndexRoundTrip(ym: YearMonth)
    requires 1 <= ym.month <= 12
    ensures MonthOf(MonthIndex(ym)) == ym
  {
    var k := MonthIndex(ym);
    assert k == ym.year * 12 + (ym.month - 1);
    assert 0 <= ym.month - 1 < 12;
  }

  lemma MonthOfRoundTrip(k: int)
    ensures 1 <= MonthOf(k).month <= 12 && MonthIndex(MonthOf(k)) == k
  {
  }

  /** pd.to_datetime(d, format='%Y%m') on an integer: its decimal text must be
    * a four-digit year followed by a month that is `1[0-2]`, `0[1-9]` or
    * `[1-9]`, with nothing left over. */
  function ParseYearMonth(d: int): (r: Option<YearMonth>)
    ensures r.Some? ==> 1000 <= r.value.year <= 9999 && 1 <= r.value.month <= 12
    ensures r.Some? && d >= 100000 ==> d == r.value.year * 100 + r.value.month
    ensures r.Some? && d < 100000 ==> r.value.month <= 9 && d == r.value.year * 10 + r.value.month
  {
    if 100000 <= d <= 999999 && 1 <= d % 100 <= 12 then Some(YearMonth(d / 100, d % 100))
    else if 10000 <= d <= 99999 && 1 <= d % 10 <= 9 then Some(YearMonth(d / 10, d % 10))
    else None
  }

  /** Every YYYYMM integer of a four-digit year reads back as that year and month. */
  lemma ParseYearMonthRoundTrip(ym: YearMonth)
    requires 1000 <= ym.year <= 9999 && 1 <= ym.month <= 12
    ensures ParseYearMonth(ym.year * 100 + ym.month) == Some(ym)
  {
    var d := ym.year * 100 + ym.month;
    assert d / 100 == ym.year && d % 100 == ym.month;
  }

  /** A four-digit year followed by a single-digit month reads back as that year and month. */
  lemma ParseYearMonthShortRoundTrip(ym: YearMonth)
    requires 1000 <= ym.year <= 9999 && 1 <= ym.month <= 9
    ensures ParseYearMonth(ym.year * 10 + ym.month) == Some(ym)
  {
    var d := ym.year * 10 + ym.month;
    assert d / 10 == ym.year && d % 10 == ym.month;
  }

  // ---------------------------------------------------------------------------
  // Renaming and parsing the rows

  /** df.columns = nuevas_columnas: exactly eight names are assigned. */
  function Rename(f: Frame): (r: Result<Frame, TransformError>)
    ensures r.Ok? <==> |f.columns| == |NewColumns|
    ensures r.Ok? ==> r.value == Frame(NewColumns, f.rows)
    ensures r.Err? ==> r.error == LengthMismatch(|f.columns|)
  {
    if |f.columns| != |NewColumns| then Err(LengthMismatch(|f.columns|))
    else Ok(f.(columns := NewColumns))
  }

  /** The row's date_int cell is a number that the format '%Y%m' accepts. */
  predicate DateOk(row: seq<Cell>)
    requires |row| == |NewColumns|
  {
    row[DateColumn].Num? && ParseYearMonth(row[DateColumn].n).Some?
  }

  /** The month index of a row whose date is readable. */
  function MonthOfRow(row: seq<Cell>): int
    requires |row| == |NewColumns| && DateOk(row)
  {
    MonthIndex(ParseYearMonth(row[DateColumn].n).value)
  }

  /** What a sales cell adds to its month: an empty cell is skipped by the sum. */
  function AmountOf(c: Cell): int {
    if c.Num? then c.n else 0
  }

  /** pd.to_datetime over the whole date_int column: one month per row, or
    * failure as soon as any row's date does not match. */
  function ParseDates(rows: seq<seq<Cell>>): (months: Option<seq<int>>)
    requires forall i :: 0 <= i < |rows| ==> |rows[i]| == |NewColumns|
    ensures months.Some? <==> forall i :: 0 <= i < |rows| ==> DateOk(rows[i])
    ensures months.Some? ==> |months.value| == |rows|
    ensures months.Some? ==> forall i :: 0 <= i < |rows| ==> months.value[i] == MonthOfRow(rows[i])
  {
    if rows == [] then Some([])
    else if !DateOk(rows[0]) then None
    else
      var tail := rows[1..];
      assert forall i :: 1 <= i < |rows| ==> tail[i - 1] == rows[i];
      match ParseDates(tail)
      case None => None
      case Some(rest) =>
        var r := [MonthOfRow(rows[0])] + rest;
        assert forall i :: 1 <= i < |rows| ==> r[i] == rest[i - 1];
        Some(r)
  }

  /** The sales column as the sum reads it: failure on any text cell. */
  function ParseAmounts(rows: seq<seq<Cell>>): (amounts: Option<seq<int>>)
    requires forall i :: 0 <= i < |rows| ==> |rows[i]| == |NewColumns|
    ensures amounts.Some? <==> forall i :: 0 <= i < |rows| ==> !rows[i][SalesColumn].Text?
    ensures amounts.Some? ==> |amounts.value| == |rows|
    ensures amounts.Some? ==> forall i :: 0 <= i < |rows| ==> amounts.value[i] == AmountOf(rows[i][SalesColumn])
  {
    if rows == [] then Some([])
    else if rows[0][SalesColumn].Text? then None
    else
      var tail := rows[1..];
      assert forall i :: 1 <= i < |rows| ==> tail[i - 1] == rows[i];
      match ParseAmounts(tail)
      case None => None
      case Some(rest) =>
        var r := [AmountOf(rows[0][SalesColumn])] + rest;
        assert forall i :: 1 <= i < |rows| ==> r[i] == rest[i - 1];
        Some(r)
  }

  /** Lines 30-34 in order: the whole date column is converted first, so a
    * bad date anywhere is reported before any unreadable sales value. */
  function ParseRows(rows: seq<seq<Cell>>): (r: Result<seq<Sale>, TransformError>)
    requires forall i :: 0 <= i < |rows| ==> |rows[i]| == |NewColumns|
    ensures r == Err(BadDate) <==> exists i :: 0 <= i < |rows| && !DateOk(rows[i])
    ensures r == Err(BadSales) <==>
      (forall i :: 0 <= i < |rows| ==> DateOk(rows[i])) && exists i :: 0 <= i < |rows| && rows[i][SalesColumn].Text?
    ensures r.Ok? <==> forall i :: 0 <= i < |rows| ==> DateOk(rows[i]) && !rows[i][SalesColumn].Text?
    ensures r.Ok? ==> |r.value| == |rows| && forall i :: 0 <= i < |rows| ==>
      r.value[i].month == MonthOfRow(rows[i]) && r.value[i].amount == AmountOf(rows[i][SalesColumn])
  {
    match ParseDates(rows)
    case None => Err(BadDate)
    case Some(months) =>
      match ParseAmounts(rows)
      case None => Err(BadSales)
      case Some(amounts) => Ok(seq(|rows|, i requires 0 <= i < |rows| => Sale(months[i], amounts[i])))
  }

  // ---------------------------------------------------------------------------
  // groupby('date')['sales'].sum() and sort_index()

  /** The sum of the sales of the rows of month `m`. */
  function SumFor(sales: seq<Sale>, m: int): int {
    if sales == [] then 0
    else SumFor(sales[..|sales| - 1], m) + (if sales[|sales| - 1].month == m then sales[|sales| - 1].amount else 0)
  }

  function TotalSales(sales: seq<Sale>): int {
    if sales == [] then 0 else TotalSales(sales[..|sales| - 1]) + sales[|sales| - 1].amount
  }

  predicate SaleIn(sales: seq<Sale>, m: int) {
    exists j :: 0 <= j < |sales| && sales[j].month == m
  }

  predicate Increasing(ts: seq<MonthTotal>) {
    forall i, j :: 0 <= i < j < |ts| ==> ts[i].month < ts[j].month
  }

  predicate HasMonth(ts: seq<MonthTotal>, m: int) {
    exists i :: 0 <= i < |ts| && ts[i].month == m
  }

  /** The value of month `m` in a series, 0 if the series has no entry for it. */
  function TotalAt(ts: seq<MonthTotal>, m: int): int {
    if ts == [] then 0 else if ts[0].month == m then ts[0].total else TotalAt(ts[1..], m)
  }

  /** Add one row's sales into a month-ordered list of totals. */
  function AddSale(acc: seq<MonthTotal>, s: Sale): seq<MonthTotal> {
    if acc == [] then [MonthTotal(s.month, s.amount)]
    else if s.month == acc[0].month then [MonthTotal(s.month, acc[0].total + s.amount)] + acc[1..]
    else if s.month < acc[0].month then [MonthTotal(s.month, s.amount)] + acc
    else [acc[0]] + AddSale(acc[1..], s)
  }

  /** The monthly totals in increasing month order. */
  function GroupSum(sales: seq<Sale>): seq<MonthTotal> {
    if sales == [] then [] else AddSale(GroupSum(sales[..|sales| - 1]), sales[|sales| - 1])
  }

  lemma {:induction false} TotalAtAbsent(ts: seq<MonthTotal>, m: int)
    requires forall i :: 0 <= i < |ts| ==> ts[i].month != m
    ensures TotalAt(ts, m) == 0
  {
    if ts != [] {
      assert forall i :: 0 <= i < |ts| - 1 ==> ts[1..][i] == ts[i + 1];
      TotalAtAbsent(ts[1..], m);
    }
  }

  lemma {:induction false} TotalAtIndex(ts: seq<MonthTotal>, i: int)
    requires Increasing(ts) && 0 <= i < |ts|
    ensures TotalAt(ts, ts[i].month) == ts[i].total
  {
    if i > 0 {
      TotalAtIndex(ts[1..], i - 1);
    }
  }

  lemma HasMonthCons(x: MonthTotal, rest: seq<MonthTotal>, m: int)
    ensures HasMonth([x] + rest, m) <==> x.month == m || HasMonth(rest, m)
  {
    var r := [x] + rest;
    if HasMonth(r, m) && x.month != m {
      var i :| 0 <= i < |r| && r[i].month == m;
      assert rest[i - 1].month == m;
    }
    if HasMonth(rest, m) {
      var i :| 0 <= i < |rest| && rest[i].month == m;
      assert r[i + 1].month == m;
    }
    if x.month == m {
      assert r[0].month == m;
    }
  }

  /** Adding a row adds its month to the months of the list, and no other. */
  lemma {:induction false} AddSaleMonths(acc: seq<MonthTotal>, s: Sale)
    ensures forall m :: HasMonth(AddSale(acc, s), m) <==> HasMonth(acc, m) || m == s.month
  {
    var r := AddSale(acc, s);
    var x := MonthTotal(s.month, s.amount);
    if acc == [] {
      forall m ensures HasMonth(r, m) <==> m == s.month {
        HasMonthCons(x, [], m);
      }
    } else {
      assert acc == [acc[0]] + acc[1..];
      if s.month == acc[0].month {
        forall m ensures HasMonth(r, m) <==> HasMonth(acc, m) || m == s.month {
          HasMonthCons(r[0], acc[1..], m);
          HasMonthCons(acc[0], acc[1..], m);
        }
      } else if s.month < acc[0].month {
        forall m ensures HasMonth(r, m) <==> HasMonth(acc, m) || m == s.month {
          HasMonthCons(x, acc, m);
        }
      } else {
        var rest := AddSale(acc[1..], s);
        AddSaleMonths(acc[1..], s);
        forall m ensures HasMonth(r, m) <==> HasMonth(acc, m) || m == s.month {
          HasMonthCons(acc[0], rest, m);
          HasMonthCons(acc[0], acc[1..], m);
        }
      }
    }
  }

  /** Adding a row keeps the list in strictly increasing month order. */
  lemma {:induction false} AddSaleIncreasing(acc: seq<MonthTotal>, s: Sale)
    requires Increasing(acc)
    ensures Increasing(AddSale(acc, s))
  {
    var r := AddSale(acc, s);
    if acc == [] {
    } else if s.month == acc[0].month {
      assert forall i :: 0 <= i < |r| ==> r[i].month == acc[i].month;
    } else if s.month < acc[0].month {
      assert forall i :: 1 <= i < |r| ==> r[i] == acc[i - 1];
    } else {
      var rest := AddSale(acc[1..], s);
      AddSaleIncreasing(acc[1..], s);
      AddSaleMonths(acc[1..], s);
      forall j | 0 <= j < |rest| ensures acc[0].month < rest[j].month {
        var mm := rest[j].month;
        assert HasMonth(rest, mm);
        if mm != s.month {
          var k :| 0 <= k < |acc[1..]| && acc[1..][k].month == mm;
          assert acc[k + 1].month == mm;
        }
      }
      assert forall i :: 1 <= i < |r| ==> r[i] == rest[i - 1];
    }
  }

  /** Adding a row adds its sales to its month's total and changes no other total. */
  lemma {:induction false} AddSaleTotals(acc: seq<MonthTotal>, s: Sale)
    requires Increasing(acc)
    ensures forall m :: TotalAt(AddSale(acc, s), m) == TotalAt(acc, m) + (if m == s.month then s.amount else 0)
  {
    var r := AddSale(acc, s);
    if acc == [] {
      assert r[1..] == [];
    } else if s.month == acc[0].month {
      assert r[1..] == acc[1..];
    } else if s.month < acc[0].month {
      assert forall i :: 0 <= i < |acc| ==> acc[i].month != s.month;
      TotalAtAbsent(acc, s.month);
      assert r[1..] == acc;
    } else {
      AddSaleTotals(acc[1..], s);
      assert r[1..] == AddSale(acc[1..], s);
    }
  }

  lemma SaleInSnoc(sales: seq<Sale>, m: int)
    requires sales != []
    ensures SaleIn(sales, m) <==> SaleIn(sales[..|sales| - 1], m) || sales[|sales| - 1].month == m
  {
    var init := sales[..|sales| - 1];
    if SaleIn(sales, m) && sales[|sales| - 1].month != m {
      var j :| 0 <= j < |sales| && sales[j].month == m;
      assert init[j].month == m;
    }
    if SaleIn(init, m) {
      var j :| 0 <= j < |init| && init[j].month == m;
      assert sales[j].month == m;
    }
  }

  /** groupby().sum() is month-ordered, has exactly the months that occur in
    * the rows, and gives each month the sum of that month's sales. */
  lemma {:induction false} GroupSumSpec(sales: seq<Sale>)
    ensures Increasing(GroupSum(sales))
    ensures forall m :: HasMonth(GroupSum(sales), m) <==> SaleIn(sales, m)
    ensures forall m :: TotalAt(GroupSum(sales), m) == SumFor(sales, m)
  {
    if sales != [] {
      var init, last := sales[..|sales| - 1], sales[|sales| - 1];
      GroupSumSpec(init);
      AddSaleIncreasing(GroupSum(init), last);
      AddSaleMonths(GroupSum(init), last);
      AddSaleTotals(GroupSum(init), last);
      forall m ensures SaleIn(sales, m) <==> SaleIn(init, m) || m == last.month {
        SaleInSnoc(sales, m);
      }
    }
  }

  /** Each stored total is the sum of its month's sales. */
  lemma GroupSumTotals(sales: seq<Sale>, i: int)
    requires 0 <= i < |GroupSum(sales)|
    ensures SaleIn(sales, GroupSum(sales)[i].month)
    ensures GroupSum(sales)[i].total == SumFor(sales, GroupSum(sales)[i].month)
  {
    GroupSumSpec(sales);
    TotalAtIndex(GroupSum(sales), i);
    assert HasMonth(GroupSum(sales), GroupSum(sales)[i].month);
  }

  // ---------------------------------------------------------------------------
  // asfreq('MS').fillna(0)

  function FirstMonth(ts: seq<MonthTotal>): (m: int)
    requires ts != []
    ensures HasMonth(ts, m) && forall i :: 0 <= i < |ts| ==> m <= ts[i].month
  {
    if |ts| == 1 then ts[0].month
    else
      var rest := FirstMonth(ts[1..]);
      assert forall i :: 1 <= i < |ts| ==> ts[i] == ts[1..][i - 1];
      if ts[0].month <= rest then ts[0].month else rest
  }

  function LastMonth(ts: seq<MonthTotal>): (m: int)
    requires ts != []
    ensures HasMonth(ts, m) && forall i :: 0 <= i < |ts| ==> ts[i].month <= m
  {
    if |ts| == 1 then ts[0].month
    else
      var rest := LastMonth(ts[1..]);
      assert forall i :: 1 <= i < |ts| ==> ts[i] == ts[1..][i - 1];
      if ts[0].month >= rest then ts[0].month else rest
  }

  /** Reindex on every month start from the earliest to the latest month,
    * filling the months that have no entry with 0. */
  function FillMonths(ts: seq<MonthTotal>): seq<MonthTotal> {
    if ts == [] then []
    else
      var lo, hi := FirstMonth(ts), LastMonth(ts);
      seq(hi - lo + 1, i => MonthTotal(lo + i, TotalAt(ts, lo + i)))
  }

  /** The monthly series transformando_datos builds from the parsed rows. */
  function MonthlySeries(sales: seq<Sale>): seq<MonthTotal> {
    FillMonths(GroupSum(sales))
  }

  /** The whole of transformando_datos: a wrong column count fails first,
    * then any unreadable date, then any unreadable sales value. */
  function Transform(f: Frame): (r: Result<seq<MonthTotal>, TransformError>)
    requires Rectangular(f)
    ensures (r.Err? && r.error.LengthMismatch?) <==> |f.columns| != |NewColumns|
    ensures r == Err(BadDate) <==>
      |f.columns| == |NewColumns| && exists i :: 0 <= i < |f.rows| && !DateOk(f.rows[i])
    ensures r == Err(BadSales) <==>
      && |f.columns| == |NewColumns|
      && (forall i :: 0 <= i < |f.rows| ==> DateOk(f.rows[i]))
      && (exists i :: 0 <= i < |f.rows| && f.rows[i][SalesColumn].Text?)
    ensures r.Ok? ==> |f.columns| == |NewColumns| && r.value == MonthlySeries(ParseRows(f.rows).value)
  {
    match Rename(f)
    case Err(e) => Err(e)
    case Ok(g) =>
      match ParseRows(g.rows)
      case Err(e) => Err(e)
      case Ok(sales) => Ok(MonthlySeries(sales))
  }

  // ---------------------------------------------------------------------------
  // Properties of the monthly series

  function EarliestSale(sales: seq<Sale>): (m: int)
    requires sales != []
    ensures SaleIn(sales, m) && forall j :: 0 <= j < |sales| ==> m <= sales[j].month
  {
    if |sales| == 1 then sales[0].month
    else
      var rest := EarliestSale(sales[..|sales| - 1]);
      assert forall j :: 0 <= j < |sales| - 1 ==> sales[j] == sales[..|sales| - 1][j];
      if sales[|sales| - 1].month < rest then sales[|sales| - 1].month else rest
  }

  function LatestSale(sales: seq<Sale>): (m: int)
    requires sales != []
    ensures SaleIn(sales, m) && forall j :: 0 <= j < |sales| ==> sales[j].month <= m
  {
    if |sales| == 1 then sales[0].month
    else
      var rest := LatestSale(sales[..|sales| - 1]);
      assert forall j :: 0 <= j < |sales| - 1 ==> sales[j] == sales[..|sales| - 1][j];
      if sales[|sales| - 1].month > rest then sales[|sales| - 1].month else rest
  }

  /** The grouped months span exactly the months of the rows. */
  lemma GroupSumBounds(sales: seq<Sale>)
    requires sales != []
    ensures GroupSum(sales) != []
    ensures FirstMonth(GroupSum(sales)) == EarliestSale(sales)
    ensures LastMonth(GroupSum(sales)) == LatestSale(sales)
  {
    var ts := GroupSum(sales);
    GroupSumSpec(sales);
    var lo, hi := EarliestSale(sales), LatestSale(sales);
    assert HasMonth(ts, lo) && HasMonth(ts, hi);
    var klo :| 0 <= klo < |ts| && ts[klo].month == lo;
    var khi :| 0 <= khi < |ts| && ts[khi].month == hi;
    var flo, fhi := FirstMonth(ts), LastMonth(ts);
    assert SaleIn(sales, flo) && SaleIn(sales, fhi);
    var jlo :| 0 <= jlo < |sales| && sales[jlo].month == flo;
    var jhi :| 0 <= jhi < |sales| && sales[jhi].month == fhi;
  }

  /** The series runs month by month from the earliest to the latest month
    * present, and each entry holds the sum of that month's sales. */
  lemma MonthlySeriesShape(sales: seq<Sale>)
    ensures sales == [] ==> MonthlySeries(sales) == []
    ensures sales != [] ==>
      && |MonthlySeries(sales)| == LatestSale(sales) - EarliestSale(sales) + 1
      && MonthlySeries(sales)[0].month == EarliestSale(sales)
    ensures forall i :: 0 <= i < |MonthlySeries(sales)| ==>
      MonthlySeries(sales)[i].month == MonthlySeries(sales)[0].month + i
    ensures forall i :: 0 <= i < |MonthlySeries(sales)| ==>
      MonthlySeries(sales)[i].total == SumFor(sales, MonthlySeries(sales)[i].month)
  {
    MonthlySeriesTotals(sales);
    if sales != [] {
      GroupSumBounds(sales);
    }
  }

  lemma MonthlySeriesTotals(sales: seq<Sale>)
    ensures forall i :: 0 <= i < |MonthlySeries(sales)| ==>
      MonthlySeries(sales)[i].total == SumFor(sales, MonthlySeries(sales)[i].month)
  {
    var ts := GroupSum(sales);
    var r := MonthlySeries(sales);
    if ts != [] {
      GroupSumSpec(sales);
      var lo := FirstMonth(ts);
      forall i | 0 <= i < |r|
        ensures r[i].total == SumFor(sales, r[i].month)
      {
        assert r[i] == MonthTotal(lo + i, TotalAt(ts, lo + i));
      }
    }
  }

  /** The series is strictly increasing by month. */
  lemma MonthlySeriesIncreasing(sales: seq<Sale>)
    ensures forall i, j :: 0 <= i < j < |MonthlySeries(sales)| ==> MonthlySeries(sales)[i].month < MonthlySeries(sales)[j].month
  {
    MonthlySeriesShape(sales);
  }

  lemma {:induction false} SumForAbsent(sales: seq<Sale>, m: int)
    requires forall j :: 0 <= j < |sales| ==> sales[j].month != m
    ensures SumFor(sales, m) == 0
  {
    if sales != [] {
      var init := sales[..|sales| - 1];
      assert forall j :: 0 <= j < |init| ==> init[j] == sales[j];
      SumForAbsent(init, m);
    }
  }

  /** Gap-filled months hold 0: a month of the series without input rows has total 0. */
  lemma GapMonthsAreZero(sales: seq<Sale>, i: int)
    requires 0 <= i < |MonthlySeries(sales)| && !SaleIn(sales, MonthlySeries(sales)[i].month)
    ensures MonthlySeries(sales)[i].total == 0
  {
    MonthlySeriesShape(sales);
    SumForAbsent(sales, MonthlySeries(sales)[i].month);
  }

  function SeriesTotal(ts: seq<MonthTotal>): int {
    if ts == [] then 0 else SeriesTotal(ts[..|ts| - 1]) + ts[|ts| - 1].total
  }

  /** The sum over `n` consecutive months from `lo` of each month's sales. */
  function RangeSum(sales: seq<Sale>, lo: int, n: nat): int {
    if n == 0 then 0 else RangeSum(sales, lo, n - 1) + SumFor(sales, lo + n - 1)
  }

  lemma {:induction false} RangeSumOfOne(s: Sale, lo: int, n: nat)
    ensures RangeSum([s], lo, n) == if lo <= s.month < lo + n then s.amount else 0
  {
    if n > 0 {
      RangeSumOfOne(s, lo, n - 1);
      assert [s][..0] == [];
      assert SumFor([s], lo + n - 1) == if s.month == lo + n - 1 then s.amount else 0;
    }
  }

  lemma {:induction false} RangeSumSplit(sales: seq<Sale>, lo: int, n: nat)
    requires sales != []
    ensures RangeSum(sales, lo, n) == RangeSum(sales[..|sales| - 1], lo, n) + RangeSum([sales[|sales| - 1]], lo, n)
  {
    if n > 0 {
      var last := sales[|sales| - 1];
      RangeSumSplit(sales, lo, n - 1);
      assert [last][..0] == [];
      assert SumFor([last], lo + n - 1) == if last.month == lo + n - 1 then last.amount else 0;
    }
  }

  /** Summing each month's sales over a range that covers every row gives the grand total. */
  lemma {:induction false} RangeSumCovers(sales: seq<Sale>, lo: int, n: nat)
    requires forall j :: 0 <= j < |sales| ==> lo <= sales[j].month < lo + n
    ensures RangeSum(sales, lo, n) == TotalSales(sales)
  {
    if sales == [] {
      RangeSumEmpty(lo, n);
    } else {
      var init := sales[..|sales| - 1];
      RangeSumCovers(init, lo, n);
      RangeSumSplit(sales, lo, n);
      RangeSumOfOne(sales[|sales| - 1], lo, n);
    }
  }

  lemma {:induction false} RangeSumEmpty(lo: int, n: nat)
    ensures RangeSum([], lo, n) == 0
  {
    if n > 0 {
      RangeSumEmpty(lo, n - 1);
    }
  }

  lemma {:induction false} SeriesTotalIsRangeSum(ts: seq<MonthTotal>, sales: seq<Sale>, lo: int)
    requires forall i :: 0 <= i < |ts| ==> ts[i].total == SumFor(sales, lo + i)
    ensures SeriesTotal(ts) == RangeSum(sales, lo, |ts|)
  {
    if ts != [] {
      SeriesTotalIsRangeSum(ts[..|ts| - 1], sales, lo);
    }
  }

  /** Conservation: the series adds up to the total of all input sales; gap-filling adds nothing. */
  lemma MonthlySeriesConserves(sales: seq<Sale>)
    ensures SeriesTotal(MonthlySeries(sales)) == TotalSales(sales)
  {
    var ts := MonthlySeries(sales);
    MonthlySeriesShape(sales);
    if sales == [] {
    } else {
      var lo := EarliestSale(sales);
      SeriesTotalIsRangeSum(ts, sales, lo);
      RangeSumCovers(sales, lo, |ts|);
    }
  }

  // ---------------------------------------------------------------------------
  // sarima_pipeline's split

  /** A Python slice bound `k` on a sequence of length `len`: negative bounds count from the end. */
  function SliceBound(k: int, len: nat): (b: nat)
    ensures b <= len
  {
    if k < 0 then (if len + k < 0 then 0 else len + k) else if k > len then len else k
  }

  /** train = ts.iloc[:len(ts) - 2], test = ts.iloc[len(ts) - 2:]. */
  function TrainTestSplit<T>(ts: seq<T>): (split: (seq<T>, seq<T>))
    ensures split.0 + split.1 == ts
    ensures |ts| >= 2 ==> |split.1| == 2 && |split.0| == |ts| - 2
    ensures |ts| < 2 ==> split.0 == [] && split.1 == ts
  {
    var k := SliceBound(|ts| - 2, |ts|);
    (ts[..k], ts[k..])
  }
}
