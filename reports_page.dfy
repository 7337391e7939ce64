/** The profit-report page's grouping of report rows by summary date: one
    group per date holding the date's purchased, sold and profit sums and the
    date's rows in input order. */
module ReportsPage {
  import opened Records
  import opened SummaryTotals

  datatype DateGroup = DateGroup(purchased: real, sold: real, profit: real, suppliers: seq<Summary>)

  /** The rows dated `date`, in input order. */
  function OnDate(rows: seq<Summary>, date: int): (r: seq<Summary>)
    ensures |r| <= |rows|
    ensures forall x :: x in r ==> x in rows && x.summaryDate == date
  {
    if rows == [] then []
    else
      var last := rows[|rows| - 1];
      OnDate(rows[..|rows| - 1], date) + (if last.summaryDate == date then [last] else [])
  }

  /** The dates that occur in the rows. */
  function Dates(rows: seq<Summary>): set<int> {
    set r | r in rows :: r.summaryDate
  }

  /** The group the page should show for `date`. */
  function GroupFor(rows: seq<Summary>, date: int): DateGroup {
    var on := OnDate(rows, date);
    DateGroup(SumOf(on, Purchased), SumOf(on, Sold), SumOf(on, Profit), on)
  }

  lemma OnDateSnoc(rows: seq<Summary>, r: Summary, date: int)
    ensures OnDate(rows + [r], date) == OnDate(rows, date) + (if r.summaryDate == date then [r] else [])
  {
    assert (rows + [r])[..|rows|] == rows;
  }

  /** Adding one row changes only its own date's group, and that one by
      adding the row's fields and appending the row. */
  lemma GroupForSnoc(rows: seq<Summary>, r: Summary, date: int)
    ensures GroupFor(rows + [r], date) ==
              if r.summaryDate == date then AddToGroup(GroupFor(rows, date), r) else GroupFor(rows, date)
  {
    OnDateSnoc(rows, r, date);
    if r.summaryDate == date {
      GroupForOwnDate(rows, r);
    } else {
      assert OnDate(rows + [r], date) == OnDate(rows, date);
    }
  }

  lemma GroupForOwnDate(rows: seq<Summary>, r: Summary)
    ensures GroupFor(rows + [r], r.summaryDate) == AddToGroup(GroupFor(rows, r.summaryDate), r)
  {
    var date := r.summaryDate;
    OnDateSnoc(rows, r, date);
    var on := OnDate(rows + [r], date);
    assert on[..|on| - 1] == OnDate(rows, date);
    assert on[|on| - 1] == r;
    SumOfSnoc(on, Purchased);
    SumOfSnoc(on, Sold);
    SumOfSnoc(on, Profit);
  }

  /** A group after one row of its date has been added. */
  function AddToGroup(g: DateGroup, r: Summary): DateGroup {
    DateGroup(g.purchased + r.purchasedThb, g.sold + r.soldThb, g.profit + r.dailyProfitThb, g.suppliers + [r])
  }

  /** A date that occurs in no row selects no rows. */
  lemma {:induction false} OnAbsentDate(rows: seq<Summary>, date: int)
    requires date !in Dates(rows)
    ensures OnDate(rows, date) == []
  {
    if rows != [] {
      var init := rows[..|rows| - 1];
      assert rows[|rows| - 1] in rows;
      assert Dates(init) <= Dates(rows) by {
        forall x | x in Dates(init)
          ensures x in Dates(rows)
        {
          var y :| y in init && y.summaryDate == x;
          assert y in rows;
        }
      }
      OnAbsentDate(init, date);
    }
  }

  /** The accumulator invariant: exactly the dates seen so far, each with its
      group over the rows seen so far. */
  predicate GroupedSoFar(acc: map<int, DateGroup>, prefix: seq<Summary>) {
    acc.Keys == Dates(prefix) && forall d :: d in acc ==> acc[d] == GroupFor(prefix, d)
  }

  lemma DatesSnoc(prefix: seq<Summary>, r: Summary)
    ensures Dates(prefix + [r]) == Dates(prefix) + {r.summaryDate}
  {
    forall x | x in Dates(prefix + [r])
      ensures x in Dates(prefix) + {r.summaryDate}
    {
      var y :| y in prefix + [r] && y.summaryDate == x;
      if y != r {
        assert y in prefix;
      }
    }
    forall x | x in Dates(prefix)
      ensures x in Dates(prefix + [r])
    {
      var y :| y in prefix && y.summaryDate == x;
      assert y in prefix + [r];
    }
    assert r in prefix + [r];
  }

  lemma GroupStep(acc: map<int, DateGroup>, rows: seq<Summary>, i: nat)
    requires i < |rows| && GroupedSoFar(acc, rows[..i])
    ensures var r := rows[i];
            var start := if r.summaryDate in acc then acc[r.summaryDate] else DateGroup(0.0, 0.0, 0.0, []);
            GroupedSoFar(acc[r.summaryDate := AddToGroup(start, r)], rows[..i + 1])
  {
    var prefix, r := rows[..i], rows[i];
    assert rows[..i + 1] == prefix + [r];
    var date := r.summaryDate;
    var start := if date in acc then acc[date] else DateGroup(0.0, 0.0, 0.0, []);
    var acc' := acc[date := AddToGroup(start, r)];
    DatesSnoc(prefix, r);
    if date !in acc {
      OnAbsentDate(prefix, date);
    }
    assert start == GroupFor(prefix, date);
    forall d | d in acc'
      ensures acc'[d] == GroupFor(prefix + [r], d)
    {
      GroupForSnoc(prefix, r, d);
      if d != date {
        assert acc'[d] == acc[d] == GroupFor(prefix, d);
      }
    }
  }

  /** The accumulator after reducing the rows: for the last row, its date's
      group (empty if not yet there) with the row added. */
  function Grouped(rows: seq<Summary>): map<int, DateGroup> {
    if rows == [] then map[]
    else
      var acc := Grouped(rows[..|rows| - 1]);
      var r := rows[|rows| - 1];
      var start := if r.summaryDate in acc then acc[r.summaryDate] else DateGroup(0.0, 0.0, 0.0, []);
      acc[r.summaryDate := AddToGroup(start, r)]
  }

  /** The reduce yields exactly one group per date that occurs, and that group
      holds the date's rows in input order and their sums. */
  lemma {:induction false} GroupedIsGroupFor(rows: seq<Summary>)
    ensures GroupedSoFar(Grouped(rows), rows)
  {
    if rows == [] {
      assert Dates(rows) == {};
    } else {
      var i := |rows| - 1;
      GroupedIsGroupFor(rows[..i]);
      GroupStep(Grouped(rows[..i]), rows, i);
      assert rows[..i + 1] == rows;
    }
  }

  /** The page's reduce: for each row, create its date's group with zero sums
      and no rows on first sight, then add the row's purchased, sold and
      profit and append the row. */
  method GroupByDate(rows: seq<Summary>) returns (acc: map<int, DateGroup>)
    ensures acc == Grouped(rows)
    ensures acc.Keys == Dates(rows)
    ensures forall d :: d in acc ==> acc[d] == GroupFor(rows, d)
  {
    acc := map[];
    var i := 0;
    while i < |rows|
      invariant 0 <= i <= |rows|
      invariant acc == Grouped(rows[..i])
    {
      var r := rows[i];
      var date := r.summaryDate;
      // The group found or created for the date; the page mutates it inside
      // the accumulator, here it is written back once complete.
      var g := if date in acc then acc[date] else DateGroup(0.0, 0.0, 0.0, []);
      g := g.(purchased := g.purchased + r.purchasedThb);
      g := g.(sold := g.sold + r.soldThb);
      g := g.(profit := g.profit + r.dailyProfitThb);
      g := g.(suppliers := g.suppliers + [r]);
      acc := acc[date := g];
      assert rows[..i + 1][..i] == rows[..i];
      i := i + 1;
    }
    assert rows[..i] == rows;
    GroupedIsGroupFor(rows);
  }

  /** Under the backend's profit rule, every group's profit is its purchased
      minus its sold. */
  lemma GroupProfit(rows: seq<Summary>, date: int)
    requires forall i :: 0 <= i < |rows| ==> ProfitIsCashFlow(rows[i])
    ensures var g := GroupFor(rows, date);
            g.profit == g.purchased - g.sold
  {
    var on := OnDate(rows, date);
    forall i | 0 <= i < |on|
      ensures ProfitIsCashFlow(on[i])
    {
      assert on[i] in rows;
    }
    TotalsProfit(on);
    TotalsAreFieldSums(on);
  }

  /** The number of rows in the groups of the listed dates. */
  function GroupedCount(rows: seq<Summary>, dates: seq<int>): nat {
    if dates == [] then 0 else |OnDate(rows, dates[0])| + GroupedCount(rows, dates[1..])
  }

  /** The sum of one field over the groups of the listed dates. */
  function GroupedSum(rows: seq<Summary>, dates: seq<int>, f: Field): real {
    if dates == [] then 0.0 else SumOf(OnDate(rows, dates[0]), f) + GroupedSum(rows, dates[1..], f)
  }

  lemma {:induction false} GroupedCountSnoc(rows: seq<Summary>, r: Summary, dates: seq<int>)
    ensures GroupedCount(rows + [r], dates) == GroupedCount(rows, dates) + multiset(dates)[r.summaryDate]
  {
    if dates != [] {
      assert dates == [dates[0]] + dates[1..];
      assert multiset(dates) == multiset{dates[0]} + multiset(dates[1..]);
      OnDateSnoc(rows, r, dates[0]);
      if r.summaryDate != dates[0] {
        assert OnDate(rows + [r], dates[0]) == OnDate(rows, dates[0]);
      }
      GroupedCountSnoc(rows, r, dates[1..]);
    }
  }

  lemma {:induction false} GroupedSumSnoc(rows: seq<Summary>, r: Summary, dates: seq<int>, f: Field)
    requires multiset(dates)[r.summaryDate] <= 1
    ensures GroupedSum(rows + [r], dates, f)
            == GroupedSum(rows, dates, f) + (if multiset(dates)[r.summaryDate] == 1 then FieldOf(r, f) else 0.0)
  {
    if dates != [] {
      assert dates == [dates[0]] + dates[1..];
      assert multiset(dates) == multiset{dates[0]} + multiset(dates[1..]);
      OnDateSnoc(rows, r, dates[0]);
      if r.summaryDate == dates[0] {
        var on := OnDate(rows + [r], dates[0]);
        assert on[..|on| - 1] == OnDate(rows, dates[0]);
        assert on[|on| - 1] == r;
        SumOfSnoc(on, f);
      } else {
        assert OnDate(rows + [r], dates[0]) == OnDate(rows, dates[0]);
      }
      GroupedSumSnoc(rows, r, dates[1..], f);
    }
  }

  /** Every row lands in exactly one group: over any listing of the dates
      that names each row's date once, the group sizes add up to the number
      of rows. */
  lemma {:induction false} GroupsPartitionRows(rows: seq<Summary>, dates: seq<int>)
    requires forall r :: r in rows ==> multiset(dates)[r.summaryDate] == 1
    ensures GroupedCount(rows, dates) == |rows|
  {
    if rows == [] {
      GroupedCountEmpty(dates);
    } else {
      var init := rows[..|rows| - 1];
      var r := rows[|rows| - 1];
      assert rows == init + [r];
      GroupsPartitionRows(init, dates);
      GroupedCountSnoc(init, r, dates);
    }
  }

  lemma {:induction false} GroupedCountEmpty(dates: seq<int>)
    ensures GroupedCount([], dates) == 0
  {
    if dates != [] {
      GroupedCountEmpty(dates[1..]);
    }
  }

  lemma {:induction false} GroupedSumEmpty(dates: seq<int>, f: Field)
    ensures GroupedSum([], dates, f) == 0.0
  {
    if dates != [] {
      GroupedSumEmpty(dates[1..], f);
    }
  }

  /** Over any listing of the dates that names each row's date once, the
      groups' sums of a field add up to the field's sum over all rows. */
  lemma {:induction false} GroupedSumIsTotal(rows: seq<Summary>, dates: seq<int>, f: Field)
    requires forall r :: r in rows ==> multiset(dates)[r.summaryDate] == 1
    ensures GroupedSum(rows, dates, f) == SumOf(rows, f)
  {
    if rows == [] {
      GroupedSumEmpty(dates, f);
    } else {
      var init := rows[..|rows| - 1];
      var r := rows[|rows| - 1];
      assert rows == init + [r];
      GroupedSumIsTotal(init, dates, f);
      GroupedSumSnoc(init, r, dates, f);
      SumOfSnoc(rows, f);
    }
  }

  /** A group's sum of a field: the sums the page keeps for purchased, sold
      and profit, otherwise the sum over the group's rows. */
  function GroupTotal(g: DateGroup, f: Field): real {
    match f
    case Purchased => g.purchased
    case Sold => g.sold
    case Profit => g.profit
    case _ => SumOf(g.suppliers, f)
  }

  /** The number of rows in the listed groups of a grouping. */
  function MapCount(groups: map<int, DateGroup>, dates: seq<int>): nat
    requires forall i :: 0 <= i < |dates| ==> dates[i] in groups
  {
    if dates == [] then 0
    else
      |groups[dates[0]].suppliers| + MapCount(groups, dates[1..])
  }

  /** The sum of a field over the listed groups of a grouping. */
  function MapSum(groups: map<int, DateGroup>, dates: seq<int>, f: Field): real
    requires forall i :: 0 <= i < |dates| ==> dates[i] in groups
  {
    if dates == [] then 0.0
    else
      GroupTotal(groups[dates[0]], f) + MapSum(groups, dates[1..], f)
  }

  lemma {:induction false} MapMatchesGrouped(rows: seq<Summary>, dates: seq<int>, f: Field)
    requires GroupedSoFar(Grouped(rows), rows)
    requires forall i :: 0 <= i < |dates| ==> dates[i] in Grouped(rows)
    ensures MapCount(Grouped(rows), dates) == GroupedCount(rows, dates)
    ensures MapSum(Grouped(rows), dates, f) == GroupedSum(rows, dates, f)
  {
    if dates != [] {
      assert GroupTotal(Grouped(rows)[dates[0]], f) == SumOf(OnDate(rows, dates[0]), f);
      MapMatchesGrouped(rows, dates[1..], f);
    }
  }

  /** A date listed without repetition is listed once. */
  lemma {:induction false} ListedOnce(dates: seq<int>, d: int)
    requires forall i, j :: 0 <= i < j < |dates| ==> dates[i] != dates[j]
    requires d in dates
    ensures multiset(dates)[d] == 1
  {
    assert dates == [dates[0]] + dates[1..];
    assert multiset(dates) == multiset{dates[0]} + multiset(dates[1..]);
    if d == dates[0] {
      assert d !in dates[1..];
    } else {
      ListedOnce(dates[1..], d);
    }
  }

  /** Listing each date of the reduce's result once, its groups hold every
      row exactly once, and their sums of any field add up to the field's
      sum over all rows. */
  lemma GroupByDateCoversRows(rows: seq<Summary>, dates: seq<int>, f: Field)
    requires forall i, j :: 0 <= i < j < |dates| ==> dates[i] != dates[j]
    requires forall i :: 0 <= i < |dates| ==> dates[i] in Grouped(rows)
    requires forall d :: d in Grouped(rows) ==> d in dates
    ensures MapCount(Grouped(rows), dates) == |rows|
    ensures MapSum(Grouped(rows), dates, f) == SumOf(rows, f)
  {
    GroupedIsGroupFor(rows);
    forall r | r in rows
      ensures multiset(dates)[r.summaryDate] == 1
    {
      assert r.summaryDate in Dates(rows);
      ListedOnce(dates, r.summaryDate);
    }
    GroupsPartitionRows(rows, dates);
    GroupedSumIsTotal(rows, dates, f);
    MapMatchesGrouped(rows, dates, f);
  }

  /** The page's groups add up to the profit report's backend totals. */
  lemma GroupsAgreeWithReportTotals(rows: seq<Summary>, dates: seq<int>)
    requires forall r :: r in rows ==> multiset(dates)[r.summaryDate] == 1
    ensures var t := ReportTotalsOf(rows);
            && GroupedSum(rows, dates, Purchased) == t.purchased
            && GroupedSum(rows, dates, Sold) == t.sold
            && GroupedSum(rows, dates, Profit) == t.profit
  {
    ReportTotalsAreFieldSums(rows);
    GroupedSumIsTotal(rows, dates, Purchased);
    GroupedSumIsTotal(rows, dates, Sold);
    GroupedSumIsTotal(rows, dates, Profit);
  }
}
