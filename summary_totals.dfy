/** The totals folds over lists of summary rows: the five-field totals of a
    day (computed identically by the daily-summary endpoint and by the
    daily-summary page) and the three-field totals of the profit report. */
module SummaryTotals {
  import opened Records

  /** The THB fields of a summary row that the folds add up. */
  datatype Field = Opening | Purchased | Sold | Closing | Profit

  function FieldOf(r: Summary, f: Field): real {
    match f
    case Opening => r.openingThb
    case Purchased => r.purchasedThb
    case Sold => r.soldThb
    case Closing => r.closingThb
    case Profit => r.dailyProfitThb
  }

  /** The sum of one field over the rows, first row first: the reference the
      folds are checked against. */
  function SumOf(rows: seq<Summary>, f: Field): real {
    if rows == [] then 0.0 else FieldOf(rows[0], f) + SumOf(rows[1..], f)
  }

  datatype DayTotals = DayTotals(opening: real, purchased: real, sold: real, closing: real, profit: real)

  /** One step of the five-field reduce. */
  function AddRow(acc: DayTotals, r: Summary): DayTotals {
    DayTotals(acc.opening + r.openingThb, acc.purchased + r.purchasedThb, acc.sold + r.soldThb,
              acc.closing + r.closingThb, acc.profit + r.dailyProfitThb)
  }

  /** The five-field reduce from all-zero totals, row by row in list order. */
  function Totals(rows: seq<Summary>): DayTotals {
    if rows == [] then DayTotals(0.0, 0.0, 0.0, 0.0, 0.0)
    else AddRow(Totals(rows[..|rows| - 1]), rows[|rows| - 1])
  }

  datatype ReportTotals = ReportTotals(purchased: real, sold: real, profit: real)

  /** The profit report's three-field reduce, row by row in list order. */
  function ReportTotalsOf(rows: seq<Summary>): ReportTotals {
    if rows == [] then ReportTotals(0.0, 0.0, 0.0)
    else
      var acc := ReportTotalsOf(rows[..|rows| - 1]);
      var r := rows[|rows| - 1];
      ReportTotals(acc.purchased + r.purchasedThb, acc.sold + r.soldThb, acc.profit + r.dailyProfitThb)
  }

  lemma {:induction false} SumOfConcat(a: seq<Summary>, b: seq<Summary>, f: Field)
    ensures SumOf(a + b, f) == SumOf(a, f) + SumOf(b, f)
  {
    if a != [] {
      assert (a + b)[1..] == a[1..] + b;
      SumOfConcat(a[1..], b, f);
    } else {
      assert a + b == b;
    }
  }

  lemma SumOfSnoc(rows: seq<Summary>, f: Field)
    requires rows != []
    ensures SumOf(rows, f) == SumOf(rows[..|rows| - 1], f) + FieldOf(rows[|rows| - 1], f)
  {
    var last := [rows[|rows| - 1]];
    assert rows == rows[..|rows| - 1] + last;
    SumOfConcat(rows[..|rows| - 1], last, f);
    assert last[1..] == [];
  }

  /** Each of the five totals is the sum of its field over the rows. */
  lemma {:induction false} TotalsAreFieldSums(rows: seq<Summary>)
    ensures var t := Totals(rows);
            && t.opening == SumOf(rows, Opening) && t.purchased == SumOf(rows, Purchased)
            && t.sold == SumOf(rows, Sold) && t.closing == SumOf(rows, Closing)
            && t.profit == SumOf(rows, Profit)
  {
    if rows != [] {
      TotalsAreFieldSums(rows[..|rows| - 1]);
      SumOfSnoc(rows, Opening);
      SumOfSnoc(rows, Purchased);
      SumOfSnoc(rows, Sold);
      SumOfSnoc(rows, Closing);
      SumOfSnoc(rows, Profit);
    }
  }

  /** An empty list totals to zero in every field. */
  lemma EmptyTotals()
    ensures Totals([]) == DayTotals(0.0, 0.0, 0.0, 0.0, 0.0)
    ensures ReportTotalsOf([]) == ReportTotals(0.0, 0.0, 0.0)
  {
  }

  lemma MultisetRemoveAt(b: seq<Summary>, j: nat)
    requires j < |b|
    ensures multiset(b[..j] + b[j + 1..]) == multiset(b) - multiset{b[j]}
  {
    assert b == b[..j] + [b[j]] + b[j + 1..];
  }

  lemma SumOfRemoveAt(b: seq<Summary>, j: nat, f: Field)
    requires j < |b|
    ensures SumOf(b, f) == FieldOf(b[j], f) + SumOf(b[..j] + b[j + 1..], f)
  {
    var x := b[j];
    assert b == b[..j] + [x] + b[j + 1..];
    SumOfConcat(b[..j] + [x], b[j + 1..], f);
    SumOfConcat(b[..j], [x], f);
    SumOfConcat(b[..j], b[j + 1..], f);
    assert [x][1..] == [];
  }

  /** A field's sum depends only on which rows there are, not on their order. */
  lemma {:induction false} SumOfPermutation(a: seq<Summary>, b: seq<Summary>, f: Field)
    requires multiset(a) == multiset(b)
    ensures SumOf(a, f) == SumOf(b, f)
  {
    if a == [] {
      assert |b| == |multiset(b)| == 0;
    } else {
      var x := a[0];
      assert x in multiset(b);
      var j :| 0 <= j < |b| && b[j] == x;
      var rest := b[..j] + b[j + 1..];
      MultisetRemoveAt(b, j);
      assert a == [x] + a[1..];
      assert multiset(a[1..]) == multiset(a) - multiset{x};
      SumOfPermutation(a[1..], rest, f);
      SumOfRemoveAt(b, j, f);
    }
  }

  /** The five totals do not depend on the order of the rows. */
  lemma TotalsOrderIndependent(a: seq<Summary>, b: seq<Summary>)
    requires multiset(a) == multiset(b)
    ensures Totals(a) == Totals(b)
  {
    TotalsAreFieldSums(a);
    TotalsAreFieldSums(b);
    SumOfPermutation(a, b, Opening);
    SumOfPermutation(a, b, Purchased);
    SumOfPermutation(a, b, Sold);
    SumOfPermutation(a, b, Closing);
    SumOfPermutation(a, b, Profit);
  }

  /** When every row is THB-balanced, so are the totals. */
  lemma {:induction false} TotalsBalance(rows: seq<Summary>)
    requires forall i :: 0 <= i < |rows| ==> ThbBalanced(rows[i])
    ensures var t := Totals(rows);
            t.closing == t.opening + t.purchased - t.sold
  {
    if rows != [] {
      var init := rows[..|rows| - 1];
      assert forall i :: 0 <= i < |init| ==> init[i] == rows[i];
      TotalsBalance(init);
      assert ThbBalanced(rows[|rows| - 1]);
    }
  }

  /** When every row's profit is its cash-flow difference, the total profit
      is the total purchased minus the total sold. */
  lemma {:induction false} TotalsProfit(rows: seq<Summary>)
    requires forall i :: 0 <= i < |rows| ==> ProfitIsCashFlow(rows[i])
    ensures var t := Totals(rows);
            t.profit == t.purchased - t.sold
  {
    if rows != [] {
      var init := rows[..|rows| - 1];
      assert forall i :: 0 <= i < |init| ==> init[i] == rows[i];
      TotalsProfit(init);
      assert ProfitIsCashFlow(rows[|rows| - 1]);
    }
  }

  /** The report's three totals are the purchased, sold and profit sums. */
  lemma {:induction false} ReportTotalsAreFieldSums(rows: seq<Summary>)
    ensures var t := ReportTotalsOf(rows);
            t.purchased == SumOf(rows, Purchased) && t.sold == SumOf(rows, Sold) && t.profit == SumOf(rows, Profit)
  {
    if rows != [] {
      ReportTotalsAreFieldSums(rows[..|rows| - 1]);
      SumOfSnoc(rows, Purchased);
      SumOfSnoc(rows, Sold);
      SumOfSnoc(rows, Profit);
    }
  }

  /** On the same rows the report totals agree with the day totals. */
  lemma ReportTotalsAgree(rows: seq<Summary>)
    ensures var t := Totals(rows);
            ReportTotalsOf(rows) == ReportTotals(t.purchased, t.sold, t.profit)
  {
    TotalsAreFieldSums(rows);
    ReportTotalsAreFieldSums(rows);
  }
}
