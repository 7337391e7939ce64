/** The rate-history page's slotting of the per-(date, rate type) statistics
    rows: one entry per date, with a buy slot and a sell slot each holding the
    last row of that date and type, or nothing. */
module RateHistoryPage {
  import opened Outcomes
  import opened Records

  /** One row of the rate statistics query (grouped by date and rate type). */
  datatype StatRow = StatRow(date: int, rateType: RateType, avgRate: real, minRate: real, maxRate: real, count: nat)

  datatype DaySlots = DaySlots(buy: Option<StatRow>, sell: Option<StatRow>)

  function Slot(e: DaySlots, t: RateType): Option<StatRow> {
    match t
    case Buy => e.buy
    case Sell => e.sell
  }

  /** `e[t] = s`: only the slot of type t is overwritten. */
  function Assign(e: DaySlots, t: RateType, s: StatRow): (r: DaySlots)
    ensures Slot(r, t) == Some(s)
    ensures forall u :: u != t ==> Slot(r, u) == Slot(e, u)
  {
    match t
    case Buy => e.(buy := Some(s))
    case Sell => e.(sell := Some(s))
  }

  /** The row of the given date and type that comes last in the input, if
      there is one. */
  function LastOf(rows: seq<StatRow>, date: int, t: RateType): (r: Option<StatRow>)
    ensures r.None? <==> forall x :: x in rows ==> !(x.date == date && x.rateType == t)
    ensures r.Some? ==> r.value in rows && r.value.date == date && r.value.rateType == t
  {
    if rows == [] then None
    else
      var last := rows[|rows| - 1];
      if last.date == date && last.rateType == t then Some(last)
      else
        var init := rows[..|rows| - 1];
        assert rows == init + [last];
        LastOf(init, date, t)
  }

  /** The entry the page should show for `date`. */
  function SlotsFor(rows: seq<StatRow>, date: int): DaySlots {
    DaySlots(LastOf(rows, date, Buy), LastOf(rows, date, Sell))
  }

  function StatDates(rows: seq<StatRow>): set<int> {
    set s | s in rows :: s.date
  }

  predicate SlottedSoFar(acc: map<int, DaySlots>, prefix: seq<StatRow>) {
    acc.Keys == StatDates(prefix) && forall d :: d in acc ==> acc[d] == SlotsFor(prefix, d)
  }

  lemma LastOfSnoc(rows: seq<StatRow>, s: StatRow, date: int, t: RateType)
    ensures LastOf(rows + [s], date, t) == if s.date == date && s.rateType == t then Some(s) else LastOf(rows, date, t)
  {
    assert (rows + [s])[..|rows|] == rows;
  }

  lemma SlotStep(acc: map<int, DaySlots>, prefix: seq<StatRow>, s: StatRow)
    requires SlottedSoFar(acc, prefix)
    ensures var start := if s.date in acc then acc[s.date] else DaySlots(None, None);
            SlottedSoFar(acc[s.date := Assign(start, s.rateType, s)], prefix + [s])
  {
    var start := if s.date in acc then acc[s.date] else DaySlots(None, None);
    var acc' := acc[s.date := Assign(start, s.rateType, s)];
    assert StatDates(prefix + [s]) == StatDates(prefix) + {s.date} by {
      forall x | x in StatDates(prefix + [s])
        ensures x in StatDates(prefix) + {s.date}
      {
        var y :| y in prefix + [s] && y.date == x;
        if y != s {
          assert y in prefix;
        }
      }
      forall x | x in StatDates(prefix)
        ensures x in StatDates(prefix + [s])
      {
        var y :| y in prefix && y.date == x;
        assert y in prefix + [s];
      }
      assert s in prefix + [s];
    }
    if s.date !in acc {
      assert forall x :: x in prefix ==> x.date != s.date;
    }
    forall d, t | d in acc'
      ensures Slot(acc'[d], t) == LastOf(prefix + [s], d, t)
    {
      LastOfSnoc(prefix, s, d, t);
    }
    forall d | d in acc'
      ensures acc'[d] == SlotsFor(prefix + [s], d)
    {
      assert Slot(acc'[d], Buy) == LastOf(prefix + [s], d, Buy);
      assert Slot(acc'[d], Sell) == LastOf(prefix + [s], d, Sell);
    }
  }

  /** The page's reduce: for each row, create its date's entry with both
      slots empty on first sight, then store the row in its type's slot. */
  method GroupStats(rows: seq<StatRow>) returns (acc: map<int, DaySlots>)
    ensures acc.Keys == StatDates(rows)
    ensures forall d :: d in acc ==> acc[d] == SlotsFor(rows, d)
  {
    acc := map[];
    var i := 0;
    while i < |rows|
      invariant 0 <= i <= |rows|
      invariant SlottedSoFar(acc, rows[..i])
    {
      var s := rows[i];
      SlotStep(acc, rows[..i], s);
      if s.date !in acc {
        acc := acc[s.date := DaySlots(None, None)];
      }
      acc := acc[s.date := Assign(acc[s.date], s.rateType, s)];
      assert rows[..i + 1] == rows[..i] + [s];
      i := i + 1;
    }
    assert rows[..i] == rows;
  }

  /** The rows of one date, in input order. */
  function StatsOn(rows: seq<StatRow>, date: int): seq<StatRow> {
    if rows == [] then []
    else
      var last := rows[|rows| - 1];
      StatsOn(rows[..|rows| - 1], date) + (if last.date == date then [last] else [])
  }

  /** A date's entry depends only on the rows of that date: rows of other
      dates never alter it. */
  lemma {:induction false} SlotsOnlySeeOwnDate(rows: seq<StatRow>, date: int)
    ensures SlotsFor(rows, date) == SlotsFor(StatsOn(rows, date), date)
  {
    if rows != [] {
      var init := rows[..|rows| - 1];
      var last := rows[|rows| - 1];
      SlotsOnlySeeOwnDate(init, date);
      assert rows == init + [last];
      var on := StatsOn(init, date);
      LastOfSnoc(init, last, date, Buy);
      LastOfSnoc(init, last, date, Sell);
      if last.date == date {
        LastOfSnoc(on, last, date, Buy);
        LastOfSnoc(on, last, date, Sell);
      } else {
        assert StatsOn(rows, date) == on;
      }
    }
  }

  /** At most one row per (date, rate type), as the statistics query's
      GROUP BY yields. */
  predicate KeysUnique(rows: seq<StatRow>) {
    forall i, j :: 0 <= i < j < |rows| && rows[i].date == rows[j].date ==> rows[i].rateType != rows[j].rateType
  }

  lemma SameKeySameRow(rows: seq<StatRow>, x: StatRow, y: StatRow)
    requires KeysUnique(rows) && x in rows && y in rows
    requires x.date == y.date && x.rateType == y.rateType
    ensures x == y
  {
    var i :| 0 <= i < |rows| && rows[i] == x;
    var j :| 0 <= j < |rows| && rows[j] == y;
    assert i == j;
  }

  /** With unique keys no row is lost: each row sits in its date's entry, in
      its type's slot. */
  lemma NoRowLost(rows: seq<StatRow>, s: StatRow)
    requires KeysUnique(rows) && s in rows
    ensures Slot(SlotsFor(rows, s.date), s.rateType) == Some(s)
  {
    var l := LastOf(rows, s.date, s.rateType);
    SameKeySameRow(rows, l.value, s);
    match s.rateType
    case Buy =>
    case Sell =>
  }

  /** With unique keys the entries do not depend on the order of the rows. */
  lemma SlotsOrderIndependent(a: seq<StatRow>, b: seq<StatRow>, date: int)
    requires KeysUnique(a) && KeysUnique(b) && multiset(a) == multiset(b)
    ensures SlotsFor(a, date) == SlotsFor(b, date)
  {
    forall t
      ensures LastOf(a, date, t) == LastOf(b, date, t)
    {
      assert forall x :: x in a <==> x in b by {
        forall x
          ensures x in a <==> x in b
        {
          assert x in a <==> x in multiset(a);
          assert x in b <==> x in multiset(b);
        }
      }
      var la, lb := LastOf(a, date, t), LastOf(b, date, t);
      if la.Some? && lb.Some? {
        SameKeySameRow(a, la.value, lb.value);
      }
    }
    assert LastOf(a, date, Buy) == LastOf(b, date, Buy);
    assert LastOf(a, date, Sell) == LastOf(b, date, Sell);
  }
}
