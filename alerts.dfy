/** The two low-balance conditions: the dashboard card's flag, computed on a
    freshly recomputed row, and the alert list, computed from whatever the
    summary table holds for today (possibly no row at all). A supplier's
    threshold may be NULL; the two conditions treat NULL differently. */
module Alerts {
  import opened Outcomes
  import opened Records

  /** `Number(low_balance_alert)`: a NULL threshold reads as 0. */
  function ThresholdNumber(threshold: Option<real>): (x: real)
    ensures threshold.Some? ==> x == threshold.value
    ensures threshold.None? ==> x == 0.0
  {
    match threshold
    case None => 0.0
    case Some(t) => t
  }

  /** The dashboard flag: the closing THB balance is strictly below the
      supplier's threshold read as a number. */
  predicate LowBalance(row: Summary, threshold: Option<real>) {
    row.closingThb < ThresholdNumber(threshold)
  }

  /** The SQL comparison `closing_thb < low_balance_alert`: never true
      against a NULL threshold. */
  predicate BelowThreshold(row: Summary, threshold: Option<real>) {
    threshold.Some? && row.closingThb < threshold.value
  }

  /** One entry of the alert list; `currentBalance` is None when the supplier
      has no summary row for today. */
  datatype AlertRow = AlertRow(supplierId: nat, name: string, threshold: Option<real>, currentBalance: Option<real>)

  /** The supplier's row for today, if there is one (the LEFT JOIN). */
  function TodayRow(rows: map<SummaryKey, Summary>, supplierId: nat, today: int): (r: Option<Summary>)
    ensures r.Some? <==> SummaryKey(supplierId, today) in rows
    ensures r.Some? ==> r.value == rows[SummaryKey(supplierId, today)]
  {
    var key := SummaryKey(supplierId, today);
    if key in rows then Some(rows[key]) else None
  }

  /** The alert list's WHERE clause: no row for today, or today's closing THB
      is strictly below the threshold. */
  predicate Alerted(s: Supplier, rows: map<SummaryKey, Summary>, today: int) {
    match TodayRow(rows, s.id, today)
    case None => true
    case Some(row) => BelowThreshold(row, s.lowBalanceAlert)
  }

  function AlertOf(s: Supplier, rows: map<SummaryKey, Summary>, today: int): (a: AlertRow)
    ensures a.supplierId == s.id && a.name == s.name && a.threshold == s.lowBalanceAlert
    ensures a.currentBalance.None? <==> SummaryKey(s.id, today) !in rows
    ensures a.currentBalance.Some? ==> a.currentBalance.value == rows[SummaryKey(s.id, today)].closingThb
  {
    var balance := match TodayRow(rows, s.id, today)
      case None => None
      case Some(row) => Some(row.closingThb);
    AlertRow(s.id, s.name, s.lowBalanceAlert, balance)
  }

  /** The alert list: one entry per alerted supplier, in supplier order. */
  function LowBalanceAlerts(suppliers: seq<Supplier>, rows: map<SummaryKey, Summary>, today: int): (r: seq<AlertRow>)
    ensures |r| <= |suppliers|
    ensures forall a :: a in r ==> exists s :: s in suppliers && Alerted(s, rows, today) && a == AlertOf(s, rows, today)
    ensures forall s :: s in suppliers && Alerted(s, rows, today) ==> AlertOf(s, rows, today) in r
  {
    if suppliers == [] then []
    else
      var init := suppliers[..|suppliers| - 1];
      var s := suppliers[|suppliers| - 1];
      assert forall x :: x in init ==> x in suppliers;
      assert suppliers == init + [s];
      LowBalanceAlerts(init, rows, today) + (if Alerted(s, rows, today) then [AlertOf(s, rows, today)] else [])
  }

  /** The positions of the alerted suppliers in the list. */
  function AlertedAt(suppliers: seq<Supplier>, rows: map<SummaryKey, Summary>, today: int): set<nat> {
    set i: nat | i < |suppliers| && Alerted(suppliers[i], rows, today)
  }

  /** The alert list has one entry per alerted supplier. */
  lemma {:induction false} AlertsOnePerSupplier(suppliers: seq<Supplier>, rows: map<SummaryKey, Summary>, today: int)
    ensures |LowBalanceAlerts(suppliers, rows, today)| == |AlertedAt(suppliers, rows, today)|
  {
    if suppliers == [] {
      assert AlertedAt(suppliers, rows, today) == {};
    } else {
      var n := |suppliers| - 1;
      var init := suppliers[..n];
      AlertsOnePerSupplier(init, rows, today);
      AlertedAtSnoc(suppliers, rows, today);
      assert n !in AlertedAt(init, rows, today);
    }
  }

  lemma AlertedAtSnoc(suppliers: seq<Supplier>, rows: map<SummaryKey, Summary>, today: int)
    requires suppliers != []
    ensures var n := |suppliers| - 1;
            AlertedAt(suppliers, rows, today)
            == AlertedAt(suppliers[..n], rows, today) + (if Alerted(suppliers[n], rows, today) then {n} else {})
  {
    var n := |suppliers| - 1;
    var init := suppliers[..n];
    var last: set<nat> := if Alerted(suppliers[n], rows, today) then {n} else {};
    forall i | i in AlertedAt(suppliers, rows, today)
      ensures i in AlertedAt(init, rows, today) + last
    {
      if i < n {
        assert init[i] == suppliers[i];
      }
    }
    forall i | i in AlertedAt(init, rows, today) + last
      ensures i in AlertedAt(suppliers, rows, today)
    {
      if i < n {
        assert init[i] == suppliers[i];
      }
    }
  }

  /** A supplier without a row for today is always in the alert list, even
      with a zero threshold. */
  lemma MissingRowAlerts(suppliers: seq<Supplier>, rows: map<SummaryKey, Summary>, today: int, i: nat)
    requires i < |suppliers| && SummaryKey(suppliers[i].id, today) !in rows
    ensures AlertOf(suppliers[i], rows, today) in LowBalanceAlerts(suppliers, rows, today)
    ensures AlertOf(suppliers[i], rows, today).currentBalance == None
  {
    assert Alerted(suppliers[i], rows, today);
  }

  /** When today's row exists and the threshold is set, the alert list and
      the dashboard flag agree. With a NULL threshold the supplier is never
      in the alert list, while the flag reports a negative closing balance. */
  lemma AlertMatchesFlag(s: Supplier, rows: map<SummaryKey, Summary>, today: int)
    requires SummaryKey(s.id, today) in rows
    ensures s.lowBalanceAlert.Some? ==>
              (Alerted(s, rows, today) <==> LowBalance(rows[SummaryKey(s.id, today)], s.lowBalanceAlert))
    ensures s.lowBalanceAlert.None? ==>
              !Alerted(s, rows, today) &&
              (LowBalance(rows[SummaryKey(s.id, today)], s.lowBalanceAlert) <==> rows[SummaryKey(s.id, today)].closingThb < 0.0)
  {
  }
}
