/** The pure part of the rollover engine: which ledger entries a day's summary
    aggregates, the closing/average/profit arithmetic, the carried-over opening
    balances of a new row, and the table state that "ensure" and "recompute"
    leave behind. The Ledger methods that perform these steps are in Bookkeeping. */
module DailySummary {
  import opened Outcomes
  import opened Records
  import opened Calendar

  // ---------------------------------------------------------------------------
  // Aggregation over the ledger
  // ---------------------------------------------------------------------------

  /** A THB and an MMK amount summed together. */
  datatype Flow = Flow(thb: real, mmk: real)

  function AddFlow(a: Flow, b: Flow): Flow {
    Flow(a.thb + b.thb, a.mmk + b.mmk)
  }

  /** A ledger entry counts toward a supplier's day when it is that supplier's
      and its creation instant falls on that Bangkok day. */
  predicate CountsToward(entrySupplier: nat, createdAt: int, supplierId: nat, day: int) {
    entrySupplier == supplierId && BangkokDay(createdAt) == day
  }

  /** Sums of total_thb and mmk_amount over the supplier's purchases of the day;
      zero when none count. */
  function PurchaseFlow(ps: seq<Purchase>, supplierId: nat, day: int): (f: Flow)
    ensures (forall i :: 0 <= i < |ps| ==> !CountsToward(ps[i].supplierId, ps[i].createdAt, supplierId, day))
            ==> f == Flow(0.0, 0.0)
  {
    if ps == [] then Flow(0.0, 0.0)
    else
      var p := ps[|ps| - 1];
      var rest := PurchaseFlow(ps[..|ps| - 1], supplierId, day);
      if CountsToward(p.supplierId, p.createdAt, supplierId, day) then AddFlow(rest, Flow(p.totalThb, p.mmkAmount))
      else rest
  }

  /** Sums of thb_amount and total_mmk over the supplier's sales of the day;
      zero when none count. */
  function SaleFlow(ss: seq<Sale>, supplierId: nat, day: int): (f: Flow)
    ensures (forall i :: 0 <= i < |ss| ==> !CountsToward(ss[i].supplierId, ss[i].createdAt, supplierId, day))
            ==> f == Flow(0.0, 0.0)
  {
    if ss == [] then Flow(0.0, 0.0)
    else
      var s := ss[|ss| - 1];
      var rest := SaleFlow(ss[..|ss| - 1], supplierId, day);
      if CountsToward(s.supplierId, s.createdAt, supplierId, day) then AddFlow(rest, Flow(s.thbAmount, s.totalMmk))
      else rest
  }

  /** Number of the supplier's sales created on the Bangkok day. */
  function CountSalesOn(ss: seq<Sale>, supplierId: nat, day: int): (n: nat)
    ensures n <= |ss|
  {
    if ss == [] then 0
    else
      var s := ss[|ss| - 1];
      CountSalesOn(ss[..|ss| - 1], supplierId, day) + (if CountsToward(s.supplierId, s.createdAt, supplierId, day) then 1 else 0)
  }

  /** The purchase aggregate of two ledger segments is the sum of theirs. */
  lemma {:induction false} PurchaseFlowConcat(a: seq<Purchase>, b: seq<Purchase>, supplierId: nat, day: int)
    ensures PurchaseFlow(a + b, supplierId, day) == AddFlow(PurchaseFlow(a, supplierId, day), PurchaseFlow(b, supplierId, day))
    decreases |b|
  {
    if b == [] {
      assert a + b == a;
    } else {
      var b' := b[..|b| - 1];
      assert (a + b)[..|a + b| - 1] == a + b';
      PurchaseFlowConcat(a, b', supplierId, day);
    }
  }

  /** The sale aggregate of two ledger segments is the sum of theirs. */
  lemma {:induction false} SaleFlowConcat(a: seq<Sale>, b: seq<Sale>, supplierId: nat, day: int)
    ensures SaleFlow(a + b, supplierId, day) == AddFlow(SaleFlow(a, supplierId, day), SaleFlow(b, supplierId, day))
    decreases |b|
  {
    if b == [] {
      assert a + b == a;
    } else {
      var b' := b[..|b| - 1];
      assert (a + b)[..|a + b| - 1] == a + b';
      SaleFlowConcat(a, b', supplierId, day);
    }
  }

  /** The sale count of two ledger segments is the sum of theirs. */
  lemma {:induction false} CountSalesConcat(a: seq<Sale>, b: seq<Sale>, supplierId: nat, day: int)
    ensures CountSalesOn(a + b, supplierId, day) == CountSalesOn(a, supplierId, day) + CountSalesOn(b, supplierId, day)
    decreases |b|
  {
    if b == [] {
      assert a + b == a;
    } else {
      var b' := b[..|b| - 1];
      assert (a + b)[..|a + b| - 1] == a + b';
      CountSalesConcat(a, b', supplierId, day);
    }
  }

  /** Removing the purchase at index i takes exactly its contribution out of
      the aggregate of the day it counts toward, and leaves every other
      supplier's and day's aggregate as it was. */
  lemma PurchaseFlowRemove(ps: seq<Purchase>, i: nat, supplierId: nat, day: int)
    requires i < |ps|
    ensures var p := ps[i];
            var before := PurchaseFlow(ps, supplierId, day);
            var after := PurchaseFlow(ps[..i] + ps[i + 1..], supplierId, day);
            if CountsToward(p.supplierId, p.createdAt, supplierId, day)
            then after == Flow(before.thb - p.totalThb, before.mmk - p.mmkAmount)
            else after == before
  {
    assert ps == ps[..i] + [ps[i]] + ps[i + 1..];
    PurchaseFlowConcat(ps[..i] + [ps[i]], ps[i + 1..], supplierId, day);
    PurchaseFlowConcat(ps[..i], [ps[i]], supplierId, day);
    PurchaseFlowConcat(ps[..i], ps[i + 1..], supplierId, day);
    assert [ps[i]][..0] == [];
  }

  /** Removing the sale at index i takes exactly its contribution out of the
      aggregate of the day it counts toward, and leaves every other supplier's
      and day's aggregate as it was. */
  lemma SaleFlowRemove(ss: seq<Sale>, i: nat, supplierId: nat, day: int)
    requires i < |ss|
    ensures var s := ss[i];
            var before := SaleFlow(ss, supplierId, day);
            var after := SaleFlow(ss[..i] + ss[i + 1..], supplierId, day);
            if CountsToward(s.supplierId, s.createdAt, supplierId, day)
            then after == Flow(before.thb - s.thbAmount, before.mmk - s.totalMmk)
            else after == before
  {
    assert ss == ss[..i] + [ss[i]] + ss[i + 1..];
    SaleFlowConcat(ss[..i] + [ss[i]], ss[i + 1..], supplierId, day);
    SaleFlowConcat(ss[..i], [ss[i]], supplierId, day);
    SaleFlowConcat(ss[..i], ss[i + 1..], supplierId, day);
    assert [ss[i]][..0] == [];
  }

  /** Removing a sale created on the day lowers that day's sale count by one. */
  lemma CountSalesRemove(ss: seq<Sale>, i: nat, supplierId: nat, day: int)
    requires i < |ss|
    ensures CountSalesOn(ss[..i] + ss[i + 1..], supplierId, day)
            == CountSalesOn(ss, supplierId, day) - (if CountsToward(ss[i].supplierId, ss[i].createdAt, supplierId, day) then 1 else 0)
  {
    assert ss == ss[..i] + [ss[i]] + ss[i + 1..];
    CountSalesConcat(ss[..i] + [ss[i]], ss[i + 1..], supplierId, day);
    CountSalesConcat(ss[..i], [ss[i]], supplierId, day);
    CountSalesConcat(ss[..i], ss[i + 1..], supplierId, day);
    assert [ss[i]][..0] == [];
  }

  // ---------------------------------------------------------------------------
  // The derived fields of a summary row
  // ---------------------------------------------------------------------------

  /** THB per MMK over a stock of `thb` bought for `mmk`; 0 when there is no
      positive MMK stock. */
  function AverageRate(thb: real, mmk: real): (r: real)
    ensures mmk > 0.0 ==> r * mmk == thb
    ensures mmk <= 0.0 ==> r == 0.0
  {
    if mmk > 0.0 then thb / mmk else 0.0
  }

  /** A weighted average lies between the lowest and the highest rate of the
      lots it averages. */
  lemma AverageRateWithin(stock: Flow, lo: real, hi: real)
    requires FlowWithin(stock, lo, hi) && stock.mmk > 0.0
    ensures lo <= AverageRate(stock.thb, stock.mmk) <= hi
  {
    var r := AverageRate(stock.thb, stock.mmk);
    assert r - lo == (stock.thb - lo * stock.mmk) / stock.mmk;
    assert hi - r == (hi * stock.mmk - stock.thb) / stock.mmk;
  }

  /** Every derived field of the row agrees with its other fields: both
      closing balances, the cumulative average rate and the daily profit. */
  predicate Settled(r: Summary) {
    && ThbBalanced(r)
    && r.closingMmk == r.openingMmk + r.purchasedMmk - r.soldMmk
    && r.closingAvgRate == AverageRate(r.openingThb + r.purchasedThb, r.openingMmk + r.purchasedMmk)
    && ProfitIsCashFlow(r)
  }

  /** The row agrees with `base` on everything a recompute does not write:
      its key, its opening balances and its closed flag. */
  predicate SameBase(r: Summary, base: Summary) {
    && r.supplierId == base.supplierId
    && r.summaryDate == base.summaryDate
    && r.openingThb == base.openingThb
    && r.openingMmk == base.openingMmk
    && r.openingAvgRate == base.openingAvgRate
    && r.isClosed == base.isClosed
    && r.closedAt == base.closedAt
  }

  /** The row after a recompute from the given purchase and sale aggregates. */
  function Recomputed(row: Summary, bought: Flow, sold: Flow): (r: Summary)
    ensures SameBase(r, row)
    ensures r.purchasedThb == bought.thb && r.purchasedMmk == bought.mmk
    ensures r.soldThb == sold.thb && r.soldMmk == sold.mmk
    ensures Settled(r)
  {
    var closingThb := row.openingThb + bought.thb - sold.thb;
    var closingMmk := row.openingMmk + bought.mmk - sold.mmk;
    var avgRate := AverageRate(row.openingThb + bought.thb, row.openingMmk + bought.mmk);
    row.(purchasedThb := bought.thb, purchasedMmk := bought.mmk,
         soldThb := sold.thb, soldMmk := sold.mmk,
         closingThb := closingThb, closingMmk := closingMmk,
         closingAvgRate := avgRate, dailyProfitThb := bought.thb - sold.thb)
  }

  /** A recompute starts from scratch: what the row held in its aggregate and
      derived fields before does not matter. */
  lemma RecomputeIgnoresStaleFields(row1: Summary, row2: Summary, bought: Flow, sold: Flow)
    requires SameBase(row1, row2)
    ensures Recomputed(row1, bought, sold) == Recomputed(row2, bought, sold)
  {
  }

  /** A settled row whose aggregates already equal the ledger's is left
      exactly as it is by a recompute. */
  lemma RecomputeFixpoint(row: Summary, bought: Flow, sold: Flow)
    requires Settled(row)
    requires row.purchasedThb == bought.thb && row.purchasedMmk == bought.mmk
    requires row.soldThb == sold.thb && row.soldMmk == sold.mmk
    ensures Recomputed(row, bought, sold) == row
  {
  }

  /** A purchase lot of non-negative size whose THB total is its MMK amount
      times a rate between lo and hi. */
  predicate LotWithin(p: Purchase, lo: real, hi: real) {
    p.mmkAmount >= 0.0 && p.totalThb == p.mmkAmount * p.exchangeRate && lo <= p.exchangeRate <= hi
  }

  /** A non-negative MMK stock whose THB cost is between lo and hi per MMK. */
  predicate FlowWithin(f: Flow, lo: real, hi: real) {
    f.mmk >= 0.0 && lo * f.mmk <= f.thb && f.thb <= hi * f.mmk
  }

  lemma LotBounds(p: Purchase, lo: real, hi: real)
    requires LotWithin(p, lo, hi)
    ensures FlowWithin(Flow(p.totalThb, p.mmkAmount), lo, hi)
  {
    assert p.totalThb - lo * p.mmkAmount == p.mmkAmount * (p.exchangeRate - lo);
    assert hi * p.mmkAmount - p.totalThb == p.mmkAmount * (hi - p.exchangeRate);
  }

  /** Pooling two stocks bought within [lo, hi] gives a stock within [lo, hi]. */
  lemma AddFlowWithin(a: Flow, b: Flow, lo: real, hi: real)
    requires FlowWithin(a, lo, hi) && FlowWithin(b, lo, hi)
    ensures FlowWithin(AddFlow(a, b), lo, hi)
  {
    assert lo * (a.mmk + b.mmk) == lo * a.mmk + lo * b.mmk;
    assert hi * (a.mmk + b.mmk) == hi * a.mmk + hi * b.mmk;
  }

  /** The day's purchased THB lies between lo and hi times its purchased MMK
      when every lot of the day was bought at a rate between lo and hi. */
  lemma {:induction false} PurchaseFlowWithin(ps: seq<Purchase>, supplierId: nat, day: int, lo: real, hi: real)
    requires forall i :: 0 <= i < |ps| && CountsToward(ps[i].supplierId, ps[i].createdAt, supplierId, day)
               ==> LotWithin(ps[i], lo, hi)
    ensures FlowWithin(PurchaseFlow(ps, supplierId, day), lo, hi)
  {
    if ps != [] {
      var p := ps[|ps| - 1];
      var init := ps[..|ps| - 1];
      var rest := PurchaseFlow(init, supplierId, day);
      assert forall i :: 0 <= i < |init| ==> init[i] == ps[i];
      PurchaseFlowWithin(init, supplierId, day, lo, hi);
      if CountsToward(p.supplierId, p.createdAt, supplierId, day) {
        assert LotWithin(p, lo, hi);
        LotBounds(p, lo, hi);
        AddFlowWithin(rest, Flow(p.totalThb, p.mmkAmount), lo, hi);
      }
    }
  }

  /** When the opening stock and every lot bought on the row's day were bought
      at rates between lo and hi, the recomputed closing average rate lies
      between lo and hi as well. */
  lemma ClosingAvgRateWithin(row: Summary, bought: Flow, sold: Flow, lo: real, hi: real)
    requires FlowWithin(Flow(row.openingThb, row.openingMmk), lo, hi)
    requires FlowWithin(bought, lo, hi)
    requires row.openingMmk + bought.mmk > 0.0
    ensures lo <= Recomputed(row, bought, sold).closingAvgRate <= hi
  {
    var stock := AddFlow(Flow(row.openingThb, row.openingMmk), bought);
    AddFlowWithin(Flow(row.openingThb, row.openingMmk), bought, lo, hi);
    AverageRateWithin(stock, lo, hi);
  }

  /** The rate bound for a ledger: when the opening stock and every lot the
      supplier bought on the row's day cost between lo and hi per MMK, the
      average rate a recompute writes is between lo and hi. */
  lemma RecomputedAvgRateWithin(row: Summary, ps: seq<Purchase>, ss: seq<Sale>, lo: real, hi: real)
    requires FlowWithin(Flow(row.openingThb, row.openingMmk), lo, hi)
    requires forall i :: 0 <= i < |ps| && CountsToward(ps[i].supplierId, ps[i].createdAt, row.supplierId, row.summaryDate)
               ==> LotWithin(ps[i], lo, hi)
    requires row.openingMmk + PurchaseFlow(ps, row.supplierId, row.summaryDate).mmk > 0.0
    ensures var bought := PurchaseFlow(ps, row.supplierId, row.summaryDate);
            var sold := SaleFlow(ss, row.supplierId, row.summaryDate);
            lo <= Recomputed(row, bought, sold).closingAvgRate <= hi
  {
    var bought := PurchaseFlow(ps, row.supplierId, row.summaryDate);
    PurchaseFlowWithin(ps, row.supplierId, row.summaryDate, lo, hi);
    ClosingAvgRateWithin(row, bought, SaleFlow(ss, row.supplierId, row.summaryDate), lo, hi);
  }

  // ---------------------------------------------------------------------------
  // Rollover: the row "ensure" inserts
  // ---------------------------------------------------------------------------

  /** A row of the supplier with a date strictly before `date`. */
  predicate EarlierRow(rows: map<SummaryKey, Summary>, supplierId: nat, date: int, k: SummaryKey) {
    k in rows && k.supplierId == supplierId && k.date < date
  }

  lemma {:induction false} MaxDateExists(s: set<SummaryKey>)
    requires s != {}
    ensures exists k :: k in s && forall k' :: k' in s ==> k'.date <= k.date
    decreases |s|
  {
    var x :| x in s;
    if s != {x} {
      var rest := s - {x};
      MaxDateExists(rest);
      var m :| m in rest && forall k' :: k' in rest ==> k'.date <= m.date;
      if x.date > m.date {
        assert x in s && forall k' :: k' in s ==> k'.date <= x.date;
      } else {
        assert m in s && forall k' :: k' in s ==> k'.date <= m.date;
      }
    }
  }

  /** The key of the supplier's latest row dated strictly before `date`
      (`ORDER BY summary_date DESC LIMIT 1`), if there is one. */
  function LatestEarlier(rows: map<SummaryKey, Summary>, supplierId: nat, date: int): (r: Option<SummaryKey>)
    ensures r.None? <==> forall k :: k in rows ==> !EarlierRow(rows, supplierId, date, k)
    ensures r.Some? ==> EarlierRow(rows, supplierId, date, r.value)
    ensures r.Some? ==> forall k :: EarlierRow(rows, supplierId, date, k) ==> k.date <= r.value.date
  {
    if exists k :: k in rows && EarlierRow(rows, supplierId, date, k) then
      var earlier := set k | k in rows && EarlierRow(rows, supplierId, date, k);
      var w :| w in rows && EarlierRow(rows, supplierId, date, w);
      assert w in earlier;
      MaxDateExists(earlier);
      var k :| k in rows && EarlierRow(rows, supplierId, date, k)
               && forall k' :: k' in rows && EarlierRow(rows, supplierId, date, k') ==> k'.date <= k.date;
      Some(k)
    else
      None
  }

  /** The row INSERTed for (supplier, date): the given opening balances and the
      table's defaults (zero aggregates and derived fields, not closed). */
  function FreshSummary(supplierId: nat, date: int, openingThb: real, openingMmk: real, openingAvgRate: real): Summary {
    Summary(supplierId, date, openingThb, openingMmk, openingAvgRate,
            0.0, 0.0, 0.0, 0.0, 0.0, 0.0, 0.0, 0.0, false, None)
  }

  /** The row "ensure" inserts when (supplier, date) has none: its opening
      balances and rate are the closing ones of the supplier's latest earlier
      row, or zero for the supplier's first day. */
  function OpeningRow(rows: map<SummaryKey, Summary>, supplierId: nat, date: int): (r: Summary)
    ensures r.supplierId == supplierId && r.summaryDate == date
    ensures r.purchasedThb == 0.0 && r.purchasedMmk == 0.0 && r.soldThb == 0.0 && r.soldMmk == 0.0
    ensures !r.isClosed && r.closedAt == None
  {
    match LatestEarlier(rows, supplierId, date)
    case None => FreshSummary(supplierId, date, 0.0, 0.0, 0.0)
    case Some(k) => FreshSummary(supplierId, date, rows[k].closingThb, rows[k].closingMmk, rows[k].closingAvgRate)
  }

  /** Rollover: when the supplier's latest row before `date` is dated `prev`,
      the new row opens with that row's closing balances and average rate
      (whatever the gap between the two dates). */
  lemma RolloverCarriesClose(rows: map<SummaryKey, Summary>, supplierId: nat, prev: int, date: int)
    requires prev < date && SummaryKey(supplierId, prev) in rows
    requires forall k :: k in rows && k.supplierId == supplierId && k.date < date ==> k.date <= prev
    ensures var r := OpeningRow(rows, supplierId, date);
            var p := rows[SummaryKey(supplierId, prev)];
            r.openingThb == p.closingThb && r.openingMmk == p.closingMmk && r.openingAvgRate == p.closingAvgRate
  {
    var l := LatestEarlier(rows, supplierId, date);
    assert EarlierRow(rows, supplierId, date, SummaryKey(supplierId, prev));
    assert l == Some(SummaryKey(supplierId, prev));
  }

  /** A supplier's first day opens at zero. */
  lemma FirstDayOpensAtZero(rows: map<SummaryKey, Summary>, supplierId: nat, date: int)
    requires forall k :: k in rows && k.supplierId == supplierId ==> k.date >= date
    ensures var r := OpeningRow(rows, supplierId, date);
            r.openingThb == 0.0 && r.openingMmk == 0.0 && r.openingAvgRate == 0.0
  {
  }

  // ---------------------------------------------------------------------------
  // The table after "ensure" and after "ensure + recompute"
  // ---------------------------------------------------------------------------

  /** The summary table after "ensure" for `key`: unchanged when the row
      exists, otherwise with exactly the rollover row added. */
  function Ensured(rows: map<SummaryKey, Summary>, key: SummaryKey): (r: map<SummaryKey, Summary>)
    ensures key in r && r.Keys == rows.Keys + {key}
    ensures forall k :: k in rows ==> r[k] == rows[k]
    ensures key !in rows ==> r[key] == OpeningRow(rows, key.supplierId, key.date)
  {
    if key in rows then rows else rows[key := OpeningRow(rows, key.supplierId, key.date)]
  }

  /** The summary table after `updateDailySummary(supplierId)` on `today`. */
  function UpdatedRows(rows: map<SummaryKey, Summary>, ps: seq<Purchase>, ss: seq<Sale>, supplierId: nat, today: int)
    : (r: map<SummaryKey, Summary>)
    ensures var key := SummaryKey(supplierId, today);
            && r.Keys == rows.Keys + {key}
            && (forall k :: k in rows && k != key ==> r[k] == rows[k])
            && SameBase(r[key], Ensured(rows, key)[key])
            && Settled(r[key])
            && Flow(r[key].purchasedThb, r[key].purchasedMmk) == PurchaseFlow(ps, supplierId, today)
            && Flow(r[key].soldThb, r[key].soldMmk) == SaleFlow(ss, supplierId, today)
  {
    var key := SummaryKey(supplierId, today);
    var e := Ensured(rows, key);
    e[key := Recomputed(e[key], PurchaseFlow(ps, supplierId, today), SaleFlow(ss, supplierId, today))]
  }

  /** The supplier's row for `today` exists and already holds what a recompute
      from this ledger would write. */
  predicate Fresh(rows: map<SummaryKey, Summary>, ps: seq<Purchase>, ss: seq<Sale>, supplierId: nat, today: int) {
    var key := SummaryKey(supplierId, today);
    key in rows && rows[key] == Recomputed(rows[key], PurchaseFlow(ps, supplierId, today), SaleFlow(ss, supplierId, today))
  }

  /** Updating a row that is already fresh changes nothing. */
  lemma UpdateFreshIsNoop(rows: map<SummaryKey, Summary>, ps: seq<Purchase>, ss: seq<Sale>, supplierId: nat, today: int)
    requires Fresh(rows, ps, ss, supplierId, today)
    ensures UpdatedRows(rows, ps, ss, supplierId, today) == rows
  {
    var r := UpdatedRows(rows, ps, ss, supplierId, today);
    assert forall k :: k in r ==> r[k] == rows[k];
  }

  /** After an update the row is fresh; so a second update with no ledger
      change in between leaves the table identical (idempotence). */
  lemma UpdateIdempotent(rows: map<SummaryKey, Summary>, ps: seq<Purchase>, ss: seq<Sale>, supplierId: nat, today: int)
    ensures Fresh(UpdatedRows(rows, ps, ss, supplierId, today), ps, ss, supplierId, today)
    ensures var once := UpdatedRows(rows, ps, ss, supplierId, today);
            UpdatedRows(once, ps, ss, supplierId, today) == once
  {
    var once := UpdatedRows(rows, ps, ss, supplierId, today);
    var key := SummaryKey(supplierId, today);
    RecomputeFixpoint(once[key], PurchaseFlow(ps, supplierId, today), SaleFlow(ss, supplierId, today));
    UpdateFreshIsNoop(once, ps, ss, supplierId, today);
  }

  /** "Ensure" right before an update adds nothing: the update ensures the
      same row itself. */
  lemma EnsureThenUpdate(rows: map<SummaryKey, Summary>, ps: seq<Purchase>, ss: seq<Sale>, supplierId: nat, today: int)
    ensures UpdatedRows(Ensured(rows, SummaryKey(supplierId, today)), ps, ss, supplierId, today)
            == UpdatedRows(rows, ps, ss, supplierId, today)
  {
  }

  /** Updating one supplier leaves another supplier's fresh row as it is and
      fresh; updating the same supplier again changes nothing. */
  lemma FreshPreserved(rows: map<SummaryKey, Summary>, ps: seq<Purchase>, ss: seq<Sale>, a: nat, b: nat, today: int)
    requires Fresh(rows, ps, ss, a, today)
    ensures var r := UpdatedRows(rows, ps, ss, b, today);
            Fresh(r, ps, ss, a, today) && r[SummaryKey(a, today)] == rows[SummaryKey(a, today)]
  {
    if a == b {
      UpdateFreshIsNoop(rows, ps, ss, a, today);
    }
  }

  /** The table after updating each listed supplier in turn on `today`. */
  function UpdatedForAll(rows: map<SummaryKey, Summary>, ps: seq<Purchase>, ss: seq<Sale>, suppliers: seq<Supplier>, today: int)
    : (r: map<SummaryKey, Summary>)
    ensures forall i :: 0 <= i < |suppliers| ==> Fresh(r, ps, ss, suppliers[i].id, today)
    ensures forall k :: k in rows && k.date != today ==> k in r && r[k] == rows[k]
  {
    if suppliers == [] then rows
    else
      var init := suppliers[..|suppliers| - 1];
      var last := suppliers[|suppliers| - 1];
      var before := UpdatedForAll(rows, ps, ss, init, today);
      UpdatedForAllStep(before, ps, ss, init, last, today);
      assert suppliers == init + [last];
      UpdatedRows(before, ps, ss, last.id, today)
  }

  /** The induction step of UpdatedForAll: updating the last supplier keeps
      the earlier suppliers' rows fresh and makes its own fresh. */
  lemma UpdatedForAllStep(before: map<SummaryKey, Summary>, ps: seq<Purchase>, ss: seq<Sale>, init: seq<Supplier>, last: Supplier, today: int)
    requires forall i :: 0 <= i < |init| ==> Fresh(before, ps, ss, init[i].id, today)
    ensures forall i :: 0 <= i < |init| + 1 ==>
              Fresh(UpdatedRows(before, ps, ss, last.id, today), ps, ss, (init + [last])[i].id, today)
  {
    UpdateIdempotent(before, ps, ss, last.id, today);
    FreshAfterUpdate(before, ps, ss, init, last.id, today);
  }

  lemma FreshAfterUpdate(rows: map<SummaryKey, Summary>, ps: seq<Purchase>, ss: seq<Sale>, suppliers: seq<Supplier>, b: nat, today: int)
    requires forall i :: 0 <= i < |suppliers| ==> Fresh(rows, ps, ss, suppliers[i].id, today)
    ensures forall i :: 0 <= i < |suppliers| ==> Fresh(UpdatedRows(rows, ps, ss, b, today), ps, ss, suppliers[i].id, today)
  {
    forall i | 0 <= i < |suppliers|
      ensures Fresh(UpdatedRows(rows, ps, ss, b, today), ps, ss, suppliers[i].id, today)
    {
      FreshPreserved(rows, ps, ss, suppliers[i].id, b, today);
    }
  }

  /** One more supplier: the table is updated for it, its row exists and is
      fresh, and the rows of the suppliers already done keep their values. */
  lemma UpdatedForAllSnoc(rows: map<SummaryKey, Summary>, ps: seq<Purchase>, ss: seq<Sale>, suppliers: seq<Supplier>, i: nat, today: int)
    requires i < |suppliers|
    ensures var before := UpdatedForAll(rows, ps, ss, suppliers[..i], today);
            var after := UpdatedForAll(rows, ps, ss, suppliers[..i + 1], today);
            && after == UpdatedRows(before, ps, ss, suppliers[i].id, today)
            && Fresh(after, ps, ss, suppliers[i].id, today)
            && forall j :: 0 <= j < i ==>
                 var key := SummaryKey(suppliers[j].id, today);
                 key in before && key in after && after[key] == before[key]
  {
    var before := UpdatedForAll(rows, ps, ss, suppliers[..i], today);
    assert suppliers[..i + 1][..i] == suppliers[..i];
    forall j | 0 <= j < i
      ensures var key := SummaryKey(suppliers[j].id, today);
              key in before && UpdatedRows(before, ps, ss, suppliers[i].id, today)[key] == before[key]
    {
      assert suppliers[..i][j] == suppliers[j];
      FreshPreserved(before, ps, ss, suppliers[j].id, suppliers[i].id, today);
    }
    assert suppliers[..i + 1][i] == suppliers[i];
  }

  /** Every row is stored under its own supplier and date. */
  predicate KeysMatch(rows: map<SummaryKey, Summary>) {
    forall k :: k in rows ==> rows[k].supplierId == k.supplierId && rows[k].summaryDate == k.date
  }

  lemma UpdatedKeysMatch(rows: map<SummaryKey, Summary>, ps: seq<Purchase>, ss: seq<Sale>, supplierId: nat, today: int)
    requires KeysMatch(rows)
    ensures KeysMatch(Ensured(rows, SummaryKey(supplierId, today)))
    ensures KeysMatch(UpdatedRows(rows, ps, ss, supplierId, today))
  {
  }

  lemma {:induction false} UpdatedForAllKeysMatch(rows: map<SummaryKey, Summary>, ps: seq<Purchase>, ss: seq<Sale>, suppliers: seq<Supplier>, today: int)
    requires KeysMatch(rows)
    ensures KeysMatch(UpdatedForAll(rows, ps, ss, suppliers, today))
  {
    if suppliers != [] {
      var init := suppliers[..|suppliers| - 1];
      UpdatedForAllKeysMatch(rows, ps, ss, init, today);
      UpdatedKeysMatch(UpdatedForAll(rows, ps, ss, init, today), ps, ss, suppliers[|suppliers| - 1].id, today);
    }
  }

  // ---------------------------------------------------------------------------
  // Closing a day
  // ---------------------------------------------------------------------------

  /** The table after close-day for `key`: the row, if there is one, is
      flagged closed at `now`; nothing else changes. */
  function ClosedRows(rows: map<SummaryKey, Summary>, key: SummaryKey, now: int): (r: map<SummaryKey, Summary>)
    ensures r.Keys == rows.Keys
    ensures forall k :: k in rows && k != key ==> r[k] == rows[k]
    ensures key in rows ==> r[key].isClosed && r[key].closedAt == Some(now)
    ensures key in rows ==> r[key] == rows[key].(isClosed := true, closedAt := Some(now))
  {
    if key in rows then rows[key := rows[key].(isClosed := true, closedAt := Some(now))] else rows
  }

  /** The latest earlier row is determined by the table's keys alone. */
  lemma LatestEarlierByKeys(r1: map<SummaryKey, Summary>, r2: map<SummaryKey, Summary>, supplierId: nat, date: int)
    requires r1.Keys == r2.Keys
    ensures LatestEarlier(r1, supplierId, date) == LatestEarlier(r2, supplierId, date)
  {
    var l1, l2 := LatestEarlier(r1, supplierId, date), LatestEarlier(r2, supplierId, date);
    if l1.Some? {
      assert EarlierRow(r2, supplierId, date, l1.value);
      assert EarlierRow(r1, supplierId, date, l2.value);
    } else if l2.Some? {
      assert EarlierRow(r1, supplierId, date, l2.value);
    }
  }

  /** Closing a day does not change the opening balances a new row would get. */
  lemma OpeningRowIgnoresClose(rows: map<SummaryKey, Summary>, key: SummaryKey, now: int, supplierId: nat, date: int)
    ensures OpeningRow(ClosedRows(rows, key, now), supplierId, date) == OpeningRow(rows, supplierId, date)
  {
    LatestEarlierByKeys(ClosedRows(rows, key, now), rows, supplierId, date);
  }

  /** Closing is advisory: a later recompute still rewrites the closed row's
      figures, and closing and recomputing commute. */
  lemma CloseIsAdvisory(rows: map<SummaryKey, Summary>, key: SummaryKey, now: int,
                        ps: seq<Purchase>, ss: seq<Sale>, supplierId: nat, today: int)
    requires key in rows
    ensures UpdatedRows(ClosedRows(rows, key, now), ps, ss, supplierId, today)
            == ClosedRows(UpdatedRows(rows, ps, ss, supplierId, today), key, now)
  {
    var k := SummaryKey(supplierId, today);
    var bought, sold := PurchaseFlow(ps, supplierId, today), SaleFlow(ss, supplierId, today);
    var closed := ClosedRows(rows, key, now);
    var updated := UpdatedRows(rows, ps, ss, supplierId, today);
    var left := UpdatedRows(closed, ps, ss, supplierId, today);
    var right := ClosedRows(updated, key, now);
    if k !in rows {
      OpeningRowIgnoresClose(rows, key, now, supplierId, today);
      assert Ensured(closed, k)[k] == Ensured(rows, k)[k];
    }
    assert left.Keys == right.Keys;
    forall j | j in left
      ensures left[j] == right[j]
    {
      if j == k && j == key {
        RecomputeCommutesWithClose(rows[key], now, bought, sold);
      } else if j == k {
        assert Ensured(closed, k)[k] == Ensured(rows, k)[k];
      }
    }
  }

  /** Flagging a row closed and recomputing it commute. */
  lemma RecomputeCommutesWithClose(row: Summary, now: int, bought: Flow, sold: Flow)
    ensures Recomputed(row.(isClosed := true, closedAt := Some(now)), bought, sold)
            == Recomputed(row, bought, sold).(isClosed := true, closedAt := Some(now))
  {
  }

  // ---------------------------------------------------------------------------
  // What recording and deleting entries do to a day's row
  // ---------------------------------------------------------------------------

  /** Recording a purchase that counts toward today raises today's purchased
      and closing THB by its total and its purchased and closing MMK by its
      amount; one made on another Bangkok day leaves today's row as it would
      otherwise be. */
  lemma PurchaseMovesToday(rows: map<SummaryKey, Summary>, ps: seq<Purchase>, ss: seq<Sale>, p: Purchase, today: int)
    ensures var key := SummaryKey(p.supplierId, today);
            var before := UpdatedRows(rows, ps, ss, p.supplierId, today)[key];
            var after := UpdatedRows(rows, ps + [p], ss, p.supplierId, today)[key];
            if BangkokDay(p.createdAt) == today then
              && after.purchasedThb == before.purchasedThb + p.totalThb
              && after.purchasedMmk == before.purchasedMmk + p.mmkAmount
              && after.closingThb == before.closingThb + p.totalThb
              && after.closingMmk == before.closingMmk + p.mmkAmount
              && after.soldThb == before.soldThb && after.soldMmk == before.soldMmk
            else after == before
  {
    assert (ps + [p])[..|ps|] == ps;
  }

  /** Recording a sale that counts toward today raises today's sold THB and
      MMK and lowers the closing balances by the same amounts; one made on
      another Bangkok day leaves today's row as it would otherwise be. */
  lemma SaleMovesToday(rows: map<SummaryKey, Summary>, ps: seq<Purchase>, ss: seq<Sale>, s: Sale, today: int)
    ensures var key := SummaryKey(s.supplierId, today);
            var before := UpdatedRows(rows, ps, ss, s.supplierId, today)[key];
            var after := UpdatedRows(rows, ps, ss + [s], s.supplierId, today)[key];
            if BangkokDay(s.createdAt) == today then
              && after.soldThb == before.soldThb + s.thbAmount
              && after.soldMmk == before.soldMmk + s.totalMmk
              && after.closingThb == before.closingThb - s.thbAmount
              && after.closingMmk == before.closingMmk - s.totalMmk
              && after.closingAvgRate == before.closingAvgRate
              && after.purchasedThb == before.purchasedThb && after.purchasedMmk == before.purchasedMmk
            else after == before
  {
    assert (ss + [s])[..|ss|] == ss;
  }

  /** Deleting a purchase made on an earlier Bangkok day recomputes only
      today's row: the row of the purchase's own day keeps the deleted lot in
      its figures and, if it was fresh before, no longer matches the ledger. */
  lemma PastDeleteLeavesStaleRow(rows: map<SummaryKey, Summary>, ps: seq<Purchase>, ss: seq<Sale>, i: nat, today: int)
    requires i < |ps|
    requires BangkokDay(ps[i].createdAt) != today
    requires Fresh(rows, ps, ss, ps[i].supplierId, BangkokDay(ps[i].createdAt))
    requires ps[i].mmkAmount != 0.0
    ensures var day := BangkokDay(ps[i].createdAt);
            var after := UpdatedRows(rows, ps[..i] + ps[i + 1..], ss, ps[i].supplierId, today);
            && after[SummaryKey(ps[i].supplierId, day)] == rows[SummaryKey(ps[i].supplierId, day)]
            && !Fresh(after, ps[..i] + ps[i + 1..], ss, ps[i].supplierId, day)
  {
    var p := ps[i];
    var day := BangkokDay(p.createdAt);
    PurchaseFlowRemove(ps, i, p.supplierId, day);
  }
}
