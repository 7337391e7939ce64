/** The bookkeeping engine's persistent state and the operations that change
    it: ensuring and recomputing daily summaries, recording and deleting
    purchases and sales, closing a day, and the dashboard's refresh. The
    tables are fields; each SQL statement becomes one assignment. */
module Bookkeeping {
  import opened Outcomes
  import opened Records
  import opened Text
  import opened Calendar
  import opened DailySummary
  import opened Receipts
  import opened Alerts

  datatype Failure = MissingFields | NotFound

  /** The body of a purchase request; absent fields are None. */
  datatype PurchaseRequest = PurchaseRequest(
    supplierId: Option<nat>,
    mmkAmount: Option<real>,
    exchangeRate: Option<real>,
    note: Option<string>)

  /** The body of a sale request; absent fields are None. */
  datatype SaleRequest = SaleRequest(
    supplierId: Option<nat>,
    customerName: Option<string>,
    thbAmount: Option<real>,
    exchangeRate: Option<real>,
    note: Option<string>)

  // JavaScript truthiness of the request fields: absent, 0 and "" are false.
  predicate GivenId(x: Option<nat>) { x.Some? && x.value != 0 }
  predicate GivenAmount(x: Option<real>) { x.Some? && x.value != 0.0 }
  predicate GivenText(x: Option<string>) { x.Some? && x.value != "" }

  /** `note || null`: an empty note is stored as NULL. */
  function NoteOrNull(note: Option<string>): (r: Option<string>)
    ensures r.Some? <==> GivenText(note)
    ensures r.Some? ==> r == note
  {
    if GivenText(note) then note else None
  }

  /** The purchase validation: supplier, amount and rate all given. */
  predicate PurchaseAccepted(req: PurchaseRequest) {
    GivenId(req.supplierId) && GivenAmount(req.mmkAmount) && GivenAmount(req.exchangeRate)
  }

  /** The sale validation: supplier, customer name, amount and rate all given. */
  predicate SaleAccepted(req: SaleRequest) {
    GivenId(req.supplierId) && GivenText(req.customerName) && GivenAmount(req.thbAmount) && GivenAmount(req.exchangeRate)
  }

  /** The purchase row an accepted request inserts. */
  function NewPurchase(req: PurchaseRequest, id: nat, now: int): (p: Purchase)
    requires PurchaseAccepted(req)
    ensures p.id == id && p.createdAt == now
    ensures p.supplierId == req.supplierId.value && p.supplierId != 0
    ensures p.mmkAmount == req.mmkAmount.value && p.exchangeRate == req.exchangeRate.value
    ensures p.totalThb == req.mmkAmount.value * req.exchangeRate.value && p.exchangeRate != 0.0
    ensures p.note == NoteOrNull(req.note) && (p.note.Some? ==> p.note.value != "")
  {
    Purchase(id, req.supplierId.value, req.mmkAmount.value, req.exchangeRate.value,
             req.mmkAmount.value * req.exchangeRate.value, NoteOrNull(req.note), now)
  }

  /** The sale row an accepted request inserts. */
  function NewSale(req: SaleRequest, id: nat, receiptNo: ReceiptNumber, now: int): (s: Sale)
    requires SaleAccepted(req)
    ensures s.id == id && s.createdAt == now && s.receiptNo == receiptNo
    ensures s.supplierId == req.supplierId.value && s.supplierId != 0
    ensures s.customerName == req.customerName.value && s.customerName != ""
    ensures s.thbAmount == req.thbAmount.value && s.exchangeRate == req.exchangeRate.value
    ensures s.exchangeRate != 0.0 && s.totalMmk == req.thbAmount.value / req.exchangeRate.value
    ensures s.note == NoteOrNull(req.note) && (s.note.Some? ==> s.note.value != "")
  {
    Sale(id, req.supplierId.value, req.customerName.value, req.thbAmount.value, req.exchangeRate.value,
         req.thbAmount.value / req.exchangeRate.value, receiptNo, NoteOrNull(req.note), now)
  }

  /** The rate-history row of a purchase: a buy at its rate, for its MMK
      amount and THB total. */
  function BuyObservation(p: Purchase): (o: RateObservation)
    ensures o.supplierId == p.supplierId && o.recordedAt == p.createdAt
    ensures o.rateType == Buy && o.exchangeRate == p.exchangeRate
    ensures o.mmkAmount == p.mmkAmount && o.thbAmount == p.totalThb
  {
    RateObservation(p.supplierId, Buy, p.exchangeRate, p.mmkAmount, p.totalThb, p.createdAt)
  }

  /** The rate-history row of a sale: a sell at its rate, for its MMK total
      and THB amount. */
  function SellObservation(s: Sale): (o: RateObservation)
    ensures o.supplierId == s.supplierId && o.recordedAt == s.createdAt
    ensures o.rateType == Sell && o.exchangeRate == s.exchangeRate
    ensures o.mmkAmount == s.totalMmk && o.thbAmount == s.thbAmount
  {
    RateObservation(s.supplierId, Sell, s.exchangeRate, s.totalMmk, s.thbAmount, s.createdAt)
  }

  datatype PurchaseCreated = PurchaseCreated(id: nat, totalThb: real)
  datatype SaleCreated = SaleCreated(id: nat, receiptNo: ReceiptNumber, totalMmk: real)

  /** One card of the dashboard: the supplier, its refreshed row for today
      and the low-balance flag. */
  datatype Card = Card(supplier: Supplier, row: Summary, lowBalance: bool)

  /** The index of the purchase with the given id, if any. */
  function FindPurchase(ps: seq<Purchase>, id: nat): (r: Option<nat>)
    ensures r.None? <==> forall i :: 0 <= i < |ps| ==> ps[i].id != id
    ensures r.Some? ==> r.value < |ps| && ps[r.value].id == id
  {
    if ps == [] then None
    else if ps[|ps| - 1].id == id then Some(|ps| - 1)
    else FindPurchase(ps[..|ps| - 1], id)
  }

  /** The index of the sale with the given id, if any. */
  function FindSale(ss: seq<Sale>, id: nat): (r: Option<nat>)
    ensures r.None? <==> forall i :: 0 <= i < |ss| ==> ss[i].id != id
    ensures r.Some? ==> r.value < |ss| && ss[r.value].id == id
  {
    if ss == [] then None
    else if ss[|ss| - 1].id == id then Some(|ss| - 1)
    else FindSale(ss[..|ss| - 1], id)
  }

  /** Auto-increment ids: strictly increasing in insertion order and below
      the next id to be handed out. */
  predicate PurchaseIdsOrdered(ps: seq<Purchase>, next: nat) {
    (forall i, j :: 0 <= i < j < |ps| ==> ps[i].id < ps[j].id) && (forall i :: 0 <= i < |ps| ==> ps[i].id < next)
  }

  predicate SaleIdsOrdered(ss: seq<Sale>, next: nat) {
    (forall i, j :: 0 <= i < j < |ss| ==> ss[i].id < ss[j].id) && (forall i :: 0 <= i < |ss| ==> ss[i].id < next)
  }

  lemma PurchaseIdsAppend(ps: seq<Purchase>, next: nat, p: Purchase)
    requires PurchaseIdsOrdered(ps, next) && p.id == next
    ensures PurchaseIdsOrdered(ps + [p], next + 1)
  {
  }

  lemma SaleIdsAppend(ss: seq<Sale>, next: nat, s: Sale)
    requires SaleIdsOrdered(ss, next) && s.id == next
    ensures SaleIdsOrdered(ss + [s], next + 1)
  {
  }

  lemma PurchaseIdsRemove(ps: seq<Purchase>, next: nat, i: nat)
    requires PurchaseIdsOrdered(ps, next) && i < |ps|
    ensures PurchaseIdsOrdered(ps[..i] + ps[i + 1..], next)
  {
    var r := ps[..i] + ps[i + 1..];
    assert forall k :: 0 <= k < |r| ==> r[k] == if k < i then ps[k] else ps[k + 1];
  }

  lemma SaleIdsRemove(ss: seq<Sale>, next: nat, i: nat)
    requires SaleIdsOrdered(ss, next) && i < |ss|
    ensures SaleIdsOrdered(ss[..i] + ss[i + 1..], next)
  {
    var r := ss[..i] + ss[i + 1..];
    assert forall k :: 0 <= k < |r| ==> r[k] == if k < i then ss[k] else ss[k + 1];
  }

  /** The count is taken before the insert, so the Nth sale of a supplier's
      Bangkok day gets sequence number N: once it is inserted, the day's sale
      count equals its receipt's sequence number. */
  lemma NthSaleGetsN(ss: seq<Sale>, s: Sale)
    requires s.receiptNo == ReceiptNumber(BangkokDay(s.createdAt), s.supplierId,
                                          CountSalesOn(ss, s.supplierId, BangkokDay(s.createdAt)) + 1)
    ensures CountSalesOn(ss + [s], s.supplierId, BangkokDay(s.createdAt)) == s.receiptNo.seqNo
  {
    assert (ss + [s])[..|ss|] == ss;
  }

  /** The count is of the sales still present, so deleting an earlier sale
      of a supplier's day makes the next receipt of that day repeat the
      number of the sale that holds the day's current count. */
  lemma DeleteReusesNumber(ss: seq<Sale>, i: nat, j: nat)
    requires i < j < |ss|
    requires ss[i].supplierId == ss[j].supplierId && BangkokDay(ss[i].createdAt) == BangkokDay(ss[j].createdAt)
    requires ss[j].receiptNo == ReceiptNumber(BangkokDay(ss[j].createdAt), ss[j].supplierId,
                                              CountSalesOn(ss, ss[j].supplierId, BangkokDay(ss[j].createdAt)))
    ensures var left := ss[..i] + ss[i + 1..];
            && ss[j] in left
            && ReceiptNumber(BangkokDay(ss[j].createdAt), ss[j].supplierId,
                             CountSalesOn(left, ss[j].supplierId, BangkokDay(ss[j].createdAt)) + 1) == ss[j].receiptNo
  {
    CountSalesRemove(ss, i, ss[j].supplierId, BangkokDay(ss[j].createdAt));
    LaterEntryKept(ss, i, j);
  }

  /** Deleting entry i keeps every later entry. */
  lemma LaterEntryKept<T>(xs: seq<T>, i: nat, j: nat)
    requires i < j < |xs|
    ensures xs[j] in xs[..i] + xs[i + 1..]
  {
    assert (xs[..i] + xs[i + 1..])[j - 1] == xs[j];
  }

  /** The dashboard's cards for the listed suppliers: each shows its
      supplier, that supplier's row for today in `rows`, and the flag. */
  predicate CardsShow(cards: seq<Card>, suppliers: seq<Supplier>, rows: map<SummaryKey, Summary>, today: int) {
    |cards| == |suppliers| &&
    forall j :: 0 <= j < |cards| ==>
      var key := SummaryKey(suppliers[j].id, today);
      && cards[j].supplier == suppliers[j]
      && key in rows && cards[j].row == rows[key]
      && cards[j].lowBalance == LowBalance(cards[j].row, suppliers[j].lowBalanceAlert)
  }

  lemma CardsShowSnoc(cards: seq<Card>, suppliers: seq<Supplier>, i: nat, before: map<SummaryKey, Summary>,
                      after: map<SummaryKey, Summary>, today: int, card: Card)
    requires i < |suppliers| && CardsShow(cards, suppliers[..i], before, today)
    requires forall j :: 0 <= j < i ==>
               var key := SummaryKey(suppliers[j].id, today);
               key in after && after[key] == before[key]
    requires SummaryKey(suppliers[i].id, today) in after
    requires card == Card(suppliers[i], after[SummaryKey(suppliers[i].id, today)],
                          LowBalance(after[SummaryKey(suppliers[i].id, today)], suppliers[i].lowBalanceAlert))
    ensures CardsShow(cards + [card], suppliers[..i + 1], after, today)
  {
    assert forall j :: 0 <= j < i ==> suppliers[..i][j] == suppliers[j] == suppliers[..i + 1][j];
  }

  class Ledger {
    var purchases: seq<Purchase>
    var sales: seq<Sale>
    var summaries: map<SummaryKey, Summary>
    var rateHistory: seq<RateObservation>
    var nextPurchaseId: nat
    var nextSaleId: nat

    /** The schema's guarantees: unique auto-increment ids and the
        daily_summary unique key. */
    ghost predicate Valid()
      reads this
    {
      && PurchaseIdsOrdered(purchases, nextPurchaseId)
      && SaleIdsOrdered(sales, nextSaleId)
      && KeysMatch(summaries)
    }

    constructor()
      ensures Valid()
      ensures purchases == [] && sales == [] && summaries == map[] && rateHistory == []
      ensures nextPurchaseId == 1 && nextSaleId == 1
    {
      purchases, sales, summaries, rateHistory := [], [], map[], [];
      nextPurchaseId, nextSaleId := 1, 1;
    }

    /** getOrCreateDailySummary: return the (supplier, date) row, inserting
        the rollover row first when there is none. */
    method EnsureSummary(supplierId: nat, date: int) returns (row: Summary)
      requires Valid()
      modifies this`summaries
      ensures Valid()
      ensures summaries == Ensured(old(summaries), SummaryKey(supplierId, date))
      ensures row == summaries[SummaryKey(supplierId, date)]
    {
      var key := SummaryKey(supplierId, date);
      if key in summaries {
        row := summaries[key];
        return;
      }
      var previous := LatestEarlier(summaries, supplierId, date);
      var openingThb, openingMmk, openingAvgRate := 0.0, 0.0, 0.0;
      if previous.Some? {
        var prev := summaries[previous.value];
        openingThb, openingMmk, openingAvgRate := prev.closingThb, prev.closingMmk, prev.closingAvgRate;
      }
      summaries := summaries[key := FreshSummary(supplierId, date, openingThb, openingMmk, openingAvgRate)];
      row := summaries[key];
    }

    /** updateDailySummary: ensure today's row, re-sum today's ledger entries
        and write back the aggregates and the derived fields. */
    method UpdateDailySummary(supplierId: nat, today: int)
      requires Valid()
      modifies this`summaries
      ensures Valid()
      ensures summaries == UpdatedRows(old(summaries), purchases, sales, supplierId, today)
    {
      var summary := EnsureSummary(supplierId, today);
      var bought := PurchaseFlow(purchases, supplierId, today);
      var sold := SaleFlow(sales, supplierId, today);
      var purchasedThb, purchasedMmk := bought.thb, bought.mmk;
      var soldThb, soldMmk := sold.thb, sold.mmk;
      var openingThb, openingMmk := summary.openingThb, summary.openingMmk;
      var closingThb := openingThb + purchasedThb - soldThb;
      var closingMmk := openingMmk + purchasedMmk - soldMmk;
      var closingAvgRate := AverageRate(openingThb + purchasedThb, openingMmk + purchasedMmk);
      var dailyProfitThb := purchasedThb - soldThb;
      var key := SummaryKey(supplierId, today);
      var updated := summary.(
        purchasedThb := purchasedThb, purchasedMmk := purchasedMmk,
        soldThb := soldThb, soldMmk := soldMmk,
        closingThb := closingThb, closingMmk := closingMmk, closingAvgRate := closingAvgRate,
        dailyProfitThb := dailyProfitThb);
      assert updated == Recomputed(summary, bought, sold);
      summaries := summaries[key := updated];
    }

    /** recordRateHistory: append one observation; earlier ones stay. */
    method RecordRateHistory(obs: RateObservation)
      modifies this`rateHistory
      ensures rateHistory == old(rateHistory) + [obs]
    {
      rateHistory := rateHistory + [obs];
    }

    /** generateReceiptNo: today's date, the supplier and the number of the
        supplier's sales so far today plus one. */
    method GenerateReceiptNo(supplierId: nat, today: int) returns (receipt: ReceiptNumber)
      ensures receipt.date == today && receipt.supplierId == supplierId
      ensures receipt.seqNo == CountSalesOn(sales, supplierId, today) + 1
    {
      var count := CountSalesOn(sales, supplierId, today) + 1;
      receipt := ReceiptNumber(today, supplierId, count);
    }

    /** The purchase's INSERT, its rate-history row and the recomputation of
        the supplier's row for today, once today's row exists. */
    method InsertPurchase(p: Purchase, today: int)
      requires Valid() && p.id == nextPurchaseId
      modifies this`purchases, this`summaries, this`rateHistory, this`nextPurchaseId
      ensures Valid()
      ensures purchases == old(purchases) + [p]
      ensures rateHistory == old(rateHistory) + [BuyObservation(p)]
      ensures nextPurchaseId == old(nextPurchaseId) + 1
      ensures summaries == UpdatedRows(old(summaries), purchases, sales, p.supplierId, today)
    {
      PurchaseIdsAppend(purchases, nextPurchaseId, p);
      purchases := purchases + [p];
      nextPurchaseId := nextPurchaseId + 1;
      RecordRateHistory(RateObservation(p.supplierId, Buy, p.exchangeRate, p.mmkAmount, p.totalThb, p.createdAt));
      UpdateDailySummary(p.supplierId, today);
    }

    /** POST /purchases. */
    method AddPurchase(req: PurchaseRequest, today: int, now: int) returns (result: Result<PurchaseCreated, Failure>)
      requires Valid()
      modifies this`purchases, this`summaries, this`rateHistory, this`nextPurchaseId
      ensures Valid()
      ensures !PurchaseAccepted(req) ==> result == Err(MissingFields) && unchanged(this)
      ensures PurchaseAccepted(req) ==>
                var p := NewPurchase(req, old(nextPurchaseId), now);
                && result == Ok(PurchaseCreated(p.id, p.totalThb))
                && purchases == old(purchases) + [p]
                && rateHistory == old(rateHistory) + [BuyObservation(p)]
                && nextPurchaseId == old(nextPurchaseId) + 1
                && summaries == UpdatedRows(old(summaries), purchases, sales, p.supplierId, today)
      ensures sales == old(sales) && nextSaleId == old(nextSaleId)
    {
      if !PurchaseAccepted(req) {
        return Err(MissingFields);
      }
      var supplierId := req.supplierId.value;
      ghost var before := summaries;
      var _ := EnsureSummary(supplierId, today);
      var p := NewPurchase(req, nextPurchaseId, now);
      InsertPurchase(p, today);
      EnsureThenUpdate(before, purchases, sales, supplierId, today);
      result := Ok(PurchaseCreated(p.id, p.totalThb));
    }

    /** The sale's INSERT, its rate-history row and the recomputation of the
        supplier's row for today, once today's row exists. */
    method InsertSale(s: Sale, today: int)
      requires Valid() && s.id == nextSaleId
      modifies this`sales, this`summaries, this`rateHistory, this`nextSaleId
      ensures Valid()
      ensures sales == old(sales) + [s]
      ensures rateHistory == old(rateHistory) + [SellObservation(s)]
      ensures nextSaleId == old(nextSaleId) + 1
      ensures summaries == UpdatedRows(old(summaries), purchases, sales, s.supplierId, today)
    {
      SaleIdsAppend(sales, nextSaleId, s);
      sales := sales + [s];
      nextSaleId := nextSaleId + 1;
      RecordRateHistory(RateObservation(s.supplierId, Sell, s.exchangeRate, s.totalMmk, s.thbAmount, s.createdAt));
      UpdateDailySummary(s.supplierId, today);
    }

    /** POST /sales. The receipt number is generated after today's row is
        ensured and before the sale is inserted. */
    method AddSale(req: SaleRequest, today: int, now: int) returns (result: Result<SaleCreated, Failure>)
      requires Valid()
      modifies this`sales, this`summaries, this`rateHistory, this`nextSaleId
      ensures Valid()
      ensures !SaleAccepted(req) ==> result == Err(MissingFields) && unchanged(this)
      ensures SaleAccepted(req) ==>
                var sid := req.supplierId.value;
                var receipt := ReceiptNumber(today, sid, CountSalesOn(old(sales), sid, today) + 1);
                var s := NewSale(req, old(nextSaleId), receipt, now);
                && result == Ok(SaleCreated(s.id, receipt, s.totalMmk))
                && sales == old(sales) + [s]
                && rateHistory == old(rateHistory) + [SellObservation(s)]
                && nextSaleId == old(nextSaleId) + 1
                && summaries == UpdatedRows(old(summaries), purchases, sales, sid, today)
      ensures purchases == old(purchases) && nextPurchaseId == old(nextPurchaseId)
    {
      if !SaleAccepted(req) {
        return Err(MissingFields);
      }
      var supplierId := req.supplierId.value;
      ghost var before := summaries;
      var _ := EnsureSummary(supplierId, today);
      var receiptNo := GenerateReceiptNo(supplierId, today);
      var s := NewSale(req, nextSaleId, receiptNo, now);
      InsertSale(s, today);
      EnsureThenUpdate(before, purchases, sales, supplierId, today);
      result := Ok(SaleCreated(s.id, receiptNo, s.totalMmk));
    }

    /** DELETE /purchases/:id: remove the purchase, then recompute the
        supplier's row for today (not for the purchase's own day). */
    method DeletePurchase(id: nat, today: int) returns (result: Result<(), Failure>)
      requires Valid()
      modifies this`purchases, this`summaries
      ensures Valid()
      ensures FindPurchase(old(purchases), id).None? ==> result == Err(NotFound) && unchanged(this)
      ensures FindPurchase(old(purchases), id).Some? ==>
                var i := FindPurchase(old(purchases), id).value;
                && result == Ok(())
                && purchases == old(purchases)[..i] + old(purchases)[i + 1..]
                && summaries == UpdatedRows(old(summaries), purchases, sales, old(purchases)[i].supplierId, today)
    {
      var found := FindPurchase(purchases, id);
      if found.None? {
        return Err(NotFound);
      }
      var i := found.value;
      var supplierId := purchases[i].supplierId;
      PurchaseIdsRemove(purchases, nextPurchaseId, i);
      purchases := purchases[..i] + purchases[i + 1..];
      UpdateDailySummary(supplierId, today);
      result := Ok(());
    }

    /** DELETE /sales/:id: remove the sale, then recompute the supplier's row
        for today (not for the sale's own day). */
    method DeleteSale(id: nat, today: int) returns (result: Result<(), Failure>)
      requires Valid()
      modifies this`sales, this`summaries
      ensures Valid()
      ensures FindSale(old(sales), id).None? ==> result == Err(NotFound) && unchanged(this)
      ensures FindSale(old(sales), id).Some? ==>
                var i := FindSale(old(sales), id).value;
                && result == Ok(())
                && sales == old(sales)[..i] + old(sales)[i + 1..]
                && summaries == UpdatedRows(old(summaries), purchases, sales, old(sales)[i].supplierId, today)
    {
      var found := FindSale(sales, id);
      if found.None? {
        return Err(NotFound);
      }
      var i := found.value;
      var supplierId := sales[i].supplierId;
      SaleIdsRemove(sales, nextSaleId, i);
      sales := sales[..i] + sales[i + 1..];
      UpdateDailySummary(supplierId, today);
      result := Ok(());
    }

    /** POST /daily-summary/close-day: flag today's row closed at `now` if it
        exists; nothing is inserted or recomputed. */
    method CloseDay(supplierId: nat, today: int, now: int)
      requires Valid()
      modifies this`summaries
      ensures Valid()
      ensures summaries == ClosedRows(old(summaries), SummaryKey(supplierId, today), now)
    {
      var key := SummaryKey(supplierId, today);
      if key in summaries {
        summaries := summaries[key := summaries[key].(isClosed := true, closedAt := Some(now))];
      }
    }

    /** The dashboard's per-supplier step: ensure and recompute today's row,
        then read it back. */
    method RefreshToday(supplierId: nat, today: int) returns (row: Summary)
      requires Valid()
      modifies this`summaries
      ensures Valid()
      ensures summaries == UpdatedRows(old(summaries), purchases, sales, supplierId, today)
      ensures row == summaries[SummaryKey(supplierId, today)]
    {
      ghost var before := summaries;
      var _ := EnsureSummary(supplierId, today);
      UpdateDailySummary(supplierId, today);
      EnsureThenUpdate(before, purchases, sales, supplierId, today);
      row := summaries[SummaryKey(supplierId, today)];
    }

    /** GET /suppliers/dashboard: for each supplier in turn, ensure and
        recompute today's row, read it back and flag a low balance. */
    method Dashboard(suppliers: seq<Supplier>, today: int) returns (cards: seq<Card>)
      requires Valid()
      modifies this`summaries
      ensures Valid()
      ensures summaries == UpdatedForAll(old(summaries), purchases, sales, suppliers, today)
      ensures |cards| == |suppliers|
      ensures forall i :: 0 <= i < |cards| ==>
                var key := SummaryKey(suppliers[i].id, today);
                && cards[i].supplier == suppliers[i]
                && key in summaries && cards[i].row == summaries[key]
                && cards[i].lowBalance == LowBalance(cards[i].row, suppliers[i].lowBalanceAlert)
                && (suppliers[i].lowBalanceAlert.Some? ==> cards[i].lowBalance == Alerted(suppliers[i], summaries, today))
    {
      cards := [];
      var i := 0;
      while i < |suppliers|
        invariant 0 <= i <= |suppliers|
        invariant Valid()
        invariant summaries == UpdatedForAll(old(summaries), purchases, sales, suppliers[..i], today)
        invariant CardsShow(cards, suppliers[..i], summaries, today)
      {
        var supplier := suppliers[i];
        ghost var prior := summaries;
        var row := RefreshToday(supplier.id, today);
        UpdatedForAllSnoc(old(summaries), purchases, sales, suppliers, i, today);
        var card := Card(supplier, row, row.closingThb < ThresholdNumber(supplier.lowBalanceAlert));
        CardsShowSnoc(cards, suppliers, i, prior, summaries, today, card);
        cards := cards + [card];
        i := i + 1;
      }
      assert suppliers[..i] == suppliers;
      forall j | 0 <= j < |cards|
        ensures suppliers[j].lowBalanceAlert.Some? ==> cards[j].lowBalance == Alerted(suppliers[j], summaries, today)
      {
        AlertMatchesFlag(suppliers[j], summaries, today);
      }
    }
  }
}
