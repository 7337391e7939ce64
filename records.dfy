/** The rows of the four tables the bookkeeping engine reads and writes
    (purchases, sales, daily_summary, rate_history), and of the suppliers table
    it reads. Amounts are exact reals; instants are UTC seconds. */
module Records {
  import opened Outcomes

  /** A purchase: the counter acquires THB, paying `mmkAmount` at `exchangeRate`. */
  datatype Purchase = Purchase(
    id: nat,
    supplierId: nat,
    mmkAmount: real,
    exchangeRate: real,
    totalThb: real,
    note: Option<string>,
    createdAt: int)

  /** A receipt number, kept as the three parts its text is made of: the
      Bangkok day of the sale, the supplier and the supplier's sequence number
      for that day (Receipts.ReceiptText writes it out). */
  datatype ReceiptNumber = ReceiptNumber(date: int, supplierId: nat, seqNo: nat)

  /** A sale: the counter disburses `thbAmount` to a customer at `exchangeRate`. */
  datatype Sale = Sale(
    id: nat,
    supplierId: nat,
    customerName: string,
    thbAmount: real,
    exchangeRate: real,
    totalMmk: real,
    receiptNo: ReceiptNumber,
    note: Option<string>,
    createdAt: int)

  /** The daily_summary table is unique on (supplier_id, summary_date). */
  datatype SummaryKey = SummaryKey(supplierId: nat, date: int)

  /** One daily_summary row; `summaryDate` is a Bangkok day number. */
  datatype Summary = Summary(
    supplierId: nat,
    summaryDate: int,
    openingThb: real,
    openingMmk: real,
    openingAvgRate: real,
    purchasedThb: real,
    purchasedMmk: real,
    soldThb: real,
    soldMmk: real,
    closingThb: real,
    closingMmk: real,
    closingAvgRate: real,
    dailyProfitThb: real,
    isClosed: bool,
    closedAt: Option<int>)

  datatype RateType = Buy | Sell

  /** One rate_history row, written once per ledger entry. */
  datatype RateObservation = RateObservation(
    supplierId: nat,
    rateType: RateType,
    exchangeRate: real,
    mmkAmount: real,
    thbAmount: real,
    recordedAt: int)

  /** One suppliers row; `lowBalanceAlert` is the THB threshold, NULL when an
      update left it out. */
  datatype Supplier = Supplier(id: nat, name: string, lowBalanceAlert: Option<real>)

  /** The closing THB balance follows from the day's movements. */
  predicate ThbBalanced(r: Summary) {
    r.closingThb == r.openingThb + r.purchasedThb - r.soldThb
  }

  /** The daily profit is the day's THB cash-flow difference. */
  predicate ProfitIsCashFlow(r: Summary) {
    r.dailyProfitThb == r.purchasedThb - r.soldThb
  }
}
