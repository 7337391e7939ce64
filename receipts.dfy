/** Receipt numbers of sales: `MS<YYYYMMDD>-<supplier id>-<NNNN>`, where the
    date is today's Bangkok date with its dashes removed and NNNN is the
    supplier's number of sales so far today plus one, zero-padded to at least
    four digits. */
module Receipts {
  import opened Text
  import opened Calendar
  import opened Records

  /** The text of a receipt number: "MS", the compact date, the supplier id
      and the zero-padded sequence number, separated by dashes. */
  function ReceiptText(r: ReceiptNumber): string {
    "MS" + CompactDate(r.date) + "-" + NatText(r.supplierId) + "-" + PadStart(NatText(r.seqNo), 4, '0')
  }

  /** The sequence field: the text after the last dash. */
  function SeqField(receipt: string): string {
    AfterLast(receipt, '-')
  }

  /** The supplier field: the text between the last two dashes. */
  function SupplierField(receipt: string): string {
    AfterLast(BeforeLast(receipt, '-'), '-')
  }

  /** The prefix before the supplier field: "MS" and the compact date. */
  function DateField(receipt: string): string {
    BeforeLast(BeforeLast(receipt, '-'), '-')
  }

  lemma DigitsHaveNoDash(s: string)
    requires AllDigits(s)
    ensures '-' !in s
  {
  }

  /** A receipt number's text reads back into its parts: the sequence field
      is at least four digits denoting the sequence number, the supplier field
      is the supplier id's decimal text, and what precedes them is "MS"
      followed by the dash-free date. */
  lemma ReceiptFields(n: ReceiptNumber)
    ensures var r := ReceiptText(n);
            && |SeqField(r)| >= 4 && AllDigits(SeqField(r)) && DigitsValue(SeqField(r)) == n.seqNo
            && AllDigits(SupplierField(r)) && DigitsValue(SupplierField(r)) == n.supplierId
            && DateField(r) == "MS" + CompactDate(n.date)
  {
    var head := "MS" + CompactDate(n.date);
    var sid := NatText(n.supplierId);
    var num := PadStart(NatText(n.seqNo), 4, '0');
    var r := ReceiptText(n);
    ZeroPadKeepsValue(NatText(n.seqNo), 4);
    DigitsHaveNoDash(num);
    DigitsHaveNoDash(sid);
    assert r == (head + "-" + sid) + ['-'] + num;
    SplitAtLast(head + "-" + sid, '-', num);
    assert head + "-" + sid == head + ['-'] + sid;
    SplitAtLast(head, '-', sid);
  }

  /** For dates in years 0 to 9999 the text determines the receipt number:
      two texts are equal only when they name the same day, the same supplier
      and the same sequence number. */
  lemma ReceiptTextInjective(n1: ReceiptNumber, n2: ReceiptNumber)
    requires 0 <= CivilFromDays(n1.date).year <= 9999 && 0 <= CivilFromDays(n2.date).year <= 9999
    requires ReceiptText(n1) == ReceiptText(n2)
    ensures n1 == n2
  {
    ReceiptFields(n1);
    ReceiptFields(n2);
    var c1, c2 := CompactDate(n1.date), CompactDate(n2.date);
    assert "MS" + c1 == "MS" + c2;
    assert c1 == ("MS" + c1)[2..];
    assert c2 == ("MS" + c2)[2..];
    CompactDateInjective(n1.date, n2.date);
  }

  /** Within years 0 to 9999 different days have different compact dates. */
  lemma CompactDateInjective(d1: int, d2: int)
    requires 0 <= CivilFromDays(d1).year <= 9999 && 0 <= CivilFromDays(d2).year <= 9999
    requires CompactDate(d1) == CompactDate(d2)
    ensures d1 == d2
  {
    var c1, c2 := CivilFromDays(d1), CivilFromDays(d2);
    CompactDateDigits(d1);
    CompactDateDigits(d2);
    DateValueInjective(c1.year, c1.month, c1.day, c2.year, c2.month, c2.day);
    assert c1 == c2;
    CivilRoundTrip(d1);
    CivilRoundTrip(d2);
  }

  lemma DateValueInjective(y1: int, m1: int, e1: int, y2: int, m2: int, e2: int)
    requires 1 <= m1 <= 12 && 1 <= e1 <= 31 && 1 <= m2 <= 12 && 1 <= e2 <= 31
    requires y1 * 10000 + m1 * 100 + e1 == y2 * 10000 + m2 * 100 + e2
    ensures y1 == y2 && m1 == m2 && e1 == e2
  {
    var r1, r2 := m1 * 100 + e1, m2 * 100 + e2;
    assert 0 < r1 < 10000 && 0 < r2 < 10000;
    assert y1 == y2;
    assert m1 == m2;
  }
}
