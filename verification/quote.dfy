/** A quotation record (devis): its status, its identifier and its amounts. */
module Quotes {
  import opened Wrappers
  import Decimal

  /** The four statuses a quote can have. Any status may follow any other. */
  datatype Status = Pending | Approved | Rejected | Completed

  /** The label the ledger stores and compares for each status. */
  function Label(s: Status): string {
    match s
    case Pending => "En Attente"
    case Approved => "Approuvé"
    case Rejected => "Rejeté"
    case Completed => "Terminé"
  }

  /** The status whose label is exactly `text` (case-sensitive), if any. */
  function ParseStatus(text: string): (r: Option<Status>)
    ensures r.Some? ==> Label(r.value) == text
    ensures r.None? ==> forall s :: Label(s) != text
  {
    if text == Label(Pending) then Some(Pending)
    else if text == Label(Approved) then Some(Approved)
    else if text == Label(Rejected) then Some(Rejected)
    else if text == Label(Completed) then Some(Completed)
    else None
  }

  /** Every status is recognised from its own label, so labels are distinct. */
  lemma ParseLabel(s: Status)
    ensures ParseStatus(Label(s)) == Some(s)
  {
  }

  /** Two statuses with the same label are the same status. */
  lemma LabelInjective(s: Status, t: Status)
    ensures Label(s) == Label(t) <==> s == t
  {
    ParseLabel(s);
    ParseLabel(t);
  }

  /** The prefix of every quote identifier. */
  const IdPrefix: string := "DV-"

  /** The identifier `DV-<n>` given to the quote created when the counter is n. */
  function QuoteId(n: nat): string {
    IdPrefix + Decimal.Show(n)
  }

  /** The counter value an identifier of the form `DV-<digits>` carries. */
  function SeqNo(id: string): Option<nat> {
    if |id| > |IdPrefix| && id[..|IdPrefix|] == IdPrefix && Decimal.IsDigits(id[|IdPrefix|..])
    then Some(Decimal.Parse(id[|IdPrefix|..]))
    else None
  }

  /** Reading the counter back out of a generated identifier gives the counter. */
  lemma SeqNoOfQuoteId(n: nat)
    ensures SeqNo(QuoteId(n)) == Some(n)
  {
    var id := QuoteId(n);
    assert id[..|IdPrefix|] == IdPrefix;
    assert id[|IdPrefix|..] == Decimal.Show(n);
    Decimal.ParseShow(n);
  }

  /** Identifiers generated from distinct counter values are distinct. */
  lemma QuoteIdInjective(a: nat, b: nat)
    ensures QuoteId(a) == QuoteId(b) <==> a == b
  {
    if QuoteId(a) == QuoteId(b) {
      SeqNoOfQuoteId(a);
      SeqNoOfQuoteId(b);
    }
  }

  /** The fixed VAT rate (TVA) applied to every quote. */
  const TaxRate: real := 0.20

  /** One quote. `createdAt`, `validUntil` and `updatedAt` are timestamps
      the caller supplies; `updatedBy` and `updatedAt` are absent until the
      first status update. */
  datatype Quote = Quote(
    quoteId: string,
    customerName: string,
    productName: string,
    quantity: int,
    unitPrice: real,
    subtotal: real,
    taxAmount: real,
    total: real,
    salesRep: string,
    salesRepEmail: string,
    status: Status,
    createdAt: string,
    validUntil: string,
    updatedBy: Option<string>,
    updatedAt: Option<string>)

  /** The derived amounts agree with the quantity, the unit price and the tax rate. */
  predicate AmountsConsistent(q: Quote) {
    && q.subtotal == q.quantity as real * q.unitPrice
    && q.taxAmount == q.subtotal * TaxRate
    && q.total == q.subtotal + q.taxAmount
  }

  /** The counter value carried by a quote's identifier, or -1 if it carries none. */
  function Number(q: Quote): int {
    match SeqNo(q.quoteId)
    case Some(n) => n
    case None => -1
  }
}
