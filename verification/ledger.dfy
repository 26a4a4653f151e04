/** The in-memory quotation ledger: a counter seeded at 1000 and the quotes
    in insertion order, with the create, lookup and status-update operations. */
module QuoteLedger {
  import opened Wrappers
  import opened Quotes
  import Caller

  /** The first counter value, hence the number of the first quote. */
  const Seed: nat := 1000

  /** The ledger state. */
  datatype Ledger = Ledger(counter: nat, quotes: seq<Quote>)

  /** Why an operation refused to act. */
  datatype Error =
    | InvalidStatus            // the new status is not one of the four labels
    | NotFound(quoteId: string) // no quote carries this identifier

  /** The ledger of a freshly constructed tool: counter 1000, no quotes. */
  function Init(): (l: Ledger)
    ensures Valid(l)
    ensures l.counter == Seed
    ensures l.quotes == []
  {
    Ledger(Seed, [])
  }

  /** A quote as the ledger keeps it: numbered below the counter, its
      identifier the canonical `DV-<number>`, its amounts consistent. */
  predicate WellFormed(q: Quote, counter: nat) {
    && Seed <= Number(q) < counter
    && q.quoteId == QuoteId(Number(q))
    && AmountsConsistent(q)
  }

  /** The ledger invariant: quotes are well formed and their numbers strictly
      increase in insertion order, so identifiers are never reused. */
  predicate Valid(l: Ledger) {
    && l.counter >= Seed
    && (forall i :: 0 <= i < |l.quotes| ==> WellFormed(l.quotes[i], l.counter))
    && (forall i, j :: 0 <= i < j < |l.quotes| ==> Number(l.quotes[i]) < Number(l.quotes[j]))
  }

  /** No two quotes of qs share an identifier. */
  predicate DistinctIds(qs: seq<Quote>) {
    forall i, j :: 0 <= i < |qs| && 0 <= j < |qs| && i != j ==> qs[i].quoteId != qs[j].quoteId
  }

  /** In a valid ledger no two quotes share an identifier. */
  lemma ValidIdsDistinct(l: Ledger)
    requires Valid(l)
    ensures DistinctIds(l.quotes)
  {
    forall i, j | 0 <= i < |l.quotes| && 0 <= j < |l.quotes| && i != j
      ensures l.quotes[i].quoteId != l.quotes[j].quoteId
    {
      if i < j {
        assert Number(l.quotes[i]) < Number(l.quotes[j]);
      } else {
        assert Number(l.quotes[j]) < Number(l.quotes[i]);
      }
    }
  }

  // ----- create_quote -----

  /** The new ledger and the quote that was added to it. */
  datatype Created = Created(ledger: Ledger, quote: Quote)

  /** Creates a quote numbered by the counter, advances the counter by one and
      appends the quote. The sales rep and email come from the caller identity;
      `now` and `expiry` are the creation and expiry timestamps. */
  function Create(l: Ledger, customerName: string, productName: string, quantity: int,
                  unitPrice: real, user: Caller.User, now: string, expiry: string): (r: Created)
    ensures r.ledger.counter == l.counter + 1
    ensures r.ledger.quotes == l.quotes + [r.quote]
    ensures r.quote.quoteId == QuoteId(l.counter) && SeqNo(r.quote.quoteId) == Some(l.counter)
    ensures r.quote.customerName == customerName && r.quote.productName == productName
    ensures r.quote.quantity == quantity && r.quote.unitPrice == unitPrice
    ensures AmountsConsistent(r.quote)
    ensures r.quote.total == 1.2 * (quantity as real * unitPrice)
    ensures "name" in user ==> r.quote.salesRep == user["name"]
    ensures "name" !in user ==> r.quote.salesRep == "Inconnu"
    ensures "email" in user ==> r.quote.salesRepEmail == user["email"]
    ensures "email" !in user ==> r.quote.salesRepEmail == "N/A"
    ensures r.quote.status == Pending && Label(r.quote.status) == "En Attente"
    ensures r.quote.createdAt == now && r.quote.validUntil == expiry
    ensures r.quote.updatedBy == None && r.quote.updatedAt == None
  {
    SeqNoOfQuoteId(l.counter);
    var subtotal := quantity as real * unitPrice;
    var taxAmount := subtotal * TaxRate;
    var q := Quote(QuoteId(l.counter), customerName, productName, quantity, unitPrice,
                   subtotal, taxAmount, subtotal + taxAmount,
                   Caller.NameOrUnknown(user), Caller.EmailOrNone(user),
                   Pending, now, expiry, None, None);
    Created(Ledger(l.counter + 1, l.quotes + [q]), q)
  }

  /** Creating a quote keeps the ledger valid. */
  lemma CreatePreservesValid(l: Ledger, customerName: string, productName: string, quantity: int,
                             unitPrice: real, user: Caller.User, now: string, expiry: string)
    requires Valid(l)
    ensures Valid(Create(l, customerName, productName, quantity, unitPrice, user, now, expiry).ledger)
  {
    var r := Create(l, customerName, productName, quantity, unitPrice, user, now, expiry);
    assert Number(r.quote) == l.counter;
    var qs := r.ledger.quotes;
    forall i | 0 <= i < |qs|
      ensures WellFormed(qs[i], r.ledger.counter)
    {
      if i < |l.quotes| {
        assert qs[i] == l.quotes[i];
      }
    }
    forall i, j | 0 <= i < j < |qs|
      ensures Number(qs[i]) < Number(qs[j])
    {
      assert qs[i] == l.quotes[i];
      if j < |l.quotes| {
        assert qs[j] == l.quotes[j];
      }
    }
  }

  // ----- linear scan by identifier -----

  /** k is the position of the first quote of qs whose identifier is id. */
  predicate FirstWithId(qs: seq<Quote>, id: string, k: int) {
    && 0 <= k < |qs|
    && qs[k].quoteId == id
    && (forall j :: 0 <= j < k ==> qs[j].quoteId != id)
  }

  /** The position of the first quote whose identifier is id, scanning in
      insertion order, or None if no quote has it. */
  function IndexOf(qs: seq<Quote>, id: string): (r: Option<nat>)
    ensures r.Some? ==> FirstWithId(qs, id, r.value)
    ensures r.None? ==> forall i :: 0 <= i < |qs| ==> qs[i].quoteId != id
    decreases |qs|
  {
    if |qs| == 0 then None
    else if qs[0].quoteId == id then Some(0)
    else match IndexOf(qs[1..], id)
      case None => None
      case Some(k) => Some(k + 1)
  }

  // ----- get_quote -----

  /** The first quote whose identifier is id, or NotFound. The ledger is not changed. */
  function GetQuote(l: Ledger, id: string): (r: Result<Quote, Error>)
    ensures r.Success? <==> exists i :: 0 <= i < |l.quotes| && l.quotes[i].quoteId == id
    ensures r.Success? ==> exists k :: FirstWithId(l.quotes, id, k) && r.value == l.quotes[k]
    ensures r.Failure? ==> r.error == NotFound(id)
  {
    match IndexOf(l.quotes, id)
    case None => Failure(NotFound(id))
    case Some(k) => Success(l.quotes[k])
  }

  /** A newly created quote can be looked up by its identifier and is returned
      as created; every other lookup gives what it gave before. */
  lemma GetAfterCreate(l: Ledger, customerName: string, productName: string, quantity: int,
                       unitPrice: real, user: Caller.User, now: string, expiry: string, other: string)
    requires Valid(l)
    ensures var r := Create(l, customerName, productName, quantity, unitPrice, user, now, expiry);
            && GetQuote(r.ledger, r.quote.quoteId) == Success(r.quote)
            && (other != r.quote.quoteId ==> GetQuote(r.ledger, other) == GetQuote(l, other))
  {
    var r := Create(l, customerName, productName, quantity, unitPrice, user, now, expiry);
    var qs := r.ledger.quotes;
    forall j | 0 <= j < |l.quotes|
      ensures qs[j].quoteId != r.quote.quoteId
    {
      assert Number(l.quotes[j]) < l.counter == Number(r.quote);
    }
    assert FirstWithId(qs, r.quote.quoteId, |l.quotes|);
    FirstWithIdUnique(qs, r.quote.quoteId);
    if other != r.quote.quoteId {
      match IndexOf(l.quotes, other)
      case None =>
        assert forall i :: 0 <= i < |qs| ==> qs[i].quoteId != other by {
          forall i | 0 <= i < |qs| ensures qs[i].quoteId != other {
            if i < |l.quotes| { assert qs[i] == l.quotes[i]; }
          }
        }
      case Some(k) =>
        assert FirstWithId(qs, other, k) by {
          forall j | 0 <= j < k ensures qs[j].quoteId != other {
            assert qs[j] == l.quotes[j];
          }
        }
        FirstWithIdUnique(qs, other);
    }
  }

  /** The first position carrying an identifier is unique, and IndexOf finds it. */
  lemma FirstWithIdUnique(qs: seq<Quote>, id: string)
    ensures forall k :: FirstWithId(qs, id, k) ==> IndexOf(qs, id) == Some(k)
  {
  }

  // ----- update_quote_status -----

  /** What a successful status update reports: the status before, and the quote after. */
  datatype Change = Change(previous: Status, quote: Quote)

  /** The new ledger and the outcome of a status update. */
  datatype Updated = Updated(ledger: Ledger, outcome: Result<Change, Error>)

  /** `after` is `before` with only its status and update stamp replaced. */
  predicate Restamped(before: Quote, after: Quote, s: Status, who: string, now: string) {
    after == before.(status := s, updatedBy := Some(who), updatedAt := Some(now))
  }

  /** l' is l with only the first quote carrying id restamped by `who` at `now`:
      same counter, same length, every other quote unchanged; c reports the
      status that quote had and the quote as it now is. */
  predicate UpdatesFirst(l: Ledger, id: string, who: string, now: string, l': Ledger, c: Change) {
    && l'.counter == l.counter
    && |l'.quotes| == |l.quotes|
    && exists k :: 0 <= k < |l.quotes| && FirstWithId(l.quotes, id, k)
                   && c.previous == l.quotes[k].status
                   && Restamped(l.quotes[k], c.quote, c.quote.status, who, now)
                   && l'.quotes == l.quotes[k := c.quote]
  }

  /** Sets the status of the first quote carrying `id` to the status labelled
      `newStatus`, stamping it with the caller's name and `now`. The label is
      checked before the lookup; on either failure nothing changes. */
  function UpdateStatus(l: Ledger, id: string, newStatus: string, user: Caller.User, now: string): (r: Updated)
    ensures r.outcome.Failure? ==> r.ledger == l
    ensures r.outcome == Failure(InvalidStatus) <==> forall s :: Label(s) != newStatus
    ensures (exists s :: Label(s) == newStatus) && (forall i :: 0 <= i < |l.quotes| ==> l.quotes[i].quoteId != id)
            ==> r.outcome == Failure(NotFound(id))
    ensures (exists s :: Label(s) == newStatus) && (exists i :: 0 <= i < |l.quotes| && l.quotes[i].quoteId == id)
            ==> r.outcome.Success?
    ensures r.outcome.Success? ==>
              && Label(r.outcome.value.quote.status) == newStatus
              && UpdatesFirst(l, id, Caller.NameOrUnknown(user), now, r.ledger, r.outcome.value)
  {
    match ParseStatus(newStatus)
    case None => Updated(l, Failure(InvalidStatus))
    case Some(s) =>
      match IndexOf(l.quotes, id)
      case None => Updated(l, Failure(NotFound(id)))
      case Some(k) =>
        var q := l.quotes[k].(status := s, updatedBy := Some(Caller.NameOrUnknown(user)), updatedAt := Some(now));
        Updated(l.(quotes := l.quotes[k := q]), Success(Change(l.quotes[k].status, q)))
  }

  /** Replacing one quote by another with the same identifier and amounts keeps the ledger valid. */
  lemma ReplacePreservesValid(l: Ledger, k: int, q: Quote)
    requires Valid(l) && 0 <= k < |l.quotes|
    requires q.quoteId == l.quotes[k].quoteId && AmountsConsistent(q)
    ensures Valid(l.(quotes := l.quotes[k := q]))
  {
    var qs := l.quotes[k := q];
    forall i | 0 <= i < |qs|
      ensures WellFormed(qs[i], l.counter) && Number(qs[i]) == Number(l.quotes[i])
    {
      assert WellFormed(l.quotes[i], l.counter);
    }
    forall i, j | 0 <= i < j < |qs|
      ensures Number(qs[i]) < Number(qs[j])
    {
      assert Number(l.quotes[i]) < Number(l.quotes[j]);
    }
  }

  /** Updating a status keeps the ledger valid. */
  lemma UpdatePreservesValid(l: Ledger, id: string, newStatus: string, user: Caller.User, now: string)
    requires Valid(l)
    ensures Valid(UpdateStatus(l, id, newStatus, user, now).ledger)
  {
    match ParseStatus(newStatus)
    case None =>
    case Some(s) =>
      match IndexOf(l.quotes, id)
      case None =>
      case Some(k) =>
        var q := l.quotes[k].(status := s, updatedBy := Some(Caller.NameOrUnknown(user)), updatedAt := Some(now));
        assert WellFormed(l.quotes[k], l.counter);
        ReplacePreservesValid(l, k, q);
  }

  /** After a successful update the quote is found with its new status, and
      every other identifier is looked up as before. */
  lemma GetAfterUpdate(l: Ledger, id: string, newStatus: string, user: Caller.User, now: string, other: string)
    ensures var r := UpdateStatus(l, id, newStatus, user, now);
            && (r.outcome.Success? ==> GetQuote(r.ledger, id) == Success(r.outcome.value.quote))
            && (other != id ==> GetQuote(r.ledger, other) == GetQuote(l, other))
  {
    match ParseStatus(newStatus)
    case None =>
      assert UpdateStatus(l, id, newStatus, user, now) == Updated(l, Failure(InvalidStatus));
    case Some(s) =>
      match IndexOf(l.quotes, id)
      case None =>
        assert UpdateStatus(l, id, newStatus, user, now) == Updated(l, Failure(NotFound(id)));
      case Some(k) =>
        var q := l.quotes[k].(status := s, updatedBy := Some(Caller.NameOrUnknown(user)), updatedAt := Some(now));
        var qs := l.quotes[k := q];
        assert UpdateStatus(l, id, newStatus, user, now) == Updated(l.(quotes := qs), Success(Change(l.quotes[k].status, q)));
        assert FirstWithId(qs, id, k);
        FirstWithIdUnique(qs, id);
        if other != id {
          assert forall i :: 0 <= i < |qs| ==> qs[i].quoteId == l.quotes[i].quoteId;
          match IndexOf(l.quotes, other)
          case None =>
          case Some(j) =>
            assert FirstWithId(qs, other, j);
            FirstWithIdUnique(qs, other);
        }
  }

  /** A valid update addressed to the identifier of the quote at position k
      of a valid ledger succeeds and rewrites exactly that position. */
  lemma UpdateAt(l: Ledger, k: int, newStatus: string, user: Caller.User, now: string)
    requires Valid(l) && 0 <= k < |l.quotes|
    requires ParseStatus(newStatus).Some?
    ensures var r := UpdateStatus(l, l.quotes[k].quoteId, newStatus, user, now);
            && r.outcome.Success?
            && r.ledger == l.(quotes := l.quotes[k := l.quotes[k].(status := ParseStatus(newStatus).value,
                                                             updatedBy := Some(Caller.NameOrUnknown(user)),
                                                             updatedAt := Some(now))])
  {
    var id := l.quotes[k].quoteId;
    ValidIdsDistinct(l);
    assert FirstWithId(l.quotes, id, k);
    FirstWithIdUnique(l.quotes, id);
  }
}
