/** Runs of ledger operations from the freshly constructed tool: what holds
    after any sequence of creates and status updates. Lookups and listings
    do not change the ledger and so do not appear in a run. */
module History {
  import opened Quotes
  import opened QuoteLedger
  import Caller

  /** One state-changing call on the ledger, with its caller-supplied inputs. */
  datatype Op =
    | CreateOp(customerName: string, productName: string, quantity: int, unitPrice: real,
               user: Caller.User, now: string, expiry: string)
    | UpdateOp(quoteId: string, newStatus: string, user: Caller.User, now: string)

  /** The ledger after one operation. */
  function Apply(l: Ledger, op: Op): Ledger {
    match op
    case CreateOp(c, p, n, u, who, now, expiry) => Create(l, c, p, n, u, who, now, expiry).ledger
    case UpdateOp(id, s, who, now) => UpdateStatus(l, id, s, who, now).ledger
  }

  /** The ledger after the operations of ops, first to last. */
  function Run(l: Ledger, ops: seq<Op>): Ledger
    decreases |ops|
  {
    if |ops| == 0 then l else Run(Apply(l, ops[0]), ops[1..])
  }

  /** The number of creates in ops. */
  function Creates(ops: seq<Op>): nat
    decreases |ops|
  {
    if |ops| == 0 then 0 else (if ops[0].CreateOp? then 1 else 0) + Creates(ops[1..])
  }

  /** Every run keeps a valid ledger valid. */
  lemma {:induction false} RunPreservesValid(l: Ledger, ops: seq<Op>)
    requires Valid(l)
    ensures Valid(Run(l, ops))
    decreases |ops|
  {
    if |ops| > 0 {
      match ops[0] {
        case CreateOp(c, p, n, u, who, now, expiry) => CreatePreservesValid(l, c, p, n, u, who, now, expiry);
        case UpdateOp(id, s, who, now) => UpdatePreservesValid(l, id, s, who, now);
      }
      RunPreservesValid(Apply(l, ops[0]), ops[1..]);
    }
  }

  /** Quotes are numbered consecutively from the seed in insertion order, and
      the counter is the next number. */
  predicate Dense(l: Ledger) {
    && l.counter == Seed + |l.quotes|
    && forall i :: 0 <= i < |l.quotes| ==> l.quotes[i].quoteId == QuoteId(Seed + i)
  }

  /** One operation keeps the numbering dense, and only a create advances the counter. */
  lemma ApplyKeepsDense(l: Ledger, op: Op)
    requires Dense(l)
    ensures Dense(Apply(l, op))
    ensures Apply(l, op).counter == l.counter + (if op.CreateOp? then 1 else 0)
  {
    match op
    case CreateOp(c, p, n, u, who, now, expiry) =>
      var r := Create(l, c, p, n, u, who, now, expiry);
      assert forall i :: 0 <= i < |l.quotes| ==> r.ledger.quotes[i] == l.quotes[i];
    case UpdateOp(id, s, who, now) =>
      var r := UpdateStatus(l, id, s, who, now);
      if r.outcome.Success? {
        var k :| FirstWithId(l.quotes, id, k) && r.ledger.quotes == l.quotes[k := r.outcome.value.quote]
                 && Restamped(l.quotes[k], r.outcome.value.quote, r.outcome.value.quote.status,
                              Caller.NameOrUnknown(who), now);
        assert forall i :: 0 <= i < |l.quotes| ==> r.ledger.quotes[i].quoteId == l.quotes[i].quoteId;
      } else {
        assert r.ledger == l;
      }
  }

  /** Every run keeps the numbering dense, and the counter advances by the number of creates. */
  lemma {:induction false} RunKeepsDense(l: Ledger, ops: seq<Op>)
    requires Dense(l)
    ensures Dense(Run(l, ops))
    ensures Run(l, ops).counter == l.counter + Creates(ops)
    decreases |ops|
  {
    if |ops| > 0 {
      ApplyKeepsDense(l, ops[0]);
      RunKeepsDense(Apply(l, ops[0]), ops[1..]);
    }
  }

  /** After any run from the fresh ledger: the run's creates made exactly the
      quotes there are, the i-th created quote is `DV-<1000 + i>`, identifiers
      are pairwise distinct, and every quote's amounts are consistent. */
  lemma RunFromInit(ops: seq<Op>)
    ensures var l := Run(Init(), ops);
            && Valid(l)
            && |l.quotes| == Creates(ops)
            && l.counter == Seed + Creates(ops)
            && (forall i :: 0 <= i < |l.quotes| ==> l.quotes[i].quoteId == QuoteId(Seed + i))
            && (forall i :: 0 <= i < |l.quotes| ==> AmountsConsistent(l.quotes[i]))
            && (forall i, j :: 0 <= i < j < |l.quotes| ==> l.quotes[i].quoteId != l.quotes[j].quoteId)
  {
    RunPreservesValid(Init(), ops);
    RunKeepsDense(Init(), ops);
    var l := Run(Init(), ops);
    forall i, j | 0 <= i < j < |l.quotes|
      ensures l.quotes[i].quoteId != l.quotes[j].quoteId
    {
      QuoteIdInjective(Seed + i, Seed + j);
    }
    assert forall i :: 0 <= i < |l.quotes| ==> WellFormed(l.quotes[i], l.counter);
  }
}
