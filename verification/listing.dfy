/** Listing quotes, optionally filtered by a status label typed by the user. */
module Listing {
  import opened Quotes
  import opened QuoteLedger
  import Text
  import Caller

  /** The fixed table from lower-cased filter words to stored status labels. */
  const StatusMapping: map<string, string> := map[
    "tous" := "all",
    "en attente" := "En Attente",
    "approuvé" := "Approuvé",
    "rejeté" := "Rejeté",
    "terminé" := "Terminé"]

  /** The lower-cased filter word that means "every quote". */
  const AllWord: string := "tous"

  /** What a filter selects: every quote, or the quotes whose status label is `target`. */
  datatype Filter = All | WithLabel(target: string)

  /** The filter a user-typed status denotes: "tous" in any case means all;
      otherwise the lower-cased word mapped through the table, or, if the
      table lacks it, the typed text itself. */
  function ResolveFilter(status: string): (f: Filter)
    ensures f.All? <==> Text.Lower(status) == AllWord
  {
    var key := Text.Lower(status);
    if key == AllWord then All
    else if key in StatusMapping then WithLabel(StatusMapping[key])
    else WithLabel(status)
  }

  /** a is a subsequence of b: a can be obtained from b by deleting elements. */
  ghost predicate IsSubsequence<T>(a: seq<T>, b: seq<T>)
    decreases |b|
  {
    if |a| == 0 then true
    else if |b| == 0 then false
    else (a[|a| - 1] == b[|b| - 1] && IsSubsequence(a[..|a| - 1], b[..|b| - 1]))
         || IsSubsequence(a, b[..|b| - 1])
  }

  /** The quotes of qs whose status label is `target`, in insertion order. */
  function Select(qs: seq<Quote>, target: string): (r: seq<Quote>)
    ensures forall q :: q in r ==> q in qs && Label(q.status) == target
    ensures forall i :: 0 <= i < |qs| && Label(qs[i].status) == target ==> qs[i] in r
    ensures IsSubsequence(r, qs)
    ensures forall q :: multiset(r)[q] == (if Label(q.status) == target then multiset(qs)[q] else 0)
    decreases |qs|
  {
    if |qs| == 0 then []
    else
      var init := qs[..|qs| - 1];
      var last := qs[|qs| - 1];
      assert qs == init + [last];
      SelectStep(init, last, Select(init, target), target);
      if Label(last.status) == target then Select(init, target) + [last] else Select(init, target)
  }

  /** The selection for a ledger extended by one quote is the selection before,
      followed by that quote if it matches; this keeps every property Select promises. */
  lemma SelectStep(init: seq<Quote>, last: Quote, rest: seq<Quote>, target: string)
    requires forall q :: q in rest ==> q in init && Label(q.status) == target
    requires IsSubsequence(rest, init)
    requires forall q :: multiset(rest)[q] == (if Label(q.status) == target then multiset(init)[q] else 0)
    ensures var qs := init + [last];
            var r := if Label(last.status) == target then rest + [last] else rest;
            && (forall q :: q in r ==> q in qs && Label(q.status) == target)
            && (forall i :: 0 <= i < |qs| && Label(qs[i].status) == target ==> qs[i] in r)
            && IsSubsequence(r, qs)
            && (forall q :: multiset(r)[q] == (if Label(q.status) == target then multiset(qs)[q] else 0))
  {
    var qs := init + [last];
    assert qs[..|qs| - 1] == init;
    assert multiset(qs) == multiset(init) + multiset{last};
    assert multiset(rest + [last]) == multiset(rest) + multiset{last};
    if Label(last.status) == target {
      assert (rest + [last])[..|rest|] == rest;
    }
    forall i | 0 <= i < |qs| && Label(qs[i].status) == target
      ensures qs[i] in (if Label(last.status) == target then rest + [last] else rest)
    {
      assert multiset(qs)[qs[i]] > 0;
    }
  }

  /** What list_quotes answers: the ledger is empty, nothing matches, or the matching quotes. */
  datatype Listed = NoQuotes | NoneWithStatus | Found(quotes: seq<Quote>)

  /** The quotes a listing shows. */
  function Shown(r: Listed): seq<Quote> {
    if r.Found? then r.quotes else []
  }

  /** Lists the ledger's quotes under a user-typed status filter. */
  function ListQuotes(l: Ledger, status: string): (r: Listed)
    ensures r == NoQuotes <==> |l.quotes| == 0
    ensures r == NoneWithStatus <==> |l.quotes| > 0 && Shown(r) == []
    ensures r.Found? ==> |r.quotes| > 0
    ensures Text.Lower(status) == AllWord ==> Shown(r) == l.quotes
    ensures ResolveFilter(status).WithLabel? ==>
              && (forall q :: q in Shown(r) ==> Label(q.status) == ResolveFilter(status).target)
              && (forall i :: 0 <= i < |l.quotes| && Label(l.quotes[i].status) == ResolveFilter(status).target
                    ==> l.quotes[i] in Shown(r))
              && (forall q :: multiset(Shown(r))[q] ==
                    (if Label(q.status) == ResolveFilter(status).target then multiset(l.quotes)[q] else 0))
    ensures IsSubsequence(Shown(r), l.quotes)
  {
    if |l.quotes| == 0 then NoQuotes
    else
      var selected := match ResolveFilter(status)
                      case All => l.quotes
                      case WithLabel(target) => Select(l.quotes, target);
      SubsequenceRefl(l.quotes);
      if selected == [] then NoneWithStatus else Found(selected)
  }

  /** Every sequence is a subsequence of itself. */
  lemma {:induction false} SubsequenceRefl<T>(a: seq<T>)
    ensures IsSubsequence(a, a)
    decreases |a|
  {
    if |a| > 0 {
      SubsequenceRefl(a[..|a| - 1]);
    }
  }

  /** Each status target, lower-cased, is a key of the table that maps back to that target. */
  lemma LowerLabelMapsBack(s: Status)
    ensures Text.Lower(Label(s)) in StatusMapping
    ensures Text.Lower(Label(s)) != AllWord
    ensures StatusMapping[Text.Lower(Label(s))] == Label(s)
  {
    match s
    case Pending => assert Text.Lower("En Attente") == "en attente";
    case Approved => assert Text.Lower("Approuvé") == "approuvé";
    case Rejected => assert Text.Lower("Rejeté") == "rejeté";
    case Completed => assert Text.Lower("Terminé") == "terminé";
  }

  /** Typing a status target in any letter case lists exactly the quotes with that status. */
  lemma ListByStatus(l: Ledger, status: string, s: Status)
    requires Text.Lower(status) == Text.Lower(Label(s))
    ensures forall q :: q in Shown(ListQuotes(l, status)) ==> q.status == s
    ensures forall i :: 0 <= i < |l.quotes| && l.quotes[i].status == s ==> l.quotes[i] in Shown(ListQuotes(l, status))
    ensures forall q :: multiset(Shown(ListQuotes(l, status)))[q] == (if q.status == s then multiset(l.quotes)[q] else 0)
  {
    LowerLabelMapsBack(s);
    assert ResolveFilter(status) == WithLabel(Label(s));
    forall t: Status
      ensures Label(t) == Label(s) <==> t == s
    {
      LabelInjective(t, s);
    }
  }

  /** A filter whose lower-cased form is not in the table is compared verbatim,
      and no stored status target equals it, so the listing is empty. */
  lemma UnmappedFilterShowsNothing(l: Ledger, status: string)
    requires Text.Lower(status) !in StatusMapping
    ensures Shown(ListQuotes(l, status)) == []
  {
    var shown := Shown(ListQuotes(l, status));
    if shown != [] {
      assert ResolveFilter(status) == WithLabel(status);
      var q := shown[0];
      assert Label(q.status) == status;
      LowerLabelMapsBack(q.status);
      assert false;
    }
  }

  /** Selecting from a ledger with one quote appended selects what it selected
      before, followed by the new quote if it matches. */
  lemma SelectAppend(qs: seq<Quote>, q: Quote, target: string)
    ensures Select(qs + [q], target) == Select(qs, target) + (if Label(q.status) == target then [q] else [])
  {
    assert (qs + [q])[..|qs|] == qs;
  }

  /** Creating a quote adds it at the end of the "all" and "en attente"
      listings and leaves every other status listing as it was. */
  lemma ListAfterCreate(l: Ledger, customerName: string, productName: string, quantity: int,
                        unitPrice: real, user: Caller.User, now: string, expiry: string, status: string)
    ensures var r := Create(l, customerName, productName, quantity, unitPrice, user, now, expiry);
            Shown(ListQuotes(r.ledger, status)) ==
              Shown(ListQuotes(l, status)) + (if ShowsPending(status) then [r.quote] else [])
  {
    var r := Create(l, customerName, productName, quantity, unitPrice, user, now, expiry);
    match ResolveFilter(status)
    case All =>
    case WithLabel(target) =>
      SelectAppend(l.quotes, r.quote, target);
  }

  /** True iff a filter shows pending quotes. */
  predicate ShowsPending(status: string) {
    match ResolveFilter(status)
    case All => true
    case WithLabel(target) => target == Label(Pending)
  }

  /** When identifiers are distinct, a quote's identifier appears in the
      listing for status t exactly when the quote has status t. */
  lemma ListedUnderOwnStatus(l: Ledger, k: int, t: Status)
    requires DistinctIds(l.quotes) && 0 <= k < |l.quotes|
    ensures (exists q :: q in Shown(ListQuotes(l, Label(t))) && q.quoteId == l.quotes[k].quoteId)
              <==> l.quotes[k].status == t
  {
    ListByStatus(l, Label(t), t);
    var shown := Shown(ListQuotes(l, Label(t)));
    if l.quotes[k].status == t {
      assert l.quotes[k] in shown;
    } else {
      forall q | q in shown
        ensures q.quoteId != l.quotes[k].quoteId
      {
        var i :| 0 <= i < |l.quotes| && l.quotes[i] == q;
        assert i != k;
      }
    }
  }

  /** After a valid status update of any quote of a valid ledger, the quote
      is listed under its new status and under no other. */
  lemma ListAfterUpdate(l: Ledger, k: int, newStatus: string, user: Caller.User, now: string, t: Status)
    requires Valid(l) && 0 <= k < |l.quotes|
    requires ParseStatus(newStatus).Some?
    ensures var id := l.quotes[k].quoteId;
            var l' := UpdateStatus(l, id, newStatus, user, now).ledger;
            (exists q :: q in Shown(ListQuotes(l', Label(t))) && q.quoteId == id) <==> Label(t) == newStatus
  {
    var s := ParseStatus(newStatus).value;
    UpdateAt(l, k, newStatus, user, now);
    var l' := UpdateStatus(l, l.quotes[k].quoteId, newStatus, user, now).ledger;
    ValidIdsDistinct(l);
    assert forall i :: 0 <= i < |l.quotes| ==> l'.quotes[i].quoteId == l.quotes[i].quoteId;
    assert DistinctIds(l'.quotes);
    ListedUnderOwnStatus(l', k, t);
    assert l'.quotes[k].status == s;
    LabelInjective(t, s);
  }
}
