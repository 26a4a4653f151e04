# Quote ledger model

A Dafny model of the quotation ("devis") ledger of the Open WebUI tool in
`demos/devis_agent.py`. The tool keeps an in-memory counter seeded at 1000 and
an insertion-ordered list of quotes. It offers four operations:

- `create_quote` numbers a quote `DV-<counter>`, advances the counter, computes
  the subtotal, the 20 % VAT and the total, and appends the quote as "En Attente".
- `get_quote` looks a quote up by identifier with a linear scan.
- `list_quotes` lists all quotes or only those with a given status.
- `update_quote_status` moves a quote to any of the four statuses and stamps it
  with who updated it and when.

The model is functional. A `Ledger` is a value holding a counter and a sequence
of `Quote` records. Each operation is a pure function that returns the new
ledger (for create and update) together with a structured result or a typed
error, in place of the French text messages.

Modules, one per concept:

- `Wrappers`: `Option` and `Result`.
- `Decimal`: the decimal text of a natural number as an f-string prints it, and the
  parser that inverts it. Identifiers are built from this text.
- `Text`: `str.lower()`, used on list filters.
- `Caller`: the caller identity `__user__` as a string map. It holds the
  `.get(key, default)` defaults and the `get_user_name_and_email_and_id` text.
- `Quotes`: the four statuses and their stored labels, quote identifiers, the
  record itself, and the consistency of its amounts.
- `QuoteLedger`: the ledger, its invariant, and create, lookup and status update.
- `Listing`: the status filter table and `list_quotes`.
- `History`: any sequence of creates and updates, run from the fresh ledger.

Modelling choices:

- Prices are `real` and the tax is `subtotal * 0.20`, so the amount equalities
  are exact. The source uses binary floats.
- Timestamps are caller-supplied strings: `created_at`, `valid_until` and
  `updated_at`.
- The stored status is a closed datatype. Filters stay strings, because
  `list_quotes` can compare the typed text verbatim.
- `updated_by` and `updated_at` are `Option`s. They are absent until the first
  update, just as the source adds those keys only on update.
- The counter is a `nat`. It starts at 1000 and only grows.

The model follows the code:

- The default sales rep and updater is "Inconnu", not "Unknown".
- There is no validation of the quantity or the unit price.
- An invalid status label is reported before an unknown identifier.

## Model

| member | source | states |
|---|---|---|
| QuoteLedger.Init | demos/devis_agent.py:16-19 | The fresh ledger has counter 1000 and no quotes, and satisfies the ledger invariant (strictly increasing identifiers, consistent amounts). |
| QuoteLedger.Create | demos/devis_agent.py:79-115 | Create gives the quote the identifier `DV-<counter>`, from which the counter can be read back. It advances the counter by exactly 1 and appends exactly one record after the unchanged earlier ones. It copies the inputs. Subtotal = quantity × price, tax = 20 % of subtotal, total = subtotal + tax = 1.2 × quantity × price. The sales rep is the caller's name or "Inconnu", the email is the caller's email or "N/A". The status is "En Attente" and there is no update stamp. |
| QuoteLedger.CreatePreservesValid | demos/devis_agent.py:80-82 | Creating a quote keeps the invariant: every identifier is canonical `DV-<n>` with 1000 <= n < counter, numbers strictly increase in insertion order, and amounts are consistent. |
| QuoteLedger.ValidIdsDistinct | demos/devis_agent.py:80-82 | In a ledger satisfying the invariant, no two quotes share an identifier. |
| Quotes.ParseStatus | demos/devis_agent.py:221-222 | A status text is accepted exactly when it equals one of the four labels, case-sensitively, and it maps to the status with that label. |
| Quotes.LabelInjective | demos/devis_agent.py:221 | The four status labels are pairwise distinct. |
| Quotes.SeqNoOfQuoteId | demos/devis_agent.py:81 | The counter value can be read back from the identifier `DV-<counter>`. |
| Quotes.QuoteIdInjective | demos/devis_agent.py:81 | Distinct counter values give distinct identifiers. |
| Decimal.ParseShow | demos/devis_agent.py:81 | Parsing the decimal text of a number gives the number back. |
| Decimal.Show | demos/devis_agent.py:81 | The decimal text of a natural number is a non-empty digit string that starts with '0' only for zero. |
| QuoteLedger.IndexOf | demos/devis_agent.py:146-147 | The scan returns the position of the first quote with the identifier, or reports that no quote has it. |
| QuoteLedger.FirstWithIdUnique | demos/devis_agent.py:146-147 | The first position that carries an identifier is the one the scan finds. |
| QuoteLedger.GetQuote | demos/devis_agent.py:139-166 | Lookup succeeds iff some quote carries the identifier, and then returns the first such quote. Otherwise it reports NotFound with that identifier. |
| QuoteLedger.GetAfterCreate | demos/devis_agent.py:114-115 | After a create in a valid ledger, the new identifier looks up the new quote as created, and every other identifier looks up what it did before. |
| QuoteLedger.UpdateStatus | demos/devis_agent.py:211-240 | An invalid label gives InvalidStatus, whatever the identifier. A valid label with an unknown identifier gives NotFound. Both failures leave the ledger unchanged. A valid label with a present identifier always succeeds, from any status. On success only the first matching quote changes, and only in its status, `updated_by` (caller's name or "Inconnu") and `updated_at`. The previous status is returned. The counter, the length and every other record are unchanged. |
| QuoteLedger.ReplacePreservesValid | demos/devis_agent.py:225-230 | Rewriting one record in place, with its identifier and amounts kept, keeps the invariant. |
| QuoteLedger.UpdatePreservesValid | demos/devis_agent.py:225-230 | A status update keeps the invariant. |
| QuoteLedger.GetAfterUpdate | demos/devis_agent.py:225-230 | After a successful update, the identifier looks up the updated quote, and every other identifier looks up what it did before. |
| Caller.Describe | demos/devis_agent.py:21-38 | The caller text is never empty. It starts with "Utilisateur: <name>" when a name is present and ends with the email part when an email is present. With no name it starts with the id part. With a name and an id it starts with the name part followed directly by the id part. With an id and an email it ends with the id part followed directly by the email part. With none of name, id or email it is "Utilisateur: Inconnu". Otherwise its length is the sum of the lengths of the parts present, so nothing else stands between or after them. |
| Text.LowerChar | demos/devis_agent.py:190 | A lower-cased character is never upper-case, and characters that are not upper-case are unchanged. |
| Text.Lower | demos/devis_agent.py:190 | Lower-casing keeps the length and lower-cases each character in place. |
| Text.LowerLetters | demos/devis_agent.py:190 | Each ASCII capital A-Z and each Latin-1 capital from À to Þ (× excluded) becomes the small letter at the same place of the alphabet. |
| Text.LowerTous | demos/devis_agent.py:190 | Every letter-case spelling of "tous", such as "TOUS" or "Tous", lower-cases to "tous", so it selects all quotes. |
| Text.LowerIdempotent | demos/devis_agent.py:190 | Lower-casing twice is the same as lower-casing once. |
| Listing.ResolveFilter | demos/devis_agent.py:182-191 | A filter means "all quotes" exactly when its lower-case form is "tous". |
| Listing.Select | demos/devis_agent.py:192-194 | The selection holds exactly the ledger's quotes whose status label equals the target, each as many times as in the ledger, as a subsequence in insertion order. |
| Listing.ListQuotes | demos/devis_agent.py:171-206 | An empty ledger gives the empty-ledger answer for every filter. A filter that is "tous" in any case shows every quote in insertion order. Any other filter shows exactly the quotes whose label equals the mapped label (or the raw text when unmapped), each as many times as in the ledger, as a subsequence of the ledger. An empty selection from a non-empty ledger gives the nothing-matches answer. |
| Listing.LowerLabelMapsBack | demos/devis_agent.py:182-188 | Each stored label, lower-cased, is a key of the filter table other than "tous", and maps back to that label. |
| Listing.ListByStatus | demos/devis_agent.py:190-194 | Typing a status label in any letter case lists exactly the quotes that have that status, each as many times as in the ledger. |
| Listing.UnmappedFilterShowsNothing | demos/devis_agent.py:191 | A filter whose lower-case form is not in the table is compared verbatim, and it never matches a quote. |
| Listing.SelectAppend | demos/devis_agent.py:192-194 | Selecting from a ledger with one quote appended gives the earlier selection followed by the new quote if it matches. |
| Listing.ListAfterCreate | demos/devis_agent.py:178-194 | After a create, a listing shows what it showed before. The new quote is added at the end exactly when the filter shows pending quotes. |
| Listing.ListedUnderOwnStatus | demos/devis_agent.py:190-194 | When identifiers are distinct, as in every valid ledger, a quote's identifier appears in the listing for a status exactly when the quote has that status. |
| QuoteLedger.UpdateAt | demos/devis_agent.py:225-230 | In a valid ledger, a valid update addressed to any quote's identifier succeeds. It rewrites only that quote, setting its status to the parsed label and stamping the caller's name and the time. |
| Listing.ListAfterUpdate | demos/devis_agent.py:225-230 | In a valid ledger, after a valid update addressed to any quote, that quote is listed under its new status and under no other. |
| History.RunPreservesValid | demos/devis_agent.py:16-19 | Every sequence of creates and status updates keeps a valid ledger valid. |
| History.ApplyKeepsDense | demos/devis_agent.py:80-82 | One operation keeps quotes numbered consecutively from 1000. Only a create advances the counter, by one. |
| History.RunKeepsDense | demos/devis_agent.py:80-82 | Any sequence of operations keeps the numbering consecutive, and the counter advances by the number of creates. |
| History.RunFromInit | demos/devis_agent.py:16-19 | After any sequence of operations from the fresh ledger: there is one quote per create. The i-th quote is `DV-<1000+i>`. The counter is 1000 plus the number of creates. Identifiers are pairwise distinct and all amounts are consistent. |

## Left out

- Text output: the French confirmation and error texts and the `:.2f` formatting are not modelled. Results are structured values: `Created`, `Change`, `Listed` and `Error`.
- The `try/except` wrappers are not modelled. In `create_quote` the only exception possible with well-typed arguments is `OverflowError: int too large to convert to float`, raised by `quantity * unit_price` when `quantity` is an int too large for a float. A float product that overflows gives `inf` and raises nothing. There the source has already advanced the counter and appends no record, which skips an identifier. The model has exact arithmetic and no such path. Its ledger invariant asks only for strictly increasing numbers, so `Valid` would still hold. The consecutive numbering of `History.Dense` and `History.RunFromInit` would not: with a raising create, the counter advances with no quote appended, so "one quote per create", "counter = 1000 + creates" and "the i-th quote is DV-<1000+i>" would all fail.
- QuoteLedger.Create: amounts are exact reals, not IEEE-754 doubles, so `tax_amount` is exactly a fifth of the subtotal. Rounding of the source's floats is not modelled, and neither are infinite or NaN amounts: with `unit_price` NaN the source stores a quote whose `subtotal == quantity * unit_price` is false, while every modelled quote has consistent amounts.
- Wall-clock reads are not modelled: `datetime.now()`, `strftime`, `get_current_time` and the 30-day expiry date of `_calculate_expiry_date`. The creation, expiry and update timestamps are opaque caller-supplied strings.
- Text.Lower: folds ASCII and Latin-1 upper-case letters only, not the whole of Unicode as `str.lower()` does. Every letter in the status labels and the filter table is covered.
- The `print(__user__)` debugging output of `get_user_name_and_email_and_id` is not modelled.
- `calculator` is not modelled, because it evaluates arbitrary Python with `eval`.
- `demos/commandes_agent.py` (a REST passthrough to Redmine), `demos/mcp_browser_agent.py` and `demos/support_gradio_agent.py` (agent and UI launchers) are I/O and foreign calls only. They are not part of this model.
- Caller identity values are strings. The source accepts any Python value in `__user__`.
