# Spend tracker ledger, modelled in Dafny

This project models a small shared-expense tracker between two parties, "Household" and "Bev". It covers:

- **Ledger schema.** Parties, the people who belong to them, and expenses paid by a person in some currency, with a pinned FX rate to CAD and two integer split weights. Also settlements between parties, the FX-rate cache rows and the per-user recent-currency rows. The schema also gives the column domains and the uniqueness and listing-order constraints (`schema.dfy`).
- **Money.** Money is exact decimal, modelled as `real`. `q2` is half-up rounding to cents (`money.dfy`).
- **Text.** The two string operations applied to currency codes, `upper()` and `strip()` (`text.dfy`).
- **Expense serializer.** The CAD amount, and the two weighted shares, each rounded to cents on its own. Also currency validation, the payer's display label, and the settlement validation that replaces the people a client names with their parties. That validation is a class whose method rewrites the two attribute slots in place (`serializers.dfy`).
- **Balance summary.** A fold over all expenses and settlements. It finds the household and Bev parties, sums Bev's exact share of household-paid expenses and the household's exact share of Bev-paid expenses, sums the settlements in each direction, and computes `net` (`summary.dfy`).
- **Recent-currency store.** A class over the table rows. A POST upserts the normalised code; a GET returns the caller's five most recent codes, newest first. The functional specification uses an insertion sort (`recent.dfy`).
- **FX-rate endpoint.** A class holding the cache as a map from (date, base, quote) to rate. A request is answered from the cache, or fetched upstream and stored, or answered with the fallback rate 1 and nothing stored. The upstream service, the ISO date parser and today's date are parameters (`fxrate.dfy`).
- **Client controls.** The currency dropdown's "Recent" and "All" groups, the gate on the recent-currency POST, the payer picker's party filter, and the money formatter's dash for missing values (`controls.dfy`).
- **Write gate.** Authenticated users may read; only staff may write (`permissions.dfy`).

Behaviours of the code that the model keeps on purpose:

- The two shares of an expense are rounded separately. Their sum is therefore only within a cent of the rounded total, not equal to it.
- When the upstream FX service fails, the endpoint still answers, with rate 1 and source "fallback".
- Settlements are recorded between parties, after the named people have been translated to their parties. Nothing requires the two parties to differ.
- The summary divides by the weight sum, which the database computes as an `integer`. A sum of zero is a division error and a sum above 2147483647 is an "integer out of range" error. The model reports these as the `DivisionByZero` and `IntegerOutOfRange` outcomes rather than excluding such ledgers.

## Model

| member | source | states |
|---|---|---|
| Money.Q2 | dev/backend/tracker/serializers.py:8-11 | the result is a whole number of cents, at most half a cent from the input, ties going away from zero; it keeps the sign |
| Money.Q2Opt | dev/backend/tracker/serializers.py:8-11 | `None` passes through; otherwise the rounded value is whole cents within half a cent |
| Money.Q2Unique | dev/backend/tracker/serializers.py:11 | half-up rounding is the only whole number of cents in the half-open window around the input |
| Money.Q2OfCents | dev/backend/tracker/serializers.py:11 | an amount that already has two decimal places is unchanged |
| Money.Q2Idempotent | dev/backend/tracker/serializers.py:8-11 | rounding twice equals rounding once |
| Money.Q2Negate | dev/backend/tracker/serializers.py:11 | rounding is symmetric about zero |
| Money.Q2Monotone | dev/backend/tracker/serializers.py:11 | rounding never reverses the order of two amounts |
| Schema.NewExpense | dev/backend/tracker/models.py:69-88 | a new expense defaults to category lodging, currency THB, FX rate 1, both weights 1 and empty notes |
| Schema.ValidParty | dev/backend/tracker/models.py:8-11 | a party's name and slug have at most 64 characters and the slug is a non-empty run of letters, digits, `_` and `-` |
| Schema.ValidParties | dev/backend/tracker/models.py:8-11 | every party is valid, and ids, names and slugs are each unique |
| Schema.ValidPerson | dev/backend/tracker/models.py:16-19 | a person's name has at most 64 characters and the person belongs to a valid party |
| Schema.ValidExpense | dev/backend/tracker/models.py:69-86 | the column domains of an expense: text lengths, the two decimal columns, a valid payer, and both weights between 0 and 2147483647 |
| Schema.ValidSettlement | dev/backend/tracker/models.py:103-107 | both parties are valid and the amount fits `DecimalField(14, 2)`; the parties may coincide |
| Schema.ValidRecentCurrency | dev/backend/tracker/models.py:49 | a recent-currency code has at most 3 characters |
| Schema.PersonLabel | dev/backend/tracker/models.py:27-28 | the label is the person's name followed by " (", the party's name and ")" |
| Schema.NewExpenseValid | dev/backend/tracker/models.py:69-88 | a default expense with a fitting amount and a valid payer satisfies every column domain |
| Schema.ZeroWeightsAdmitted | dev/backend/tracker/models.py:85-86 | the schema admits an expense whose two weights are both 0, since a `PositiveIntegerField` includes 0 |
| Schema.SelfSettlementAdmitted | dev/backend/tracker/models.py:103-107 | the schema admits a settlement from a party to itself |
| Schema.FxTable | dev/backend/tracker/models.py:30-38 | the cache table read as a map has exactly the keys of its rows |
| Schema.FxTableLookup | dev/backend/tracker/models.py:37-38 | with (date, base, quote) unique, every row's rate is the map's value at its key |
| Schema.ListedBeforeStrictTotal | dev/backend/tracker/models.py:92-93 | "newest date first, then higher id" is irreflexive, asymmetric, transitive and total on distinct ids |
| Schema.ListingUnique | dev/backend/tracker/models.py:92-93 | ordering by newest date, then highest id, fixes the listing: two listed sequences of the same expenses are equal |
| Schema.ListedHeadsAgree | dev/backend/tracker/models.py:92-93 | two listings of the same expenses begin with the same expense |
| Text.UpperChar | dev/backend/tracker/serializers.py:64 | a lower-case ASCII letter moves to its capital; any other character is kept; whitespace is preserved |
| Text.Upper | dev/backend/tracker/serializers.py:64 | same length, each character upper-cased, no lower-case letter left |
| Text.StripLeft | dev/backend/tracker/serializers.py:64 | the result is a suffix, starts with a non-space, and everything removed was whitespace |
| Text.StripRight | dev/backend/tracker/serializers.py:64 | the result is a prefix, ends with a non-space, and everything removed was whitespace |
| Text.Strip | dev/backend/tracker/serializers.py:64 | the result has no whitespace at either end; what it keeps is fixed by StripPadded |
| Text.StripPadded | dev/backend/tracker/serializers.py:64 | stripping a string with no edge whitespace from between two whitespace runs gives back exactly that string |
| Text.Normalize | dev/backend/tracker/serializers.py:64 | upper-case then strip: no lower-case letter and no edge whitespace |
| Text.StripNoEdgeSpace | dev/backend/tracker/serializers.py:64 | a string with no edge whitespace is not changed by strip |
| Text.UpperNoLower | dev/backend/tracker/serializers.py:64 | a string with no lower-case letters is not changed by upper |
| Text.NormalizeOfNormal | dev/backend/tracker/serializers.py:64 | a string without lower-case letters or edge whitespace is its own normal form |
| Text.NormalizeIdempotent | dev/backend/tracker/serializers.py:64 | normalising twice equals normalising once |
| Text.NormalizeIgnoresSurroundingSpace | prod/backend/tracker/views.py:180 | whitespace around a code does not change its normal form |
| Text.StripLeftPrefix | prod/backend/tracker/views.py:180 | a whitespace prefix is exactly what lstrip removes |
| Text.StripRightSuffix | prod/backend/tracker/views.py:180 | a whitespace suffix is exactly what rstrip removes |
| Serializers.CadAmount | dev/backend/tracker/serializers.py:88-92 | the CAD amount is whole cents within half a cent of amount times rate |
| Serializers.Denominator | dev/backend/tracker/serializers.py:101 | the denominator is the weight sum, or 1 when both weights are 0 |
| Serializers.ShareOf | dev/backend/tracker/serializers.py:102-103 | a share is whole cents, and 0 for weight 0 |
| Serializers.Split | dev/backend/tracker/serializers.py:97-104 | a zero weight gives a zero share; both shares are whole cents |
| Serializers.Shares | dev/backend/tracker/serializers.py:88-104 | both shares are whole cents, a zero weight gets 0, and unless both weights are 0 each share is within a cent of the exact weighted share of `amount * fx_to_cad` |
| Serializers.SplitSwap | dev/backend/tracker/serializers.py:99-104 | swapping the weights swaps the shares |
| Serializers.SplitBothZero | dev/backend/tracker/serializers.py:101-103 | both weights 0 gives both shares 0 |
| Serializers.ShareBounds | dev/backend/tracker/serializers.py:102-103 | a share of a non-negative whole-cents total lies in [0, total] |
| Serializers.SplitBounds | dev/backend/tracker/serializers.py:102-103 | with a non-negative whole-cents total, both shares lie in [0, total] |
| Serializers.SplitSumWithinCent | dev/backend/tracker/serializers.py:102-103 | the two shares add up to within one cent of the total |
| Serializers.SplitSumNotExact | dev/backend/tracker/serializers.py:102-103 | the sum is not always exact: 0.01 split 1:1 gives 0.01 and 0.01 |
| Serializers.SplitEven | dev/backend/tracker/serializers.py:102-103 | equal positive weights give equal shares |
| Serializers.ExactShare | prod/backend/tracker/views.py:204-211 | the unrounded weighted share `x * w / (wH + wB)` |
| Serializers.SplitNearExact | dev/backend/tracker/serializers.py:98-103 | each rounded share is within a cent of the exact share of the unrounded amount |
| Serializers.ThbExample | dev/backend/tracker/serializers.py:88-104 | 3000 THB at 0.0385 with weights 2:1 gives 115.50 CAD, split 77.00 and 38.50 |
| Serializers.ValidateCurrency | dev/backend/tracker/serializers.py:63-67 | accepted exactly when the normalised input has 3 characters; the result is that normalised code, upper-case, with no edge whitespace |
| Serializers.CurrencyInput | dev/backend/tracker/serializers.py:64 | the value checked is `(v or "").upper().strip()`: a missing value reads as the empty string |
| Serializers.ValidateCurrencyIdempotent | dev/backend/tracker/serializers.py:63-67 | a validated code validates again to itself |
| Serializers.ValidateCurrencyMissing | dev/backend/tracker/serializers.py:64-66 | a missing value is rejected |
| Serializers.ValidateCurrencyAcceptsNormalForm | dev/backend/tracker/serializers.py:64-67 | any three characters already in normal form are accepted unchanged |
| Serializers.ValidateCurrencyAcceptsDigits | dev/backend/tracker/serializers.py:65-67 | letters are not checked: "123" is accepted |
| Serializers.PaidByDisplay | dev/backend/tracker/serializers.py:69-75 | the bare name without a party, "name (party name)" with one |
| Serializers.PaidByDisplayOfValidPerson | dev/backend/tracker/serializers.py:69-75 | for a schema-valid person the label is the name followed by the party name in parentheses |
| Serializers.Translate | dev/backend/tracker/serializers.py:178-188 | a person with a party becomes that party; every other slot is kept |
| Serializers.IsPartylessPerson | dev/backend/tracker/serializers.py:178-187 | the slot holds a person whose party is missing |
| Serializers.Names | dev/backend/tracker/serializers.py:175-188 | the slot stands for party `p`: it holds `p`, or a person of `p` |
| Serializers.ValidateSlots | dev/backend/tracker/serializers.py:165-193 | success iff both slots name a party, returning those parties; a partyless from-person fails first, then a partyless to-person |
| Serializers.SelfSettlementAccepted | dev/backend/tracker/serializers.py:175-193 | two people of the same party validate to a settlement from that party to itself |
| Serializers.SettlementAttrs.Validate | dev/backend/tracker/serializers.py:165-193 | the error is the one `ValidateSlots` gives; the slots are rewritten in place in order, the to-side left alone if the from-side fails |
| LedgerSummary.FirstWhere | prod/backend/tracker/views.py:194-195 | `None` iff no party matches; otherwise a matching party with the least id |
| LedgerSummary.Household | prod/backend/tracker/views.py:194 | `None` iff no party is the household; otherwise a household party with the least id |
| LedgerSummary.Bev | prod/backend/tracker/views.py:195 | `None` iff no party has slug "bev"; otherwise such a party with the least id |
| LedgerSummary.PaidBy | prod/backend/tracker/views.py:200-201 | the expense's payer belongs to the party, compared by id |
| LedgerSummary.ExactShare | prod/backend/tracker/views.py:204-211 | one side's exact share `amount * fx_to_cad * weight / (weight_household + weight_bev)` |
| LedgerSummary.ShareDefined | prod/backend/tracker/views.py:204-211 | an expense the query reaches has a weight sum between 1 and 2147483647 |
| LedgerSummary.Computable | prod/backend/tracker/views.py:204-223 | every expense the query over `payer`'s expenses reaches has a usable weight sum |
| LedgerSummary.QueryError | prod/backend/tracker/views.py:204-223 | no error iff the query is computable; "out of range" only with a reached weight sum above 2147483647, "division by zero" only with a reached sum of 0 |
| LedgerSummary.Owed | prod/backend/tracker/views.py:204-223 | what one expense adds to a side's total: its exact share when the party paid it, else 0 |
| LedgerSummary.OwedFromExpenses | prod/backend/tracker/views.py:199-223 | 0 when that party paid none of the expenses; the sum itself is fixed by OwedConcat and OwedSingle |
| LedgerSummary.Transfers | prod/backend/tracker/views.py:226-235 | 0 when no settlement moves in that direction; the sum itself is fixed by TransfersConcat and TransfersSingle |
| LedgerSummary.Moves | prod/backend/tracker/views.py:226-235 | the settlement goes from the one party to the other, compared by id |
| LedgerSummary.Totals | prod/backend/tracker/views.py:213-237 | `net = bev_owes - household_owes - (bev_to_household - household_to_bev)` |
| LedgerSummary.Summarize | prod/backend/tracker/views.py:190-245 | "not bootstrapped" iff a party is missing; otherwise success iff both share queries are computable, the household query's error coming first; a success satisfies the `net` identity |
| LedgerSummary.SummaryIsTotals | prod/backend/tracker/views.py:199-237 | a bootstrapped ledger whose share queries are computable's summary is the totals for the two parties found |
| LedgerSummary.EmptyLedger | prod/backend/tracker/views.py:213-237 | with both parties present, an empty ledger gives all five fields 0 |
| LedgerSummary.OwedConcat | prod/backend/tracker/views.py:213-217 | the expense fold over a concatenation is the sum of the folds |
| LedgerSummary.TransfersConcat | prod/backend/tracker/views.py:226-229 | the settlement fold over a concatenation is the sum of the folds |
| LedgerSummary.OwedSingle | prod/backend/tracker/views.py:213-223 | the expense fold over one expense is what that expense owes |
| LedgerSummary.TransfersSingle | prod/backend/tracker/views.py:226-235 | the settlement fold over one settlement is its amount if it moves in that direction, else 0 |
| LedgerSummary.OwedPerm | prod/backend/tracker/views.py:213-223 | the expense fold is the same for any permutation of the expenses |
| LedgerSummary.TransfersPerm | prod/backend/tracker/views.py:226-235 | the settlement fold is the same for any permutation of the settlements |
| LedgerSummary.SummaryOrderIndependent | prod/backend/tracker/views.py:199-237 | the summary is invariant under permutation of both lists |
| LedgerSummary.TotalsAppendExpense | prod/backend/tracker/views.py:199-237 | one more expense adds what it owes each side to the two expense totals and shifts `net` by their difference |
| LedgerSummary.TotalsAppendSettlement | prod/backend/tracker/views.py:226-237 | one more settlement adds its amount to the direction it moves in and shifts `net` by it |
| LedgerSummary.AppendBevToHousehold | prod/backend/tracker/views.py:226-237 | a Bev-to-household settlement of `a` adds `a` to that total and lowers `net` by exactly `a` |
| LedgerSummary.AppendHouseholdToBev | prod/backend/tracker/views.py:231-237 | a household-to-Bev settlement of `a` raises `net` by exactly `a` |
| LedgerSummary.AppendUnrelatedSettlement | prod/backend/tracker/views.py:226-235 | a settlement between neither pair in either direction changes nothing |
| LedgerSummary.SelfTransferUnrelated | prod/backend/tracker/views.py:226-235 | a self-transfer is never between the two distinct parties |
| LedgerSummary.AppendHouseholdPaidExpense | prod/backend/tracker/views.py:199-217 | a household-paid expense adds Bev's exact share to `bev_owes` and to `net` |
| LedgerSummary.AppendBevPaidExpense | prod/backend/tracker/views.py:201-223 | a Bev-paid expense adds the household's exact share to `household_owes` and subtracts it from `net` |
| LedgerSummary.AppendUnrelatedExpense | prod/backend/tracker/views.py:199-223 | an expense paid by a third party's person changes nothing, whatever its weights |
| LedgerSummary.QueryErrorUnreached | prod/backend/tracker/views.py:200-201 | an expense the query does not reach leaves its outcome unchanged |
| LedgerSummary.WeightSumOverflows | prod/backend/tracker/views.py:204-217 | two weights of 2^30, each within its column, make the summary fail with "integer out of range" |
| LedgerSummary.PartiesDistinct | prod/backend/tracker/views.py:194-195 | in a valid party table with no party both household and "bev", the two parties found differ |
| LedgerSummary.WorkedExample | prod/backend/tracker/views.py:190-245 | 3000 THB at 0.0385 paid by the household (2:1), plus a 50 CAD settlement from Bev, gives `net = -11.5` |
| RecentCurrencies.UpsertKeys | prod/backend/tracker/views.py:183 | after an upsert the (user, code) pair is present and no other pair appears or disappears |
| RecentCurrencies.Upsert | prod/backend/tracker/views.py:183 | `update_or_create` at time `t`: the pair's row restamped when present, a new row appended otherwise; keys, size and other rows are fixed by UpsertKeys, UpsertSize and UpsertOthersUnchanged |
| RecentCurrencies.UpsertSize | prod/backend/tracker/views.py:183 | re-posting an existing pair adds no row; a new pair adds one |
| RecentCurrencies.UpsertOthersUnchanged | prod/backend/tracker/views.py:183 | rows of every other pair are unchanged |
| RecentCurrencies.UpsertStamps | dev/backend/tracker/models.py:50 | the posted pair's row carries the new time |
| RecentCurrencies.UpsertValid | dev/backend/tracker/models.py:50-53 | an upsert keeps (user, code) unique and the stored times distinct and below the clock |
| RecentCurrencies.UpsertColumnsFit | dev/backend/tracker/models.py:49 | a code of at most three characters keeps every row within its column |
| RecentCurrencies.UpsertNewest | dev/backend/tracker/models.py:50 | after an upsert the only row stamped with the new time is the posted pair's |
| RecentCurrencies.ForUser | prod/backend/tracker/views.py:175 | exactly the caller's rows |
| RecentCurrencies.ForUserDistinct | prod/backend/tracker/views.py:175 | with unique (user, code) pairs, the caller's rows never repeat a code |
| RecentCurrencies.InsertByRecency | prod/backend/tracker/views.py:176 | inserting keeps exactly the old elements and the new one |
| RecentCurrencies.InsertNewestFirst | prod/backend/tracker/views.py:176 | insertion into a newest-first sequence keeps it newest-first |
| RecentCurrencies.InsertPermutes | prod/backend/tracker/views.py:176 | insertion adds exactly one occurrence of the element |
| RecentCurrencies.InsertDistinctCodes | prod/backend/tracker/views.py:176 | inserting a new code keeps the codes distinct |
| RecentCurrencies.SortByRecency | prod/backend/tracker/views.py:176 | the sort has exactly the input's elements |
| RecentCurrencies.SortByRecencySpec | prod/backend/tracker/views.py:176 | the sort is newest-first and a permutation of its input |
| RecentCurrencies.SortByRecencyDistinct | prod/backend/tracker/views.py:176 | the sort keeps codes distinct |
| RecentCurrencies.RecentRows | prod/backend/tracker/views.py:173-178 | at most 5 rows, only the caller's, newest first; a row left out is no newer than any returned one and is left out only when 5 are returned |
| RecentCurrencies.NewestPrefix | prod/backend/tracker/views.py:176-177 | the first five rows of a newest-first list are newest first, keep distinct codes, and are no older than any row cut off |
| RecentCurrencies.Codes | prod/backend/tracker/views.py:177 | the codes of the rows, position by position |
| RecentCurrencies.RecentFor | prod/backend/tracker/views.py:174-178 | the codes of the caller's rows the query keeps; what they are is fixed by RecentForBounded and PostedCodeFirst |
| RecentCurrencies.RecentForBounded | prod/backend/tracker/views.py:173-178 | the GET returns at most 5 codes, each one the caller has, none twice |
| RecentCurrencies.PostedCodeFirst | prod/backend/tracker/views.py:173-184 | right after a POST, the posted code is first in the poster's GET |
| RecentCurrencies.ForUserAppend | prod/backend/tracker/views.py:175 | filtering a table with one more row adds that row only if it is the caller's |
| RecentCurrencies.ForUserAgree | prod/backend/tracker/views.py:175 | tables that agree on the caller's rows filter the same |
| RecentCurrencies.UpsertOtherUser | prod/backend/tracker/views.py:175-184 | one user's POST never changes another user's GET |
| RecentCurrencies.PostOutcomeOf | prod/backend/tracker/views.py:180-184 | 400 iff the normalised code is empty; a column overflow iff it is longer than 3; saved otherwise |
| RecentCurrencies.PostedCode | prod/backend/tracker/views.py:180 | `(code or "").upper().strip()`: a missing code reads as the empty string |
| RecentCurrencies.BlankCodeRefused | prod/backend/tracker/views.py:180-182 | a missing or whitespace-only code is refused with 400 |
| RecentCurrencies.RecentStore.Valid | dev/backend/tracker/models.py:46-53 | the table invariant: (user, code) unique, stored times distinct and below the clock, codes within their column |
| RecentCurrencies.RecentStore.constructor | dev/backend/tracker/models.py:46-53 | a new store is empty, valid, and starts its clock at 0 |
| RecentCurrencies.RecentStore.Post | prod/backend/tracker/views.py:180-184 | keeps the table invariant; on success the table is the upsert of the normalised code at the current time and the clock advances; otherwise nothing changes |
| RecentCurrencies.RecentStore.Recent | prod/backend/tracker/views.py:172-178 | returns the query's codes, at most 5 |
| FxRates.CodeParam | prod/backend/tracker/views.py:101-102 | an absent or empty code takes the default; the code is upper-cased, not stripped |
| FxRates.RequestKey | prod/backend/tracker/views.py:100-107 | no date or an empty date means today; an unparsable date gives no key; the codes are normalised with defaults CAD and THB |
| FxRates.DefaultRequest | prod/backend/tracker/views.py:100-105 | a request without parameters asks for today's CAD to THB rate |
| FxRates.RequestKeyCaseInsensitive | prod/backend/tracker/views.py:101-102 | a request and its upper-cased form ask for the same key |
| FxRates.Serve | prod/backend/tracker/views.py:109-163 | upstream is asked iff the key is not cached; a cache reply is the stored rate with the cache unchanged; a fallback is rate 1 with the cache unchanged; a live reply is the upstream rate, stored under the key |
| FxRates.Respond | prod/backend/tracker/views.py:104-107 | an unparsable date is refused before the cache is looked at or upstream asked |
| FxRates.CacheHit | prod/backend/tracker/views.py:109-118 | a cached key is answered from the cache without a fetch |
| FxRates.FetchFails | prod/backend/tracker/views.py:139-148 | a failed fetch answers rate 1 with source fallback and stores nothing |
| FxRates.FetchSucceeds | prod/backend/tracker/views.py:150-163 | a successful fetch is stored under its key and answered as live |
| FxRates.ServeOnlyAdds | prod/backend/tracker/views.py:150-155 | serving never removes or changes a cached rate and adds at most the requested key |
| FxRates.SecondRequestHitsCache | prod/backend/tracker/views.py:109-155 | after a live reply, the same key is a cache hit with the same rate whatever upstream says later |
| FxRates.ServeKeepsKeysFit | dev/backend/tracker/models.py:33-34 | every cached key keeps codes of at most three characters |
| FxRates.FxCache.Valid | dev/backend/tracker/models.py:30-38 | every cached key keeps its codes within the three-character columns |
| FxRates.FxCache.constructor | dev/backend/tracker/models.py:30-38 | a new cache is empty, valid, and has fetched nothing |
| FxRates.FxCache.Lookup | prod/backend/tracker/views.py:92-163 | the reply and the new cache are those of `Respond`, and the fetch log grows by the key exactly when upstream was asked |
| SharedControls.IndexOf | dev/frontend/src/sharedControls.jsx:37 | the position of the first occurrence |
| SharedControls.DedupFrom | dev/frontend/src/sharedControls.jsx:37-38 | exactly the input's elements that were not already seen |
| SharedControls.DedupFromDistinct | dev/frontend/src/sharedControls.jsx:37-38 | no element is kept twice |
| SharedControls.DedupFromKeepsOrder | dev/frontend/src/sharedControls.jsx:37-38 | the kept elements appear in the order of their first occurrence |
| SharedControls.DedupFromConcat | dev/frontend/src/sharedControls.jsx:37-38 | deduplicating a concatenation gives the first part, then what the second part adds |
| SharedControls.DedupFromNoDuplicates | dev/frontend/src/sharedControls.jsx:37-38 | a duplicate-free sequence avoiding the seen set is unchanged |
| SharedControls.Pinned | dev/frontend/src/sharedControls.jsx:52 | exactly the recent codes that are in the list |
| SharedControls.PinnedCounts | dev/frontend/src/sharedControls.jsx:52 | a listed code occurs as often as among the recent codes, an unlisted one not at all |
| SharedControls.PinnedConcat | dev/frontend/src/sharedControls.jsx:52 | the filter keeps order: filtering a concatenation concatenates the filters |
| SharedControls.PinnedNoDuplicates | dev/frontend/src/sharedControls.jsx:52 | filtering a duplicate-free list gives a duplicate-free list |
| SharedControls.OrderedElements | dev/frontend/src/sharedControls.jsx:36-39 | the "All" group has no duplicates and exactly the elements of the full list |
| SharedControls.Ordered | dev/frontend/src/sharedControls.jsx:36-39 | the "All" group, `Array.from(new Set(pinned.concat(all)))`; what it holds is fixed by OrderedElements and OrderedRecentFirst |
| SharedControls.OrderedRecentFirst | dev/frontend/src/sharedControls.jsx:37-38 | the "All" group is the recent codes that are in the list, deduplicated, then the list's remaining codes |
| SharedControls.OrderedStartsWithPinned | dev/frontend/src/sharedControls.jsx:37-52 | with duplicate-free recent codes, the "All" group starts with exactly the "Recent" group |
| SharedControls.OrderedWithoutRecent | dev/frontend/src/sharedControls.jsx:36-39 | with no recent codes and a duplicate-free list, the "All" group is that list |
| SharedControls.DefaultCurrenciesSaved | dev/frontend/src/sharedControls.jsx:22 | every default code is in normal form, and posting it saves that very code |
| SharedControls.CapitalCodeSaved | prod/backend/tracker/views.py:180-184 | three capital letters are saved unchanged by a POST |
| SharedControls.HandleChange | dev/frontend/src/sharedControls.jsx:41-50 | the new code always goes to the form; it is posted iff the user may write |
| SharedControls.Filtered | dev/frontend/src/sharedControls.jsx:82-88 | exactly the people in the selected view |
| SharedControls.InView | dev/frontend/src/sharedControls.jsx:84-86 | the household view wants the household flag or slug "household"; the Bev view wants no party, no household flag, or slug "bev" |
| SharedControls.EveryPersonOffered | dev/frontend/src/sharedControls.jsx:82-88 | every person is offered under at least one view |
| SharedControls.PartylessOnlyUnderBev | dev/frontend/src/sharedControls.jsx:84-86 | a person without a party is offered only under Bev |
| SharedControls.OfferedUnderBoth | dev/frontend/src/sharedControls.jsx:85-86 | a person is under both views iff the party's flag and slug disagree |
| SharedControls.Currency | dev/frontend/src/sharedControls.jsx:5-7 | `null`, `undefined` and `NaN` format as a dash; anything else as the locale formats it |
| Permissions.HasPermission | prod/backend/tracker/permissions.py:6-9 | a safe method is allowed iff the user is authenticated; any other method iff authenticated and staff |
| Permissions.IsSafe | prod/backend/tracker/permissions.py:7 | the method is one of GET, HEAD and OPTIONS |
| Permissions.AnonymousRefused | prod/backend/tracker/permissions.py:7-9 | without an authenticated user every method is refused |
| Permissions.ReadsForEveryone | prod/backend/tracker/permissions.py:7-8 | GET, HEAD and OPTIONS are allowed for every authenticated user |
| Permissions.WritesNeedStaff | prod/backend/tracker/permissions.py:9 | POST, PUT, PATCH and DELETE are allowed exactly for authenticated staff |
| Permissions.WriteImpliesRead | prod/backend/tracker/permissions.py:6-9 | whoever may write may also read |
| Permissions.DecisionDependsOnFlags | prod/backend/tracker/permissions.py:6-9 | the decision depends only on method safety and the two user flags |

## Left out

- Arithmetic precision: prices are exact `real`s. Python's 28-digit decimal context is not modelled: it rounds the product `amount * fx_to_cad` in `_cad_amount` and the quotient `w / denom` and product `total * (w / denom)` in `_shares` before `q2`, so near the column limits the serializer can round to a different cent than `Serializers.CadAmount` and `Serializers.ShareOf`. Postgres's `numeric` division precision in the summary is not modelled either.
- Serializers.CadAmount: the product `amount * fx_to_cad` is exact here, not first rounded to 28 significant digits, so its half-cent bound is against the exact product.
- Serializers.ShareOf: the quotient and product are exact here, not each rounded to 28 significant digits.
- FX column rounding: a fetched rate is stored and returned exactly. Storing it in the 8-place column would round it.
- Storage limits in the summary and the FX cache: the summary's totals are not checked against their `max_digits`, and a fetched rate that would overflow its column is stored as is.
- The upstream FX call: the HTTP request, its timeout, JSON decoding and `Decimal(str(...))` parsing are one function parameter that returns a rate or nothing. The fallback reply's `note` text is not modelled.
- Dates: the ISO date parser and today's date are parameters.
- The wall clock behind `updated_at`: it is a counter the store advances on every save, so times are distinct and increasing.
- A non-string `code` or `currency` in a request body (which would raise in `upper()`): inputs are strings or absent.
- Text.UpperChar: maps the ASCII lower-case letters only. Every other character is passed through, whereas Python's `upper()` also maps non-ASCII lower-case letters.
- Text.Upper: keeps the length, because it maps character by character with Text.UpperChar. Python's `upper()` can lengthen a string (ß becomes SS).
- LedgerSummary.Summarize: a missing household or Bev party is an error outcome. The bootstrap command that creates them is not part of this model.
- LedgerSummary.QueryError: the order in which the database visits an expense query's rows is not fixed. When one query reaches both a weight sum above 2147483647 and a weight sum of 0, the model reports the overflow, whereas the database may raise either error.
- Person's unique (name, party) pair and the settlements' listing order: no modelled operation depends on them.
- The FX table's rate column domain, `DecimalField(18, 8)`: a fetched rate is cached as it comes (see FX column rounding above).
- LedgerSummary.OwedFromExpenses: sums the exact shares the database computes. The serializer's rounded shares are related to them per expense by Serializers.Shares, not for the whole fold.
- Locale currency formatting (`Intl.NumberFormat`) is a parameter of `currency`.
- `get_paid_by_party` and the display-name fields of the settlement serializer: field projections with nothing to prove.
- The float-based serializers and the older schema elsewhere in the repository describe a different ledger, so they are not modelled.
- Login, logout, CSRF and "who am I" endpoints, the model viewsets, URL routing, settings, the bootstrap command, the admin and the React rendering, form state and fetch effects: framework wiring and UI.
- The client's request-retry and cookie handling, and the fetching of recent codes and people: network plumbing.
