# Proportional discount splitter — Dafny model

This project models the bill-splitting page `app/page.js`. The page holds a bill's total
before the discount and its total after it, plus a list of participants. Each participant
has a name, the amount they bought, and a paid flag. A participant's payable share is
their amount divided by the before total, times the after total; it is zero when the
before total is zero. The page shows each share rounded to two decimals. Its summary
panel shows the bill's discount, the sum of the amounts, and the sum of the rounded
shares.

The handlers edit the list by name. Add-or-update adds a signed amount to the rows of a
name, or appends a new row, and never lets the written amount drop below zero. The other
handlers remove every row of a name, flip the paid flag of a name, overwrite one row's
amount by index, and reset everything. When the page loads saved state, it turns each
row's `paid` into a boolean.

Layout:

- `people.dfy`, module `People`: the `Person` row, and the pure list rebuilds that the
  handlers pass to `setPeople`. Lemmas cover distinct names, removal order and
  idempotence, and toggling twice.
- `shares.dfy`, module `Shares`: the exact share and `toFixed(2)` as rounding to whole
  cents. Also the two sums of the summary panel, with lemmas relating them to the after
  total.
- `storage.dfy`, module `Storage`: the saved-state shape, the load normalisation by
  JavaScript truthiness, and the write/read round trip.
- `page.dfy`, module `Page`: class `Home`, holding the component state
  (`totalBefore`, `totalAfter`, `people`, `selected`, `amountChange`). Each handler is a
  method that applies the pure list function and states the complete new state.

Amounts are exact `real`s, not IEEE doubles. `toFixed(2)` rounds to the nearest cent,
with ties going to the larger magnitude and the sign put back. Line 211 adds up the
rounded shares, not the exact ones. The page never checks that the rows' amounts add up
to the before total, which is typed in its own box (line 105). So the model proves two
facts, each only under that condition. When the rows' amounts add up to the before
total, the exact shares add up to the after total. Under the same condition, the
displayed payable total is within half a cent per row of the after total. In general,
for a non-zero before total, the shares add up to the after total scaled by the amounts' total over the before total
(`SumSharesRatio`).

Points about the code that shape the model:

- The page has only the flat ratio split: one before total, one after total, and one
  ratio applied to every row.
- The loader has no guard around `JSON.parse` or `data.people` (app/page.js:24-25).
  Saved state that cannot be parsed, or that has no `people` array, throws when the
  page mounts.
- Editing a row's amount (line 181) writes the typed value unclamped. So "every amount is
  non-negative" is not an invariant of the page. Only the rows of the name that
  add-or-update touched are guaranteed non-negative afterwards.
- Saved state may hold duplicate names, and add-or-update then adjusts every duplicate.
  The handlers therefore state that they PRESERVE distinct names
  (`DistinctNames(old(people)) ==> DistinctNames(people)`); they do not assume it.

## Model

| member | source | states |
|---|---|---|
| People.ClampAtZero | app/page.js:59 | `Math.max(x, 0)`: the result is non-negative, at least `x`, and is either `x` or 0 |
| People.PersonCount | app/page.js:82 | the count never exceeds the list length, and is zero exactly when no row carries the name |
| People.PersonCountIsMultiplicity | app/page.js:82 | the count is the number of rows carrying the name: its multiplicity in the multiset of the rows' names |
| People.Names | app/page.js:82 | the rows' names, one per row, in order |
| People.HasNameIffListed | app/page.js:55-56 | `prev.find` on the name finds a row (`if (found)`) exactly when the name is among the rows' names |
| People.AdjustAmounts | app/page.js:57-61 | same length and names in order, paid flags kept; rows with the name get `max(amount + delta, 0)`, all other amounts unchanged |
| People.AddOrUpdate | app/page.js:54-65 | present name: length, order, names and paid flags kept; matching rows get `max(old + delta, 0)`, other rows untouched. Absent name: exactly one row `{name, max(delta, 0), unpaid}` appended after the unchanged list. Either way every row with the name ends up non-negative |
| People.RemoveAll | app/page.js:71 | a row is in the result iff it was in the list and does not carry the name; the length drops by the name's count |
| People.TogglePaid | app/page.js:75-79 | names and amounts unchanged in every row; `paid` is flipped exactly on the rows carrying the name |
| People.SetAmountAt | app/page.js:181 | names and paid flags unchanged; only row `index` gets the new amount; an index past the end changes nothing |
| People.DistinctIffCountAtMostOne | app/page.js:82 | names are pairwise distinct iff `getPersonCount(n) <= 1` for every `n` (both directions) |
| People.AddOrUpdateKeepsDistinct | app/page.js:55-64 | add-or-update keeps the names pairwise distinct |
| People.AddOrUpdateTouchesOneRow | app/page.js:55-61 | with distinct names and the name present at row `k`, only row `k` changes, to `max(old + delta, 0)`; every other row is identical |
| People.RemoveAllCount | app/page.js:71 | after removal the name's count is 0 and every other name's count is unchanged |
| People.RemoveAllConcat | app/page.js:71 | removal distributes over concatenation, so the remaining rows keep their original relative order |
| People.RemoveAllAbsent | app/page.js:71 | removing a name that no row carries returns the list unchanged |
| People.RemoveAllIdempotent | app/page.js:69-72 | removing the same name twice equals removing it once |
| People.RemoveAllKeepsDistinct | app/page.js:71 | removal keeps names pairwise distinct |
| People.TogglePaidTwice | app/page.js:74-80 | toggling the same name twice restores the original list |
| People.SetAmountAtRestores | app/page.js:181 | typing a row's old amount back into it restores the original list |
| People.EditsKeepDistinct | app/page.js:69-80 | toggling, removing and overwriting a row's amount (line 181) each keep names pairwise distinct |
| Shares.TotalDiscount | app/page.js:43 | the after total plus the discount is the before total; the discount is non-negative iff after <= before |
| Shares.Share | app/page.js:45-50 | zero when the before total is zero; otherwise `share * totalBefore == amount * totalAfter` |
| Shares.RoundCents | app/page.js:49 | `toFixed(2)` read back: a whole number of cents within half a cent of the input. For a non-negative input it is non-negative and the error lies in (-1/200, 1/200], so ties go up. For a negative input the error lies in [-1/200, 1/200), so ties go down. Either way ties go to the larger magnitude |
| Shares.DisplayedShare | app/page.js:45-50 | the shown share is `0.00` when the before total is zero. Otherwise it is a whole number of cents within half a cent of the exact share, with ties going to the larger magnitude (the same half-open bounds as `RoundCents`) |
| Shares.ShareLinear | app/page.js:47-48 | the share is linear in the amount (additive and homogeneous) |
| Shares.ShareBounds | app/page.js:47-48 | for a non-negative amount and `0 <= after <= before`, `0 <= share <= amount` |
| Shares.SumAmounts | app/page.js:208 | the purchase total of no rows is 0 |
| Shares.SumAmountsNonNegative | app/page.js:208 | with no negative amount, the purchase total is not negative |
| Shares.SumShares | app/page.js:211 | the exact sum of shares is 0 for no rows or for a zero before total |
| Shares.SumDisplayedShares | app/page.js:211 | the payable total (the sum of the displayed shares) is 0 for no rows or for a zero before total |
| Shares.SumSharesScales | app/page.js:211 | sum of exact shares times `totalBefore` equals sum of amounts times `totalAfter`; the sum is 0 when `totalBefore` is 0 |
| Shares.SumSharesRatio | app/page.js:208-211 | the sum of exact shares is `totalAfter * (sum of amounts) / totalBefore` |
| Shares.SharesSplitTheBill | app/page.js:205-211 | when the amounts add up to the before total, the exact shares add up to the after total, and the per-row discounts add up to `totalDiscount`. The converse holds when the after total is not zero (`SharesSplitOnlyIfWhole`) and fails when it is zero (`ConverseFailsWithZeroAfter`) |
| Shares.SharesSplitOnlyIfWhole | app/page.js:208-211 | the converse of `SharesSplitTheBill` for a non-zero after total: if the exact shares add up to the after total, the amounts add up to the before total |
| Shares.ConverseFailsWithZeroAfter | app/page.js:208-211 | the converse fails when the after total is 0: the single row `a: 1` with before 5 and after 0 has shares summing to 0, which is the after total, but its amounts sum to 1, not 5 |
| Shares.SumAmountsAppend | app/page.js:208 | appending a row adds exactly its amount to the purchase total |
| Shares.SumAmountsSameAmounts | app/page.js:208 | two lists with the same amounts in the same order have the same purchase total |
| Shares.SumAmountsSetAt | app/page.js:181 | overwriting row `index` changes the purchase total by the new amount minus the old one |
| Shares.AddOrUpdatePurchaseTotal | app/page.js:55-64 | a new name adds `max(delta, 0)` to the purchase total. With distinct names, a present name's row swaps its old amount for `max(old + delta, 0)` |
| Shares.TogglePaidKeepsTotals | app/page.js:74-80 | toggling paid flags leaves both the purchase total and the payable total unchanged |
| Shares.SumDisplayedSameAmounts | app/page.js:211 | two lists with the same amounts in the same order have the same payable total |
| Shares.DisplayedTotalClose | app/page.js:211 | the sum of rounded shares is within `n/200` of the sum of exact shares, for `n` rows |
| Shares.DisplayedTotalNearAfter | app/page.js:208-211 | the panel's payable total is 0 for a zero before total; when the amounts add up to the before total, it is within `n/200` of the after total |
| Storage.Truthy | app/page.js:27 | `!!v` is false exactly for a missing field, null, false, 0 and the empty string |
| Storage.Normalize | app/page.js:25-28 | same length; each row keeps its name and amount, and `paid` is the truthiness of the saved field (so missing, null, false, 0 and "" become false) |
| Storage.Save | app/page.js:37-40 | each row is written with its name, amount and boolean paid flag |
| Storage.LoadAfterSave | app/page.js:25-40 | loading what the page saved gives back the same rows |
| Storage.NormalizeIdempotent | app/page.js:25-28 | normalising the rows, saving them and normalising again gives the same result as normalising once |
| Page.Home.constructor | app/page.js:6-10 | initial state: totals 0, no rows, empty name, amount 0 |
| Page.Home.Load | app/page.js:22-32 | with saved state, the totals are restored and the rows become the normalised saved rows; with none, nothing changes; the input boxes are untouched |
| Page.Home.SetTotalBefore | app/page.js:105 | the before total becomes the typed value, or 0 for an empty box; nothing else changes |
| Page.Home.SetTotalAfter | app/page.js:114 | the after total becomes the typed value, or 0 for an empty box; nothing else changes |
| Page.Home.SetSelected | app/page.js:128 | the name box becomes the typed name; nothing else changes |
| Page.Home.SetAmountChange | app/page.js:140 | the amount box becomes the typed value, or 0 for an empty box; nothing else changes |
| Page.Home.HandleAddOrUpdate | app/page.js:52-67 | empty name or zero amount: nothing changes. Otherwise the rows become the add-or-update of the old rows and the amount box is reset to 0. Rows with the name are non-negative afterwards, and an absent name appends exactly one unpaid row. Distinct names are preserved; totals and name box are unchanged |
| Page.Home.HandleRemoveAllOfPerson | app/page.js:69-72 | empty name: no change. Otherwise the rows are the old rows without that name, and no remaining row carries it. Distinct names are preserved; nothing else changes |
| Page.Home.TogglePaidOf | app/page.js:74-80 | the rows become the toggled rows; the purchase total is unchanged; distinct names are preserved; nothing else changes |
| Page.Home.SetRowAmount | app/page.js:179-182 | only row `index`'s amount changes, and the purchase total moves by new minus old. An index past the end changes nothing. Distinct names are preserved; nothing else changes |
| Page.Home.ResetAll | app/page.js:84-91 | confirmed reset: both totals 0 and no rows; the input boxes keep their contents |
| Page.Home.Totals | app/page.js:203-213 | discount + after == before; purchased is the sum of amounts; payable is the sum of displayed shares. Payable is 0 when before is 0, and within `n/200` of the after total when the amounts add up to the before total |

## Left out

- Rendering: the React hooks, the JSX table, the name suggestion list and the styling (app/page.js:94-218). These are presentation. The per-row cell at line 185 shows `DisplayedShare`.
- Browser storage: `localStorage` reads, writes and `removeItem`, and `JSON.parse`/`JSON.stringify` (app/page.js:22-24, 36-41, 89). Saved state enters the model already parsed, as `Option<SavedState>`. The write side is modelled only as the row shape in `Storage.Save`.
- Malformed or partial saved state (unparsable text, a missing `people` array, non-numeric amounts, extra fields kept by the spread). The loader does not guard against these, and the model's saved rows always carry a name and a real amount.
- The `confirm` dialog in `ResetAll`. Only the confirmed branch is modelled; declining changes nothing.
- The `MutationObserver` and the service-worker registration (app/page.js:12-20). These are browser plumbing.
- Floating point: amounts, shares and sums are exact reals. NaN (from `Number` on non-numeric text), IEEE rounding of `/` and `*`, and the exponential notation `toFixed` uses for magnitudes of 1e21 and above are not modelled. The summary panel also shows the discount, the purchase total and the payable total through `toFixed(2)` (app/page.js:205, 208, 211). `Page.Home.Totals` returns them unrounded; `Shares.RoundCents` is the rounding the panel applies to each.
- Text-to-number parsing of the input boxes. An input arrives as `None` for an empty box or as `Some(value)` for its parsed number. The row amount cell receives the parsed number directly.
