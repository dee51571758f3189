# Expense splitter: a Dafny model

The expense splitter is a browser app for splitting a restaurant bill. A wizard takes
the user through five steps:

1. enter the people at the table;
2. enter the receipt's items with their prices in integer cents;
3. assign each item to the people who share it, equally or by a custom percentage split;
4. choose a tax (a rate or an exact amount) and a tip rate;
5. read each person's total.

The totals are computed from the bill state each time. Each item's price is split among
the people it is assigned to. Tax and tip are computed on the bill subtotal, then shared
in proportion to each person's item subtotal by the largest remainder method. Finished
bills can be saved to a history of at most fifty entries.

This project models that core:

- the pure calculations (equal split, proportional allocation, tax, tip, per-person totals,
  money formatting) as functions with lemmas;
- the two stores as classes whose methods replace the fields (the bill store and the
  history store);
- the wizard and the form logic of the people, items and assignment steps as classes and
  methods;
- each loop of the source as a method with invariants, proved equal to a specification
  function.

Modules follow the source files:

| module | file |
|---|---|
| `Common`, `Text` | shared helpers: sums, filters, `Math.round`, JavaScript `trim` |
| `Money` | `src/lib/types/money.ts` |
| `Split` | `src/lib/calculations/split.ts` |
| `Allocate` | `src/lib/calculations/allocate.ts` |
| `Tax`, `Tip` | `src/lib/calculations/tax.ts`, `src/lib/calculations/tip.ts` |
| `Bill` | `src/lib/types/bill.ts` |
| `PersonTotals` | `src/lib/calculations/personTotals.ts` |
| `BillStore` | `src/stores/billStore.ts` |
| `HistoryStore` | `src/stores/historyStore.ts` |
| `AssignmentStep`, `PeopleStep`, `ItemsStep`, `BillWizard` | the components of the same names |

Money is an unbounded integer number of cents, and rates are exact reals. `Math.floor` and
`Math.round` are written out as exact floor and round-half-up. JavaScript's `%`, which
truncates toward zero, is written out too (`Split.JsRem`).

Where the source throws (`splitEqually` with no people, `allocateProportionally` with no
subtotals or a zero total), the model returns a `Failure`. `computePersonTotals` passes
that failure on.

## Model

| member | source | states |
|---|---|---|
| `Common.Round` | src/lib/calculations/tax.ts:37 | `Math.round` on an exact value: the integer within half a unit, halves rounded up |
| `Common.Filter` | src/stores/billStore.ts:69 | `Array.filter`: no longer than the input, holding exactly the input's elements that pass the test |
| `Common.KeptPositions` | src/stores/billStore.ts:69 | the positions of the passing elements, strictly increasing, each one valid and passing |
| `Common.KeptPositionsComplete` | src/stores/billStore.ts:69 | every passing position is among the kept positions |
| `Common.FilterKeptInOrder` | src/stores/billStore.ts:69 | the filter result is the passing elements in their original order, one for each passing position |
| `Common.KeptInOrderIsFilter` | src/stores/billStore.ts:69 | any list that is the passing elements in order is the filter result, so that description defines `filter` |
| `Common.FilterCounts` | src/stores/billStore.ts:69 | the filter keeps every copy of a passing element and none of a failing one |
| `Common.FilterKeepsAll` | src/stores/billStore.ts:69 | when everything passes, the filter returns its input |
| `Common.FilterOneOut` | src/stores/billStore.ts:75 | when exactly one position fails, the result is one shorter |
| `Common.FilterAppend` | src/stores/billStore.ts:69 | filtering a concatenation is concatenating the filtered halves |
| `Common.RateBounds` | src/lib/calculations/tax.ts:37 | a non-negative amount times a rate in `[0, 1]` is between 0 and the amount |
| `Text.Trim` | src/stores/billStore.ts:52-53 | `trim()`: the slice left after the leading and trailing whitespace; it is empty or starts and ends with a non-blank character |
| `Text.IsBlank` | src/stores/billStore.ts:52 | the characters `trim()` removes: the ECMAScript white space and line terminators |
| `Text.TrimIdempotent` | src/stores/billStore.ts:52 | trimming a trimmed name changes nothing |
| `Text.TrimEmptyIffBlank` | src/stores/billStore.ts:53 | the trimmed name is empty exactly when the name is all whitespace |
| `Money.Decimal` | src/components/PeopleStep.tsx:56 | the decimal numeral of a count: all digits, no leading zero |
| `Money.DecimalRoundTrip` | src/components/PeopleStep.tsx:56 | reading the numeral back gives the number |
| `Money.FormatCurrency` | src/lib/types/money.ts:52-54 | a dollar sign, the whole dollars, a point and exactly two cent digits that are `cents % 100` |
| `Money.FormatCurrencyRoundTrip` | src/lib/types/money.ts:52-54 | every amount, of either sign, reads back exactly from its display |
| `Money.ParseParts` | src/lib/types/money.ts:53 | sign, dollars and two cent digits read back as the signed number of cents |
| `Money.FormatCurrencyExamples` | src/lib/types/money.ts:48-50 | 1250 shows as `$12.50` and 0 as `$0.00` |
| `Money.FormatCurrencyCentExamples` | src/lib/types/money.test.ts:57-68 | 1 shows as `$0.01` and 999 as `$9.99` |
| `Money.FormatCurrencyHundredDollars` | src/lib/types/money.test.ts:61-63 | 10000 shows as `$100.00` |
| `Money.FormatCurrencyNegative` | src/lib/types/money.ts:53 | -1250 shows as `$-12.50` |
| `Split.JsRem` | src/lib/calculations/split.ts:26 | JavaScript `%`: the remainder takes the sign of the dividend |
| `Split.Steps` | src/lib/calculations/split.ts:28-33 | the first `extra` shares are one more than the others |
| `Split.StepsSum` | src/lib/calculations/split.ts:28-33 | the shares add up to `n * base` plus the number of extra cents handed out |
| `Split.EqualShares` | src/lib/calculations/split.ts:25-33 | the source's shares for a positive count: one per person, each the floor quotient or one more |
| `Split.SplitEqually` | src/lib/calculations/split.ts:20-36 | fails for a non-positive count; otherwise one share per person, adding up to a non-negative total |
| `Split.EqualSharesSum` | src/lib/calculations/split.ts:17 | for a total of zero or more, the shares add up to the total |
| `Split.EqualSharesAt` | src/lib/calculations/split.ts:25-31 | share `i` is the floor quotient, plus one for the first `total % n` people |
| `Split.EqualSharesShape` | src/lib/calculations/split.ts:29-33 | the shares never increase along the list |
| `Split.SplitExamples` | src/lib/calculations/split.test.ts:6-31 | `1000` over 3 is `[334, 333, 333]`, `1001` over 2 is `[501, 500]`, and `1200` over 3 is `[400, 400, 400]` |
| `Split.NegativeTotalLosesCents` | src/lib/calculations/split.ts:25-32 | as written, `-1000` split three ways is `[-334, -334, -334]`, which adds up to `-1002` |
| `Split.EqualSharesEuclid` | src/lib/calculations/split.ts:25-32 | the corrected split adds up to any total, and its shares differ by at most one, larger first |
| `Split.EuclidAgreesOnNonNegative` | src/lib/calculations/split.ts:25-32 | the corrected split and the source's split agree on every non-negative total |
| `Allocate.FracNum` | src/lib/calculations/allocate.ts:58-61 | the remainder, `exact - floor(exact)`, scaled to an integer below the total |
| `Allocate.ExactQuotient` | src/lib/calculations/allocate.ts:48-51 | the real quotient is its floor plus the fractional part, and lies in `[floor, floor + 1)` |
| `Allocate.Floors` | src/lib/calculations/allocate.ts:51 | each floored share is the floor of `subtotal * amount / total` |
| `Allocate.Remainders` | src/lib/calculations/allocate.ts:58-61 | each remainder, scaled, is at least 0 and below the absolute value of the total |
| `Allocate.FloorsAndRemainders` | src/lib/calculations/allocate.ts:48-61 | the floors and remainders together add back up to the amount |
| `Allocate.LeftoverBounds` | src/lib/calculations/allocate.ts:54-55 | the cents left after flooring are at least 0 and fewer than the number of people |
| `Allocate.Insert` | src/lib/calculations/allocate.ts:64 | inserting an index into the ranking keeps every element |
| `Allocate.Beats` | src/lib/calculations/allocate.ts:64 | the sort's order: a larger remainder first, and of equal remainders the earlier position |
| `Allocate.RankedCons` | src/lib/calculations/allocate.ts:64 | an index that beats all of a ranked list can go in front of it |
| `Allocate.HeadBeatsInserted` | src/lib/calculations/allocate.ts:64 | the head of a ranked list still beats everything after an insertion into its tail, when it beats the inserted index |
| `Allocate.SortByRemainder` | src/lib/calculations/allocate.ts:64 | the sort is a permutation of its input |
| `Allocate.Order` | src/lib/calculations/allocate.ts:58-64 | the sorted remainder list is a permutation of the indices |
| `Allocate.InsertRanked` | src/lib/calculations/allocate.ts:64 | insertion keeps the list ranked: larger remainder first, ties in index order (a stable sort) |
| `Allocate.SortRanked` | src/lib/calculations/allocate.ts:64 | the sort of distinct indices is ranked |
| `Allocate.OrderFacts` | src/lib/calculations/allocate.ts:58-64 | the order is ranked and holds each index exactly once |
| `Allocate.RankedPrefix` | src/lib/calculations/allocate.ts:64-69 | everyone among the first `m` ranks beats everyone after them |
| `Allocate.Leftover` | src/lib/calculations/allocate.ts:54-55 | the number of extra cents is in `[0, n)` |
| `Allocate.Picked` | src/lib/calculations/allocate.ts:67-69 | the people who get a cent are distinct valid indices, as many as there are cents left over |
| `Allocate.Shares` | src/lib/calculations/allocate.ts:67-69 | each share is its floor plus one exactly when its index was picked |
| `Allocate.BonusSum` | src/lib/calculations/allocate.ts:67-69 | picking distinct people hands out exactly as many cents as were picked |
| `Allocate.Allocation` | src/lib/calculations/allocate.ts:33-72 | fails with `EmptySubtotals` exactly when there are no subtotals, and with `ZeroTotal` exactly when they add up to zero; otherwise one share per subtotal |
| `Allocate.AddLeftoverCents` | src/lib/calculations/allocate.ts:67-69 | the loop over the array adds one cent at each of the first `count` ranked positions |
| `Allocate.AllocateProportionally` | src/lib/calculations/allocate.ts:33-72 | the method computes exactly the allocation function |
| `Allocate.AllocationSum` | src/lib/calculations/allocate.ts:30 | the shares add up to the amount: no cent is lost or created |
| `Allocate.ExactShare` | src/lib/calculations/allocate.ts:48 | `(subtotal / total) * amount` is the exact quotient `subtotal * amount / total` |
| `Allocate.SingleSubtotal` | src/lib/calculations/allocate.ts:33-72 | one person gets the whole amount |
| `Allocate.AllocationAt` | src/lib/calculations/allocate.ts:51-69 | each share is its floor or one more |
| `Allocate.AllocationNearExact` | src/lib/calculations/allocate.ts:7 | each share is within one cent of the exact proportional share |
| `Allocate.AllocationLargestRemainders` | src/lib/calculations/allocate.ts:15 | a person who got the extra cent had a larger remainder than one who did not, or an equal one and an earlier position |
| `Allocate.RemaindersAreFractions` | src/lib/calculations/allocate.ts:58-61 | the scaled remainder, divided by the total, is the fractional part of the exact share |
| `AllocateExamples.EqualSubtotals` | src/lib/calculations/allocate.ts:19-21 | 300 over three equal subtotals is 100 each |
| `AllocateExamples.OrderFirst` | src/lib/calculations/allocate.ts:64 | the index that beats every other one is ranked first |
| `AllocateExamples.UnequalSubtotals` | src/lib/calculations/allocate.ts:23-25 | 100 over 5000/3000/2000 is 50/30/20, among others |
| `AllocateExamples.ExactFourWay` | src/lib/calculations/tip.test.ts:57-68 | 1800 over 4500/3000/1500/1000 is 810/540/270/180 |
| `AllocateExamples.SinglePerson` | src/lib/calculations/allocate.test.ts:31-34 | 500 over one subtotal is 500 |
| `AllocateExamples.LargestRemainderGetsTheCent` | src/lib/calculations/allocate.test.ts:22-29 | 100 over 3333/3333/3334 is 33/33/34 |
| `AllocateExamples.TieGoesToEarlierPosition` | src/lib/calculations/allocate.ts:58-69 | 825 over 4000/3000/2000/1000 is 330/248/165/82: of two equal remainders, the earlier person gets the cent (values derived from the sort and the leftover loop) |
| `AllocateExamples.Failures` | src/lib/calculations/allocate.ts:37-45 | no subtotals, and all-zero subtotals, fail with their errors |
| `Tax.CalculateTax` | src/lib/calculations/tax.ts:35-41 | a rate gives the rounded product, and an exact amount is returned as given |
| `Tax.RateTaxNearest` | src/lib/calculations/tax.ts:17 | the rate tax is within half a cent of the exact product |
| `Tax.RateTaxBounds` | src/lib/calculations/tax.ts:35-41 | a rate between 0 and 1 gives a tax between 0 and the subtotal |
| `Tax.ZeroSubtotalNoTax` | src/lib/calculations/tax.ts:37 | no tax at any rate on an empty subtotal |
| `Tax.CalculateTaxExamples` | src/lib/calculations/tax.test.ts:6-35 | 8% of 10000 is 800, 8.75% of 1250 rounds to 109, and an exact 825 stays 825 |
| `Tax.DistributeTax` | src/lib/calculations/tax.ts:66-71 | the tax is shared by the proportional allocation |
| `Tax.DistributeTaxSum` | src/lib/calculations/tax.ts:48 | the tax shares add up to the tax |
| `Tax.DistributeTaxExamples` | src/lib/calculations/allocate.ts:58-69 | 300 over three equal subtotals is 100 each, and 825 over 4000/3000/2000/1000 is 330/248/165/82 (values derived from the allocation) |
| `Tip.CalculateTip` | src/lib/calculations/tip.ts:26-28 | the tip is within half a cent of `subtotal * rate` |
| `Tip.TipBounds` | src/lib/calculations/tip.ts:26-28 | no tip at a zero rate or on a zero subtotal, and at most the subtotal for a rate up to 1 |
| `Tip.TipNonNegative` | src/lib/calculations/tip.ts:26-28 | a non-negative rate on a non-negative subtotal gives a non-negative tip |
| `Tip.CalculateTipExamples` | src/lib/calculations/tip.test.ts:6-40 | 18% of 10000 is 1800, 18% of 3333 rounds to 600, 22% of 8750 is 1925, and a zero rate or subtotal gives 0 |
| `Tip.DistributeTip` | src/lib/calculations/tip.ts:56-61 | the tip is shared by the proportional allocation |
| `Tip.DistributeTipSum` | src/lib/calculations/tip.ts:36 | the tip shares add up to the tip |
| `Tip.DistributeTipExamples` | src/lib/calculations/tip.test.ts:50-68 | 1000 over 5000/3000/2000 is 500/300/200, and 1800 over 4500/3000/1500/1000 is 810/540/270/180 |
| `Bill.ItemsTotal` | src/lib/calculations/personTotals.ts:116-119 | the `reduce` over the prices |
| `Bill.ItemsTotalIsSum` | src/lib/calculations/personTotals.ts:116-119 | the `reduce` over the prices is the sum of the prices |
| `Bill.ItemsTotalAppend` | src/lib/calculations/personTotals.ts:116-119 | appending an item adds its price |
| `Bill.ItemsTotalNonNegative` | src/lib/calculations/personTotals.ts:116-119 | non-negative prices give a non-negative subtotal |
| `Bill.ItemIds` | src/stores/billStore.ts:108 | the ids of the items, one per item, in order |
| `PersonTotals.EntryIds` | src/lib/calculations/personTotals.ts:81-83 | the person ids of a custom split, in order |
| `PersonTotals.Amounts` | src/lib/calculations/personTotals.ts:81-84 | the amounts of a custom split, in order |
| `PersonTotals.CustomShare` | src/lib/calculations/personTotals.ts:79-84 | the first custom entry for the person gives the share, and no entry gives 0 |
| `PersonTotals.ShareFor` | src/lib/calculations/personTotals.ts:76-90 | the custom amount with a custom split, else the person's position in `splitEqually` |
| `PersonTotals.Detail` | src/lib/calculations/personTotals.ts:92-99 | the detail pushed for an assigned item |
| `PersonTotals.ItemDetails` | src/lib/calculations/personTotals.ts:70-99 | the details of the assigned items, in item order |
| `PersonTotals.ItemDetailOf` | src/lib/calculations/personTotals.ts:76-99 | the method builds exactly the item's detail, with the person's share |
| `PersonTotals.ItemDetailsExactlyAssigned` | src/lib/calculations/personTotals.ts:70-99 | a person's details are exactly the details of the items assigned to them |
| `PersonTotals.SharesSumAppend` | src/lib/calculations/personTotals.ts:101 | the subtotal of two runs of details is the sum of their subtotals |
| `PersonTotals.ItemDetailsAppend` | src/lib/calculations/personTotals.ts:70-99 | one more item adds its detail only when it is assigned to the person |
| `PersonTotals.SubtotalAppend` | src/lib/calculations/personTotals.ts:101 | one more item adds its price share only when it is assigned to the person |
| `PersonTotals.Contribution` | src/lib/calculations/personTotals.ts:70-101 | what one item adds to the person's subtotal |
| `PersonTotals.Breakdown` | src/lib/calculations/personTotals.ts:104-112 | the breakdown before tax and tip |
| `PersonTotals.PersonSubtotals` | src/lib/calculations/personTotals.ts:128 | one subtotal per person |
| `PersonTotals.HasAnySubtotal` | src/lib/calculations/personTotals.ts:129 | someone has a positive subtotal |
| `PersonTotals.TotalTax` | src/lib/calculations/personTotals.ts:121-123 | the tax, 0 without a tax input |
| `PersonTotals.Distribution` | src/lib/calculations/personTotals.ts:129-144 | with a positive subtotal and a positive amount, exactly the proportional allocation; otherwise one zero per person |
| `PersonTotals.DistributionFailsIff` | src/lib/calculations/personTotals.ts:129-144 | the distribution fails exactly when someone has a positive subtotal, the subtotals add up to zero and the amount is positive, and then with the zero-total error |
| `PersonTotals.WithShares` | src/lib/calculations/personTotals.ts:147-151 | a breakdown with its shares applied |
| `PersonTotals.TotalsOf` | src/lib/calculations/personTotals.ts:153-156 | one total per breakdown |
| `PersonTotals.PersonBreakdownOf` | src/lib/calculations/personTotals.ts:65-113 | the item loop builds exactly the person's breakdown |
| `PersonTotals.DistributeOrZeros` | src/lib/calculations/personTotals.ts:134-144 | the branch computes exactly the distribution function |
| `PersonTotals.ApplyShares` | src/lib/calculations/personTotals.ts:147-151 | each breakdown gets its tax and tip share, and its total is the subtotal plus both |
| `PersonTotals.Summary` | src/lib/calculations/personTotals.ts:57-165 | on success, one breakdown per person in order, each for that person and totalling its subtotal, tax share and tip share, and the bill subtotal is the sum of the prices |
| `PersonTotals.ComputePersonTotals` | src/lib/calculations/personTotals.ts:57-165 | the method computes exactly the summary function, including its failure |
| `PersonTotals.ItemColumn` | src/lib/calculations/personTotals.ts:70-101 | what each person pays for one item |
| `PersonTotals.ItemColumnSum` | src/lib/calculations/personTotals.ts:76-90 | an item fully covered by its people is paid to the cent, whether split equally or by a custom split |
| `PersonTotals.SubtotalsSumToBill` | src/lib/calculations/personTotals.ts:65-119 | when every item is fully assigned, the personal subtotals add up to the bill subtotal |
| `PersonTotals.DistributionSum` | src/lib/calculations/personTotals.ts:134-144 | a non-negative tax or tip is shared without loss when it is zero or the subtotals add up to more than zero |
| `PersonTotals.SummaryFailsIff` | src/lib/calculations/personTotals.ts:129-144 | the summary fails exactly when someone has a positive subtotal, the subtotals cancel out and there is tax or tip; the error is the zero-total one |
| `PersonTotals.GrandTotalDecomposes` | src/lib/calculations/personTotals.ts:147-156 | the grand total is the subtotals plus the tax shares plus the tip shares |
| `PersonTotals.GrandTotalEqualsBill` | src/lib/calculations/personTotals.ts:57-165 | a fully assigned bill with non-negative tax and tip, and either a positive subtotal or no tax, succeeds, and its grand total is the bill subtotal plus tax plus tip |
| `PersonTotalsExamples.MixedDetails` | src/lib/calculations/personTotals.ts:70-74 | an unassigned item is in nobody's details |
| `PersonTotalsExamples.MixedBillTotals` | src/lib/calculations/personTotals.ts:116-125 | the bill subtotal, tax and tip still count the unassigned item |
| `PersonTotalsExamples.MixedDistributions` | src/lib/calculations/personTotals.ts:134-144 | the only person with a subtotal gets all the tax and all the tip |
| `PersonTotalsExamples.MixedAssignedAndUnassigned` | src/lib/calculations/personTotals.ts:57-165 | the whole summary of that bill: the person pays 1450 of a 1950 bill |
| `PersonTotalsExamples.ExactTaxWithoutSubtotalsIsDropped` | src/lib/calculations/personTotals.ts:134-138 | an exact tax with no positive subtotal is reported but paid by nobody |
| `BillStore.Initial` | src/stores/billStore.ts:34-40 | no people, items or assignments, no tax, an 18% tip |
| `BillStore.AddPersonTo` | src/stores/billStore.ts:51-64 | a blank name changes nothing; otherwise the trimmed person is appended and nothing else changes |
| `BillStore.AddPersonKeepsConsistent` | src/stores/billStore.ts:51-64 | adding a person keeps every assignment pointing at listed items and people |
| `BillStore.Without` | src/stores/billStore.ts:75 | the assignment's people, less the removed person, with nothing else changed |
| `BillStore.WithoutKeepsOrder` | src/stores/billStore.ts:75 | the people left are the others in their original order, each as often as before |
| `BillStore.WithoutDistinct` | src/stores/billStore.ts:75 | from a list without repeats, exactly one person goes |
| `BillStore.WithoutAbsent` | src/stores/billStore.ts:75 | removing a person who is not listed changes nothing |
| `BillStore.PruneAssignments` | src/stores/billStore.ts:72-83 | each assignment loses the person, and one left with nobody is deleted |
| `BillStore.RemovePersonFrom` | src/stores/billStore.ts:66-87 | the people are the others in their original order; the assignments are exactly the pruned ones; nothing else changes |
| `BillStore.RemovePersonKeepsConsistent` | src/stores/billStore.ts:66-87 | removing a person keeps the bill consistent |
| `BillStore.RemovePersonIdempotent` | src/stores/billStore.ts:66-87 | removing a person twice is removing them once |
| `BillStore.PruneAbsentPerson` | src/stores/billStore.ts:72-83 | pruning a person nobody is assigned to changes nothing |
| `BillStore.FilterAppendedPerson` | src/stores/billStore.ts:69 | filtering out a fresh person after appending them gives the people back |
| `BillStore.AddThenRemovePerson` | src/stores/billStore.ts:51-87 | adding a person with a fresh id and removing them restores the bill |
| `BillStore.AddItemTo` | src/stores/billStore.ts:89-103 | a blank name or a negative price changes nothing; otherwise the trimmed item is appended and nothing else changes |
| `BillStore.AddItemKeepsConsistent` | src/stores/billStore.ts:89-103 | adding an item keeps the bill consistent |
| `BillStore.RemoveItemFrom` | src/stores/billStore.ts:105-116 | the items are the other items in their original order; only the item's assignment is deleted; nothing else changes |
| `BillStore.RemoveItemKeepsConsistent` | src/stores/billStore.ts:105-116 | removing an item keeps the bill consistent |
| `BillStore.FilterAppendedItem` | src/stores/billStore.ts:108 | filtering out a fresh item id, with or without the item appended under it, gives the items back |
| `BillStore.AddThenRemoveItem` | src/stores/billStore.ts:89-116 | adding an item with a fresh id and removing it restores the bill |
| `BillStore.AssignItemIn` | src/stores/billStore.ts:118-135 | no people deletes the assignment; otherwise it becomes exactly those people without a custom split, and other items are untouched |
| `BillStore.AssignItemKeepsConsistent` | src/stores/billStore.ts:118-135 | assigning a listed item to listed people keeps the bill consistent |
| `BillStore.SetCustomSplitIn` | src/stores/billStore.ts:137-153 | only an existing assignment gets the custom split |
| `BillStore.ClearCustomSplitIn` | src/stores/billStore.ts:155-171 | an existing assignment keeps its item and people and loses its custom split |
| `BillStore.ClearUndoesSetCustomSplit` | src/stores/billStore.ts:137-171 | clearing a custom split undoes setting one |
| `BillStore.CustomSplitKeepsConsistent` | src/stores/billStore.ts:137-171 | neither custom-split action breaks consistency |
| `BillStore.ClampTipRate` | src/stores/billStore.ts:177-181 | the rate is clamped into `[0, 1]`, and a rate already there is kept |
| `BillStore.ClampTipRateExamples` | src/stores/billStore.ts:179 | 1.5 becomes 1, -0.1 becomes 0, and 0.18 stays |
| `BillStore.Store.constructor` | src/stores/billStore.ts:49 | a new store holds the initial bill |
| `BillStore.Store.AddPerson` | src/stores/billStore.ts:51-64 | the new bill is the old one with the person added |
| `BillStore.Store.RemovePerson` | src/stores/billStore.ts:66-87 | the key loop leaves exactly the pruned bill |
| `BillStore.Store.AddItem` | src/stores/billStore.ts:89-103 | the new bill is the old one with the item added |
| `BillStore.Store.RemoveItem` | src/stores/billStore.ts:105-116 | the new bill is the old one with the item removed |
| `BillStore.Store.AssignItem` | src/stores/billStore.ts:118-135 | the new bill is the old one with the assignment changed |
| `BillStore.Store.SetCustomSplit` | src/stores/billStore.ts:137-153 | the new bill is the old one with the custom split set |
| `BillStore.Store.ClearCustomSplit` | src/stores/billStore.ts:155-171 | the new bill is the old one with the custom split cleared |
| `BillStore.Store.SetTaxInput` | src/stores/billStore.ts:173-175 | only the tax input changes |
| `BillStore.Store.SetTipRate` | src/stores/billStore.ts:177-181 | only the tip rate changes, to the clamped rate |
| `BillStore.Store.Reset` | src/stores/billStore.ts:183-185 | the store holds the initial bill again |
| `HistoryStore.SaveTo` | src/stores/historyStore.ts:46-60 | the saved bill comes first, then the old list, cut at fifty |
| `HistoryStore.DeleteFrom` | src/stores/historyStore.ts:62-66 | the bills without the id, in their original order |
| `HistoryStore.FindBill` | src/stores/historyStore.ts:72-74 | none exactly when no bill has the id; otherwise the first bill with it |
| `HistoryStore.Reversed` | src/stores/historyStore.ts:58 | the saves in newest-first order |
| `HistoryStore.FindAfterSave` | src/stores/historyStore.ts:46-74 | a bill just saved is found by its id |
| `HistoryStore.FindAfterDelete` | src/stores/historyStore.ts:62-74 | a deleted id is not found |
| `HistoryStore.DeleteUnknownId` | src/stores/historyStore.ts:62-66 | deleting an id nobody has changes nothing |
| `HistoryStore.SaveAllKeepsNewest` | src/stores/historyStore.ts:35-60 | after any run of saves the list is the newest fifty, newest first |
| `HistoryStore.HistoryBounded` | src/stores/historyStore.ts:35 | the history never holds more than fifty bills |
| `HistoryStore.FiftyOneSaves` | src/stores/historyStore.ts:58 | the 51st save pushes the first one out |
| `HistoryStore.History.constructor` | src/stores/historyStore.ts:27-29 | a new history is empty |
| `HistoryStore.History.SaveBill` | src/stores/historyStore.ts:46-60 | the new list is the old one with the bill saved |
| `HistoryStore.History.DeleteBill` | src/stores/historyStore.ts:62-66 | the new list is the old one with the id deleted |
| `HistoryStore.History.GetBillById` | src/stores/historyStore.ts:72-74 | none exactly when no bill has the id; otherwise the first bill with it |
| `HistoryStore.History.ClearHistory` | src/stores/historyStore.ts:68-70 | the list is empty |
| `AssignmentStep.CurrentPersonIds` | src/components/AssignmentStep.tsx:15-16 | the item's people, or none without an assignment |
| `AssignmentStep.Toggled` | src/components/AssignmentStep.tsx:16-25 | the person ends up in the list exactly when they were not in it; removing keeps the others in their order, and adding appends |
| `AssignmentStep.ToggledRemovesOne` | src/components/AssignmentStep.tsx:19-21 | from a list without repeats, removing takes out exactly one entry |
| `AssignmentStep.TogglePersonOnItem` | src/components/AssignmentStep.tsx:14-28 | only the item's assignment changes: it holds exactly the toggled list, and it is deleted when nobody is left; people, items, tax and tip stay |
| `AssignmentStep.ToggleTwice` | src/components/AssignmentStep.tsx:16-25 | toggling someone in and out again restores the list |
| `AssignmentStep.ToggleOnItemTwice` | src/components/AssignmentStep.tsx:14-28 | toggling a person who is not on the item twice restores the bill, when the item has no custom split and no assignment left empty |
| `AssignmentStep.SomeoneAssigned` | src/components/AssignmentStep.tsx:250-259 | some assignment names at least one person |
| `AssignmentStep.CanProceedFromAssignment` | src/components/AssignmentStep.tsx:250-259 | the key loop answers yes exactly when some assignment names someone |
| `AssignmentStep.InitialShares` | src/components/AssignmentStep.tsx:152-160 | one starting percentage per person |
| `AssignmentStep.InitialPercentages` | src/components/AssignmentStep.tsx:156-160 | the loop builds exactly the starting percentages |
| `AssignmentStep.InitialArithmetic` | src/components/AssignmentStep.tsx:153-154 | the equal percentage and what is left over are each at most 100 |
| `AssignmentStep.InitialSharesValid` | src/components/AssignmentStep.tsx:152-160 | the starting percentages add up to 100, and the first is the largest |
| `AssignmentStep.InitialSharesExamples` | src/components/AssignmentStep.tsx:152-160 | two people start at 50/50 and three at 34/33/33 |
| `AssignmentStep.ClampPercentage` | src/components/AssignmentStep.tsx:165-170 | not a number gives 0; otherwise the input is clamped into `[0, 100]` |
| `AssignmentStep.EditPercentage` | src/components/AssignmentStep.tsx:164-171 | only the edited person's percentage changes |
| `AssignmentStep.RoundedShare` | src/components/AssignmentStep.tsx:183 | the amount is within half a cent of `price * percentage / 100` |
| `AssignmentStep.RoundedSplit` | src/components/AssignmentStep.tsx:181-185 | one rounded entry per person, in order |
| `AssignmentStep.FirstMaxIndex` | src/components/AssignmentStep.tsx:193-197 | the first position with the largest percentage |
| `AssignmentStep.SavedSplit` | src/components/AssignmentStep.tsx:174-203 | there is a split to save exactly when the percentages add up to 100 |
| `AssignmentStep.HandleSave` | src/components/AssignmentStep.tsx:177-203 | the method computes exactly the saved-split function |
| `AssignmentStep.SavedSplitSum` | src/components/AssignmentStep.tsx:187-200 | the saved amounts add up to the price, and everyone except the first largest share gets the rounded amount |
| `AssignmentStep.SavedSplitCovers` | src/components/AssignmentStep.tsx:177-203 | a saved split covers its item, so the person totals pay the item to the cent |
| `AssignmentStep.SavedSplitExamples` | src/components/AssignmentStep.tsx:181-202 | 1000 at 33/33/34 saves 330/330/340 |
| `AssignmentStep.SavedSplitCorrectionExample` | src/components/AssignmentStep.test.tsx:96-119 | 1001 at 33/33/34 puts the odd cent on the 34% share |
| `AssignmentStep.SavedSplitRejectsExamples` | src/components/AssignmentStep.test.tsx:121-139 | percentages adding up to 99 or 101 save nothing |
| `PeopleStep.CanProceedFromPeople` | src/components/PeopleStep.tsx:63-65 | at least two people |
| `PeopleStep.CanProceedFromPeopleExamples` | src/components/PeopleStep.tsx:63-65 | zero or one person closes the gate, and two or three open it |
| `PeopleStep.StatusMessage` | src/components/PeopleStep.tsx:54-56 | the three status lines, for none, one, and two or more people |
| `PeopleStep.StatusMessageMatchesGate` | src/components/PeopleStep.tsx:54-65 | the line reports a count exactly when the gate is open, and the count it shows is the number of people |
| `PeopleStep.PeopleForm.constructor` | src/components/PeopleStep.tsx:6 | the name starts empty |
| `PeopleStep.PeopleForm.SetName` | src/components/PeopleStep.tsx:6 | typing replaces the name |
| `PeopleStep.PeopleForm.HandleSubmit` | src/components/PeopleStep.tsx:10-16 | a blank name changes nothing; otherwise the store adds the trimmed name and the input is cleared |
| `PeopleStep.SubmitAddsTrimmedPerson` | src/components/PeopleStep.tsx:12-14 | trimming before the store trims again changes nothing, and the person is always added |
| `ItemsStep.CanProceedFromItems` | src/components/ItemsStep.tsx:87-89 | at least one item |
| `ItemsStep.DisplayedTotal` | src/components/ItemsStep.tsx:78-82 | the total line is shown exactly when the gate to the next step is open |
| `ItemsStep.DisplayedTotalIsSum` | src/components/ItemsStep.tsx:29 | the total shown reads back as the sum of the prices |
| `ItemsStep.Accepts` | src/components/ItemsStep.tsx:18 | a non-blank name and a price that is a positive number |
| `ItemsStep.PriceInCents` | src/components/ItemsStep.tsx:21 | the cents are within half a cent of `price * 100` |
| `ItemsStep.ItemsForm.constructor` | src/components/ItemsStep.tsx:7-8 | both inputs start empty |
| `ItemsStep.ItemsForm.HandleSubmit` | src/components/ItemsStep.tsx:12-26 | a blank name, or a price that is not a positive number, changes nothing; otherwise the store adds the item and both inputs are cleared |
| `ItemsStep.AcceptedSubmitAddsItem` | src/components/ItemsStep.tsx:18-23 | whatever the form accepts, the store adds, with a non-negative price |
| `ItemsStep.PriceInCentsExamples` | src/components/ItemsStep.tsx:21 | 12.5 dollars are 1250 cents and 0.01 dollars one cent, the values src/lib/types/money.test.ts:5-15 checks for the same rounding in `toCents` |
| `BillWizard.StepIndex` | src/components/BillWizard.tsx:13 | the position of the step in `STEPS`, which is unique |
| `BillWizard.CanProceed` | src/components/BillWizard.tsx:38-44 | the gate table: at least two people, at least one item, someone assigned, and open at tax and results |
| `BillWizard.Gate` | src/components/BillWizard.tsx:38-44 | the gate of the step shown, computed by the steps' own tests |
| `BillWizard.Next` | src/components/BillWizard.tsx:62-69 | the step one position further on; the last step stays |
| `BillWizard.Back` | src/components/BillWizard.tsx:71-77 | the step one position back; the first step stays |
| `BillWizard.BackUndoesNext` | src/components/BillWizard.tsx:62-77 | Back undoes Next, and Next undoes Back, away from the ends |
| `BillWizard.ForwardFromStart` | src/components/BillWizard.tsx:62-69 | going forward from the first step visits every step in order and stops at the last |
| `BillWizard.HasAssignments` | src/components/BillWizard.tsx:48-51 | some listed item has an assignment with people |
| `BillWizard.OpeningStep` | src/components/BillWizard.tsx:47-60 | the opening jump never reaches the results |
| `BillWizard.OpeningStepPassesGates` | src/components/BillWizard.tsx:38-60 | the jump never passes a closed gate |
| `BillWizard.OpeningStepStopsAtClosedGate` | src/components/BillWizard.tsx:38-60 | short of the tax step, the jump stops at the first closed gate, when every assignment is for a listed item |
| `BillWizard.Wizard.constructor` | src/components/BillWizard.tsx:31-32 | the wizard opens on the people step, moving forward |
| `BillWizard.Wizard.Open` | src/components/BillWizard.tsx:47-60 | the item loop and the branches land on exactly the opening step |
| `BillWizard.Wizard.HandleNext` | src/components/BillWizard.tsx:62-69 | nothing happens with a closed gate or on the last step; otherwise one step forward, with a forward slide |
| `BillWizard.Wizard.HandleBack` | src/components/BillWizard.tsx:71-77 | nothing happens on the first step; otherwise one step back, with a backward slide |

## Left out

- Money.FormatCurrency: the source prints `(cents / 100).toFixed(2)` on a double (src/lib/types/money.ts:52-54). The model formats the exact integer, so it agrees with the source only while the amount is exactly representable, below about 2^53 cents; from 1e21 dollars on, `toFixed` switches to exponent notation, which the model does not reproduce.
- `toCents` and `toDollars` (src/lib/types/money.ts) do binary floating-point conversions. They are not modelled, and nothing in the core calls them.
- Allocate.Allocation: the source computes `(subtotal / total) * amount` in floating point. The model uses the exact quotient. The two can differ where a double rounds a share across a whole cent.
- Allocate.AllocationNearExact states a bound of at most one cent. The exact bound is below one cent, but this contract is deliberately weaker.
- `parseFloat` in the items form and `parseInt` in the percentage editor are library parsers. Their results are parameters (`None` for not-a-number).
- `crypto.randomUUID()` and `Date.now()` are parameters. A lemma that needs a fresh id requires one.
- The percentage record of the custom-split editor is a list parallel to the assigned people, who are distinct. It is not a string-keyed object. `Object.values` order is therefore the people's order.
- `localStorage` persistence is not modelled. Neither is the zod schema validation on rehydration (src/stores/schemas.ts) or the logging around it.
- The React hooks are not modelled: re-rendering, selectors and animation are outside the model. Each store action is one atomic update, with no concurrency.
- TaxTipStep, ResultsStep, HistoryList and useDarkMode are not part of this model. Nor is the markup of the modelled components beyond the strings above.
- ItemsStep.PriceInCents: the source rounds the double product `priceNum * 100` (src/components/ItemsStep.tsx:21). The model takes the price as an exact real and rounds the exact product. A decimal price such as 10.005 has no exact double, so the source's product can land on either side of the half cent and round differently from the model. That is the case src/lib/types/money.test.ts:21-23 checks, with 1001 expected, for the same formula in `toCents`.
- The progress bar (src/components/BillWizard.tsx:82) and the step labels are display only. The bar's width is a floating-point percentage, and the labels are string constants with no logic.
- Rates are exact reals, not doubles: `Math.round(subtotal * rate)` is exact here, so a double product that lands just below a half is not reproduced.
- `splitEqually` is called by the person totals as written. For the negative prices the store refuses, it can lose cents (see Findings). The conservation lemmas assume non-negative prices.

## Findings

| source | as written | input that shows it | evidently intended | confidence | as-written member | corrected member |
|---|---|---|---|---|---|---|
| src/lib/calculations/split.ts:25-32 | `Math.floor` for the base share with JavaScript's truncating `%` for the remainder | a total of -1000 over 3 people gives [-334, -334, -334], which adds up to -1002 | the shares add up to the total for any total, as the doc comment promises at line 17 | not executed | `Split.NegativeTotalLosesCents` | `Split.EqualSharesEuclid` |

The store rejects negative prices (src/stores/billStore.ts:91), so no negative total reaches
`splitEqually` from the app. The person totals keep the source's split.
`Split.EuclidAgreesOnNonNegative` proves that the corrected split gives the same shares on
every total the app produces.
