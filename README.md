# Transaction details: collapsed rows and fee

This project models the logic in the block explorer's transaction details view
(`TransactionDetailsComponent`). When a transaction arrives from the backend, the
view makes it the transaction on display. It then replaces the transaction's input
list and its output list with their *collapsed* forms. To collapse a list, the view
first sorts it in place by address. It then walks the sorted rows with a running
accumulator and a counter, and emits one row per address. That row's value is the
sum of the values of the address's rows. Its address gets the suffix `" (N)"`
when N > 1 rows shared it. The view also shows a fee: the total input value minus
the total output value, floored at zero.

Distinct addresses give distinct rows, but a shown label can equal another
address's bare label. The suffix is added to whatever the address already reads,
so rows "A", "A", "A (2)" collapse to two rows that both read "A (2)"
(`Grouping.CollapsedLabelsCollide`).

Modules:

- `AddressOrder`: the order that JavaScript's `<` puts on strings, proved to be a
  strict total order.
- `Rows`: the `Row` datatype (address, value) and the aggregates over rows. These
  are `Sum`, and `Count` and `Total` per address. It also proves that these
  aggregates do not depend on row order.
- `Labels`: the decimal rendering of the count, and the label `address (N)`.
- `Grouping`: a reference definition of the collapsed form, `Collapsed(input)`.
  It gives one group row per distinct address, in ascending address order. The
  relational characterisation `CollapsedForm` is proved to determine that result
  uniquely.
- `Collapse`: the algorithm as the view runs it. This is the in-place sort on an
  array, the walk with its accumulator and counter, and `pushAccumulatedTransaction`.
  Each is proved against `Grouping`.
- `TransactionDetails`: the `Transaction` record, the component's state,
  `onTransactionRetrieved`, `getVIN` and `getFee`.

Values are unbounded integers, counting the currency's smallest unit.

Two behaviours of the code are modelled as written:

- Collapsing is not free of side effects. The code sorts the list it is given in place (transaction-details.component.ts:54), and `CollapseRepeatedRows` models that.
- Collapsing can throw. It reads `rows.length` (line 50), which throws for an absent list, and `OnTransactionRetrieved` reports that as `thrown`.

In the program, `collapseRepeatedRows` and `pushAccumulatedTransaction` are private methods of the component. Neither reads or writes the component's fields, so the model puts them, with the walk they drive, in the module `Collapse`. The component's class in `TransactionDetails` calls them there. `getVIN` and `getFee` stay in the class.

## Model

| member | source | states |
|---|---|---|
| AddressOrder.LessAtFirstDifference | web-ui/src/app/components/transaction-details/transaction-details.component.ts:55 | `Less`, the string `<` of the comparator: at the first position where two addresses differ, the smaller character decides |
| AddressOrder.LessOfPrefix | web-ui/src/app/components/transaction-details/transaction-details.component.ts:55 | `Less`: a proper prefix sorts before the longer address, and no address sorts before its own prefix |
| AddressOrder.LessIrreflexive | web-ui/src/app/components/transaction-details/transaction-details.component.ts:55 | no address sorts before itself under the comparator's `<` |
| AddressOrder.LessAsymmetric | web-ui/src/app/components/transaction-details/transaction-details.component.ts:55 | if a < b then not b < a |
| AddressOrder.LessTransitive | web-ui/src/app/components/transaction-details/transaction-details.component.ts:55 | a < b and b < c give a < c |
| AddressOrder.LessTotal | web-ui/src/app/components/transaction-details/transaction-details.component.ts:55 | any two different addresses are ordered one way or the other, so sorting by `<` is well defined |
| Rows.SortedByAddressPairwise | web-ui/src/app/components/transaction-details/transaction-details.component.ts:54-56 | a list sorted neighbour by neighbour is sorted between any two positions |
| Rows.AggregatesOfPermutation | web-ui/src/app/components/transaction-details/transaction-details.component.ts:54-56 | reordering the rows (as the sort does) keeps the sum of values, and each address's row count and total |
| Rows.AggregatesAppend | web-ui/src/app/components/transaction-details/transaction-details.component.ts:91 | `Sum`, the `map(t => t.value).reduce((a, b) => a + b, 0)` fold (also at line 99), adds up over concatenation, as do `Count` and `Total` per address; the sum of no rows is 0 |
| Rows.SumOfNonNegative | web-ui/src/app/components/transaction-details/transaction-details.component.ts:91 | the sum of rows whose values are all non-negative is non-negative |
| Labels.LabelExtendsAddress | web-ui/src/app/components/transaction-details/transaction-details.component.ts:83-85 | `Label`, the address after the suffix step: it always starts with the address, and is longer than it exactly when count > 1 |
| Labels.Decimal | web-ui/src/app/components/transaction-details/transaction-details.component.ts:84 | the count is rendered as a nonempty string of decimal digits with no leading zero |
| Labels.DecimalRoundTrip | web-ui/src/app/components/transaction-details/transaction-details.component.ts:84 | reading the rendered digits back gives the count |
| Labels.LabelIsBare | web-ui/src/app/components/transaction-details/transaction-details.component.ts:83-85 | the label is the bare address exactly when the count is at most 1 |
| Labels.LabelRecoversCount | web-ui/src/app/components/transaction-details/transaction-details.component.ts:83-85 | for count > 1 the label is the address, then " (", then digits that read back as the count, then ")" |
| Grouping.BasesAreTheAddresses | web-ui/src/app/components/transaction-details/transaction-details.component.ts:49-80 | the collapsed form lists each address occurring in the input exactly once, in strictly ascending order, and no other address |
| Grouping.CollapsedSize | web-ui/src/app/components/transaction-details/transaction-details.component.ts:49-80 | a nonempty list collapses to at least one row and never to more rows than it has |
| Grouping.CollapsedFormDetermines | web-ui/src/app/components/transaction-details/transaction-details.component.ts:49-80 | any list of group rows over strictly ascending distinct addresses, covering exactly the input's addresses, is the collapsed form |
| Grouping.CollapsedOfPermutation | web-ui/src/app/components/transaction-details/transaction-details.component.ts:54-56 | the collapsed form does not depend on the order of the rows, so any sorted order the sort picks gives the same result |
| Grouping.CollapsedOfOne | web-ui/src/app/components/transaction-details/transaction-details.component.ts:49-80 | a single row collapses to itself, with no count suffix |
| Grouping.CollapseExample | web-ui/src/app/components/transaction-details/transaction-details.component.ts:49-80 | rows B, A, A collapse to "A (2)" carrying both A values, followed by "B" |
| Grouping.CollapsedLabelsCollide | web-ui/src/app/components/transaction-details/transaction-details.component.ts:83-85 | the labels shown need not be distinct: rows "A", "A", "A (2)" collapse to exactly two rows whose shown addresses are equal |
| Collapse.SortByAddress | web-ui/src/app/components/transaction-details/transaction-details.component.ts:54-56 | the array ends sorted by address and holds the same rows (a permutation) |
| Collapse.SinkLast | web-ui/src/app/components/transaction-details/transaction-details.component.ts:54-56 | one insertion step grows the sorted prefix by one row, keeps the rows and leaves the rest of the array alone |
| Collapse.PushAccumulated | web-ui/src/app/components/transaction-details/transaction-details.component.ts:82-88 | exactly one row is appended, namely the accumulated row labelled by `Label(address, count)`, and the earlier rows are kept; the appended row carries the accumulated value; its address is the bare address iff count <= 1, and otherwise is `address (count)` |
| Collapse.CollapseSortedRows | web-ui/src/app/components/transaction-details/transaction-details.component.ts:57-79 | the walk over a nonempty sorted list yields exactly the collapsed form: one row per distinct address, ascending, each with its address's total and labelled with its row count; total value is conserved; 1 <= rows out <= rows in |
| Collapse.VisitRow | web-ui/src/app/components/transaction-details/transaction-details.component.ts:63-76 | one forEach step keeps the walk invariant: the counter and accumulator hold the current address's count and total, and flushing them gives the collapsed form of the rows visited |
| Collapse.WalkOnSameAddress | web-ui/src/app/components/transaction-details/transaction-details.component.ts:74-75 | a row with the current address adds one to the count and its value to the accumulator |
| Collapse.WalkOntoNewAddress | web-ui/src/app/components/transaction-details/transaction-details.component.ts:66-75 | a row with a new address, which in a sorted list lies above every earlier one, pushes the accumulated row and starts a new group |
| Collapse.CollapseRepeatedRows | web-ui/src/app/components/transaction-details/transaction-details.component.ts:49-80 | an empty array is returned itself; otherwise the array is left sorted and permuted in place, and a fresh array holding the collapsed form of the original rows is returned, with total value conserved and 1 <= length out <= length in |
| TransactionDetails.TransactionDetailsComponent.OnTransactionRetrieved | web-ui/src/app/components/transaction-details/transaction-details.component.ts:39-43 | the response becomes the transaction on display; its input and then its output list are replaced by their collapsed forms, with values conserved and the fee unchanged; each original array reached is left sorted by address in place, holding the same rows; an absent list throws, which leaves the lists not yet reached as they were |
| TransactionDetails.TransactionDetailsComponent.CollapseInput | web-ui/src/app/components/transaction-details/transaction-details.component.ts:41 | the input list becomes its collapsed form; the original input array is left sorted by address, holding the same rows; a separate output array is untouched, and an output that is the same array is at most reordered |
| TransactionDetails.TransactionDetailsComponent.CollapseOutput | web-ui/src/app/components/transaction-details/transaction-details.component.ts:42 | the output list becomes its collapsed form; the original output array is left sorted by address, holding the same rows; a separate input list is untouched |
| TransactionDetails.Max | web-ui/src/app/components/transaction-details/transaction-details.component.ts:92 | `Math.max`: the result is at least both arguments and is one of them |
| TransactionDetails.TransactionDetailsComponent.GetVIN | web-ui/src/app/components/transaction-details/transaction-details.component.ts:95-101 | an absent input list counts as 0; otherwise the result is the sum of the input values, which is 0 for an empty list |
| TransactionDetails.TransactionDetailsComponent.GetFee | web-ui/src/app/components/transaction-details/transaction-details.component.ts:90-93 | the fee is never negative, is at least VIN − VOUT, and is either 0 or exactly VIN − VOUT, that is max(0, VIN − VOUT) |

## Left out

- Routing (`ngOnInit`, `onTransactionId`), the HTTP fetch and `onError` are left out. They are I/O and calls into services outside this file. The response arrives as the parameter of `OnTransactionRetrieved`.
- A stale response overwriting a newer one is not modelled. That needs two fetches in flight, and the model has no concurrency.
- Values are integers rather than floating-point numbers, so rounding in the sums is not modelled.
- Collapse.SortByAddress: the view calls the array's built-in sort with the comparator `a.address < b.address ? -1 : 1`. That comparator never reports equal keys. The model uses an insertion sort and promises only its outcome, a sorted permutation. Which order rows with equal addresses end in is not modelled. The collapsed result does not depend on it (`Grouping.CollapsedOfPermutation`).
- AddressOrder.Less compares Dafny characters, which are Unicode scalar values. JavaScript compares UTF-16 code units, so the two orders differ for characters outside the Basic Multilingual Plane. Blockchain addresses are ASCII.
- The `TransactionValue` objects are modelled as immutable `Row` values. The walk only ever mutates accumulator objects it created itself. The suffix is written into such an object just before it is pushed.
- `Transaction` carries only `txid`, `input` and `output`. The record's other fields are not read by this component. `web-ui/src/app/models/transaction.ts` is not part of this model.
- OnTransactionRetrieved models the exception thrown for an absent list as the `thrown` result, not as an exception that escapes to the caller.
- TransactionDetails.TransactionDetailsComponent.GetFee requires the output list to be present. The code reads `tx.output.map` without a check and throws a TypeError on an absent list. That error path is not modelled.
- The rendered view template and translation are not modelled.
