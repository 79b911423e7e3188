# DataTable — a verified model

This project models the `DataTable` React component: a generic table of rows, each with an
`id`. A header click on a sortable column sorts the rows by that column, and each click on the
same column flips the order between ascending and descending. Checkboxes toggle row
selection, and after each toggle an optional `onRowSelect` callback receives the selected rows.

The model is split into the following modules:

- `Values`: the JavaScript values a cell can hold, and the `<` operator the comparator uses on
  them. Numbers compare numerically. Strings compare lexicographically, and a proper prefix is
  smaller. A missing field or a number/string mix is never "less".
- `Rows`: rows, columns, and field lookup by name.
- `SortView`: the comparator and the derived view (`sortedData`). The view is produced by a
  stable insertion sort standing in for `Array.prototype.sort`, which is stable by the
  ECMAScript 2019 specification. The lemmas prove these properties:
  - the view is a permutation of the data;
  - it is ordered by the chosen direction when the column holds values of one kind;
  - it keeps the data order among rows that tie;
  - it is the only sequence with those properties.
- `Selection`: the toggle on the set of selected ids, and the `data.filter(...)` payload
  handed to `onRowSelect`.
- `Table`: the sort-state transition, the loading/empty guards, and a class `DataTable`. The
  class holds the props and the three pieces of component state as fields. Its methods are
  the event handlers, and they update that state in place.
- `Samples`: the rows and columns of `src/App.tsx` (plus a fourth row with a tied age), with
  the concrete views and payloads the component produces for them.

Three behaviours of the code are easy to miss:

- The selection is never pruned when `data` changes. `Table.DataTable.Rerender` keeps
  `selected` as it is, so ids of rows that are gone stay selected.
- `handleSort` accepts any key. Only the header click checks `sortable`
  (DataTable.tsx line 73).
- The sort reads the field named by the column's `key`, not its `dataIndex`. A column whose
  key names no field yields a view in data order, whatever its `dataIndex`
  (`Samples.SortReadsColumnKey`, and `Samples.SampleColumnKey` through a header click).

An empty-string `sortKey` is falsy in JavaScript, so the view equals the data for it, as for
`null`.

## Model

| member | source | states |
|---|---|---|
| Values.StrLessIrreflexive | src/components/DataTable/DataTable.tsx:47-48 | no string is less than itself under JavaScript string `<` |
| Values.StrLessTransitive | src/components/DataTable/DataTable.tsx:47-48 | string `<` is transitive |
| Values.StrLessTotal | src/components/DataTable/DataTable.tsx:47-48 | of two different strings, one is less than the other |
| Values.LessIrreflexive | src/components/DataTable/DataTable.tsx:47-48 | `aVal < aVal` never holds, so a row ties with itself |
| Values.LessTransitive | src/components/DataTable/DataTable.tsx:47-48 | the `<` used by the comparator is transitive on every value, missing or mixed ones included |
| Values.LessAsymmetric | src/components/DataTable/DataTable.tsx:47-48 | `aVal < bVal` and `aVal > bVal` never hold together, so the comparator's branches are exclusive |
| Values.LessTotalOnKind | src/components/DataTable/DataTable.tsx:47-49 | two values of the same kind either are equal or one is less, so the comparator returns 0 only on equal values |
| SortView.CompareMeaning | src/components/DataTable/DataTable.tsx:44-50 | a non-positive comparator result means the pair is already in the chosen order; a positive one means the reverse order holds and the field values differ |
| SortView.InOrderTransitive | src/components/DataTable/DataTable.tsx:44-50 | "in order" for a direction is transitive among rows whose values have one kind |
| SortView.WithValueMembers | src/components/DataTable/DataTable.tsx:45-49 | the rows holding a given sort value are exactly the rows of the sequence with that value |
| SortView.InsertPermutes | src/components/DataTable/DataTable.tsx:44 | one insertion step adds exactly the inserted row |
| SortView.StableSortPermutes | src/components/DataTable/DataTable.tsx:44 | the sort of a copy of `data` holds the same rows with the same multiplicities |
| SortView.DerivedView | src/components/DataTable/DataTable.tsx:43-51 | the view has the same rows and length as `data`, and with no (or an empty) sort key it is `data` itself |
| SortView.InsertSorted | src/components/DataTable/DataTable.tsx:44-50 | inserting a row into an ordered sequence of one value kind keeps it ordered |
| SortView.StableSortSorted | src/components/DataTable/DataTable.tsx:44-50 | the sort yields a sequence ordered by the direction, for a column of one value kind |
| SortView.InsertWithValue | src/components/DataTable/DataTable.tsx:47-49 | inserting a row adds it to the front of the rows holding its value and leaves every other value's rows as they were |
| SortView.StableSortKeepsTies | src/components/DataTable/DataTable.tsx:44-49 | for every value, the rows with that value appear in the sort in data order (stability) |
| SortView.SortedStableUnique | src/components/DataTable/DataTable.tsx:44-50 | two permutations of the same rows that are both ordered and both stable are equal |
| SortView.ViewOrdered | src/components/DataTable/DataTable.tsx:43-50 | with a sort key whose column holds one kind of value, every earlier row of the view is not after a later one in the chosen direction |
| SortView.ViewStable | src/components/DataTable/DataTable.tsx:43-49 | in both directions, rows that tie on the sort key keep their relative data order in the view |
| SortView.ViewIsTheStableSort | src/components/DataTable/DataTable.tsx:43-50 | any ordered, stable permutation of the data is exactly the view the component renders |
| SortView.ViewOfMissingKey | src/components/DataTable/DataTable.tsx:45-49 | a sort key naming a field no row has leaves the view in data order |
| Selection.Toggled | src/components/DataTable/DataTable.tsx:53-59 | the clicked id changes membership and every other id keeps its membership |
| Selection.ToggleTwice | src/components/DataTable/DataTable.tsx:53-60 | toggling the same id twice restores the selection |
| Selection.SelectedRowsContents | src/components/DataTable/DataTable.tsx:61 | the payload holds every data row whose id is selected, with its multiplicity in data, and no other row |
| Selection.SelectedRowsInDataOrder | src/components/DataTable/DataTable.tsx:61 | the payload is a subsequence of `data`, so it is in data order whatever the sort |
| Selection.SelectedRowsDistinct | src/components/DataTable/DataTable.tsx:61 | when data ids are distinct, so are the payload's |
| Table.NextSort | src/components/DataTable/DataTable.tsx:37-41 | after a sort request the key is the clicked one, and the order is descending exactly when that key was already sorted ascending |
| Table.RepeatedClicksAlternate | src/components/DataTable/DataTable.tsx:37-41 | n clicks on one column leave it as the key, with the order of the first click after an odd count and the other order after an even count; the table never returns to unsorted |
| Table.ThreeClicksFromUnsorted | src/components/DataTable/DataTable.tsx:25-41 | from the initial state, three clicks on one column give ascending, descending, ascending |
| Table.RenderState | src/components/DataTable/DataTable.tsx:29-35 | loading takes precedence over everything; otherwise an empty data list shows the empty message, and a non-empty one shows the table |
| Table.SelectionSameRowsInView | src/components/DataTable/DataTable.tsx:43-61 | the selected rows of the sorted view are the same rows, with the same multiplicities, as the selected rows of the data |
| Table.DataTable.constructor | src/components/DataTable/DataTable.tsx:18-27 | the first render has no sort key, ascending order and nothing selected |
| Table.DataTable.Rerender | src/components/DataTable/DataTable.tsx:18-27 | new props replace the old ones, while sort state and selection survive unchanged (no pruning) |
| Table.DataTable.HandleSort | src/components/DataTable/DataTable.tsx:37-41 | the sort state moves by the transition above, and the selection is untouched |
| Table.DataTable.ClickHeader | src/components/DataTable/DataTable.tsx:69-74 | a click on a sortable header runs the sort transition with the column's key; a click on any other header changes nothing |
| Table.DataTable.ToggleRow | src/components/DataTable/DataTable.tsx:53-62 | the selection becomes its toggle; the callback, when present, receives the data-order filter of the new selection; sort state is untouched |
| Table.DataTable.ClickCheckbox | src/components/DataTable/DataTable.tsx:84-92 | ticking the i-th displayed row toggles that row's id and nothing else |
| Samples.SortByAgeAscending | src/App.tsx:21-25 | sorting the sample people by age ascending gives Charlie, Alice, Bob |
| Samples.SortByAgeDescending | src/App.tsx:21-25 | sorting them by age descending gives Bob, Alice, Charlie |
| Samples.SortByNameAscending | src/App.tsx:21-25 | sorting by name ascending keeps Alice, Bob, Charlie |
| Samples.SortByNameDescending | src/App.tsx:21-25 | sorting by name descending gives Charlie, Bob, Alice |
| Samples.TiesKeepOrderAscending | src/components/DataTable/DataTable.tsx:47-49 | two people of equal age keep their data order in an ascending sort |
| Samples.TiesKeepOrderDescending | src/components/DataTable/DataTable.tsx:47-49 | they keep it in a descending sort too |
| Samples.SortReadsColumnKey | src/components/DataTable/DataTable.tsx:45-46 | a column whose key is not a field name leaves the rows unsorted, whatever its `dataIndex` |
| Samples.PayloadOfAliceAndBob | src/components/DataTable/DataTable.tsx:61 | with Alice and Bob selected, the callback gets exactly [Alice, Bob] |
| Samples.FilteredViewOrderDiffers | src/components/DataTable/DataTable.tsx:61 | under a descending age sort the selected rows appear as [Bob, Alice] on screen, yet the payload is in data order |
| Samples.PayloadOfBob | src/components/DataTable/DataTable.tsx:61 | with only Bob selected, the callback gets exactly [Bob] |

## Left out

- Rendering is not modelled: the markup, the sort indicator (lines 76-78), cell text
  `String(row[col.dataIndex])` (line 97) and CSS classes. Only the event handlers and the
  derived view carry behaviour.
- React scheduling is not modelled. Each state setter takes effect at once, and each handler
  reads the state of the render it belongs to. Batching several events within one render is
  not modelled.
- Cell values are integers or strings. JavaScript numbers are IEEE doubles, and `NaN`,
  fractions, booleans, `null` and objects are not modelled.
- A comparison of a number with a string is modelled as a tie. JavaScript coerces the string
  to a number instead, and the result is left out because it depends on the text.
- Strings compare by character. JavaScript compares UTF-16 code units, so the two differ only
  for characters outside the Basic Multilingual Plane.
- SortView.ViewOrdered: ordering is proved only when every row's value for the sort key has
  one kind (all numbers, all strings, or all missing). With a mixed column the JavaScript
  comparator is inconsistent, and the engine's order is implementation-defined. The model
  then still yields its insertion-sort result, which is a stable permutation but not
  necessarily ordered.
- `data` being `null` or `undefined` (the `!data` test on line 33) is not modelled, because
  `data` is a sequence and is always present. An empty sequence takes the same branch.
- The `onRowSelect` callback's effects are outside the component. `ToggleRow` returns the
  argument it would be called with, or `None` when no callback is given.
- `HandleSort` and `ToggleRow` are not gated by the render state. Only `ClickHeader` and
  `ClickCheckbox` require a populated table, because the header and the checkboxes exist only
  there.
- `InputField`, `LoginForm`, `App` (other than its sample data) and the story files are not
  part of this model.
