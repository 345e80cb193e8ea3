# Search list components — a Dafny model

This project models the two Lightning Web Components of the search list
application:

- **The search panel** (`searchListCmp`). It holds the filter inputs: search
  text, industry, a from date and a to date. It composes them into the filter
  expression sent to the table, restores the default criteria and asks the
  table to search.
- **The data table** (`searchListDataTableWrapper`). It receives the fetched
  records and flattens them one level, adding a `RecordURL` to each. It also
  builds the table columns from the field metadata, filters the records by
  free text and sorts them by a column. Finally, it pages through the result
  and keeps the Back/Forward buttons and the message slot up to date.

Module layout, one file each:

| module | file | models |
|---|---|---|
| `Wrappers` | wrappers.dfy | `Option`, for JavaScript's `null`/`undefined` |
| `Strings` | strings.dfy | `toLowerCase`/`toUpperCase`, JavaScript string ordering (`<`, `>`), `includes` |
| `Records` | records.dfy | records as ordered property lists, property assignment, flattening, `RecordURL` |
| `Columns` | columns.dfy | the column list built from the field metadata |
| `Sorting` | sorting.dfy | the `sortBy` comparator and the host sort it is passed to |
| `TextSearch` | search.dfy | the free-text filter of `handleSearchText` |
| `Paging` | paging.dfy | `filterRecords`/`renderButtons` as a function of the records, the start and the page size |
| `DataTable` | datatable.dfy | the table component as a class with its tracked fields and handlers |
| `SearchPanel` | searchpanel.dfy | the panel component as a class, and its filter expression |

The handlers that update a component's fields are methods of a class:
`DataTable.DataTableWrapper` and `SearchPanel.SearchPanel`. Each method names
the fields it changes in its `modifies` frame. Each is proved against a
specification function:

- the pagination fields always equal `Paging.Paginate` of the filtered
  records, the start and the page size;
- the panel's `filtersToSend` always equals `SearchPanel.FilterExpression` of
  its inputs.

The loops that build a fresh array are methods proved equal to a
definition of what they compute:

- flattening the fetched rows, equal to a recursive definition;
- building the columns, equal to a recursive definition;
- collecting the search matches, equal to a recursive definition;
- copying a page, equal to a slice of the filtered records.

The properties of those definitions are proved as lemmas.

Some behaviour of the code differs from the way the application is
described. The model follows the code:

- The free-text filter adds a record once for **each** matching property. A
  record that matches in two properties is listed twice
  (`TextSearch.SearchDuplicates`).
- A failed record fetch clears `allRecords` only. `filteredRecords` and the
  page fields keep their values and stay hidden behind the error message.
- A fetch that resolves with no result (`null`) only resets `error`.
- Sorting while `filteredRecords` is undefined throws in the spread
  `[...this.filteredRecords]`. The model changes nothing in that case.

On one point the model does not follow the code. The code's Back-button rule
is `beginIndex < recordsPerPage`, which is not "Back disabled on the first
page" when a page holds one record. The table class uses the corrected rule
`beginIndex <= recordsPerPage`, and the rule as written is modelled beside it.
See Findings and "Left out".

## Model

| member | source | states |
|---|---|---|
| Strings.Lower | force-app/main/default/lwc/searchListDataTableWrapper/searchListDataTableWrapper.js:194-195 | lower-casing keeps the length, leaves no capital ASCII letter, keeps every other character, and changes each letter only in case |
| Strings.LowerIdempotent | force-app/main/default/lwc/searchListDataTableWrapper/searchListDataTableWrapper.js:194-195 | lower-casing an already lower-cased key changes nothing |
| Strings.LowerOfUpper | force-app/main/default/lwc/searchListDataTableWrapper/searchListDataTableWrapper.js:194-195 | lower-casing undoes any earlier upper-casing |
| Strings.Upper | force-app/main/default/lwc/searchListDataTableWrapper/searchListDataTableWrapper.js:144-145 | upper-casing keeps the length, leaves no small ASCII letter, keeps every other character, and changes each letter only in case |
| Strings.SameIgnoringCase | force-app/main/default/lwc/searchListDataTableWrapper/searchListDataTableWrapper.js:144-145 | two strings agree upper-cased exactly when they agree lower-cased |
| Strings.Less | force-app/main/default/lwc/searchListDataTableWrapper/searchListDataTableWrapper.js:196 | the definition of `a < b` on strings: lexicographic by character, a proper prefix first; its order properties are the next two rows |
| Strings.LessTotal | force-app/main/default/lwc/searchListDataTableWrapper/searchListDataTableWrapper.js:196 | JavaScript string order is total: two strings are equal or one precedes the other |
| Strings.LessTransitive | force-app/main/default/lwc/searchListDataTableWrapper/searchListDataTableWrapper.js:196 | JavaScript string order is transitive |
| Strings.Sign | force-app/main/default/lwc/searchListDataTableWrapper/searchListDataTableWrapper.js:196 | the definition of `(a > b) - (b > a)` on two strings; its meaning is stated in `SignProperties` |
| Strings.SignProperties | force-app/main/default/lwc/searchListDataTableWrapper/searchListDataTableWrapper.js:196 | `(a > b) - (b > a)` is antisymmetric, lies in -1..1 and is 0 exactly for equal strings |
| Strings.Contains | force-app/main/default/lwc/searchListDataTableWrapper/searchListDataTableWrapper.js:243 | the definition of `includes` as a left-to-right scan for the text; its meaning is stated in `ContainsIffOccurs` |
| Strings.ContainsIffOccurs | force-app/main/default/lwc/searchListDataTableWrapper/searchListDataTableWrapper.js:243 | `includes` holds exactly when the text occurs at some index |
| Records.Lookup | force-app/main/default/lwc/searchListDataTableWrapper/searchListDataTableWrapper.js:72-73 | reading a property finds a value exactly when the key is present, and the value is the one stored under it |
| Records.Put | force-app/main/default/lwc/searchListDataTableWrapper/searchListDataTableWrapper.js:63-66 | the definition of a property assignment `obj[key] = value`: an existing key's value is replaced in place, a new key is added last; its meaning is stated in `PutLookup` and `PutKeys` |
| Records.PutLookup | force-app/main/default/lwc/searchListDataTableWrapper/searchListDataTableWrapper.js:63-66 | after an assignment the key reads the new value and every other key reads as before |
| Records.PutKeys | force-app/main/default/lwc/searchListDataTableWrapper/searchListDataTableWrapper.js:63-66 | assigning an existing key keeps the key order; a new key is appended last |
| Records.PutTwice | force-app/main/default/lwc/searchListDataTableWrapper/searchListDataTableWrapper.js:70-74 | assigning the same value twice is the same as once |
| Records.Flatten | force-app/main/default/lwc/searchListDataTableWrapper/searchListDataTableWrapper.js:58-68 | the definition of one flattened row: the property writes of the row applied in order to an empty object; its properties are the next rows |
| Records.FlattenMeaning | force-app/main/default/lwc/searchListDataTableWrapper/searchListDataTableWrapper.js:59-68 | a flattened record has distinct keys; each key holds the last value written to it (`key` for a scalar, `key_child` for a nested child); without collisions it is exactly the writes in order |
| Records.PutAllWithoutCollisions | force-app/main/default/lwc/searchListDataTableWrapper/searchListDataTableWrapper.js:59-68 | writes with distinct keys build a record holding exactly those pairs in order |
| Records.FieldWrites | force-app/main/default/lwc/searchListDataTableWrapper/searchListDataTableWrapper.js:60-67 | the definition of the writes one property makes: its children under `key_child` in order for an object, itself under its key for a scalar; `WritesOfRow` states which pairs a row writes |
| Records.WritesOfRow | force-app/main/default/lwc/searchListDataTableWrapper/searchListDataTableWrapper.js:59-68 | a pair is written exactly when it is a scalar property or a `parent_child` pair of a nested one |
| Records.WithRecordURL | force-app/main/default/lwc/searchListDataTableWrapper/searchListDataTableWrapper.js:70-74 | the definition of the link assignment: `RecordURL` set to `"/"` followed by the `Id`; its properties are the next two rows |
| Records.RecordURLMeaning | force-app/main/default/lwc/searchListDataTableWrapper/searchListDataTableWrapper.js:70-74 | `RecordURL` becomes `"/"` followed by the `Id` (`"/undefined"` without one); every other property is unchanged |
| Records.RecordURLIdempotent | force-app/main/default/lwc/searchListDataTableWrapper/searchListDataTableWrapper.js:70-74 | re-deriving `RecordURL`, as the `forEach` does for earlier rows on every iteration, changes nothing |
| Records.FlattenField | force-app/main/default/lwc/searchListDataTableWrapper/searchListDataTableWrapper.js:60-67 | one property of a fetched row is written as the flattening defines: an object's children under `key_child` in their order, a scalar under its own key |
| Records.FlattenRow | force-app/main/default/lwc/searchListDataTableWrapper/searchListDataTableWrapper.js:58-68 | the property loop with its nested child loop computes the flattened record |
| Records.FlattenResult | force-app/main/default/lwc/searchListDataTableWrapper/searchListDataTableWrapper.js:55-76 | one flattened row per fetched row, in order, each with its `RecordURL` |
| Columns.NameColumn | force-app/main/default/lwc/searchListDataTableWrapper/searchListDataTableWrapper.js:129-138 | the definition of the first column: `RecordURL` shown as a link of type `url`, labelled with the record's `Name`; `BuildColumns` states that it comes first |
| Columns.ColumnFor | force-app/main/default/lwc/searchListDataTableWrapper/searchListDataTableWrapper.js:149-154 | the definition of a field's column: its label, API name and display type, sortable; `BuildColumns` states that each kept field gets one, in order |
| Columns.IsSkipped | force-app/main/default/lwc/searchListDataTableWrapper/searchListDataTableWrapper.js:144-148 | the definition of the skip test: the upper-cased API name is `NAME` or `PUBLISHEDTITLE__C` |
| Columns.SkippedIgnoresCase | force-app/main/default/lwc/searchListDataTableWrapper/searchListDataTableWrapper.js:144-148 | the skip test ignores case: a field is skipped exactly when its lower-cased API name is `name` or `publishedtitle__c` |
| Columns.KeptMembers | force-app/main/default/lwc/searchListDataTableWrapper/searchListDataTableWrapper.js:139-148 | a field gets a column exactly when its API name is neither `NAME` nor `PUBLISHEDTITLE__C` upper-cased |
| Columns.KeptAppend | force-app/main/default/lwc/searchListDataTableWrapper/searchListDataTableWrapper.js:139-157 | the skip rule is applied field by field, keeping the metadata order |
| Columns.BuildColumns | force-app/main/default/lwc/searchListDataTableWrapper/searchListDataTableWrapper.js:127-158 | the Name/URL column first, then one sortable column per kept field in order; the plural name is the last kept field's, if any |
| Sorting.SortKey | force-app/main/default/lwc/searchListDataTableWrapper/searchListDataTableWrapper.js:184-195 | the definition of the compared key: the field's value, an undefined value read as `""`, lower-cased; its use in the order is stated in `CompareAntisymmetric` and `DirectionOrder` |
| Sorting.Compare | force-app/main/default/lwc/searchListDataTableWrapper/searchListDataTableWrapper.js:191-197 | the definition of the comparator: the direction factor times the sign of the comparison of the lower-cased keys, an undefined value read as `""`; its properties are proved in `CompareAntisymmetric`, `CompareTransitive` and `DirectionOrder` |
| Sorting.ReverseOf | force-app/main/default/lwc/searchListDataTableWrapper/searchListDataTableWrapper.js:203 | the direction factor, 1 or -1; which order each factor produces is stated in `DirectionOrder` |
| Sorting.CompareDirection | force-app/main/default/lwc/searchListDataTableWrapper/searchListDataTableWrapper.js:191-197 | with factor 1 a record comes no later than another unless its key is greater; with factor -1, unless its key is smaller |
| Sorting.DirectionOrder | force-app/main/default/lwc/searchListDataTableWrapper/searchListDataTableWrapper.js:196-203 | the direction `"asc"` orders the records by ascending key; any other direction orders them by descending key |
| Sorting.CompareAntisymmetric | force-app/main/default/lwc/searchListDataTableWrapper/searchListDataTableWrapper.js:191-197 | the comparator is antisymmetric, 0 on equal records and 0 exactly when the lower-cased keys are equal |
| Sorting.CompareTransitive | force-app/main/default/lwc/searchListDataTableWrapper/searchListDataTableWrapper.js:191-197 | the comparator's "not after" relation is transitive, so it is a consistent order for the sort |
| Sorting.SortBy | force-app/main/default/lwc/searchListDataTableWrapper/searchListDataTableWrapper.js:202-204 | the definition of the sort: a stable insertion sort of the records by the comparator; its properties are the next rows |
| Sorting.SortByMeaning | force-app/main/default/lwc/searchListDataTableWrapper/searchListDataTableWrapper.js:202-204 | the sorted copy is a permutation of the filtered records, ordered by the comparator |
| Sorting.SortByStable | force-app/main/default/lwc/searchListDataTableWrapper/searchListDataTableWrapper.js:203 | records with equal keys keep their relative order |
| Sorting.OrderedUnique | force-app/main/default/lwc/searchListDataTableWrapper/searchListDataTableWrapper.js:203 | two ordered sequences with the same records per key, in the same order, are equal: a stable sort has exactly one result |
| Sorting.ResortRoundTrip | force-app/main/default/lwc/searchListDataTableWrapper/searchListDataTableWrapper.js:200-207 | sorting in one direction and then in another gives what sorting once in the second direction gives |
| TextSearch.FieldMatches | force-app/main/default/lwc/searchListDataTableWrapper/searchListDataTableWrapper.js:239-243 | the definition of the per-property test: a non-empty value that contains the search text, both lower-cased |
| TextSearch.Search | force-app/main/default/lwc/searchListDataTableWrapper/searchListDataTableWrapper.js:236-248 | the definition of the search result: for each record in order, one copy per matching property; its properties are `SearchCount`, `SearchMeaning` and `SearchAppend` |
| TextSearch.MatchCount | force-app/main/default/lwc/searchListDataTableWrapper/searchListDataTableWrapper.js:238-247 | the definition of the number of pushes for one record: one per matching property; its meaning is stated in `MatchCountPositive` and `SearchCount` |
| TextSearch.MatchCountPositive | force-app/main/default/lwc/searchListDataTableWrapper/searchListDataTableWrapper.js:238-247 | a record is pushed at least once exactly when one of its property values contains the text, ignoring case |
| TextSearch.SearchAppend | force-app/main/default/lwc/searchListDataTableWrapper/searchListDataTableWrapper.js:236-248 | the filter works record by record and keeps the order of `allRecords` |
| TextSearch.SearchCount | force-app/main/default/lwc/searchListDataTableWrapper/searchListDataTableWrapper.js:236-248 | there is no de-duplication: each record is listed as often as it occurs in `allRecords`, times the number of its matching properties |
| TextSearch.SearchDuplicates | force-app/main/default/lwc/searchListDataTableWrapper/searchListDataTableWrapper.js:238-247 | a record matching in two properties is listed twice |
| TextSearch.SearchMeaning | force-app/main/default/lwc/searchListDataTableWrapper/searchListDataTableWrapper.js:234-249 | a record is in the result exactly when it is in `allRecords` and some property matches (OR across properties) |
| TextSearch.MatchingRecords | force-app/main/default/lwc/searchListDataTableWrapper/searchListDataTableWrapper.js:235-249 | the nested loops compute the search result |
| Paging.CeilDiv | force-app/main/default/lwc/searchListDataTableWrapper/searchListDataTableWrapper.js:259-261 | `Math.ceil(a / b)` is the least `q` with `a <= q * b` |
| Paging.Paginate | force-app/main/default/lwc/searchListDataTableWrapper/searchListDataTableWrapper.js:256-316 | the definition of the page fields after `filterRecords(start)` and `renderButtons`, with the corrected Back rule; its properties are `PageWindow`, `EmptyPage`, `AlignedPage`, `AllPages` and `Navigation` |
| Paging.BackDisabledAsWritten | force-app/main/default/lwc/searchListDataTableWrapper/searchListDataTableWrapper.js:305 | the definition of the Back rule as written, `beginIndex < recordsPerPage`; compared with the corrected rule in `BackEnabledOnFirstPageAsWritten` and `BackRulesAgree` |
| Paging.PageSlice | force-app/main/default/lwc/searchListDataTableWrapper/searchListDataTableWrapper.js:270-278 | the copy loop yields the records from the start up to the ending index, none when the start is not below it |
| Paging.PageWindow | force-app/main/default/lwc/searchListDataTableWrapper/searchListDataTableWrapper.js:256-278 | for a start inside the records, the view is the contiguous slice of at most a page from it, `beginIndex` is the start plus one, and the current page is the page containing the start, between 1 and the total |
| Paging.EmptyPage | force-app/main/default/lwc/searchListDataTableWrapper/searchListDataTableWrapper.js:279-287 | without records every counter is zero, the view is empty and both buttons are disabled |
| Paging.AlignedPage | force-app/main/default/lwc/searchListDataTableWrapper/searchListDataTableWrapper.js:304-316 | at the start of page `k + 1` the current page is `k + 1`, Back is disabled exactly on the first page and Forward exactly on the last |
| Paging.PagesCover | force-app/main/default/lwc/searchListDataTableWrapper/searchListDataTableWrapper.js:256-288 | the first `n` page windows, read in order, are the first `n * perPage` records |
| Paging.AllPages | force-app/main/default/lwc/searchListDataTableWrapper/searchListDataTableWrapper.js:256-288 | all `totalPages` windows together are exactly the filtered records, none skipped or repeated |
| Paging.LastPageStart | force-app/main/default/lwc/searchListDataTableWrapper/searchListDataTableWrapper.js:227 | once there is a page, the start of the last page is not negative and lies one page below `totalPages * recordsPerPage` |
| Paging.Navigation | force-app/main/default/lwc/searchListDataTableWrapper/searchListDataTableWrapper.js:210-229 | from a page start, Next moves one page on, Previous one page back (never below zero while Back is enabled), and Last reaches the last page, where Forward is disabled |
| Paging.BackEnabledOnFirstPageAsWritten | force-app/main/default/lwc/searchListDataTableWrapper/searchListDataTableWrapper.js:304-309 | with one record per page, the rule as written leaves Back enabled on page 1 |
| Paging.BackRulesAgree | force-app/main/default/lwc/searchListDataTableWrapper/searchListDataTableWrapper.js:304-309 | with two or more records per page, the written and the corrected Back rule agree on every page |
| Paging.FourHundredFifty | force-app/main/default/lwc/searchListDataTableWrapper/searchListDataTableWrapper.js:256-288 | 450 records at 200 per page: page 1 of 3 shows 200 records with Back disabled and Forward enabled; the page at 400 shows 50 with Forward disabled |
| DataTable.ErrorMessage | force-app/main/default/lwc/searchListDataTableWrapper/searchListDataTableWrapper.js:104-114 | the error message carries the error classes, title and icon, and a summary of type, message and stack trace separated by spaces |
| DataTable.NoRecordsMessage | force-app/main/default/lwc/searchListDataTableWrapper/searchListDataTableWrapper.js:85-91 | the definition of the No Records message: the warning classes, the title "No Records", the text "No records found." and the warning icon; `ShowRecords` states when it is shown |
| DataTable.DataTableWrapper.constructor | force-app/main/default/lwc/searchListDataTableWrapper/searchListDataTableWrapper.js:6-39 | the initial field values: no records, zero counters, both buttons disabled, ascending sort |
| DataTable.DataTableWrapper.PreparePageMessage | force-app/main/default/lwc/searchListDataTableWrapper/searchListDataTableWrapper.js:290-302 | the message slot holds exactly the five given parts |
| DataTable.DataTableWrapper.RenderButtons | force-app/main/default/lwc/searchListDataTableWrapper/searchListDataTableWrapper.js:304-316 | Back is disabled exactly when `beginIndex <= recordsPerPage` (corrected rule) and Forward exactly on the last page |
| DataTable.DataTableWrapper.FilterRecords | force-app/main/default/lwc/searchListDataTableWrapper/searchListDataTableWrapper.js:256-288 | the page fields become `Paginate` of the filtered records at the start, which establishes the class invariant |
| DataTable.DataTableWrapper.GoToFirst | force-app/main/default/lwc/searchListDataTableWrapper/searchListDataTableWrapper.js:210-212 | re-pages at 0 |
| DataTable.DataTableWrapper.GoToPrevious | force-app/main/default/lwc/searchListDataTableWrapper/searchListDataTableWrapper.js:214-218 | while Back is enabled, re-pages at `beginIndex - recordsPerPage - 1`, keeping the invariant |
| DataTable.DataTableWrapper.GoToNext | force-app/main/default/lwc/searchListDataTableWrapper/searchListDataTableWrapper.js:220-224 | re-pages at `beginIndex + recordsPerPage - 1` |
| DataTable.DataTableWrapper.GoToLast | force-app/main/default/lwc/searchListDataTableWrapper/searchListDataTableWrapper.js:226-229 | re-pages at `(totalPages - 1) * recordsPerPage` |
| DataTable.DataTableWrapper.HandleSearchText | force-app/main/default/lwc/searchListDataTableWrapper/searchListDataTableWrapper.js:231-254 | with two or more characters the filtered records are the search result over all records (empty when there are none); otherwise all records again; then page 1 |
| DataTable.DataTableWrapper.OnHandleSort | force-app/main/default/lwc/searchListDataTableWrapper/searchListDataTableWrapper.js:200-208 | the filtered records become an ordered permutation of themselves, the sort field and direction are recorded, and page 1 is shown; without filtered records nothing changes |
| DataTable.DataTableWrapper.ShowRecords | force-app/main/default/lwc/searchListDataTableWrapper/searchListDataTableWrapper.js:77-94 | all and filtered records become the given rows; `hasRecords` holds exactly when there is a row and `hasMessage` exactly when there is none, with the No Records message; page 1 is shown |
| DataTable.DataTableWrapper.OnRecordsFetched | force-app/main/default/lwc/searchListDataTableWrapper/searchListDataTableWrapper.js:50-96 | the error is cleared; on a result, all and filtered records become the flattened rows, `hasRecords`/`hasMessage` and the No Records message follow the count, and page 1 is shown; on `null` nothing else changes |
| DataTable.DataTableWrapper.OnRecordsFailed | force-app/main/default/lwc/searchListDataTableWrapper/searchListDataTableWrapper.js:97-116 | the error is stored and shown, `allRecords` is cleared, and there are no records to show |
| DataTable.DataTableWrapper.OnFieldDetailsFetched | force-app/main/default/lwc/searchListDataTableWrapper/searchListDataTableWrapper.js:125-162 | on a result the columns are the built list, the message is hidden and the plural name is the last kept field's; on `null` nothing changes |
| DataTable.DataTableWrapper.OnFieldDetailsFailed | force-app/main/default/lwc/searchListDataTableWrapper/searchListDataTableWrapper.js:163-180 | the error message is shown and there are no records to show |
| SearchPanel.IsPresent | force-app/main/default/lwc/searchListCmp/searchListCmp.js:80-85 | the definition of the presence test: a value that is neither null, undefined nor `""`; `PresentIff` proves it is the component's test |
| SearchPanel.PresentIff | force-app/main/default/lwc/searchListCmp/searchListCmp.js:80-85 | the presence test holds exactly when the value is neither absent nor `""` |
| SearchPanel.FilterExpression | force-app/main/default/lwc/searchListCmp/searchListCmp.js:78-114 | the definition of the expression: the base filter, then the search text, industry, from-date and to-date clauses of the present inputs, in that order; its properties are the next rows |
| SearchPanel.FilterStartsWithBase | force-app/main/default/lwc/searchListCmp/searchListCmp.js:78-79 | the filter expression always starts with the base filter |
| SearchPanel.FilterIsBaseIffNoInput | force-app/main/default/lwc/searchListCmp/searchListCmp.js:78-114 | the expression is the bare base filter exactly when no input is present |
| SearchPanel.ClearedIsBase | force-app/main/default/lwc/searchListCmp/searchListCmp.js:38-46 | with the inputs as the defaults leave them, the expression the handlers compose is the base filter alone, the value the defaults store |
| SearchPanel.InputsVerbatim | force-app/main/default/lwc/searchListCmp/searchListCmp.js:78-114 | every present input appears unescaped in the expression, the search text right after `" AND Name LIKE '%"` |
| SearchPanel.FilterNotInjective | force-app/main/default/lwc/searchListCmp/searchListCmp.js:98-113 | a from date carrying its own `AND CreatedDate <=` clause composes the same expression as a real date range |
| SearchPanel.SearchPanel.constructor | force-app/main/default/lwc/searchListCmp/searchListCmp.js:18-20 | on connection the panel holds the default criteria, and the expression matches its inputs |
| SearchPanel.SearchPanel.DefaultValues | force-app/main/default/lwc/searchListCmp/searchListCmp.js:34-48 | object `Account`, fields `Name, Industry, Phone, CreatedDate`, filter `Id != NULL`, 200 per page, sort and search disabled, inputs cleared, table shown |
| SearchPanel.SearchPanel.HandleFilterChange | force-app/main/default/lwc/searchListCmp/searchListCmp.js:78-114 | the successive appends produce the filter expression of the current inputs, whatever the previous expression was |
| SearchPanel.SearchPanel.HandleSearchTextChange | force-app/main/default/lwc/searchListCmp/searchListCmp.js:58-61 | stores the search text and keeps the expression in step with the inputs |
| SearchPanel.SearchPanel.HandleTypeChange | force-app/main/default/lwc/searchListCmp/searchListCmp.js:63-66 | stores the industry and keeps the expression in step with the inputs |
| SearchPanel.SearchPanel.HandleFromDateChange | force-app/main/default/lwc/searchListCmp/searchListCmp.js:68-71 | stores the from date and keeps the expression in step with the inputs |
| SearchPanel.SearchPanel.HandleToDateChange | force-app/main/default/lwc/searchListCmp/searchListCmp.js:73-76 | stores the to date and keeps the expression in step with the inputs |
| SearchPanel.SearchPanel.HandleSearch | force-app/main/default/lwc/searchListCmp/searchListCmp.js:116-124 | the table is shown |
| SearchPanel.SearchPanel.HandleReset | force-app/main/default/lwc/searchListCmp/searchListCmp.js:22-32 | reset followed by search yields the default criteria with the table shown |

## Left out

- The server calls `getRecords` and `getFieldDetails`, and their promises, are not modelled. Their outcomes are the inputs of `OnRecordsFetched`, `OnRecordsFailed`, `OnFieldDetailsFetched` and `OnFieldDetailsFailed`.
- Overlapping searches are not modelled. Two in-flight fetches that resolve in either order are not analysed; each outcome handler runs to completion.
- SearchPanel.SearchPanel.HandleSearch: the call `child.doSearch()` into the table is left out. Its effect is the table's outcome handlers. Locating the child component in the page is not modelled either.
- SearchPanel.SearchPanel.HandleReset: clearing the `lightning-input` elements in the page is not modelled. It touches the DOM only.
- The `options` getter (the three industry choices) is not modelled. It is constant data for the page.
- Console logging and the `debugger` field are not modelled.
- `this.contacts = result` in the metadata handler is not modelled. Nothing reads it.
- Property order is the order in which properties are written. JavaScript lists integer-like keys first in `for...in`; field names are not integer-like, so this does not arise.
- Records: a fetched property is a scalar or an object one level deep, with string values. Deeper nesting and `null` values are not modelled. `typeof null == "object"` would make the flattening loop iterate over nothing, and `toString` on `null` would throw in the search.
- Strings.Lower: case mapping covers ASCII letters only. Unicode case mapping is not modelled.
- Strings.Upper: case mapping covers ASCII letters only, so the skip test in `Columns.IsSkipped` sees non-ASCII letters unchanged.
- Strings.Less: strings are sequences of Unicode code points, while JavaScript compares UTF-16 code units. The two orders differ once a character beyond U+FFFF appears. For example, JavaScript puts `"😀"` before `"\uFFFF"`, because its first code unit 0xD83D is smaller, and the model puts it after. `Sorting.Compare` and `Sorting.SortBy` inherit this difference.
- DataTable.DataTableWrapper.HandleSearchText: the length test counts code points, not UTF-16 code units. A search text of one character beyond U+FFFF, such as `"😀"`, has JavaScript length 2 and is searched for. The model counts 1 and restores all records.
- DataTable.DataTableWrapper.RenderButtons: the class disables Back by the corrected rule `beginIndex <= recordsPerPage`, and so does `Paging.Paginate`. With one record per page, the code leaves Back enabled on page 1, and Back then calls `filterRecords(-1)`: `viewRecords` becomes `[undefined]`, and `beginIndex` and `currentPage` become 0. That state is not reachable in the class. `Paging.BackDisabledAsWritten` and `Paging.BackEnabledOnFirstPageAsWritten` model the rule as written.
- Sorting.SortBy: the host `Array.prototype.sort` is modelled by a stable insertion sort. Any stable sort with a consistent comparator has the same result (`Sorting.OrderedUnique`). The `primer` argument of `sortBy` is never passed, so it is not modelled.
- DataTable.DataTableWrapper.FilterRecords: a negative start while there are records is excluded by its precondition. Only Back on the first page, under the rule as written, can produce one. In JavaScript it would copy `undefined` rows. The corrected Back rule never produces one (`Paging.Navigation`).
- DataTable.DataTableWrapper.constructor: `viewRecords` starts out `undefined` in the component and is modelled as the empty list. The page size is the parent's value, assumed positive, because the component divides by it.
- `Number(this.recordsPerPage)` is not modelled. The page size is an integer already.

## Findings

| source | as written | input that shows it | evidently intended | confidence | as-written member | corrected member |
|---|---|---|---|---|---|---|
| force-app/main/default/lwc/searchListDataTableWrapper/searchListDataTableWrapper.js:305 | Back is disabled when `beginIndex < recordsPerPage` | `recordsPerPage == 1` with at least one record, on page 1: `beginIndex == 1`, so Back stays enabled, and `goToPrevious` re-pages at -1 | Back disabled exactly on the first page: `beginIndex <= recordsPerPage` | not executed | Paging.BackEnabledOnFirstPageAsWritten | DataTable.DataTableWrapper.RenderButtons |
