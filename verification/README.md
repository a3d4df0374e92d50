# Born records screen: a Dafny model

This project models the logic at the heart of the born-records screen `src/pages/baby.jsx`. A born record is one birth event: mother and father details, a location, a health centre, and the babies born, each with their medications. The record also carries the appointments attached to it. The screen is a React component; beneath the rendering and the network calls it is a set of pure transformations of lists and records. Those transformations are modelled here as Dafny functions over immutable datatypes, and their properties are proved.

The model has three parts:

- **The records table** (`ListView`, built on `Text`, `Seqs`, `Sorting`):
  - the search over mother name, baby names and mother phone;
  - the status filter on `leave`;
  - the stable sort by one string key in either direction;
  - the ten-row page slice, the page count, and first/previous/next/last navigation;
  - the sort-direction toggle.
- **The add/edit form** (`Draft`, `Cascade`):
  - the draft record with its babies and their medications;
  - adding and removing babies and medications;
  - editing a top-level field, a baby field or a medication field;
  - the sector → cell → village cascade;
  - the reset to a blank form.
- **Data shaping** (`Address`, `Aggregate`):
  - flattening the province/district/sector address tree;
  - the two normalisations of a fetched record;
  - the thirteen-field update request;
  - folding per-appointment feedback replies into one map;
  - replacing or appending a baby on the current record;
  - `getNameFromId`;
  - the per-baby appointment list.

Modules:

| module | file | contents |
|---|---|---|
| `Options` | options.dfy | `Option` with `GetOr`, the model of `x \|\| fallback` for a missing value |
| `Text` | text.dfy | `toLowerCase` (ASCII), `includes`, `trim`, JavaScript's `<` on strings |
| `Seqs` | seqs.dfy | `filter`, `find`, index removal, `slice` with negative indices |
| `Records` | records.dfy | born record, baby, medication, appointment, the scalar fields, the count invariant |
| `Sorting` | sorting.dfy | the comparator and a stable insertion sort, with permutation, order, stability and uniqueness |
| `ListView` | list_view.dfy | the table state and its derivation |
| `Address` | address.dfy | the address tree, its flattening, lookup by id |
| `Draft` | draft.dfy | the form's draft and its edits |
| `Cascade` | cascade.dfy | the draft with the selector lists, the cascade, the reset |
| `Aggregate` | aggregate.dfy | normalisation, update payload, feedback fold, current-record baby edits, appointment filter |

Behaviour of the code worth knowing:

- Choosing a status filter does not reset the page (`src/pages/baby.jsx:684-689`). `ListView.SetFilterStatus` keeps the page.
- The detail view turns a missing babies list into one blank baby, not into an empty list (`src/pages/baby.jsx:400-413`). Only `fetchBornWithAppointments` yields an empty list (`src/pages/baby.jsx:430-434`).
- The feedback requests are issued one after another with `await`, not concurrently (`src/pages/baby.jsx:153-166`). `Aggregate.FetchFeedback` is a sequential fold.
- The update request carries thirteen fields. `leave`, `babyCount` and the babies are not among them (`src/pages/baby.jsx:341-355`).

## Model

| member | source | states |
|---|---|---|
| Options.Option.GetOr | src/pages/baby.jsx:137-138 | `x \|\| fallback` on a value that may be missing: the value when present, the fallback otherwise |
| Text.LowerChar | src/pages/baby.jsx:257 | the ASCII model of `toLowerCase` on one character: `A`-`Z` become `a`-`z` and every other character stays |
| Text.Lower | src/pages/baby.jsx:257-261 | lower-casing keeps the length and lower-cases each position |
| Text.LowerIdempotent | src/pages/baby.jsx:257-261 | lower-casing twice is lower-casing once |
| Text.LowerConcat | src/pages/baby.jsx:257-261 | lower-casing distributes over concatenation |
| Text.Includes | src/pages/baby.jsx:257-261 | `hay.includes(needle)` holds exactly when `needle` occurs at some position of `hay` |
| Text.IncludesTrivial | src/pages/baby.jsx:257-261 | the empty text occurs in everything, and every text occurs in itself |
| Text.IncludesExtend | src/pages/baby.jsx:257-261 | a text containing the needle still contains it after text is added on either side |
| Text.TrimStartEmptyIff | src/pages/baby.jsx:253 | trimming the front leaves nothing exactly when the text is all whitespace |
| Text.TrimEndEmptyIff | src/pages/baby.jsx:253 | trimming the end leaves nothing exactly when the text is all whitespace |
| Text.TrimEmptyIff | src/pages/baby.jsx:253 | `value.trim() === ''` exactly when every character is ECMAScript whitespace or a line terminator |
| Text.Trim | src/pages/baby.jsx:253 | `trim` leaves a window of the text that neither starts nor ends with whitespace, and everything it cut off on either side is whitespace |
| Text.LessIrreflexive | src/pages/baby.jsx:97-98 | no string is `<` itself |
| Text.LessAsymmetric | src/pages/baby.jsx:97-98 | `a < b` and `b < a` never both hold |
| Text.LessTransitive | src/pages/baby.jsx:97-98 | `<` on strings is transitive |
| Text.LessTrichotomy | src/pages/baby.jsx:97-98 | any two strings are equal or one is `<` the other |
| Text.LessIffFirstDifference | src/pages/baby.jsx:97-98 | `a < b` exactly when `a` is a proper prefix of `b` or, at the first position where they differ, `a` has the smaller character |
| Seqs.SubsequenceReflexive | src/pages/baby.jsx:88 | a list is an order-preserving sublist of itself |
| Seqs.Filter | src/pages/baby.jsx:88 | `filter` keeps exactly the elements passing the test, no more than the input, in input order |
| Seqs.FilterMultiset | src/pages/baby.jsx:88 | `filter` keeps every copy of each passing element and no copy of a failing one |
| Seqs.FilterConcat | src/pages/baby.jsx:255-262 | filtering two lists laid end to end is filtering each |
| Seqs.FilterAll | src/pages/baby.jsx:87-89 | a test every element passes keeps the list |
| Seqs.FilterNone | src/pages/baby.jsx:87-89 | a test no element passes empties the list |
| Seqs.FilterFilter | src/pages/baby.jsx:84-89 | two filters in a row are one filter by both tests, in either order |
| Seqs.FilterBoth | src/pages/baby.jsx:84-89 | two filters in a row are one filter by a test holding exactly when both hold |
| Seqs.FindFirst | src/pages/baby.jsx:606 | `find` yields the first position passing the test, or nothing when no element passes |
| Seqs.RemoveIndex | src/pages/baby.jsx:500 | `filter((_, i) => i !== index)` drops exactly the element at `index` and keeps the rest in order; an index outside the list drops nothing |
| Seqs.RemoveLastAppended | src/pages/baby.jsx:500 | removing the element just appended restores the list |
| Seqs.RemoveIndexMultiset | src/pages/baby.jsx:500 | removing at a valid index loses exactly that element |
| Seqs.RemoveIndexSubsequence | src/pages/baby.jsx:500 | removing a position keeps the other elements in their order |
| Seqs.SubsequenceSkipHead | src/pages/baby.jsx:500 | a sublist of a list's tail is a sublist of the list |
| Seqs.RelativeIndex | src/pages/baby.jsx:109 | a `slice` bound counts from the end when negative and is clamped into the list |
| Seqs.Slice | src/pages/baby.jsx:109 | `slice` yields the whole window between its two bounds as `slice` reads them (negative from the end, clamped to the list), empty when they cross; for non-negative bounds, `min(end, len) - min(start, len)` elements from position `start` on |
| Seqs.SliceAdjacent | src/pages/baby.jsx:107-110 | two adjacent windows laid end to end are the window spanning both |
| Records.Set | src/pages/baby.jsx:547-553 | `{...info, [name]: value}` makes the named field the new value and keeps every other field |
| Records.InfoExtensional | src/pages/baby.jsx:547-553 | scalar fields agreeing one by one are the same fields |
| Records.SetLaws | src/pages/baby.jsx:547-553 | writing a field's own value changes nothing, and a second write to the same field overrides the first |
| Sorting.Compare | src/pages/baby.jsx:92-101 | the comparator is zero exactly for equal keys; ascending it is negative when the first key is `<`; descending, when the second is |
| Sorting.PrecedesAsymmetric | src/pages/baby.jsx:92-101 | the comparator never puts each of two records before the other |
| Sorting.PrecedesTotal | src/pages/baby.jsx:92-101 | neither of two records goes first exactly when their keys are equal |
| Sorting.NotPrecedesTransitive | src/pages/baby.jsx:92-101 | the comparator's "not after" is transitive, so it is a consistent comparator |
| Sorting.InsertFront | src/pages/baby.jsx:92-101 | inserting into a sorted list keeps it sorted and adds exactly the one element |
| Sorting.SortBy | src/pages/baby.jsx:92-101 | the sort returns a permutation of the input, of the same length, in comparator order |
| Sorting.SortedCons | src/pages/baby.jsx:92-101 | a sorted list stays sorted with an element in front that need not follow its head |
| Sorting.SortedTail | src/pages/baby.jsx:92-101 | the rest of a sorted list is sorted |
| Sorting.InsertFrontWithKey | src/pages/baby.jsx:92-101 | the inserted element goes before every element with its key and leaves other keys' order alone |
| Sorting.SortStable | src/pages/baby.jsx:92-101 | records with equal keys keep their input order |
| Sorting.SortedPairwise | src/pages/baby.jsx:92-101 | in the output no record is followed, however far off, by one the comparator puts first |
| Sorting.SortDirection | src/pages/baby.jsx:92-101 | neighbours with different keys are in ascending key order for `asc` and descending for `desc` |
| Sorting.SortedStableUnique | src/pages/baby.jsx:92-101 | two sorted lists with the same records in the same order under each key are equal |
| Sorting.SortedHeadsEqual | src/pages/baby.jsx:92-101 | two sorted lists with the same records per key start with the same record |
| Sorting.TailsAgree | src/pages/baby.jsx:92-101 | dropping a shared first record keeps two lists equal per key |
| Sorting.WithKeyHead | src/pages/baby.jsx:92-101 | a non-empty list has records under its first record's key |
| Sorting.HeadKeyMatches | src/pages/baby.jsx:92-101 | two sorted, per-key-equal lists cannot start with records in strict comparator order |
| Sorting.SortByIsTheStableSort | src/pages/baby.jsx:92-101 | any sorted and stable rearrangement of the input is the sort's output, so the model fixes the one result a stable `Array.prototype.sort` may give |
| Sorting.SortSortedIdentity | src/pages/baby.jsx:92-101 | a list already in order comes back unchanged |
| Sorting.SortIdempotent | src/pages/baby.jsx:92-101 | sorting twice is sorting once |
| ListView.LoadBorns | src/pages/baby.jsx:134-140 | a load replaces the full list and the search result with the response, or with nothing when the response is empty, and touches nothing else |
| ListView.Search | src/pages/baby.jsx:252-263 | blank text keeps the full list; otherwise a record is kept exactly when its mother name, a baby name or its mother phone, lower-cased, contains the lower-cased text, as often as it occurs in the input and in input order |
| ListView.MatchesSearchIff | src/pages/baby.jsx:258-261 | a record matches exactly when one of the texts the test looks at (mother name, each baby name, mother phone) contains the term once lower-cased |
| ListView.SearchFindsMotherNamePart | src/pages/baby.jsx:252-263 | searching for any piece of a record's mother name, in any case, finds that record |
| ListView.SearchConcat | src/pages/baby.jsx:255-262 | searching two lists laid end to end is searching each: every record is kept or dropped on its own |
| ListView.HandleSearch | src/pages/baby.jsx:247-264 | a search records the text, resets the page to 1 and rebuilds the result from the full list |
| ListView.SearchForgetsPreviousResult | src/pages/baby.jsx:247-264 | the previous search result has no influence on the next |
| ListView.LowerKeepsWhitespace | src/pages/baby.jsx:253-257 | lower-casing keeps blank text blank and non-blank text non-blank |
| ListView.SearchCaseInsensitive | src/pages/baby.jsx:247-264 | a search text and its lower-cased form select the same records |
| ListView.FilterByStatus | src/pages/baby.jsx:87-89 | `'all'` keeps the list; otherwise a record is kept exactly when its `leave` is the status, as often as it occurs and in input order |
| ListView.StatusFilterExtremes | src/pages/baby.jsx:87-89 | a status every record carries keeps the whole list, and a status no record carries empties it |
| ListView.SetFilterStatus | src/pages/baby.jsx:684-689 | choosing a status changes only the status; the page stays |
| ListView.KeyOf | src/pages/baby.jsx:95-96 | the sort reads `record[sortConfig.key]` and nothing else: changing another field leaves a record's key as it was |
| ListView.SortRecords | src/pages/baby.jsx:92-101 | the table's sort is a permutation in the order of the chosen field and direction, and records with equal keys keep their input order |
| ListView.SortedAndFiltered | src/pages/baby.jsx:83-104 | the table holds exactly the status-filtered records of the search result, sorted, with records of equal key in the order the filter left them |
| ListView.TableAfterSearch | src/pages/baby.jsx:83-104 | after a non-blank search with a status chosen, the table is the stable sort of the full list's records that match both |
| ListView.TwoStagesAreOne | src/pages/baby.jsx:84-89 | the search stage followed by the status stage is one filter by both tests |
| ListView.HandleSort | src/pages/baby.jsx:238-244 | choosing the current key while it is descending gives ascending, any other choice descending; the page goes back to 1 |
| ListView.HandleSortToggles | src/pages/baby.jsx:238-244 | choosing the same key again always flips the direction |
| ListView.TotalPages | src/pages/baby.jsx:131 | `Math.ceil(len / n)`: the fewest pages of `n` holding `len` records, zero exactly for an empty list |
| ListView.PageWindow | src/pages/baby.jsx:108-109 | page `p` spans positions `(p-1)*n` to `p*n`, clipped to the list, start not after end |
| ListView.PageSlice | src/pages/baby.jsx:107-110 | page `p` is the window from `(p-1)*n` to `p*n`, clipped to the list, so at most `n` rows; page 0 shows nothing |
| ListView.Paginated | src/pages/baby.jsx:107-110 | the screen shows the current page's window of the sorted table, at most ten rows, and nothing on page 0 |
| ListView.PageCount | src/pages/baby.jsx:131 | the table's page count is the fewest pages of ten that hold its rows, zero exactly when it is empty |
| ListView.FirstPagesPrefix | src/pages/baby.jsx:107-110 | the first `k` pages laid end to end are the list's first `k*n` records |
| ListView.PagesCoverList | src/pages/baby.jsx:107-131 | pages 1 to `totalPages` hold every record exactly once, in order |
| ListView.TwentyFiveRecords | src/pages/baby.jsx:107-131 | 25 records make three pages, the last holding five |
| ListView.NavigationBounds | src/pages/baby.jsx:267-270 | previous never goes below 1 and next never beyond `totalPages`; both stay in `[1, totalPages]` from inside it, and with no pages next gives 0 |
| ListView.PreviousPage | src/pages/baby.jsx:269 | previous goes one page back from a page after the first, and to page 1 otherwise |
| ListView.NextPage | src/pages/baby.jsx:270 | next goes one page on from a page before the last, and to the page count otherwise |
| ListView.NavigationInverse | src/pages/baby.jsx:269-270 | inside `[1, totalPages]` next undoes previous and previous undoes next, except at the ends where the clamp holds the page |
| ListView.GoToFirstPage | src/pages/baby.jsx:267 | first sets page 1 and nothing else |
| ListView.GoToLastPage | src/pages/baby.jsx:268 | last sets the page count and nothing else |
| ListView.GoToPreviousPage | src/pages/baby.jsx:269 | previous sets the page one back, or 1 from the first page (or below it), and nothing else |
| ListView.GoToNextPage | src/pages/baby.jsx:270 | next sets the page one on while it is before the page count, otherwise the page count, and nothing else |
| ListView.NavigationKeepsRows | src/pages/baby.jsx:267-270 | navigation changes only which slice is shown, never the table's records |
| ListView.EmptyResultPageZero | src/pages/baby.jsx:267-270 | with an empty table, last and next lead to page 0, which shows nothing |
| Address.FlattenSector | src/pages/baby.jsx:189-193 | a sector keeps its id and name, and a missing cells list becomes empty |
| Address.FlattenSectors | src/pages/baby.jsx:188-195 | a district's sectors become one flat sector each, in order |
| Address.FlattenDistricts | src/pages/baby.jsx:187-196 | the flat sectors of a run of districts are all flattened forms of sectors those districts list |
| Address.FlattenProvinces | src/pages/baby.jsx:186-196 | the flat sectors of a run of provinces are all flattened forms of sectors the tree declares |
| Address.Flatten | src/pages/baby.jsx:185-197 | no data gives no sectors; the flat list holds exactly the flattened forms of the sectors the tree declares |
| Address.FlattenSectorsConcat | src/pages/baby.jsx:186-196 | flattening keeps the sectors of a district in order |
| Address.FlattenDistrictsConcat | src/pages/baby.jsx:186-196 | flattening keeps the districts' sectors in district order |
| Address.FlattenConcat | src/pages/baby.jsx:186-196 | flattening keeps province order: two runs of provinces give the first run's sectors, then the second's |
| Address.FlattenSectorsMembership | src/pages/baby.jsx:188-195 | a district contributes exactly its sectors |
| Address.FlattenDistrictsMembership | src/pages/baby.jsx:187-196 | a province contributes exactly the sectors of its districts |
| Address.FlattenMembership | src/pages/baby.jsx:185-197 | the flat list holds exactly the sectors the tree declares, missing lists counting as empty |
| Address.LoadAddress | src/pages/baby.jsx:199-208 | the sector list becomes the flattened tree; with a sector the cells become the first sector's; with a cell as well the villages become the first cell's; otherwise those lists stay |
| Address.FindById | src/pages/baby.jsx:606 | `find(item => item.id == id)` yields the first item with the id, or nothing when none has it |
| Address.GetNameFromId | src/pages/baby.jsx:605-608 | the name of the first item with the id, or the id itself when none has it |
| Address.FirstWithIdUnique | src/pages/baby.jsx:606 | only one item is the first with a given id |
| Draft.FirstIdOr | src/pages/baby.jsx:452-464 | a list's first id, or `''` for an empty list |
| Draft.ResetForm | src/pages/baby.jsx:449-476 | the reset gives an unsaved draft with one blank baby and a count of 1, today's date, empty mother and father names, phones and national ids, delivery `Normal`, leave `yes` and status `go home`, pre-selecting the first health centre, sector, cell and village listed, or `''` |
| Draft.SetField | src/pages/baby.jsx:547-553 | a field change sets the named field and changes no other field, baby or count |
| Draft.AddBaby | src/pages/baby.jsx:479-494 | one blank baby is appended after the others and the count goes up by one |
| Draft.RemoveBaby | src/pages/baby.jsx:497-506 | with at most one baby nothing happens; otherwise the baby at the index goes and the count goes down by one |
| Draft.AddBabyKeepsCount | src/pages/baby.jsx:479-494 | adding keeps the count equal to the number of babies |
| Draft.RemoveBabyKeepsCount | src/pages/baby.jsx:497-506 | removing at a valid index keeps the count equal to the number of babies and keeps at least one baby |
| Draft.RemoveBabyOutOfRangeBreaksCount | src/pages/baby.jsx:497-506 | removing at an index outside the list drops no baby but still lowers the count |
| Draft.AddThenRemoveLast | src/pages/baby.jsx:479-506 | adding a baby and removing the last one restores the draft |
| Draft.RemoveBabyLosesOnlyThatBaby | src/pages/baby.jsx:497-506 | removing loses exactly the indexed baby and keeps the others in order |
| Draft.SetBaby | src/pages/baby.jsx:559-562 | a baby field change sets that field only; a weight input stores the text entered |
| Draft.SetBabyField | src/pages/baby.jsx:556-568 | only the indexed baby changes, and only the named field |
| Draft.AddMedication | src/pages/baby.jsx:509-524 | only the indexed baby changes: one blank medication is appended to its list |
| Draft.RemoveMedication | src/pages/baby.jsx:527-544 | only the indexed baby changes: the indexed medication leaves its list |
| Draft.SetMedication | src/pages/baby.jsx:577-580 | a medication field change sets that field only |
| Draft.SetMedicationField | src/pages/baby.jsx:571-592 | only the indexed medication of the indexed baby changes, and only the named field |
| Draft.NestedEditsKeepCount | src/pages/baby.jsx:509-592 | no baby or medication edit changes the count or the number of babies |
| Draft.AddThenRemoveMedication | src/pages/baby.jsx:509-544 | adding a medication and removing the last one restores the draft |
| Draft.SetBabyFieldOverrides | src/pages/baby.jsx:556-568 | a second write to the same baby field overrides the first |
| Cascade.CellsOf | src/pages/baby.jsx:275-276 | the cells of the first sector with the id, or none when no sector has it |
| Cascade.VillagesOf | src/pages/baby.jsx:292-293 | the villages of the first offered cell with the id, or none when no cell has it or it lists none |
| Cascade.SectorChange | src/pages/baby.jsx:273-287 | choosing a sector sets it and clears the cell and village; the chosen sector's cells are offered and no village; nothing else changes |
| Cascade.CellChange | src/pages/baby.jsx:290-302 | choosing a cell sets it and clears the village; the sector stays; the chosen cell's villages are offered |
| Cascade.VillageChange | src/pages/baby.jsx:305-310 | choosing a village changes only the village |
| Cascade.ChoicesKeepConsistent | src/pages/baby.jsx:273-310 | after any choice, the offered cells belong to the chosen sector and the offered villages to the chosen cell |
| Cascade.OtherFieldKeepsConsistent | src/pages/baby.jsx:547-553 | changing a field other than the location keeps the selector lists in step |
| Cascade.BabyEditsKeepConsistent | src/pages/baby.jsx:479-568 | adding, removing or editing a baby keeps the selector lists in step |
| Cascade.CellChangeOverrides | src/pages/baby.jsx:290-302 | a second cell choice replaces the first entirely |
| Cascade.SectorChangeForgetsBelow | src/pages/baby.jsx:273-310 | choosing a sector undoes every earlier cell and village choice |
| Cascade.ResetKeepingLists | src/pages/baby.jsx:449-476 | the reset gives one blank baby and pre-selects the first health centre, sector, cell and village as the lists stand, leaving the lists alone |
| Cascade.ResetForgetsDraft | src/pages/baby.jsx:449-476 | the reset forgets the draft it replaces: its result depends only on the lists, the health centres and the date |
| Cascade.ResetAfterLoadConsistent | src/pages/baby.jsx:174-214 | on the lists the address load leaves, the reset's selection is consistent |
| Cascade.ResetAfterOtherSectorInconsistent | src/pages/baby.jsx:449-476 | after a sector other than the first was chosen, the reset selects the first sector with a cell of the other sector |
| Cascade.FirstSelection | src/pages/baby.jsx:202-208 | the lists the first sector and its first cell determine |
| Cascade.Reset | src/pages/baby.jsx:449-476 | the reset with the lists re-derived from the first sector always starts consistent |
| Cascade.ResetAgreesWhenAtFirst | src/pages/baby.jsx:449-476 | where the lists already belong to the first sector, the corrected reset is the reset as written |
| Aggregate.NormalizeDetail | src/pages/baby.jsx:400-413 | a missing babies list becomes one blank baby; missing appointments and medications become empty; present lists are kept |
| Aggregate.NormalizeWithAppointments | src/pages/baby.jsx:430-434 | a missing babies list becomes empty, a missing appointments list becomes empty, medications pass through |
| Aggregate.AsRaw | src/pages/baby.jsx:400-413 | a normalised record in the service's shape keeps its fields and its babies |
| Aggregate.NormalizeIdempotent | src/pages/baby.jsx:400-434 | normalising a normalised record changes nothing |
| Aggregate.NormalizationsAgreeIff | src/pages/baby.jsx:400-434 | the two normalisations agree exactly on records that come with babies and medications lists |
| Aggregate.UpdatePayload | src/pages/baby.jsx:341-355 | the payload carries every scalar field but `leave`: read back with the draft's `leave` it gives the draft's fields |
| Aggregate.ApplyPayload | src/pages/baby.jsx:341-355 | reading a payload back takes `leave` from outside |
| Aggregate.PayloadRoundTrip | src/pages/baby.jsx:341-355 | the payload carries every scalar field but `leave` |
| Aggregate.PayloadEqualIff | src/pages/baby.jsx:341-355 | two drafts send the same payload exactly when their scalar fields agree apart from `leave` |
| Aggregate.UpdateRequest | src/pages/baby.jsx:336-357 | nothing is sent for a record without an id; otherwise the record's id with the draft's payload |
| Aggregate.FeedbackOf | src/pages/baby.jsx:155-164 | a reply's data, `[]` for null data, and `[]` for a failure |
| Aggregate.IdsOfAll | src/pages/baby.jsx:154-165 | the ids gathered one appointment at a time are the ids of all appointments |
| Aggregate.RecordNext | src/pages/baby.jsx:154-165 | recording the next reply keeps every id seen so far mapped to the reply of its last appointment |
| Aggregate.FetchFeedback | src/pages/baby.jsx:147-171 | nothing is set without appointments; otherwise the map holds every appointment id, each mapped to its reply, the later reply winning for a shared id |
| Aggregate.FeedbackExample | src/pages/baby.jsx:147-171 | a failed first reply and a successful second give `A1 -> []` and `A2 ->` the data |
| Aggregate.ReplaceBabyById | src/pages/baby.jsx:637-643 | each baby whose id equals the updated baby's is replaced by it, the others and the rest of the record kept |
| Aggregate.ReplaceBabyLaws | src/pages/baby.jsx:637-643 | replacing twice is replacing once, and an id no baby has changes nothing |
| Aggregate.ReplaceBabyKeepsCount | src/pages/baby.jsx:637-643 | replacing keeps the count invariant and puts the updated baby at every position with its id |
| Aggregate.AppendBaby | src/pages/baby.jsx:645-652 | the new baby is appended after the others and the count goes up by one |
| Aggregate.AppendBabyKeepsCount | src/pages/baby.jsx:645-652 | appending keeps the count invariant, and removing the appended baby restores the record |
| Aggregate.DetailEditAppendsCopy | src/pages/baby.jsx:1133-1155 | the detail view's baby edit hands the saved baby to `handleAddBaby`, so the record keeps the old copy, gains the edited one with the same id and counts one baby more; replacing by id keeps one copy and the count |
| Aggregate.AppointmentsForBaby | src/pages/baby.jsx:1393-1395 | a baby's list holds exactly the appointments carrying its id, in order |
| Aggregate.AppointmentsSplitByBaby | src/pages/baby.jsx:1393-1395 | every copy of an appointment is listed under its own baby's id and never under another |

## Findings

| source | as written | input that shows it | evidently intended | confidence | as-written member | corrected member |
|---|---|---|---|---|---|---|
| src/pages/baby.jsx:449-476 | the reset pre-selects the first sector but takes the cell and village from the lists as they stand, which belong to the last sector chosen | two sectors `s1` (cell `c1`) and `s2` (cell `c2`); choose `s2`, then reset: the draft holds sector `s1` with cell `c2`, and the cell selector offers only `c2` | the reset re-derives the cell and village lists from the first sector, as the address load does | medium, not executed | Cascade.ResetAfterOtherSectorInconsistent | Cascade.Reset |
| src/pages/baby.jsx:1133-1155 | the detail view's baby edit passes the saved baby to `onAddBaby` (:1149), which is `handleAddBaby` (:1022, :645-652) | a record with one baby `b1`; edit its name and save: the current record holds the old `b1` and the edited `b1`, with a count of 2 | the saved baby replaces the one with its id, as `handleUpdateBaby` (:637-643) does | medium, not executed | Aggregate.DetailEditAppendsCopy | Aggregate.ReplaceBabyById |

## Left out

- Network calls, notifications, logging, the token and the role cookie: fetched data and feedback replies are parameters (`ListView.LoadBorns`, `Address.LoadAddress`, `Aggregate.FetchFeedback`).
- Error paths of the primary fetches: they only raise a notification and leave the state as it was, so they are the identity and are not written out.
- `fetchHealthCenters`: it logs duplicate ids and stores the list; with null data `response.data.map` throws first and the list stays as it was. The list is a parameter of the reset.
- Busy flags, asynchrony, stale responses and modal open/close state: these belong to the interface, not the data.
- The clock and the locale: today's date is a parameter of `Draft.ResetForm`, and date formatting is not modelled.
- Baby weights: they come from number inputs and are stored as the text entered, never computed on.
- Loose equality in `find`: ids are one type, so `==` between a string and a number is not modelled.
- The detail view's appointment add (`src/pages/baby.jsx:1124-1131`): it keeps a local appointment list for display, and the component does not receive `setCurrentBorn`, so its update of the current record is not modelled.
- `src/components/Sidebar.jsx`: it is navigation markup.
- Text.Lower: ASCII only; `toLowerCase` folds the whole of Unicode.
- Text.Less: compares characters, where JavaScript compares UTF-16 code units; the two agree outside the supplementary planes.
- ListView.Search: assumes the mother name, the mother phone and every baby name are strings; the source throws on a record missing any of them.
- Missing fields: every record is taken to carry all fourteen scalar fields as strings. With a key missing from the records, the comparator at `src/pages/baby.jsx:97-100` returns 0 for every pair and the sort keeps the input order; that case is not modelled.
- Draft.SetBabyField: requires a baby index inside the list; with another index the source would add a baby holding only the edited field.
- Draft.AddMedication: requires a baby index inside the list; with another index the source throws.
- Draft.RemoveMedication: requires a baby index inside the list; with another index the source throws.
- Draft.SetMedicationField: requires both indices inside their lists; with others the source throws or adds a medication holding only the edited field.
- Draft.AddMedication: a baby without a medications list is not modelled; every baby carries one, possibly empty.
- Aggregate.FetchFeedback: requires exactly one reply per appointment, since the replies stand for the requests the loop makes.
- Aggregate.UpdateRequest: a numeric id of 0, also falsy, is not modelled, since ids are strings.
