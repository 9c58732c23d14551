# Admin dashboard: service list query pipeline and mock service store

This project models the two pieces of logic in a small React admin dashboard.

- **The services list view** shows the service records as a table. It works as a query pipeline. Clicking a column header toggles the sort configuration (`requestSort`). The view copies the records and sorts the copy with a three-way comparator on one column, with the sign flipped for descending order. It then filters the sorted copy. The filter checks the category, the status, and a case-insensitive search on name or description. Two small mappings choose the sort icon and the status badge, and a single-field update changes the filter inputs.
- **The mock service store** (`servicesAPI`) keeps a module-level array of records. `create` pushes a record with id `length + 1` and the current timestamp. `update` overwrites the first record with a matching id by a field-by-field merge. `delete` splices out the first record with a matching id. `getById` returns the first match. `update`, `delete` and `getById` fail with `Service not found` when no record has the id.

Modules, one per file:

- `ServiceModel` (`service.dfy`): the service record and the four sortable columns.
- `Strings` (`strings.dfy`): JavaScript's `<` on strings, ASCII `toLowerCase`, and `includes`.
- `ApiService` (`api_service.dfy`): the store. It is a class `ServiceStore` whose field `services: seq<Service>` the state-changing methods reassign. Each lookup is a linear `findIndex` scan (`FindIndex`), proved against the function `IndexOf`. Each method returns a `Result` holding the record or `ServiceNotFound`. The functions `AfterCreate` and `AfterDelete` describe the store after each change, and the lemmas about ids are stated over them.
- `ServicesList` (`services_list.dfy`): the view's pipeline. `SortedServices` copies the records into a fresh array and sorts it in place (`SortInPlace`). It is proved to return a permutation that is sorted under the comparator and keeps tied records in their input order, as the stable `Array.prototype.sort` does; these properties determine the result uniquely (`StableSortIsUnique`). `FilterServices` is the filter. `FilteredServices` composes the two.

Three consequences of the store's code that the model makes explicit:

- **Ids can repeat.** `create` gives the new record the id `length + 1`. When the ids are exactly 1..n, as in the initial data, a `delete` of any record but the last followed by a `create` gives the new record the id n, which the last record still holds (`DeleteThenCreateDuplicatesId`, and `MockDeleteThenCreateDuplicatesId` on the initial data).
- **`update` can change `id` and `createdAt`.** It spreads the supplied data over the stored record, so a supplied `id` or `createdAt` replaces the stored one. Both are kept when the update does not supply them (`MergePreservesIdentity`).
- **`delete` removes only the first match.** After a successful `delete`, the id is gone exactly when no later record shares it (`DeleteRemovesId`). With a duplicated id, the id can still be found (`DuplicateIdSurvivesDelete`).

## Model

| member | source | states |
|---|---|---|
| `Strings.Less` | src/pages/ServicesList.jsx:65-68 | JavaScript's `<` on strings: lexicographic by character, a proper prefix before its extensions; its order properties are the four lemmas below |
| `Strings.LessIrreflexive` | src/pages/ServicesList.jsx:65-70 | no string is `<` itself, so a record never compares unequal to itself |
| `Strings.LessAsymmetric` | src/pages/ServicesList.jsx:65-70 | `a < b` and `b < a` never both hold, so the comparator's two branches exclude each other |
| `Strings.LessTransitive` | src/pages/ServicesList.jsx:65-70 | string `<` is transitive |
| `Strings.LessTotal` | src/pages/ServicesList.jsx:65-71 | two strings are equal or ordered one way, so the comparator returns 0 exactly for equal fields |
| `Strings.ToLower` | src/pages/ServicesList.jsx:90-91 | lower-casing keeps the length, leaves no upper-case letter, keeps every other character, and shifts each upper-case letter to its lower-case form |
| `Strings.ToLowerAppend` | src/pages/ServicesList.jsx:90-91 | lower-casing a concatenation is the concatenation of the lower-cased parts |
| `Strings.ToLowerIdempotent` | src/pages/ServicesList.jsx:90-91 | lower-casing twice is lower-casing once |
| `Strings.Includes` | src/pages/ServicesList.jsx:90-91 | `s.includes(p)`: `p` is a prefix of `s` or of some suffix of `s`; `IncludesIffOccurs` states its meaning |
| `Strings.IncludesIffOccurs` | src/pages/ServicesList.jsx:90-91 | `includes(p)` holds exactly when `p` occurs as a contiguous slice at some position |
| `ApiService.IndexOf` | src/services/apiService.js:105 | the result is -1 exactly when no record has the id; otherwise it is the first position whose record has the id |
| `ApiService.FindIndex` | src/services/apiService.js:105 | the linear scan returns exactly `IndexOf`: the first match, or -1 |
| `ApiService.ServiceStore.constructor` | src/services/apiService.js:16-57 | the store starts with the five sample records |
| `ApiService.ServiceStore.GetAll` | src/services/apiService.js:60-68 | returns the whole store in insertion order |
| `ApiService.ServiceStore.GetById` | src/services/apiService.js:70-82 | fails with `ServiceNotFound` exactly when no record has the id; otherwise returns the first record with that id; the store is unchanged |
| `ApiService.ServiceStore.Create` | src/services/apiService.js:84-98 | appends exactly one record, with id old length + 1, the draft's fields and the supplied timestamp; earlier records are unchanged |
| `ApiService.ServiceStore.Update` | src/services/apiService.js:100-114 | on an absent id, fails with `ServiceNotFound` and leaves the store unchanged; otherwise replaces only the first matching record, by the merge of that record with the patch, and returns it |
| `ApiService.ServiceStore.Delete` | src/services/apiService.js:116-130 | on an absent id, fails with `ServiceNotFound` and leaves the store unchanged; otherwise removes the first matching record, returns it, and keeps the rest in order |
| `ApiService.Merge` | src/services/apiService.js:107 | `{ ...current, ...patch }`: each supplied field from the patch, every other from the stored record; stated by `MergeOverridesSupplied` |
| `ApiService.MergeOverridesSupplied` | src/services/apiService.js:107 | the merged record takes every supplied field from the patch and keeps every unsupplied field of the stored record |
| `ApiService.MergePreservesIdentity` | src/services/apiService.js:107 | an update that supplies neither `id` nor `createdAt` keeps both |
| `ApiService.MergeIdempotent` | src/services/apiService.js:107 | applying the same update twice equals applying it once |
| `ApiService.AfterDeleteKeepsOrder` | src/services/apiService.js:123 | `splice(index, 1)` shrinks the store by one; records before the index stay put and records after it move one place left |
| `ApiService.CreateKeepsIdsSequential` | src/services/apiService.js:90-94 | if the ids are exactly 1..n, `create` makes them exactly 1..n+1 |
| `ApiService.SequentialIdsAreUnique` | src/services/apiService.js:16-57 | ids 1..n in order are pairwise distinct |
| `ApiService.DeleteThenCreateDuplicatesId` | src/services/apiService.js:90 | from ids 1..n, deleting any record but the last and then creating gives the new record the id n, which the last record still holds |
| `ApiService.DeleteLastThenCreateKeepsIdsSequential` | src/services/apiService.js:90 | deleting the last record of ids 1..n and then creating restores ids 1..n |
| `ApiService.MockDeleteThenCreateDuplicatesId` | src/services/apiService.js:16-57 | on the initial data, deleting id 1 and then creating leaves two records with id 5 |
| `ApiService.DeleteRemovesId` | src/services/apiService.js:121-123 | after a successful delete, no record with the id is left exactly when no record after the deleted one had the id |
| `ApiService.UniqueDeletedIdIsGone` | src/services/apiService.js:121-123 | with unique ids, no record with the id is left after a successful delete, so a later `getById` fails |
| `ApiService.DuplicateIdSurvivesDelete` | src/services/apiService.js:121-123 | with a duplicated id, a delete removes only the first match and the id can still be found |
| `ApiService.UpdateKeepsIdsUnique` | src/services/apiService.js:105-107 | an update that does not supply `id` keeps the ids unique |
| `ApiService.DeleteKeepsIdsUnique` | src/services/apiService.js:121-123 | a delete keeps the ids unique |
| `ServiceModel.Field` | src/pages/ServicesList.jsx:65-68 | `record[sortConfig.key]`: the column the key names |
| `ServicesList.RequestSort` | src/pages/ServicesList.jsx:53-59 | the key becomes the clicked one; the direction becomes descending exactly when that key was already current and ascending, and ascending otherwise |
| `ServicesList.RequestSortTwiceOnCurrentKey` | src/pages/ServicesList.jsx:53-59 | clicking the current column twice returns to the same configuration |
| `ServicesList.RequestSortTwiceOnOtherKey` | src/pages/ServicesList.jsx:53-59 | clicking another column sorts ascending; clicking it again sorts descending |
| `ServicesList.Compare` | src/pages/ServicesList.jsx:64-72 | the comparator returns -1, 0 or 1; it returns 0 exactly when the chosen fields are equal; it is negative exactly when the first field is smaller (ascending) or larger (descending) |
| `ServicesList.CompareAntisymmetric` | src/pages/ServicesList.jsx:64-72 | swapping the two records negates the comparison |
| `ServicesList.CompareDescNegatesAsc` | src/pages/ServicesList.jsx:66-69 | the descending comparison is the negated ascending one |
| `ServicesList.CompareLeTransitive` | src/pages/ServicesList.jsx:64-72 | "compares at most 0" is transitive, so the comparator is a consistent order |
| `ServicesList.SortedMeansOrderedFields` | src/pages/ServicesList.jsx:64-72 | in a sorted result no adjacent pair has `a[key] > b[key]` when ascending, and none has `a[key] < b[key]` when descending |
| `ServicesList.SortedAllPairs` | src/pages/ServicesList.jsx:64-72 | in a sorted result every pair, not only adjacent ones, is in comparator order |
| `ServicesList.SwapKeepsTieOrder` | src/pages/ServicesList.jsx:64-72 | swapping two adjacent records with different keys keeps the relative order of every group of records with equal keys |
| `ServicesList.Insert` | src/pages/ServicesList.jsx:64-72 | moving one element left past the elements it must precede extends the sorted prefix by one; the array stays a permutation of its old contents and keeps tied records in their old order |
| `ServicesList.SortInPlace` | src/pages/ServicesList.jsx:64-72 | sorting the array in place leaves it sorted under the comparator, a permutation of its old contents, and with tied records in their old order (a stable sort) |
| `ServicesList.SortedServices` | src/pages/ServicesList.jsx:62-74 | sorting a copy returns a permutation of the records that is sorted under the comparator and keeps tied records in input order; the input is not changed |
| `ServicesList.StableSortIsUnique` | src/pages/ServicesList.jsx:62-74 | two lists that are both sorted under the comparator and both keep the tie order of the same input are equal, so the stable sort's result is fully determined |
| `ServicesList.StableTieExample` | src/pages/ServicesList.jsx:64 | sorting the initial data by category keeps "Mobile App Design" before "Logo Design" |
| `ServicesList.SortByNameExample` | src/pages/ServicesList.jsx:64-72 | sorting "SEO Optimization" and "Logo Design" by name puts "Logo Design" first when ascending and last when descending |
| `ServicesList.HandleFilterChange` | src/pages/ServicesList.jsx:44-50 | the named filter takes the new value and the other two are unchanged |
| `ServicesList.HandleFilterChangeLastWins` | src/pages/ServicesList.jsx:44-50 | a later change to the same filter overrides an earlier one |
| `ServicesList.CategoryPasses` | src/pages/ServicesList.jsx:80-82 | the category check: an empty or "All" choice passes, otherwise the record's category must equal it; stated by `ChoiceChecks` |
| `ServicesList.StatusPasses` | src/pages/ServicesList.jsx:85-87 | the status check, the same shape on `status`; stated by `ChoiceChecks` |
| `ServicesList.SearchPasses` | src/pages/ServicesList.jsx:90-93 | the search check: an empty search passes, otherwise the lower-cased search must be included in the lower-cased name or description; stated by `SearchCheck` |
| `ServicesList.Passes` | src/pages/ServicesList.jsx:78-95 | the filter callback: a record is kept exactly when it passes all three checks |
| `ServicesList.ChoiceChecks` | src/pages/ServicesList.jsx:80-87 | a category (or status) that is non-empty and not "All" passes exactly the records with that value; an empty or "All" choice passes every record |
| `ServicesList.SearchCheck` | src/pages/ServicesList.jsx:90-93 | a non-empty search passes a record exactly when the lower-cased search occurs in the lower-cased name or in the lower-cased description |
| `ServicesList.SearchIgnoresCase` | src/pages/ServicesList.jsx:90-93 | two searches that agree once lower-cased pass the same records |
| `ServicesList.FilterServices` | src/pages/ServicesList.jsx:77-97 | the result is an order-preserving subsequence of the input; every kept record passes all three checks; every passing record is kept; nothing else appears |
| `ServicesList.SubsequenceOfSortedIsSorted` | src/pages/ServicesList.jsx:78 | filtering a sorted list leaves it sorted |
| `ServicesList.FilterMultiset` | src/pages/ServicesList.jsx:77-97 | a passing record is kept as many times as it occurs, and a failing one is dropped entirely |
| `ServicesList.FilterPermutation` | src/pages/ServicesList.jsx:77-97 | filtering two permutations of each other gives permutations of each other, so sorting before filtering changes only the order |
| `ServicesList.NoFilterKeepsAll` | src/pages/ServicesList.jsx:80-93 | with category and status empty or "All" and an empty search, the filter returns the list unchanged |
| `ServicesList.WithKeyOfFilter` | src/pages/ServicesList.jsx:77-97 | the records with a given key in the filtered list are the filtered records with that key, in the same order |
| `ServicesList.FilterKeepsTieOrder` | src/pages/ServicesList.jsx:77-97 | filtering two lists with the same tie order gives lists with the same tie order |
| `ServicesList.InitialView` | src/pages/ServicesList.jsx:12-20 | the initial filters keep every record; the initial sort shows the down arrow on the date column, and a click there sorts it ascending |
| `ServicesList.FilteredServices` | src/pages/ServicesList.jsx:77-97 | the result is sorted under the comparator, holds exactly the records of the input that pass the filter, as often as the filter of the input does, and keeps tied records in input order |
| `ServicesList.ActiveDesignExample` | src/pages/ServicesList.jsx:80-87 | on the initial data, status "active" and category "Design" keep exactly "Logo Design" |
| `ServicesList.SearchExample` | src/pages/ServicesList.jsx:90-93 | on the initial data, the search "seo" passes "SEO Optimization" |
| `ServicesList.SortIcon` | src/pages/ServicesList.jsx:100-105 | the icon is the neutral arrow exactly for a column other than the current key, the up arrow exactly for the current key ascending, and the down arrow exactly for it descending |
| `ServicesList.SortIconAfterRequest` | src/pages/ServicesList.jsx:53-59 | after a click, only the clicked column shows an arrow, and it points down exactly when that column was already ascending |
| `ServicesList.StatusClass` | src/pages/ServicesList.jsx:114-127 | "active" gets the green badge, "pending" yellow, "completed" blue, "cancelled" red, and every other status the grey one |
| `ServicesList.StatusClassDistinguishesStatuses` | src/pages/ServicesList.jsx:114-123 | the four known statuses get four different badge styles |

## Left out

- The simulated latency (`setTimeout`) and the Promise resolve/reject wrapping of every store operation. Each operation is a synchronous method returning a `Result`. The rejection `{ message: 'Service not found' }` is the error value `ServiceNotFound`.
- `new Date().toISOString()` in `create`: the clock is an input, the `now` parameter.
- The axios instance and its request interceptor, which read `localStorage` and build a Bearer header. This is I/O through a library.
- Aliasing: `getAll` returns the live array, so a caller holding it would see later `push`, `splice` and slot replacements. The model returns a value. Records themselves are never changed in place (`update` stores a new object), so the record `getById` returns needs no aliasing model.
- `parseInt(id)`: ids are taken as integers directly.
- `ServiceStore.Create`: the input is the four fields the form sends (name, category, description, status). Other keys in the submitted object are not modelled. That includes an `id` key, which would override `length + 1`, and a missing key, which would leave the field undefined.
- `ServiceStore.Update`: a `Patch` has only the six record fields. The spread also copies any other key of the submitted object into the record, and a key present with the value `undefined` overwrites the stored field with `undefined`; neither is modelled.
- `Strings.ToLower` handles ASCII letters only, not the full Unicode case mapping of `toLowerCase`.
- `Strings.Less` compares Unicode scalar values. JavaScript compares UTF-16 code units, and the two orders differ only for characters outside the Basic Multilingual Plane.
- `ServicesList.SortInPlace` sorts by insertion rather than by the engine's own algorithm. Because a stable sort's result is unique (`StableSortIsUnique`), the two give the same array; the number of comparator calls is not modelled.
- `formatDate`: it uses `Date` and locale-dependent formatting.
- `fetchServices` with its loading and error flags, and all JSX rendering. This is asynchronous UI state.
- The form's rule that name and category be non-empty is checked by the add-service view before it calls the store. The store does not check it, so it is not a precondition of `ServiceStore.Create`.
- The dashboard statistics, the navigation layout, the login form and the mock authentication context. These are UI or I/O with no decisions to verify.
