# owl-db document engine, modelled in Dafny

owl-db is a MongoDB-style document layer over an ordered key-value store. A
collection keeps each document, serialised, under the primary key
`name|docID`. When a document is inserted, every declared indexable field it
holds gets a secondary index entry `name|field|value|docID → docID`. Updates
reconcile the entries under a different key, `field|value|docID` (see
Findings), so after an update the entries no longer follow this layout.

This project models the engine's core and proves what it does:

- the update executor (`applyUpdate` and its path helpers) — `update.dfy`, `update_laws.dfy`;
- the filter evaluator — `filter.dfy`, `filter_laws.dfy`;
- projection — `projection.dfy`, `projection_laws.dfy`;
- the index reconciler `nativeUpdate` — `index.dfy`, `index_laws.dfy`;
- the scan pipeline `nativeFind` / `nativeFindOne` — `scan.dfy`, `scan_laws.dfy`;
- the collection operations (insert, find, update, delete) — `crud.dfy`, `crud_laws.dfy`;
- collection set-up and indexed-field extraction — `collection.dfy`;
- `RemoveDuplicates` — `utils.dfy`;
- values, dot paths and the store itself — `values.dfy`, `store.dfy`.

Modelling choices:

- **Values.** A document is a `map<string, Value>` over
  `Null | Bool | Int | Float | Str | Time | Arr | Obj`. Go's `float64` is
  `real`; a time is an integer instant.
- **Go map iteration order.** Go iterates maps in an unspecified order. Update documents,
  filters and operator objects are therefore sequences of entries, in the
  order one iteration visits them.
- **Store.** The store is a `map<Key, Record>`. A key is structured: `Primary` is `name|docID`,
  `Index` is `name|field|value|docID`, and `BareIndex` is `field|value|docID`. A record is
  either an encoded document or raw bytes. Index entries hold raw bytes, so they
  never decode as documents.
- **Transactions.** A transaction is a copy of the committed map. An operation commits
  its copy only when it succeeds.
- **Parameters.** Several inputs are passed in rather than computed:
  - the keys the prefix iterator visits, in order;
  - the regular-expression matcher;
  - the clock;
  - fresh object IDs.

  The iterator is required to visit exactly the keys under the collection's prefix (`Scan.ScanOf`).
- **Operations.** Imperative code is modelled as methods with loops. Each loop is
  proved equal to a specification function, and the properties are proved
  about those functions.

Where the code and its description disagree, the model follows the code:

- **Missing sort values.** A sort value that is missing sorts *first* when ascending and last when
  descending. The inline comment says the opposite.
- **Descending time sort.** Times sorted descending compare with "after or equal". The comparator is
  therefore not a strict order on them (`ScanLaws.EqualValues`), which `sort.Slice` requires.
  This non-strictness belongs to the comparator's `time.Time` branch (native.find.go:185-191).
  A decoded stored time is a `primitive.DateTime`, whose branch (native.find.go:179-184) compares
  strictly. The model has one time kind and follows the `time.Time` branch (see the BSON line
  under "Left out").
- **Incomparable values.** `compare` answers -1 for every pair it does not order. So `$lt` and `$lte`
  hold, for instance, between a string and a number.
- **Projected documents.** `UpdateMany` and `DeleteMany` act on the documents as the search returns
  them. That is after projection with no select map, which removes empty nested objects.
  `UpdateMany` writes those projected documents back, so empty nested objects
  are lost (`CrudLaws.UpdateManySeesSettled`).
- **Deletes.** No delete operation removes index entries (`CrudLaws.DeleteLeavesEntries`).
- **Update index keys.** `nativeUpdate` does not keep index entries consistent with the inserted ones
  (see Findings). The update operations take the key scheme as a parameter. `KeyScheme.Bare` is
  the code as written and `KeyScheme.Prefixed` is the corrected program.

## Model

| member | source | states |
|---|---|---|
| Values.Split | owl-db-core/methods.find.go:327 | a split path is never empty and no segment contains a dot |
| Values.JoinSplit | owl-db-core/methods.find.go:327-329 | joining the segments of a split path gives the path back |
| Values.SplitJoin | owl-db-core/methods.find.go:327-329 | splitting a join of dot-free segments gives the segments back |
| Utils.RemoveDuplicates | owl-db-utils/remove.duplicates.go:3-18 | the loop returns the first occurrences in input order, with no duplicates and exactly the input's elements |
| Utils.DedupElements | owl-db-utils/remove.duplicates.go:9-15 | no duplicates; an element is in the result iff it is in the input; never longer than the input |
| Utils.DedupFirstOccurrenceOrder | owl-db-utils/remove.duplicates.go:9-15 | the kept elements appear in the order of their first occurrences |
| Utils.DedupIdempotent | owl-db-utils/remove.duplicates.go:3-18 | removing duplicates twice is removing them once |
| Utils.DedupOfDistinct | owl-db-utils/remove.duplicates.go:3-18 | a sequence without duplicates is returned unchanged |
| Store.Decode | owl-db-core/native.find.go:49-54 | decoding succeeds exactly on encoded documents and returns the document stored |
| Store.ReplayAppend | owl-db-core/native.update.go:30-63 | issuing two batches of writes one after the other is issuing their concatenation |
| Collections.NewCollection | owl-db-core/collection.go:36-54 | only the first options count; indexes and edge labels lose their duplicates; no options means no timestamps and no indexes; the edge prefix is `e:<name>:` |
| Collections.GetNestedValue | owl-db-core/collection.go:86-101 | the empty path gives the value; a non-object or a missing key gives "not found" |
| Collections.GetNestedValueAppend | owl-db-core/collection.go:86-101 | resolving `p + q` resolves `p` and then `q` from there, failing if `p` fails |
| Collections.GetIndexableFields | owl-db-core/collection.go:56-83 | the keys are the declared fields whose path exists, each mapped to the value at its path |
| Updates.ApplyUpdate | owl-db-core/methods.update.go:15-156 | the operator loop computes the update's specification: each supported operator in turn over its fields, stopping at the first error |
| UpdateLaws.SetThenGet | owl-db-core/methods.update.go:286-304 | after `$set`, the path resolves to the operand, with missing or non-object segments replaced by objects |
| UpdateLaws.SetFrame | owl-db-core/methods.update.go:286-304 | `$set` leaves every path that branches off the set path unchanged |
| UpdateLaws.SetSet | owl-db-core/methods.update.go:286-304 | a second `$set` of the same path overrides the first |
| UpdateLaws.SetExisting | owl-db-core/methods.update.go:286-304 | setting a path to the value it holds changes nothing |
| UpdateLaws.UnsetRemoves | owl-db-core/methods.update.go:334-349 | after `$unset` the path is gone; unsetting an absent path (including through a non-object segment) changes nothing |
| UpdateLaws.UnsetFrame | owl-db-core/methods.update.go:334-349 | `$unset` leaves every path that branches off the unset path unchanged |
| UpdateLaws.IncrementFieldSpec | owl-db-core/methods.update.go:306-332 | `$inc` fails, in this order, on a missing parent, a non-number field and a non-number operand; otherwise it sets the number to the sum; it never creates the field |
| UpdateLaws.PushToArraySpec | owl-db-core/methods.update.go:170-194 | `$push` sets the path to its array, or the empty array for a missing or non-array target, with the operand appended |
| UpdateLaws.AddToSetSpec | owl-db-core/methods.update.go:254-284 | `$addToSet` changes nothing when the array holds an equal element, and is `$push` otherwise |
| UpdateLaws.AddToSetIdempotent | owl-db-core/methods.update.go:254-284 | applying `$addToSet` twice equals applying it once; the value is then held, once if it was absent |
| UpdateLaws.RemoveFirstShape | owl-db-core/methods.update.go:197-222 | `$pull` removes the first equal element only, keeping the others in order, and nothing when none is equal |
| UpdateLaws.RemoveFirstMultiset | owl-db-core/methods.update.go:197-222 | `$pull` removes exactly one occurrence of the operand, if any |
| UpdateLaws.PullFromArraySpec | owl-db-core/methods.update.go:197-222 | `$pull` replaces an array at the path by the array minus its first equal element and leaves a missing path or non-array alone |
| UpdateLaws.RemoveAllMultiset | owl-db-core/methods.update.go:93-110 | `$pullAll` removes one occurrence per listed value: a multiset difference |
| UpdateLaws.PullAllSpec | owl-db-core/methods.update.go:93-110 | `$pullAll` is one `$pull` per list element, on an array at the path |
| UpdateLaws.PopFromArraySpec | owl-db-core/methods.update.go:225-251 | `$pop` fails on a missing parent; it drops the last (operand 1) or first (-1) element of a non-empty array and leaves an empty or non-array target alone |
| UpdateLaws.RenameFieldSpec | owl-db-core/methods.update.go:159-167 | `$rename` fails exactly when the old path is absent, naming it; otherwise the new path holds the old value and a divergent old path is gone |
| UpdateLaws.RenameFrame | owl-db-core/methods.update.go:159-167 | `$rename` leaves paths branching off both the old and the new path unchanged |
| UpdateLaws.ApplyUpdateAppend | owl-db-core/methods.update.go:15-156 | applying two updates in sequence is applying their concatenation |
| UpdateLaws.ApplyFieldsErrors | owl-db-core/methods.update.go:15-156 | the per-field helpers never report an unknown operator or a malformed payload |
| UpdateLaws.OperatorErrorsNameTheirOperator | owl-db-core/methods.update.go:151-152 | an "unsupported operator" error names an operator of the update outside the nine; an "invalid operation" error names a supported operator whose payload is not a field map |
| UpdateLaws.SingleStep | owl-db-core/methods.update.go:15-156 | an update with one supported operator and one field is that field's step |
| UpdateLaws.SetUpdate | owl-db-core/methods.update.go:18-27 | `{"$set": {p: v}}` succeeds, makes `p` hold `v` and leaves branching paths unchanged |
| UpdateLaws.IncUpdate | owl-db-core/methods.update.go:28-39 | `{"$inc": {p: n}}` adds `n` to a number at `p` and fails on anything else there |
| UpdateLaws.AddToSetTwice | owl-db-core/methods.update.go:138-150 | two identical `$addToSet` updates leave what one leaves |
| Filters.GetFindNestedValue | owl-db-core/methods.find.go:279-289 | the lookup loop computes the find-side path lookup |
| Filters.Compare | owl-db-core/methods.find.go:192-215 | `compare` answers -1, 0 or 1 |
| FilterLaws.CompareOrders | owl-db-core/methods.find.go:192-215 | on float/float and time/time pairs, `compare` is antisymmetric and is zero exactly on equal values |
| FilterLaws.CompareTransitive | owl-db-core/methods.find.go:192-215 | on the pairs it orders, "less" is transitive |
| FilterLaws.IncomparableIsLess | owl-db-core/methods.find.go:153-160 | a pair `compare` does not order satisfies `$lt` and `$lte` and fails `$gt` and `$gte` |
| FilterLaws.NumericOrdering | owl-db-core/methods.find.go:153-160 | on a float field and a float operand, `$gt`, `$lt`, `$gte` and `$lte` are the ordering of the reals |
| FilterLaws.PriceExample | owl-db-core/methods.find.go:153-154 | `{price: {$gt: 15}}` holds for price 20 and not for price 10 |
| FilterLaws.AllMatchIff | owl-db-core/methods.find.go:100-110 | `$and` needs every sub-filter to match |
| FilterLaws.AnyMatchIff | owl-db-core/methods.find.go:111-122 | `$or` needs some sub-filter to match |
| FilterLaws.AndEntry | owl-db-core/methods.find.go:100-110 | an `$and` entry needs all its sub-filters, then the rest of the filter |
| FilterLaws.OrEntry | owl-db-core/methods.find.go:111-122 | an `$or` entry returns at once: the rest of the filter is not consulted |
| FilterLaws.NorEntry | owl-db-core/methods.find.go:123-134 | a `$nor` entry returns at once: no sub-filter may match, and the rest is not consulted |
| FilterLaws.CombinatorNeedsList | owl-db-core/methods.find.go:100-134 | a combinator whose payload is not a filter list fails the whole filter |
| FilterLaws.CombinatorTruthTable | owl-db-core/methods.find.go:100-134 | the combinators over two filters are and, or, nor; `$or` of nothing is false and `$nor` of nothing is true |
| FilterLaws.FieldEntries | owl-db-core/methods.find.go:97-142 | a filter of field entries matches iff every entry holds; the empty filter matches every document |
| FilterLaws.InOperator | owl-db-core/methods.find.go:161-164 | `$in` is membership of the field value in a list operand; a non-list operand makes `$in` false and `$nin` true |
| FilterLaws.ExistsAndNe | owl-db-core/methods.find.go:165-170 | `$exists b` holds iff the presence of a non-null value equals `b`; `$ne` is negated equality |
| FilterLaws.NotOperator | owl-db-core/methods.find.go:177-179 | `$not x` is the negation of `x` applied to the same field |
| FilterLaws.UnknownOperator | owl-db-core/methods.find.go:145-189 | an empty operator object, or one led by an unknown operator, never holds |
| FilterLaws.TypeAndRegex | owl-db-core/methods.find.go:218-262 | `$type` recognises exactly five names, each one kind, and fails on a non-string operand; `$regex` fails when the field or the pattern is not a string |
| FilterLaws.FindNestedAgrees | owl-db-core/methods.find.go:279-289 | where the path exists, the find-side lookup gives the same value as `getNestedValue` |
| FilterLaws.FindNestedStops | owl-db-core/methods.find.go:279-289 | an absent key reads as null, and a non-object segment answers for the rest of the path |
| FilterLaws.FindNestedExample | owl-db-core/methods.find.go:279-289 | `"a.b"` on `{a: 5}` gives 5 |
| Projection.IsExcludedLoop | owl-db-core/methods.find.go:320-336 | the ancestor loop computes the exclusion verdict |
| Projection.RemoveExcludedFields | owl-db-core/methods.find.go:292-317 | the in-place deletion loop computes the projection of the document |
| ProjectionLaws.ShortestAncestorDecides | owl-db-core/methods.find.go:320-336 | with no entry for a path, its shortest listed ancestor decides |
| ProjectionLaws.UnlistedKept | owl-db-core/methods.find.go:320-336 | a path with no entry and no listed ancestor is kept |
| ProjectionLaws.IncludesOnlyNotExcluded | owl-db-core/methods.find.go:320-336 | a select map with only `true` entries excludes nothing |
| ProjectionLaws.ProjectSettles | owl-db-core/methods.find.go:292-317 | the projection drops only input keys; none of its paths is excluded and none of its nested objects is empty |
| ProjectionLaws.SettledFixpoint | owl-db-core/methods.find.go:292-317 | a document with nothing excluded and no empty nested object is its own projection |
| ProjectionLaws.ProjectIdempotent | owl-db-core/methods.find.go:292-317 | projecting twice with the same select map is projecting once |
| ProjectionLaws.IncludesOnlyKeepsAll | owl-db-core/methods.find.go:292-317 | without `false` entries, a document without empty nested objects is unchanged |
| ProjectionLaws.ExcludedGone | owl-db-core/methods.find.go:300-304 | an excluded key is gone from the result |
| ProjectionLaws.SiblingExample | owl-db-core/methods.find.go:292-317 | excluding `a.b` keeps `a.c`; when `b` was all `a` held, `a` goes as well |
| IndexMaintenance.RemoveStaleEntries | owl-db-core/native.update.go:30-39 | one remove per indexed field that is gone or changed, of its old value, each issued once, and no other write |
| IndexMaintenance.AddFreshEntries | owl-db-core/native.update.go:41-50 | one add per indexed field that is new or changed, of its new value holding the document ID, each issued once, and no other write |
| IndexMaintenance.NativeUpdate | owl-db-core/native.update.go:11-68 | an update error returns it with no write issued; otherwise every remove, then every add, then the stamped document at `name|docID`, and the resulting store is the reconciled one |
| IndexMaintenance.ReconciledStore | owl-db-core/native.update.go:30-63 | the two loops and the write-back produce exactly the reconciled store |
| IndexLaws.UpdateKeepsIndexConsistent | owl-db-core/native.update.go:30-50 | when the store's entries of a document are exactly those of its old indexed values, afterwards they are exactly those of its new ones |
| IndexLaws.StaleEntryAsWritten | owl-db-core/methods.update.go:351-359 | with `nativeUpdate`'s key, repricing an inserted product leaves the old price's entry and no entry for the new price |
| IndexLaws.BareLeavesInsertEntries | owl-db-core/methods.update.go:351-359 | with `nativeUpdate`'s key, the reconciliation neither removes nor changes any `name\|field\|value\|docID` entry, and adds none |
| IndexLaws.BareAddsBareEntry | owl-db-core/native.update.go:41-50 | with `nativeUpdate`'s key, a new or changed indexed value gets the entry `field\|value\|docID → docID` |
| IndexLaws.RepricedConsistently | owl-db-core/native.update.go:30-50 | with the insert-time key, the same repricing leaves exactly the new price's entry |
| Scan.Paginate | owl-db-core/native.find.go:204-214 | the skip and limit branches keep the window starting at the skip offset, at most `limit` long when the limit is positive |
| Scan.NativeFind | owl-db-core/native.find.go:15-217 | the results are the gathered documents, sorted when sort fields are given, then windowed |
| Scan.FirstHit | owl-db-core/native.find.go:247-258 | a document it returns matches the filter |
| Scan.NativeFindOne | owl-db-core/native.find.go:219-307 | found iff some visited key decodes to a matching document; the document returned is the first such, unprojected; not found returns the empty map |
| ScanLaws.CollectIsDistinctKeys | owl-db-core/native.find.go:56-63 | the processed set makes the scan yield what its distinct keys yield, each once, in first-visit order |
| ScanLaws.FoundExactly | owl-db-core/native.find.go:34-92 | a document is gathered iff some key under the collection's prefix holds an encoded document that matches and projects to it, non-empty; raw records are skipped |
| ScanLaws.CollectMembers | owl-db-core/native.find.go:49-92 | a document is gathered iff some visited key yields it |
| ScanLaws.YieldMeans | owl-db-core/native.find.go:49-84 | a key yields a document iff its record decodes, matches the filter and projects non-empty to it |
| ScanLaws.CollectBounded | owl-db-core/native.find.go:56-63 | no more documents than distinct keys visited |
| ScanLaws.SkipPastEnd | owl-db-core/native.find.go:205-208 | a skip at or past the end leaves nothing |
| ScanLaws.SkipDrops | owl-db-core/native.find.go:205-210 | a positive skip drops the first `skip` results and keeps the order of the rest |
| ScanLaws.WindowLength | owl-db-core/native.find.go:205-214 | with a positive limit and a skip no larger than the results, the length is `min(limit, len - skip)` |
| ScanLaws.NoLimit | owl-db-core/native.find.go:212-214 | a limit of zero or less does not truncate |
| ScanLaws.NoOptionsKeepsAll | owl-db-core/native.find.go:21-24 | without options the search returns every gathered document in scan order |
| ScanLaws.MissingValues | owl-db-core/native.find.go:148-157 | a field missing on both passes to the next field; a document missing it sorts first ascending and last descending |
| ScanLaws.FirstPresentFieldDecides | owl-db-core/native.find.go:159-199 | the first sort field present on both documents decides; later fields are not consulted |
| ScanLaws.EqualValues | owl-db-core/native.find.go:159-199 | equal present values are never less, except for times sorted descending, where each is less than itself |
| ScanLaws.SortDocsPermutation | owl-db-core/native.find.go:131-202 | the sort returns a permutation of the results |
| ScanLaws.SortDocsSorted | owl-db-core/native.find.go:131-202 | when the comparator is a strict order on the results, the sorted results are in its order |
| ScanLaws.SortByNumberAscending | owl-db-core/native.find.go:173-178 | sorting ascending by a field every result holds as a number orders the results by it |
| Crud.WithID | owl-db-core/methods.insert.go:13-16 | a document with an ID keeps it; one without gets the fresh ID, its other fields unchanged |
| Crud.WriteDocument | owl-db-core/methods.insert.go:33-46 | the primary write and the index loop store the document and one entry per indexed field present |
| Crud.Insert | owl-db-core/methods.insert.go:11-50 | the ID is assigned only when missing, `createdAt` is stamped when timestamps are on, and the document and its entries are written |
| Crud.InsertMany | owl-db-core/methods.insert.go:52-101 | the documents are written in order with IDs assigned when missing and no `createdAt` stamp |
| Crud.FindByIdSpec | owl-db-core/methods.find.go:30-55 | fails exactly when `name|docID` is absent or does not decode; otherwise returns the stored document |
| Crud.FindByID | owl-db-core/methods.find.go:30-55 | the lookup returns what its specification does |
| Crud.Find | owl-db-core/methods.find.go:77-94 | the search with the first options given, or none |
| Crud.FindOne | owl-db-core/methods.find.go:62-75 | the first matching document, or nothing |
| Crud.UpdateByID | owl-db-core/methods.update.go:372-391 | an absent or undecodable record, or an update error, is returned with the store unchanged; otherwise the store reconciled under the given key scheme is committed (`Bare` is the code as written) |
| Crud.UpdateOne | owl-db-core/methods.update.go:393-405 | no match gives "no document found in result", a non-string `_id` or an update error gives its error, each leaving the store unchanged; otherwise the first match is reconciled under the given key scheme and committed (`Bare` as written) |
| Crud.UpdateMany | owl-db-core/methods.update.go:407-462 | every match is updated on one transaction under the given key scheme (`Bare` as written); any error is reported and nothing is committed |
| Crud.UpdateEach | owl-db-core/methods.update.go:417-459 | the workers' loop runs `nativeUpdate` on the documents one after another, under the given key scheme, gathering their errors |
| Crud.DeleteByID | owl-db-core/methods.delete.go:11-31 | an absent key is an error leaving the store unchanged; otherwise only `name|docID` is removed |
| Crud.DeleteOne | owl-db-core/methods.delete.go:33-54 | no match gives "no document found in result" with the store unchanged; otherwise exactly the match's primary key is removed |
| Crud.DeleteMany | owl-db-core/methods.delete.go:56-112 | no match changes nothing; otherwise the primary key of every match is removed |
| Crud.DeleteEach | owl-db-core/methods.delete.go:71-96 | the workers' loop removes the primary key of every document |
| CrudLaws.InsertThenFind | owl-db-core/methods.insert.go:20-35 | an inserted document is found under its ID as stored |
| CrudLaws.InsertIndexes | owl-db-core/methods.insert.go:38-46 | each indexed field present gets exactly one entry `name|field|value|docID → docID`; absent fields get none |
| CrudLaws.InsertFrame | owl-db-core/methods.insert.go:33-46 | an insert touches only the document's primary record and index entries |
| CrudLaws.InsertManyStoresEach | owl-db-core/methods.insert.go:52-101 | with distinct IDs, every document of the batch is found under its ID, unstamped |
| CrudLaws.InsertThenUpdateIndexed | owl-db-core/native.update.go:30-50 | with the insert-time key (the corrected program), a freshly inserted document's entries stay exact through a successful update |
| CrudLaws.ReconciledKeepsIndex | owl-db-core/methods.update.go:393-405 | with the insert-time key (the corrected program), what `UpdateByID` and `UpdateOne` commit leaves no entry for an old value and one for the new value |
| CrudLaws.InsertThenUpdateAsWritten | owl-db-core/methods.update.go:351-359 | as written: after an insert, an update that changes an indexed value keeps the old `name\|field\|old\|docID` entry, writes no `name\|field\|new\|docID` entry, adds `field\|new\|docID`, and leaves the insert-time entries inexact |
| CrudLaws.DeleteLeavesEntries | owl-db-core/methods.delete.go:21-29 | deleting a document keeps its index entries, and the document is no longer found |
| CrudLaws.UpdateAllSucceeds | owl-db-core/methods.update.go:407-462 | `UpdateMany` reports no error iff every match has a string `_id` and the update succeeds on it |
| CrudLaws.UpdateManySeesSettled | owl-db-core/methods.update.go:409-430 | for every store, key order and filter, each document that `UpdateMany` hands to `nativeUpdate` is settled under the empty select map: it has no empty nested object |
| CrudLaws.UpdateManySeesNoEmptyObjects | owl-db-core/native.find.go:70-83 | an illustration: a stored empty `meta` object is gone from what the no-option search returns |

## Left out

- Badger: its error kinds, isolation, conflict detection and iterator internals are not modelled. Writes never fail. The iterator's visiting order is a parameter.
- Crud.InsertMany: its error path (the first failing document aborts the whole batch) never arises, because encoding and writes cannot fail in the model.
- Crud.DeleteMany: the joined errors of failed deletes never arise, for the same reason. Only a match without a string `_id` fails, and then nothing is committed.
- BSON encoding is taken as a faithful round trip. Real decoding yields `int32`/`int64`, `primitive.DateTime` and `primitive.A` where the model keeps one integer kind, one time kind and sequences. The sort's `primitive.DateTime` case is therefore not separate from its `time.Time` case, and `$type "int"` and the sort's `int64` case see the same integers.
- The `%v` rendering of values inside index keys is not modelled; keys are structured instead. Rendering is not injective (`10`, `10.0` and `"10"` all print as `10`), so entries for different values can collide in the real store. The model keeps them apart.
- Collection names and field paths are taken to contain no `|`, so a collection's prefix scan visits only its own keys and bare index entries whose field is the collection's name.
- Concurrency is not modelled. The batch goroutine of `nativeFind`, the racing batches of `nativeFindOne` and the five workers of `UpdateMany`/`DeleteMany` are sequential loops. `nativeFindOne` returns the first match in scan order.
- Scan.SortDocs: `sort.Slice` is replaced by one admissible outcome, an insertion sort. It is proved a permutation, and ordered whenever the comparator is a strict order on the results. Mismatched kinds, where Go's type assertion panics, compare as "not less".
- Go's `==` and `reflect.DeepEqual` are structural equality on values. The panics of `==` on maps and slices in `$pull`, `$addToSet` and the index diff are not modelled.
- Updates work on values: a failed update leaves the caller's document as it was. The partial in-place mutation before the error, and aliasing between the found document and the stored one, are not modelled.
- A missing or non-string `_id` in a found document is a Go panic. The model returns it as the error `IdNotString`, with nothing committed.
- The regular-expression engine is not modelled: `regexp.MatchString` is the matcher parameter. The clock (`time.Now`) and `primitive.NewObjectID` are parameters too.
- Absent fields and `nil` are not distinguished by the find-side lookup (an absent field reads as `Null`), as in the source. The nil map that `FindOne` returns when nothing matches is `None`.
- Edge labels are stored but have no behaviour in the core; edge-label prefixes beyond `NewCollection` are not modelled.
- owl-db-config/database.config.go and main.go are not part of this model. owl-db-core/document.go is an interface only: `GetID`, `SetID` and `SetCreatedAt` are the `_id` and `createdAt` fields of the document.

## Findings

| source | as written | input that shows it | evidently intended | confidence | as-written member | corrected member |
|---|---|---|---|---|---|---|
| owl-db-core/methods.update.go:351-359 | `addIndexEntry`/`removeIndexEntry` key entries `field\|value\|docID`, without the collection name that `Insert` puts in front (`name\|field\|value\|docID`, methods.insert.go:42) | insert `{_id: "x", price: 10}` into `products` indexing `price`, then `$set` `price` to 20: the entry `products\|price\|10\|x` stays and no `products\|price\|20\|x` is written | the update removes and adds the same entries the insert writes, so every indexed value has exactly one current entry | high (not executed) | IndexLaws.StaleEntryAsWritten | IndexLaws.UpdateKeepsIndexConsistent |

`IndexMaintenance.NativeUpdate` and the update operations in `crud.dfy` take
the key scheme as a parameter. `KeyScheme.Bare` is the code as written; its
consequence for a collection is `CrudLaws.InsertThenUpdateAsWritten`.
`KeyScheme.Prefixed` is the corrected program, about which
`CrudLaws.InsertThenUpdateIndexed` and `CrudLaws.ReconciledKeepsIndex` are
proved.
