# CRUD composables of a Vue 3 club-management app, modelled in Dafny

The application's logic lives in four composables:

- `useFetchData` loads a resource's collection.
- `useCreateItem` posts a new record.
- `useUpdateItem` puts a modified record.
- `useDeleteItem` deletes a record after the user confirms.

Each composable keeps its state in Vue refs: a list, an error slot, a busy flag, and, for update, the view's editing pair. It changes that state once its HTTP request has ended.

This project models each composable as a pure transition over an immutable state record. The network is an input. A call takes the state before the call and the way the awaited part ended:

- `Ok(body)`: `response.ok`, with the body already parsed.
- `NotOk`: a response without `ok`.
- `Rejected(message)`: `fetch` or `response.json()` threw.

It returns a `Call`, which holds:

- the state while the request is in flight, with the busy flag raised;
- the state after the `finally` block;
- the request the call sent: method, target and JSON body.

A declined delete sends nothing, so its `Call` has no request and its in-flight state is the state before the call. `CreateItem.Create` returns a `CreateCall`: the `Call` together with the records the callback was invoked with.

The modules are:

- `Entities` holds records with an `id` and an optional `schedules_id`. An id is a safe integer (at most 2^53 - 1 in magnitude) held as a number or as its decimal text. Strict equality tells the two apart; `Number()` and template literals do not.
- `Http` holds requests, responses and item targets `${url}/${id}`.
- `Decimal` renders integers as plain decimal text, which is what template literals print for safe integers, and parses that text back.
- `FetchData`, `CreateItem`, `UpdateItem` and `DeleteItem` hold one composable each.
- `Scenario` holds examples of single calls, and lemmas that follow one list through several composables.

Notes on the code's behaviour:

- The error slot is never cleared. A successful call keeps the previous message.
- `maxId` is `Math.max(...ids, 0)`, so it is 0, not the largest id, when every id is negative.
- `maxSchedulesId` is the maximum over all records, with a missing or `null` field read as 0, floored at 0. The `'schedules_id' in item` test does not change that value (`FetchData.MaxSchedulesIdIgnoresPresenceTest`).

## Model

| member | source | states |
|---|---|---|
| `FetchData.MaxWithZero` | src/composables/useFetchData.ts:21 | `Math.max(...xs, 0)` is at least 0, at least every element, and either 0 or one of the elements |
| `FetchData.Fetch` | src/composables/useFetchData.ts:10-35 | sends GET `url`; `isLoading` is true while pending and false after; on ok, `data` is exactly the body, `error` is kept, `maxId` bounds every `Number(id)` and is 0 or attained, `maxSchedulesId` is the maximum that `FetchData.MaxSchedulesIdBounds` describes, and an empty body gives both maxima 0; otherwise `data`, `maxId` and `maxSchedulesId` are unchanged and `error` is "Error fetching data from {url}" or the thrown message |
| `FetchData.MaxSchedulesIdBounds` | src/composables/useFetchData.ts:23-28 | `maxSchedulesId` is 0 when no record has the field; it is at least 0 and at least every `schedules_id ?? 0`; and it is 0 or some record's `schedules_id` |
| `FetchData.MaxSchedulesIdIgnoresPresenceTest` | src/composables/useFetchData.ts:23-28 | the `'schedules_id' in item` branch gives the same value as the maximum over all records with missing and `null` read as 0 |
| `CreateItem.Create` | src/composables/useCreateItem.ts:8-33 | sends POST `url` with the new record as body; `isLoading` is true while pending and false after; on ok, the private list grows by one, earlier entries stay in place, the last entry is the parsed body, the callback receives that body exactly once, and `error` becomes the callback's thrown message or is kept; otherwise the list is unchanged, the callback is not invoked, and `error` is "Error adding new item from {url}" or the thrown message |
| `CreateItem.CreateRunAppendsInOrder` | src/composables/useCreateItem.ts:8-26 | over any run of successful creates, each posting its own record with its own callback, the private list gains exactly the returned records in order, and the callbacks receive the same records in the same order |
| `UpdateItem.FindIndex` | src/composables/useUpdateItem.ts:30 | `findIndex` returns -1 exactly when no entry has the id; otherwise it returns an index whose entry has the id and before which no entry has it |
| `UpdateItem.ReplaceFirst` | src/composables/useUpdateItem.ts:30-33 | length is kept; the first entry with the id becomes the submitted record and every other position is unchanged, later duplicates included; with no entry matching, the list is identical |
| `UpdateItem.Update` | src/composables/useUpdateItem.ts:14-43 | sends PUT `url + "/" + id` with the record as body; `isEditDisabled` is true while pending and false after; on ok, the list is replaced at the first match, `isEditing` is false, `itemToEdit` is null, and `error` is kept, whether or not a match was found; otherwise the list, `isEditing` and `itemToEdit` are unchanged and `error` is "Error updating item from {url}" or the thrown message |
| `UpdateItem.ReplaceFirstKeepsIds` | src/composables/useUpdateItem.ts:30-33 | replacing keeps the id at every position; when the id was present, the first entry with that id afterwards is the submitted record |
| `UpdateItem.ReplaceFirstIdempotent` | src/composables/useUpdateItem.ts:30-33 | submitting the same record twice leaves the list as submitting it once |
| `Decimal.IntText` | src/composables/useUpdateItem.ts:18 | `${n}` for a safe integer: non-empty, a leading minus exactly when `n` is negative, then decimal digits with no leading zero (`"0"` for 0) |
| `Http.ItemTargetNamesId` | src/composables/useUpdateItem.ts:18 | the target `${url}/${id}` starts with `url` and a slash, and the remainder parses back to `Number(id)` |
| `DeleteItem.RemoveId` | src/composables/useDeleteItem.ts:25 | the filtered list is no longer than the original, holds no entry with the id, and holds only entries of the original |
| `DeleteItem.RemoveIdIsSubsequence` | src/composables/useDeleteItem.ts:25 | the filtered list is a subsequence of the original, so relative order is kept |
| `DeleteItem.RemoveIdKeepsOthers` | src/composables/useDeleteItem.ts:25 | every record with another id keeps its multiplicity, and every record with the id has multiplicity 0 |
| `DeleteItem.RemoveAbsentIdKeepsList` | src/composables/useDeleteItem.ts:25 | when no entry carries the id, the filtered list is identical to the original |
| `DeleteItem.RemoveIdIdempotent` | src/composables/useDeleteItem.ts:25 | deleting the same id again changes nothing |
| `DeleteItem.Delete` | src/composables/useDeleteItem.ts:8-31 | declined: no request is sent and the state is unchanged; confirmed: sends DELETE `url + "/" + id`, and `isDeleteDisabled` is true while pending and false after; on ok, the list is filtered by id and `error` is kept; otherwise the list is unchanged and `error` is "Error deleting item" or the thrown message |
| `Scenario.FetchExample` | src/composables/useFetchData.ts:19-27 | a fetch of ids 1, 3, 2 with no `schedules_id` stores that list, `maxId` 3 and `maxSchedulesId` 0 |
| `Scenario.CreateExample` | src/composables/useCreateItem.ts:24-26 | a create answered with record 4 appends record 4 and hands it to the callback |
| `Scenario.UpdateExample` | src/composables/useUpdateItem.ts:30-36 | renaming record 2 in the list 1, 3, 2, 4 replaces it in place and clears the editing pair |
| `Scenario.DeleteExample` | src/composables/useDeleteItem.ts:25 | a confirmed, successful delete of record 2 from the list 1, 3, 2, 4 leaves 1, 3, 4 |
| `Scenario.CrudRoundOnOneList` | src/composables/useDeleteItem.ts:25 | one list fetched as 1, 3, 2, extended through the create callback with 4, renamed at 2, then deleted at 2, ends as 1, 3, 4 |
| `Scenario.UpdateAfterDeleteIsStale` | src/composables/useUpdateItem.ts:30-36 | after a confirmed, successful delete of an id, a successful update of that id leaves the list the delete produced unchanged and still clears the editing pair |
| `Scenario.TextIdDeletesNoNumericEntry` | src/composables/useDeleteItem.ts:17-25 | a string id removes nothing from a list whose ids are numbers, although its DELETE target is the same as for the numeric id |

## Left out

- HTTP itself is not modelled: `fetch`, request headers, JSON serialisation and parsing. A response is an input, and the request is reported as method, target and the record that would be serialised.
- Vue reactivity (`ref`, `Ref`) is not modelled. Refs are fields of immutable state records.
- `window.confirm` is a UI side effect. The user's answer is a boolean parameter of `DeleteItem.Delete`.
- Two overlapping calls on the same composable are not modelled. Each call is one atomic transition.
- Ids and `schedules_id` values are restricted to safe integers, at most 2^53 - 1 in magnitude. Within that range `Number()` is exact and `${n}` prints plain digits. Beyond it, many integers are not exactly representable: `Number("9007199254740993")` is 9007199254740992. From 10^21 upward numbers also print in exponent form (`1e+21`). The model covers neither.
- Non-numeric string ids and non-numeric `schedules_id` values are not modelled. `Number()` would give `NaN` and `Math.max` would propagate it; these are floating-point coercions. Ids are integers or their canonical decimal text.
- A string id with leading zeros or a plus sign is not modelled (for example `"007"`). Such a string reads as a number but renders differently.
- A fetch body that is not an array of objects is not modelled. When the body is not an array at all (a bare object, a string, `null`), or is an array with a `null` element, the code at src/composables/useFetchData.ts:21 throws after `data` was assigned at line 19. The list then holds that body, `maxId` and `maxSchedulesId` stay stale, and `error` is set.
- An array body with a number, string or boolean element is not modelled either. Nothing throws at line 21 for such an element: its `id` is `undefined`, so `maxId` becomes `NaN`. Whether line 23 then throws depends on the order of the elements: `.some` stops at the first record that has the field, and only an `in` test reached on a primitive element throws.
- `Math.max(...xs)` throws a `RangeError` on arrays too large to spread. That case is not modelled.
- The `updateData` callback's effect on the caller's list is not modelled. Only how the callback ends is modelled: it returns, or it throws with a message. A thrown value that is not an `Error`, and so has no `message`, is not modelled.
- The router table in src/router/index.ts is not modelled. It is a declaration handed to vue-router, with no behaviour of its own.
