# Life terminal station: the record store

This project is a Dafny model of the data layer of a single-user end-of-life planning client, plus one small piece of arithmetic from its countdown display. The data layer is the `DataStore` class. It keeps one document made of three ordered record lists (wills, belongings, letters) and three singleton slots (the birth date and life expectancy pair, the funeral plan and the medical directive). After every change it writes the whole document back to the device's key-value storage under the key `life_terminal_station`.

- `records.dfy` (module `Records`): the document and its records. A list entry is `Stamped(id, createdAt, fields)`: the clock-derived id and the creation timestamp stamped by the store, followed by the fields the caller supplied.
- `record_lists.dfy` (module `RecordLists`): delete by id, which rebuilds a list with the records whose id differs, and its properties: how much it removes, keeping order, idempotence, no-op on an absent id, and what happens to two records created within the same millisecond.
- `store.dfy` (module `Store`): the `DataStore` class.
  - Its fields are `storage`, a map from key to document standing for the browser's storage, and `data`, the in-memory document.
  - Each mutator is a `modifies this` method. It states the new document in terms of the old one and that storage under the key now equals memory (`Persisted()`).
  - `Valid()` is the invariant between calls: storage holds either nothing under the key or exactly the in-memory document.
  - Four client methods at the end exercise whole scenarios: reopening after an add, overwriting the funeral plan, two adds in the same millisecond, and deleting twice.
- `countdown.dfy` (module `Countdown`): the breakdown of a remaining number of milliseconds into years, months, days, hours and minutes, as the page computes it and as corrected (see Findings).

Parameters stand in for the clock. `now: int` is the millisecond clock reading that becomes a record's id. `nowIso: string` is the ISO-8601 timestamp that becomes its `createdAt`. The source reads the clock separately for each, so the model does not tie them together. The countdown takes the millisecond difference `diff` directly.

Three behaviours of the code are kept as written:
- Ids come from the millisecond clock and are not unique. Delete removes every record carrying the id, not at most one. Two records added in the same millisecond share an id, and one delete removes both (`RecordLists.SameInstantAddsDeletedTogether`, `Store.SameInstantBelongings`).
- The life expectancy is stored as the raw string the form supplies, not as an integer.
- The code has no handling for storage that cannot be parsed and none for a failed write, so the model has neither (see Left out).

## Model

| member | source | states |
|---|---|---|
| RecordLists.Without | app.js:39-42 | the list after a delete by id has no record with that id; every record it keeps came from the list; every record of the list with another id is kept; it is no longer than the list |
| RecordLists.WithoutLength | app.js:39-42 | a delete shortens the list by exactly the number of records carrying the id |
| RecordLists.WithoutUnchangedIff | app.js:39-42 | a delete leaves the list unchanged if and only if no record carries the id, so deleting an absent id is a silent no-op |
| RecordLists.WithoutIdempotent | app.js:39-42 | deleting the same id twice gives the same list as deleting it once |
| RecordLists.WithoutConcat | app.js:40 | delete works piecewise on a concatenation of lists, so it cannot reorder records |
| RecordLists.WithoutKeepsOrder | app.js:40 | the records kept by a delete are a subsequence of the original list, in their original relative order |
| RecordLists.WithoutAppendOther | app.js:31-42 | deleting an id other than that of the last-appended record keeps that record at the end, after the survivors of the earlier records |
| RecordLists.SameInstantAddsDeletedTogether | app.js:48-59 | two records appended with the same clock reading share an id, and deleting it removes both, leaving what deleting it from the earlier list leaves |
| Store.DataStore.constructor | app.js:5-8 | opening the store keeps the given storage and loads the stored document, or the default one when nothing is stored; storage and memory agree afterwards |
| Store.DataStore.Load | app.js:10-21 | load returns the document stored under the key; with nothing stored, it returns the default (built by `Records.DefaultDocument`, app.js:12-20) with both life-expectancy fields, the funeral plan and the medical directive unset and all three lists empty |
| Store.DataStore.Save | app.js:23-25 | save writes the whole in-memory document under the key and leaves every other key alone |
| Store.DataStore.GetWills | app.js:27-29 | returns the in-memory will list, which is also the stored one whenever something is stored |
| Store.DataStore.AddWill | app.js:31-37 | the returned will carries id `now`, timestamp `nowIso` and the given fields; it is appended at the end of the will list; every other field of the document is unchanged; storage then holds the new document |
| Store.DataStore.DeleteWill | app.js:39-42 | the will list becomes the list without the id; it shrinks by the number of matches; nothing else changes; storage then holds the new document |
| Store.DataStore.GetBelongings | app.js:44-46 | returns the in-memory belongings list, which is also the stored one whenever something is stored |
| Store.DataStore.AddBelonging | app.js:48-54 | the returned item carries id `now`, timestamp `nowIso` and the given fields; it is appended at the end of the belongings list; nothing else changes; storage then holds the new document |
| Store.DataStore.DeleteBelonging | app.js:56-59 | the belongings list becomes the list without the id; it shrinks by the number of matches; nothing else changes; storage then holds the new document |
| Store.DataStore.GetLetters | app.js:61-63 | returns the in-memory letter list, which is also the stored one whenever something is stored |
| Store.DataStore.AddLetter | app.js:65-71 | the returned letter carries id `now`, timestamp `nowIso` and the given fields; it is appended at the end of the letter list; nothing else changes; storage then holds the new document |
| Store.DataStore.DeleteLetter | app.js:73-76 | the letter list becomes the list without the id; it shrinks by the number of matches; nothing else changes; storage then holds the new document |
| Store.DataStore.SetLifeExpectancy | app.js:78-82 | sets the birth date and the life expectancy together; nothing else changes; storage then holds the new document |
| Store.DataStore.GetLifeExpectancy | app.js:84-89 | returns the birth date and the life expectancy as one pair, equal to the stored pair whenever something is stored |
| Store.DataStore.SetFuneralPlan | app.js:91-94 | replaces the funeral plan wholesale; nothing else changes; storage then holds the new document |
| Store.DataStore.GetFuneralPlan | app.js:96-98 | returns the current funeral plan, equal to the stored one whenever something is stored |
| Store.DataStore.SetMedicalDirective | app.js:100-103 | replaces the medical directive wholesale; nothing else changes; storage then holds the new document |
| Store.DataStore.GetMedicalDirective | app.js:105-107 | returns the current medical directive, equal to the stored one whenever something is stored |
| Store.ReopenAfterAddWill | app.js:5-37 | after a will is added, a store reopened on the same storage lists the earlier stored wills followed by the new one, or only the new one on a first start |
| Store.OverwriteFuneralPlan | app.js:91-98 | after two funeral plans are set, the getter returns only the second, and the stored document is the opened one with just that slot replaced |
| Store.SameInstantBelongings | app.js:48-59 | two belongings added with the same clock reading get the same id, and one delete of that id leaves the stored belongings as deleting it before the adds would have left them |
| Store.DeleteWillTwice | app.js:39-42 | deleting a will id twice leaves memory and storage exactly as the first delete left them, with no will carrying that id |
| Countdown.Remaining | app.js:192-205 | a non-positive difference shows all zeros; otherwise every component is non-negative, with minutes below 60, hours below 24, days below 30 and months at most 12 |
| Countdown.RemainingDiffersOnlyInDays | app.js:201-205 | the page's breakdown agrees with the corrected one in years, months, hours and minutes |
| Countdown.RemainingOverstatesOneYear | app.js:201-203 | exactly 365 days ahead, the page shows 1 year, 0 months and 5 days, which is five days more than the time left; the corrected breakdown shows 1 year |
| Countdown.RemainingUnderstates390Days | app.js:201-203 | 390 days ahead, the page shows exactly 1 year, which is 25 days less than the time left; the corrected breakdown shows 1 year and 25 days |
| Countdown.ExactRemaining | app.js:201-205 | the corrected breakdown has the same bounds as the page's: all zeros for a non-positive difference, and otherwise minutes below 60, hours below 24, days below 30 and months at most 12; moreover its months and days together stay below 365 days |
| Countdown.ExactRemainingAddsUp | app.js:201-205 | the corrected components add up to the difference, short of it by less than one minute |

## Left out

- The countdown's death date is not modelled. The code computes it from the birth date and the life expectancy with calendar functions (`setFullYear`), then subtracts the current time. The model takes the resulting difference as the input `diff`.
- The once-a-minute timer that refreshes the countdown, and the dash display when no life expectancy is set, are not modelled.
- Page navigation, modal dialogs, form reading and filling, the HTML rendering of the lists, the confirmation and alert dialogs, and the truncation and label maps used only for display are not modelled.
- JSON encoding is taken as the identity, and storage holds documents directly.
  - A stored value that is not valid JSON makes the source's load throw. It has no fallback, and the model does not add one.
  - An empty stored string would be treated like a missing one. An encoded document is never empty, so the model does not represent it.
- A failed write to storage is not modelled. In the source, `setItem` throws (for example when the quota is exceeded). The exception reaches the caller after the in-memory document has already changed. The model's writes always succeed.
- The model does not capture aliasing.
  - The source stamps the id and timestamp onto the caller's own object, appends that same object, and returns it.
  - Getters hand out the live lists and objects.
  - So a caller that later mutates them changes the store without a save. The model passes and returns values.
- Other code writing to the same storage key between calls is not modelled. `storage` belongs to the store alone.
- Store.DataStore.SetLifeExpectancy, Store.DataStore.SetFuneralPlan, Store.DataStore.SetMedicalDirective: the source accepts any value, including `null`. The model's parameters are the values the pages pass (strings and the record types), so they always fill the slot.
- Store.DataStore.DeleteWill, Store.DataStore.DeleteBelonging, Store.DataStore.DeleteLetter: the source compares ids with strict inequality on JavaScript numbers, and the model takes ids as mathematical integers. Non-numeric or `NaN` ids are not represented.

## Findings

| source | as written | input that shows it | evidently intended | confidence | as-written member | corrected member |
|---|---|---|---|---|---|---|
| app.js:203 | `days` is the whole difference modulo 30 days, divided by one day. It is not taken from what is left after the whole years and months, and since 365 is not a multiple of 30, the components then stand for more or less time than is left | `diff` = 31536000000 ms (exactly 365 days): shown as 1 year, 0 months, 5 days (5 days too many); `diff` = 390 days: shown as 1 year, 0 months, 0 days (25 days too few) | `days` = ((diff mod 365 days) mod 30 days) / 1 day, so that years, months, days, hours and minutes add up to the time left | medium; not executed | Countdown.RemainingOverstatesOneYear | Countdown.ExactRemaining |
