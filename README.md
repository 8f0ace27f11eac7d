# Ticket form: a Dafny model

A model of the logic of a single-page support-ticket form (`app.js`). Users
add, edit, delete, search and sort tickets; the list lives in the browser's
local storage. Without the DOM and storage calls, three parts are left, and all
three are modelled here:

- **Validation.** Five independent field rules run on every submit. Every
  failing field gets a message, and the form is accepted only when none fails
  (module `Validation`).
- **Ticket store.** The page's `state` record becomes the class
  `App.TicketStore`. Its fields are the tickets, the id counter, the id being
  edited, the search text, the sort key, and the stored copy of the list (the
  storage entry under the key "tickets"). Its methods are the handlers:
  add, edit, save-over (update), delete and submit. Module `Store` gives each
  change to the list as a function of the list, with the lemmas about it: the
  id invariant is kept, delete is idempotent, an update touches exactly one
  position.
- **View projection.** The part of `renderTickets` that picks and orders the
  rows (module `View`). It applies a case-insensitive substring search on the
  subject, a stable sort by priority rank (High=1, Medium=2, Low=3) when the
  sort key is "priority", and lookups of the status and author names in the
  two fixed catalogs. `App.TicketStore.Render` builds the rows from these
  functions and changes no state.

Modules `Seqs` (filter and find-index over sequences) and `Text` (trim,
ASCII lower-casing, substring test) model the library calls the code relies
on. Module `Tickets` holds the record types and the catalogs.

In these places the code behaves in ways a reader might not expect, and the model follows the code:

- Validation checks only that a status and an author are selected. It does
  not check that they exist in the catalogs (app.js:82, app.js:98).
- A name that is not in a catalog is not shown as an "unknown" marker. The
  optional chain gives `undefined`, and the row prints the text "undefined".
  In the model this is `None` (app.js:200-201).
- Saving over a ticket that no longer exists is not an error. `updateItem`
  returns silently, and the submit handler still saves and leaves edit mode
  (app.js:155, app.js:238-242).
- The search test uses the query as typed. Only the blank check trims it
  (app.js:181 against app.js:185), so a leading space in the query must
  appear in the subject.
- The id counter is not kept across page loads; see Findings.

## Model

| member | source | states |
|---|---|---|
| `Seqs.Filter` | app.js:182-186 | every kept element satisfies the predicate; the result is no longer than the input |
| `Seqs.FilterConcat` | app.js:182-186 | filtering distributes over concatenation, so kept elements keep their relative order |
| `Seqs.FilterCount` | app.js:169 | each element satisfying the predicate is kept exactly as often as it occurs; every other element is dropped |
| `Seqs.FilterMembership` | app.js:169 | an element is in the filtered list iff it is in the list and satisfies the predicate |
| `Seqs.FilterIdempotent` | app.js:169 | filtering twice with one predicate equals filtering once |
| `Seqs.FilterKeepsAll` | app.js:169 | when every element satisfies the predicate, filtering returns the list unchanged |
| `Seqs.FindIndex` | app.js:154 | the result is the first index whose element satisfies the predicate, or -1 iff no element does |
| `Text.TrimStart` | app.js:181 | the result is the input minus a leading prefix that is all whitespace, and it does not start with whitespace |
| `Text.TrimEnd` | app.js:181 | the result is the input minus a trailing suffix that is all whitespace, and it does not end with whitespace |
| `Text.TrimEmptyIffBlank` | app.js:181 | a string trims to "" exactly when every character is whitespace |
| `Text.Lower` | app.js:184-185 | lower-casing keeps the length and maps each character on its own |
| `Text.Utf16Length` | app.js:77 | `.length` counts UTF-16 code units: at least the number of characters, at most twice it, and equal to it when no character is above U+FFFF |
| `Text.ContainsIffOccurs` | app.js:185 | `includes` holds exactly when the query occurs at some position of the subject |
| `Validation.Validate` | app.js:72-104 | a field has an error iff its own rule fails, with that rule's message; the form is valid iff there are no errors iff subject length >= 4, message length >= 8 (both as `.length`, in UTF-16 code units) and status, priority and author are all selected |
| `Validation.AstralCharCountsTwice` | app.js:77-80 | a subject of two letters and one emoji has `.length` 4 and passes the subject rule |
| `Store.AppendedSpec` | app.js:121-134 | adding keeps all earlier tickets in order and appends one ticket that carries the old counter value as its id |
| `Store.AppendedKeepsIds` | app.js:124 | adding under the counter and incrementing it keeps ids distinct and below the counter |
| `Store.ReplacedAtFirstMatch` | app.js:153-166 | when a ticket has the edited id, the length is unchanged, the first such position holds the new fields under the same id, and every other position is unchanged |
| `Store.ReplacedAbsent` | app.js:154-155 | when no ticket has the edited id, the list is unchanged |
| `Store.ReplacedKeepsIds` | app.js:157-158 | saving over a ticket keeps ids distinct and below the counter |
| `Store.WithoutIdSpec` | app.js:168-171 | after a delete no ticket has that id, and every other ticket occurs as often as before |
| `Store.WithoutPresentId` | app.js:169 | with distinct ids, deleting an id that is present removes exactly the position that carries it and keeps the rest in order |
| `Store.WithoutIdIdempotent` | app.js:168-171 | deleting an id twice equals deleting it once |
| `Store.WithoutAbsentId` | app.js:169 | deleting an id no ticket carries changes nothing |
| `Store.WithoutIdKeepsIds` | app.js:169 | deleting keeps ids distinct and below the counter |
| `Store.ReloadThenAddDuplicatesId` | app.js:15-21 | as written: after a reload with a stored ticket of id 1, the counter is 1, so the invariant fails and the next add creates a second ticket with id 1 |
| `Store.RestoredNextId` | app.js:4 | corrected counter after a load: above every stored id, and 1 when nothing is stored |
| `Store.RestoredIdsValid` | app.js:15-21 | a stored list with distinct ids satisfies the invariant under the restored counter |
| `View.SearchBlankKeepsAll` | app.js:181 | a query that is empty or all whitespace keeps every ticket, in order |
| `View.SearchNonBlankExact` | app.js:181-187 | a non-blank query keeps exactly the tickets whose lower-cased subject contains the lower-cased untrimmed query, each as often as it occurs |
| `View.SearchKeepsOrder` | app.js:182-186 | the search distributes over concatenation, so it keeps input order |
| `View.SortPermutes` | app.js:193-195 | the priority sort returns a permutation of its input |
| `View.SortSorted` | app.js:191-195 | after the priority sort, ranks are non-decreasing (High, then Medium, then Low) |
| `View.SortStable` | app.js:193-195 | the priority sort keeps tickets of equal priority in their input order |
| `View.ShownSpec` | app.js:178-196 | the shown list is the search result, sorted stably when the key is "priority"; any other key leaves the search order unchanged |
| `View.NameOfSpec` | app.js:200-201 | a lookup gives no name iff no entry has the id; otherwise it gives the name of the first entry with that id, as `find` does |
| `View.StatusNames` | app.js:31-35 | status ids 1, 2, 3 resolve to Open, In Progress, Closed; every other id resolves to nothing |
| `View.UserNames` | app.js:24-28 | user ids 1, 2, 3 resolve to Ivan Petrenko, Olena Koval, Pavlo Melnyk; every other id resolves to nothing |
| `App.TicketStore.Start` | app.js:15-21 | page start: tickets come from storage (empty when the key is absent), edit mode is off, and the counter is restored past the largest stored id; the invariant holds when the stored ids are distinct |
| `App.TicketStore.Save` | app.js:11-13 | the storage entry becomes the current list |
| `App.TicketStore.AddItem` | app.js:121-134 | the list gains one ticket at the end with the old counter as id, the counter goes up by one, the list is saved, and the invariant is kept |
| `App.TicketStore.EditItem` | app.js:136-151 | the list is never modified; a ticket is returned iff one has the id, and it is the first ticket with that id (under the invariant, the only one); edit mode is set to that id only when one does, and is unchanged otherwise |
| `App.TicketStore.UpdateItem` | app.js:153-166 | with edit mode on and the ticket present, the list is replaced at its first position and saved; otherwise list and storage are unchanged; the invariant is kept |
| `App.TicketStore.DeleteItem` | app.js:168-171 | the list becomes the list without that id, in order; under the invariant a present id loses exactly its one position; it is saved, and the invariant is kept |
| `App.TicketStore.Submit` | app.js:226-244 | a rejected form leaves list, counter, edit mode and storage unchanged; an accepted one adds when edit mode is off, replaces when it is on, saves, and leaves edit mode; the invariant is kept |
| `App.TicketStore.SetSearchQuery` | app.js:270-274 | the search text becomes the typed text |
| `App.TicketStore.SetSortBy` | app.js:277-281 | the sort key becomes the selected key |
| `App.TicketStore.Render` | app.js:174-223 | one row per shown ticket, in display order, each with the ticket's fields and the resolved names; the store is not modified |
| `App.PrinterScenario` | app.js:198-209 | a first ticket "Printer broken" gets id 1, and its row shows status "Open" and author "Olena Koval" |
| `App.DeleteOnlyTicketShowsNothing` | app.js:168-171 | deleting the only ticket leaves an empty list and nothing to show |

## Findings

| source | as written | input that shows it | evidently intended | confidence | as-written member | corrected member |
|---|---|---|---|---|---|---|
| app.js:15-21 | loading restores the tickets but not the id counter, which stays at its initial 1 (app.js:4) | add one ticket (id 1), reload the page, add another: both tickets have id 1 | restore the counter past the largest stored id | high; not executed | `Store.ReloadThenAddDuplicatesId` | `Store.RestoredNextId` |

`App.TicketStore.Start` uses the corrected counter. After a reload with
duplicate ids, edit and save-over would change only the first ticket with that
id, and delete would remove all of them. The corrected counter is still
derived from the stored list, so the id of a ticket deleted before a reload
can be handed out again (ids 1 and 2, delete 2, reload: the next id is 2);
ids that are never reused would need the counter itself to be stored.

## Left out

- DOM work is left out. This covers filling the select options, reading the
  inputs, marking invalid inputs and writing messages, the per-input handlers
  that clear a message, building the row HTML, `form.reset()` and the
  Add/Save button label. `Validate` returns the messages as a map instead of
  writing them into the page.
- `readForm` trims the subject and message. The model takes them as already
  trimmed: the form data carries the strings as `validate` receives them.
- Storage is a field that holds the list itself. JSON encoding and decoding
  are not modelled, and neither is a failed storage write.
- `Text.Lower`: only ASCII letters are lower-cased. Unicode case mapping,
  which can also change a string's length, is not modelled.
- `Number(...)` on the select values is not modelled. Ids are natural
  numbers, and an unselected select is `None`.
- Priority is one of High, Medium and Low. Other strings would make the sort
  comparator return NaN; they are not modelled.
- Event wiring and scheduling are left out. Each handler is one method that
  runs to completion.
- `App.TicketStore.Start` is the corrected load: it restores the counter,
  which the code as written does not (see Findings).
- The store invariant does not say that ids are positive; the code never
  relies on it.
