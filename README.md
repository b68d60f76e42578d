# Juggle event store, modelled in Dafny

Juggle is a small SwiftUI event tracker. Each event has a name, a date, a description, a
category, a recurrence tag and an ordered checklist of preparation tasks. Under the views
sits `DataManager`, which holds an in-memory array of events. It has an upsert keyed by
identifier that re-sorts by date (`addEvent`, and `updateEvent` as the same call), a delete
by index offsets, a date-sorted copy, and a first-match lookup. The views add four things:

- a case-insensitive search over the sorted copy;
- a binding from the detail screen to one stored event (read by identifier, with
  `Event.empty` as the fallback; written back in place);
- the checklist toggle;
- the add and edit forms, which append checklist items and remove them by identifier.

One module per Swift file:

| module | file | form |
|---|---|---|
| `EventModel` | Event.swift | datatypes and functions |
| `EventStore` | DataManager.swift | class `DataManager` with a `seq<Event>` field, plus the functions that specify it |
| `ContentView` | ContentView.swift | functions, and the method that forwards the delete |
| `EventDetailView` | EventDetailView.swift | class `EventBinding` (get/set), `Event.empty`, the toggle |
| `EditEventView` | EditEventView.swift | class `EditEventForm`; it writes through an `EventBinding` |
| `AddEventView` | AddEventView.swift | class `AddEventForm` with the form's `@State` fields |

Three helper modules stand in for library code:

- `Wrappers`: Swift's optional.
- `Seqs`: `filter` and `remove(atOffsets:)`, plus an explicit subsequence predicate.
  The forms' `removeAll(where:)` is `EventModel.RemoveItemsWithId`, a `Seqs.Filter` with
  the negated predicate.
- `Text`: `trimmingCharacters(in: .whitespaces)` and the case-insensitive substring test.

Two invariants run through the model: event ids are unique within the store
(`EventStore.UniqueIds`), and item ids are unique within each checklist
(`EventStore.ChecklistIdsUnique`). Every operation that changes the store or a form's
checklist states that it preserves both.

Identifiers are an opaque `Uuid` datatype, compared only for equality. Dates are `int`
timestamps. Fresh `UUID()` values and the current `Date()` are parameters.

## Model

| member | source | states |
|---|---|---|
| `EventModel.RawValueRoundTrip` | Event.swift:3-8 | The raw values are "None", "Daily", "Weekly", "Monthly". Parsing a raw value gives back its case. Parsing succeeds exactly on those four strings. |
| `EventModel.AllCasesListsEachCaseOnce` | Event.swift:3 | `allCases` contains every case once, in the order none, daily, weekly, monthly. |
| `EventModel.RawValue` | Event.swift:4-7 | The raw string of each case; `RawValueRoundTrip` proves that parsing it gives the case back and that the four strings are distinct. |
| `EventModel.FromRawValue` | Event.swift:3-7 | `Recurrence(rawValue:)`; `RawValueRoundTrip` proves it succeeds on exactly the four raw values. |
| `EventModel.NewChecklistItem` | Event.swift:10-14 | A new checklist item has the given id and title and is not completed. |
| `EventModel.ColorForCategory` | Event.swift:26 | The dictionary lookup with the gray default; `KnownCategoryColors` and `CategoryColorIsGrayExactlyForUnknown` give its value on every category. |
| `EventModel.Event.CategoryColor` | Event.swift:25-27 | `categoryColor`; `CategoryColorDependsOnlyOnCategory` proves it depends on the category alone. |
| `EventModel.KnownCategoryColors` | Event.swift:30-36 | The table has exactly five categories: Personal→mint, Interviews→purple, Hackathons→orange, Tech Events→green, Cultural Events→pink. |
| `EventModel.CategoryColorIsGrayExactlyForUnknown` | Event.swift:25-27 | The colour is gray exactly when the category is not in the table. |
| `EventModel.CategoryColorDependsOnlyOnCategory` | Event.swift:25-27 | Two events with the same category have the same colour. |
| `EventModel.CategoriesMatchColorTable` | AddEventView.swift:15 | The forms' category picker offers exactly the table's categories. |
| `EventModel.RemoveItemsWithId` | EditEventView.swift:47 | `removeAll` by id leaves no item with that id. It keeps every other item, in its original order (a subsequence), and as many copies of each as the input has. |
| `EventModel.RemoveAbsentItem` | AddEventView.swift:53 | Removing an id that no item has changes nothing. |
| `EventModel.AppendFreshItemKeepsUniqueItemIds` | EditEventView.swift:88 | Appending an item whose id no item has keeps item ids unique. |
| `EventModel.SubsequenceKeepsUniqueItemIds` | EditEventView.swift:47 | Dropping items while keeping the order of the rest keeps item ids unique. |
| `EventModel.RemoveItemsKeepsUniqueItemIds` | AddEventView.swift:53 | `removeAll` by id keeps item ids unique. |
| `Text.TrimIsCore` | EditEventView.swift:85 | The trimmed text is a slice of the input. Only whitespace lies outside the slice, and the slice neither starts nor ends with whitespace. |
| `Text.TrimEmptyIffAllWhitespace` | AddEventView.swift:94 | Trimming leaves nothing exactly when the input is all whitespace. |
| `Text.Trim` | EditEventView.swift:85 | `trimmingCharacters(in: .whitespaces)`; `TrimIsCore` fixes its result and `TrimEmptyIffAllWhitespace` its emptiness. |
| `Text.Contains` | ContentView.swift:13 | The substring scan; `ContainsIffOccurs` proves it equal to "occurs at some position". |
| `Text.ContainsIgnoringCase` | ContentView.swift:13 | The substring test on the case-folded name and query; `FoldIgnoresCase` and `ContentView.QueryCaseIsIrrelevant` show that ASCII letter case does not matter. |
| `Text.ContainsIffOccurs` | ContentView.swift:13 | The substring scan succeeds exactly when the query occurs at some position of the name. |
| `Seqs.Filter` | ContentView.swift:12-14 | Every element of the result is in the input and satisfies the predicate, and every input element that satisfies it is in the result; it is never longer than its input. How often each value occurs is `Seqs.FilterCounts`. |
| `Seqs.FilterCounts` | ContentView.swift:12-14 | `filter` keeps every copy of a value that satisfies the predicate and no copy of one that does not. |
| `Seqs.FilterIsSubsequence` | ContentView.swift:12 | `filter` keeps the original order: its result is a subsequence of its input. |
| `Seqs.SubsequenceIsSelf` | ContentView.swift:9-10 | A sequence is a subsequence of itself, as the unfiltered list is of the sorted copy. |
| `Seqs.SubsequenceNotLonger` | ContentView.swift:12 | A subsequence is never longer than the sequence it comes from. |
| `Seqs.RemoveAtOffsets` | DataManager.swift:57 | `remove(atOffsets:)`, with every offset a valid position, shrinks the list by the number of offsets. |
| `Seqs.RemoveAtOffsetsKeeps` | DataManager.swift:57 | Each element not at a removed offset survives. It moves left by the number of removed offsets before it. With the length, this fixes the whole result: the others keep their relative order. |
| `Seqs.RemoveAtNoOffsets` | DataManager.swift:57 | Removing no offsets changes nothing. |
| `Seqs.RemoveAtOffsetsShrinks` | DataManager.swift:57 | `remove(atOffsets:)` adds no element and no copy of one: the result's multiset is contained in the input's. |
| `EventStore.FirstIndexOf` | DataManager.swift:48 | `firstIndex(where:)` by id returns the least index whose event has the id, or none when no event has it. |
| `EventStore.FirstMatchIsUnique` | DataManager.swift:64-66 | That first-match answer is unique. |
| `EventStore.SortByDate` | DataManager.swift:14 | Sorting with the date comparator gives a date-ascending permutation of its input. |
| `EventStore.Upsert` | DataManager.swift:48-52 | The replace-or-append step of `addEvent`; the `Upsert…` lemmas below state what it does. |
| `EventStore.UpsertNewId` | DataManager.swift:50-52 | When no event has the id, the replace-or-append step appends the event and leaves the rest alone. |
| `EventStore.UpsertKnownId` | DataManager.swift:48-49 | When an event has the id, the length stays. The first match becomes the new event and nothing else changes. |
| `EventStore.UpsertSameIdTwice` | DataManager.swift:48-52 | Two upserts with the same id have the effect of the second alone. |
| `EventStore.UpsertKeepsUniqueIds` | DataManager.swift:48-52 | The upsert preserves unique ids. |
| `EventStore.PermutationKeepsUniqueIds` | DataManager.swift:53 | Reordering, and so the sort, preserves unique ids. |
| `EventStore.SubMultisetKeepsIds` | DataManager.swift:57 | Keeping only some of the events, in any order, keeps event ids unique and every checklist's item ids unique. |
| `EventStore.FilterKeepsIds` | ContentView.swift:38 | Filtering the events keeps event ids unique and every checklist's item ids unique. |
| `EventStore.UpsertKeepsChecklistIds` | DataManager.swift:48-52 | The upsert of an event with unique item ids keeps every stored checklist's item ids unique. |
| `EventStore.DataManager.constructor` | DataManager.swift:17-19 | `init` starts empty and loads once: a decoded list, or empty when the file is missing, unreadable or malformed. |
| `EventStore.DataManager.LoadEvents` | DataManager.swift:26-36 | A decoded list replaces the events unsorted. Any failure leaves them unchanged. |
| `EventStore.DataManager.SortedEvents` | DataManager.swift:13-15 | `sortedEvents` is a date-ascending permutation of `events`. It reads the store and does not change it. |
| `EventStore.DataManager.Index` | DataManager.swift:64-66 | `index(for:)` returns the least index with the event's id, or none. |
| `EventStore.DataManager.AddEvent` | DataManager.swift:47-54 | Afterwards `events` is date-ordered and a permutation of the old list with the first match replaced (or the event appended). Unique event ids stay unique, and so do item ids within every checklist when the added event's own are unique. |
| `EventStore.DataManager.DeleteEvent` | DataManager.swift:56-58 | With valid offsets, the new list is the old one with exactly those positions removed. Unique event ids and unique checklist item ids stay unique. |
| `EventStore.DataManager.UpdateEvent` | DataManager.swift:60-62 | Exactly `addEvent`'s contract, including both uniqueness invariants. |
| `EventStore.AddNewEvent` | DataManager.swift:47-53 | Adding a new id grows the list by one. The event is present and nothing else is added or dropped. |
| `EventStore.AddKnownEvent` | DataManager.swift:48-53 | Adding a known id keeps the length: the old first match is swapped for the new event and nothing else changes. |
| `EventStore.AddSameIdTwice` | DataManager.swift:47-53 | Two `addEvent`s with one id, from unique ids: ids stay unique, the one entry with the id carries the second call's fields, and the events are, as a multiset, exactly those one call with the second value leaves. |
| `EventStore.UpsertReplacesMember` | DataManager.swift:48-49 | On unique ids, upserting an event over a stored event with its id swaps that one event for the new one. |
| `EventStore.UpsertSwap` | DataManager.swift:48-52 | Upserting one value and then swapping it for another with the same id gives the events that upserting the other leaves. |
| `EventDetailView.EmptyEvent` | EventDetailView.swift:157-167 | `Event.empty` has an empty name and description, category "Personal", recurrence none, no checklist items, and therefore colour mint. |
| `EventDetailView.FirstWithId` | EventDetailView.swift:10 | `first { $0.id == eventID }`; `FirstWithIdAgrees` ties it to `FirstIndexOf`. |
| `EventDetailView.FirstWithIdAgrees` | EventDetailView.swift:10-12 | `first(where:)` returns the element at the index `firstIndex(where:)` reports, and none when that index is none. |
| `EventDetailView.EventBinding.constructor` | EventDetailView.swift:5 | The binding is made for a store, an event id, and the id and time `Event.empty` is built from. |
| `EventDetailView.EventBinding.Get` | EventDetailView.swift:10 | The getter returns the first stored event with the id, or `Event.empty` when there is none. |
| `EventDetailView.EventBinding.Set` | EventDetailView.swift:11-15 | The setter overwrites the first match in place, with no re-sort. It does nothing when there is none. A value that keeps the bound id keeps event ids unique; a value whose checklist ids are unique keeps every checklist's ids unique. |
| `EventDetailView.Rebind` | EventDetailView.swift:12-14 | The setter's effect on the list; `RebindChangesOnlyFirstMatch` and `RebindMissingIsNoOp` state it. |
| `EventDetailView.RebindChangesOnlyFirstMatch` | EventDetailView.swift:12-14 | The setter keeps the length and every other position; only the first match changes. |
| `EventDetailView.RebindMissingIsNoOp` | EventDetailView.swift:12 | With no event carrying the id, the setter is a no-op. |
| `EventDetailView.RebindKeepsIds` | EventDetailView.swift:12-14 | The setter keeps event ids unique when the written value keeps the bound id, and checklist item ids unique when its checklist has unique ids. |
| `EventDetailView.GetAfterSet` | EventDetailView.swift:10-14 | If a match exists and the new value keeps the id, reading after writing returns the new value. |
| `EventDetailView.ToggleItem` | EventDetailView.swift:106 | `item.isCompleted.toggle()` on one item of the event; `ToggleFlipsOnlyTappedItem` and `ToggleTwiceRestores` state it. |
| `EventDetailView.ToggleFlipsOnlyTappedItem` | EventDetailView.swift:106 | A toggle flips the tapped item's `isCompleted`. It leaves that item's id and title, the other items and every other event field as they were. |
| `EventDetailView.ToggleTwiceRestores` | EventDetailView.swift:106 | Toggling the same item twice restores the event. |
| `EventDetailView.ToggleKeepsUniqueItemIds` | EventDetailView.swift:106 | A toggle changes no item id, so unique item ids stay unique. |
| `EventDetailView.ToggleChecklistItem` | EventDetailView.swift:95-106 | A tap writes the toggled event back through the binding, and the getter then returns it. Event ids and checklist item ids stay unique. |
| `ContentView.FilteredEventsShowsMatches` | ContentView.swift:7-16 | An empty query shows `sortedEvents` unchanged. Otherwise it shows exactly the events whose name matches, each as often as it is stored, as a date-ordered subsequence of `sortedEvents` that is never longer. |
| `ContentView.FilteredEvents` | ContentView.swift:7-16 | `filteredEvents`; `FilteredEventsShowsMatches` states what it shows. |
| `ContentView.Matches` | ContentView.swift:13 | The per-name search test; `FoundInside`, `QueryCaseIsIrrelevant` and `HackathonPrepIsFound` state it. |
| `ContentView.SubsequenceKeepsOrder` | ContentView.swift:8-12 | Filtering the sorted copy keeps it date-ordered. |
| `ContentView.FoundInside` | ContentView.swift:13 | A query that occurs anywhere in a name, up to ASCII letter case, matches. |
| `ContentView.QueryCaseIsIrrelevant` | ContentView.swift:13 | Two queries that differ only in ASCII letter case match the same events. |
| `ContentView.HackathonPrepIsFound` | ContentView.swift:13 | "Hackathon Prep" is found by "hack", "HACK" and "Prep". |
| `ContentView.DeleteEvent` | ContentView.swift:55-57 | The swiped offsets, which are positions in the shown list, are passed unchanged to the store and applied to `events`. They are always valid there, because the shown list is never longer. Both uniqueness invariants are kept. |
| `ContentView.DeleteEventMisaddressed` | ContentView.swift:38 | A concrete store and query where swiping the only shown row deletes a different event. |
| `ContentView.DeleteDisplayedEvents` | ContentView.swift:38 | Corrected delete: the events on the swiped rows are removed by id. Every other event remains, in order, and both uniqueness invariants are kept. |
| `ContentView.DeleteDisplayedRemovesSwipedRow` | ContentView.swift:38 | On the same example, the corrected delete removes the swiped event and keeps the other. |
| `EditEventView.AppendItemKeepsTheRest` | EditEventView.swift:88 | Appending adds one item at the end. Existing items and all other event fields are untouched. |
| `EditEventView.AppendItem` | EditEventView.swift:88 | `checklistItems.append` on the bound event; `AppendItemKeepsTheRest` states it. |
| `EditEventView.RemoveItem` | EditEventView.swift:47 | `checklistItems.removeAll` by id on the bound event, by way of `EventModel.RemoveItemsWithId`. |
| `EditEventView.EditEventForm.constructor` | EditEventView.swift:6-8 | The form starts with an empty input field, bound to the given event binding. |
| `EditEventView.EditEventForm.AddChecklistItem` | EditEventView.swift:84-90 | Input that trims to empty changes neither the store nor the field. Otherwise the trimmed text is appended as a not-completed item through the binding, and the field is cleared. The getter then returns the extended event when it is stored. Event ids stay unique; with a fresh item id, so do checklist item ids. |
| `EditEventView.EditEventForm.RemoveChecklistItem` | EditEventView.swift:47 | Removes every item with the id from the bound event and writes the event back through the binding. Event ids and checklist item ids stay unique. |
| `EditEventView.EditEventForm.Save` | EditEventView.swift:74-78 | Unavailable when the bound event's name is empty. Otherwise the store gets `updateEvent`'s effect: the upsert, then date order. Event ids and checklist item ids stay unique. |
| `AddEventView.AddEventForm.constructor` | AddEventView.swift:7-13 | The form starts with an empty name and description, the given date, "Personal", recurrence none, no items and an empty input field. |
| `AddEventView.AddEventForm.AddChecklistItem` | AddEventView.swift:93-98 | Whitespace-only input changes neither the list nor the field. Otherwise the untrimmed text is appended as a not-completed item and the field is cleared. A fresh item id keeps the list's item ids unique. |
| `AddEventView.AddEventForm.RemoveChecklistItem` | AddEventView.swift:53 | Removes every item with the id, keeping the rest in order; unique item ids stay unique. |
| `AddEventView.AddEventForm.NewEvent` | AddEventView.swift:101-108 | The event `addEvent()` builds from the form's fields; `Save` states that the store receives it. |
| `AddEventView.AddEventForm.Save` | AddEventView.swift:83-110 | Unavailable while the name is empty. Otherwise it upserts an event whose fields equal the form's fields and re-sorts. With a fresh id, the store grows by exactly that event. Event ids stay unique, and checklist item ids too when the form's list has unique ids. |

## Left out

- JSON persistence (`saveEvents`, `fileURL`, `JSONEncoder`/`JSONDecoder`): file I/O and a foreign Codable implementation. `loadEvents` is modelled on the outcome of reading and decoding, given as a parameter.
- The `didSet` autosave, `@Published`/`ObservableObject`, `@MainActor` and the `DataManager.shared` singleton: these are observation and concurrency plumbing. No save side effect is modelled.
- EventStore.DataManager.SortedEvents: promises only date order and a permutation, not which of several same-date events comes first. Swift does not document its `sort` as stable.
- EventStore.DataManager.AddEvent: the same limit on the order of same-date events after the sort.
- ContentView.Matches: ASCII case folding replaces the locale-aware `localizedCaseInsensitiveContains`. The empty query never reaches it, because the empty query is handled first.
- Text.Trim: the whitespace set is the space separators plus tab, applied per character. Unicode scalar and grapheme subtleties of Foundation are not modelled.
- EventDetailView.EventBinding.Get: the source builds `Event.empty` with a new `UUID()` and `Date()` on every failed read. The model fixes that id and time when the binding is made.
- Field edits in the edit form (the name text field, the date picker, the category and recurrence pickers, and the title field and toggle of each item, EditEventView.swift:15-55): each is one write through the `EventBinding` setter. The model covers that setter and the checklist operations, not every control.
- Field edits in the add form (the name text field, the date picker, the category and recurrence pickers, the description editor, and the title field and toggle of each item, AddEventView.swift:21-61): each writes the form's own `@State`, which in the model is a plain assignment to a field of `AddEventForm`. These assignments are not modelled as separate methods.
- EventStore.DataManager.LoadEvents: a decoded list is accepted as it is, so duplicate event ids or duplicate checklist item ids in the file reach the store (DataManager.swift:32). The uniqueness invariants are therefore stated as preserved by every mutator, not as established by loading.
- Checklist item ids are unique only when each new item's id is fresh; the model takes `UUID()` as a parameter and states preservation under that freshness, not freshness itself.
- `UUID()` and `Date()`: fresh identifiers and the current time are parameters. Date formatting is not modelled.
- All SwiftUI layout, navigation, sheets, `dismiss()`, colour rendering, `SectionHeader`, `InfoRow`, `categoryTag`, and JuggleApp.swift (app entry only).

## Findings

| source | as written | input that shows it | evidently intended | confidence | as-written member | corrected member |
|---|---|---|---|---|---|---|
| ContentView.swift:38 | `onDelete` reports offsets into `filteredEvents`, which is sorted and possibly filtered. `deleteEvent(at:)` passes them unchanged to the store, which removes those positions of the raw `events` array. | Store `[Gym (date 1), Hackathon (date 2)]`, query "hack". The list shows only Hackathon. Swiping it away (offset 0) deletes Gym and keeps Hackathon. Events can also be out of date order without a query: the binding setter and `loadEvents` do not sort. | Delete the events shown on the swiped rows. | high; not executed | `ContentView.DeleteEvent`, `ContentView.DeleteEventMisaddressed` | `ContentView.DeleteDisplayedEvents`, `ContentView.DeleteDisplayedRemovesSwipedRow` |
