# Verified model of a note-taking app's store and filter

This project models the core of a single-user Angular note app in Dafny.
The app keeps a list of notes with an id, title, content, one of four categories,
and two millisecond timestamps. It has two parts worth modelling:

- **The note store (`NoteService`).** It owns one mutable collection.
  - `addNote` prepends a new note.
  - `updateNote` rewrites the notes with a given id.
  - `deleteNote` filters notes out by id.
  - `notes` is the view sorted by `updatedAt`, newest first.
  - On start-up the store loads the stored value. When that value is absent or does not parse, it seeds two default notes.
- **The app shell (`AppComponent`).**
  - `filteredNotes` projects the sorted view through an optional category filter and a case-insensitive search.
  - A small state machine (`showForm`, `editingNote`) opens and closes the note form.
  - `handleSave` routes a save to update or add.
  - `handleDelete` deletes only after the user confirms.

Files:

- `wrappers.dfy`: `Option`, standing for `null` and for fields a `Partial<...>` leaves out.
- `note.dfy`: the `Note` record, `Category`, the inputs of add and update, and id uniqueness.
- `sequences.dfy`: an order-preserving `Filter` (the counterpart of `Array.prototype.filter`), the subsequence relation, and their lemmas.
- `text.dfy`: `Lower` (ASCII `toLowerCase`) and `Contains` (`includes`), which holds exactly when the substring occurs at some position.
- `note_store.dfy`: the store as pure functions over `seq<Note>`, the stable newest-first sort, the seed data, and the class `NoteService`. The class has one `seq` field, and each mutator reassigns it.
- `app_component.dfy`: the projection `FilterNotes` with its soundness, completeness and order lemmas, and the class `AppComponent`.

The collaborators the code reaches for are inputs:

- The clock (`Date.now()`) is passed in as its readings. `addNote` reads it twice and `initializeDefaultData` four times; each of those readings is its own parameter. `updateNote` reads it once for every note the `map` callback rewrites, so it takes a function `clock` and stamps the note at position `i` with `clock(i)`. No reading is required to be non-decreasing. `createdAt <= updatedAt` is proved under the hypothesis that the readings do not decrease.
- The id generator (`crypto.randomUUID()`) is a `freshId` parameter. `NoteService.AddNote` requires that no stored note has that id.
- `JSON.parse` is a parameter `parse: string -> Option<seq<Note>>`, where `None` means the parse threw.
- The answer of `confirm()` is a boolean parameter.

Three points of the code's behaviour that the model keeps:

- `addNote` and `updateNote` validate nothing.
- `updateNote` with an unknown id changes nothing and reports nothing (src/services/note.service.ts:79).
- Ties in the sorted view stay in storage order, because `Array.prototype.sort` is stable. They are not broken by id.

## Model

| member | source | states |
|---|---|---|
| NoteModel.CategoryName | src/models/note.ts:5 | a category is stored as one of the four strings 'personal', 'work', 'idea', 'todo' |
| NoteModel.CategoryNameInjective | src/models/note.ts:5 | equal stored names mean equal categories, so comparing `n.category === cat` compares categories |
| NoteStore.AddedNotes | src/services/note.service.ts:67-74 | the new note is at index 0, the old notes follow unchanged and in order, and the length grows by one; the new note copies title, content and category from the input, takes the fresh id, and its createdAt and updatedAt are the first and second clock readings |
| NoteStore.AddPreservesUniqueIds | src/services/note.service.ts:70-74 | with a fresh id, unique ids stay unique after an add |
| NoteStore.AddKeepsTimestampsOrdered | src/services/note.service.ts:71-72 | if the second clock reading is no earlier than the first, the new note has createdAt <= updatedAt, and the whole collection keeps that property |
| NoteStore.Patched | src/services/note.service.ts:79 | the spread `{...n, ...updates, updatedAt}` keeps id and createdAt, takes each supplied field from the update and each missing one from the note, and sets updatedAt to the clock reading |
| NoteStore.UpdatedNotes | src/services/note.service.ts:77-81 | length, order, ids and createdAt are preserved; every note with another id is unchanged; every note with the id at position i gets updatedAt = clock(i), the reading the map callback takes for that note |
| NoteStore.UpdateRewritesMatch | src/services/note.service.ts:79 | the note with the id at position i becomes exactly its patched version, stamped with clock(i) |
| NoteStore.UpdateAbsentIsNoOp | src/services/note.service.ts:79 | an update with an id no note has leaves the collection exactly as it was |
| NoteStore.UpdatePreservesUniqueIds | src/services/note.service.ts:79 | unique ids stay unique after an update |
| NoteStore.UpdateKeepsTimestampsOrdered | src/services/note.service.ts:79 | if each note's clock reading is no earlier than its createdAt, createdAt <= updatedAt survives an update |
| NoteStore.DeletedNotes | src/services/note.service.ts:84 | no note with the id remains; every note with another id remains; nothing new appears |
| NoteStore.DeleteKeepsEveryOccurrence | src/services/note.service.ts:84 | every note with another id remains as many times as it was held, and no note with the id remains |
| NoteStore.DeleteKeepsOrder | src/services/note.service.ts:84 | the remaining notes are an order-preserving subsequence of the old collection |
| NoteStore.DeleteAbsentIsNoOp | src/services/note.service.ts:84 | deleting an id no note has leaves the collection exactly as it was |
| NoteStore.FilterPreservesUniqueIds | src/services/note.service.ts:84 | any filter of a collection with unique ids has unique ids |
| NoteStore.DeletePreservesUniqueIds | src/services/note.service.ts:84 | unique ids stay unique after a delete |
| NoteStore.InsertByRecency | src/services/note.service.ts:15 | inserting a note into a newest-first sequence adds exactly that note and keeps the sequence newest first |
| NoteStore.PrependKeepsNonIncreasing | src/services/note.service.ts:15 | putting a note at least as new as all others in front keeps a sequence newest first |
| NoteStore.SortByRecency | src/services/note.service.ts:15 | the sorted view is a permutation (same multiset) of the collection and is non-increasing in updatedAt |
| NoteStore.InsertKeepsTies | src/services/note.service.ts:15 | insertion keeps notes with equal updatedAt in their prior relative order |
| NoteStore.SortIsStable | src/services/note.service.ts:15 | for every timestamp, the notes with that updatedAt appear in the view in the same order as in the collection |
| NoteStore.SortIsStableForAll | src/services/note.service.ts:15 | the same stability for all timestamps at once |
| NoteStore.SameTiesSameMembers | src/services/note.service.ts:15 | two sequences that agree on every timestamp's notes hold the same notes |
| NoteStore.SameHeadSameTies | src/services/note.service.ts:15 | two newest-first sequences that agree on every timestamp's notes start with the same note, and their tails agree too |
| NoteStore.StableOrderIsUnique | src/services/note.service.ts:15 | two newest-first sequences that agree on every timestamp's notes are equal |
| NoteStore.NonIncreasingTail | src/services/note.service.ts:15 | the tail of a newest-first sequence is newest first |
| NoteStore.StableSortIsSortByRecency | src/services/note.service.ts:15 | any newest-first ordering that keeps ties in storage order, as a stable sort with this comparator must, equals the modelled view |
| NoteStore.SubsequenceKeepsNonIncreasing | src/app.component.ts:27-38 | removing notes from the newest-first view leaves it newest first |
| NoteStore.AddedNoteLeadsView | src/services/note.service.ts:15-74 | a note added with a clock reading no earlier than any stored updatedAt heads the sorted view |
| NoteStore.DefaultNotes | src/services/note.service.ts:41-61 | exactly two notes, ids '1' and '2', with the seed titles and contents, categories personal and idea, unique ids; note '2' is stamped with the third and fourth readings minus 100000 ms; createdAt <= updatedAt when readings do not decrease |
| NoteStore.DefaultsUnderFixedClock | src/services/note.service.ts:41-61 | with a fixed clock, each default has createdAt == updatedAt, note '2' is 100000 ms older than note '1', and the sorted view lists note '1' first |
| NoteStore.LoadedNotes | src/services/note.service.ts:27-39 | an absent or empty stored value, or one whose parse throws, yields exactly the two defaults; otherwise the parsed value is taken as it is |
| NoteStore.NoteService.constructor | src/services/note.service.ts:18-19 | a new service holds what loading produced |
| NoteStore.NoteService.Notes | src/services/note.service.ts:14-16 | the view is a permutation of the collection, non-increasing in updatedAt, with equal timestamps in storage order |
| NoteStore.NoteService.LoadNotes | src/services/note.service.ts:27-39 | the collection becomes LoadedNotes of the stored value |
| NoteStore.NoteService.InitializeDefaultData | src/services/note.service.ts:41-61 | the collection becomes exactly the two defaults |
| NoteStore.NoteService.AddNote | src/services/note.service.ts:67-75 | the collection becomes AddedNotes of the old one; unique ids stay unique |
| NoteStore.NoteService.UpdateNote | src/services/note.service.ts:77-81 | the collection becomes UpdatedNotes of the old one, each rewritten note stamped with its own clock reading; unique ids stay unique; an unknown id changes nothing |
| NoteStore.NoteService.DeleteNote | src/services/note.service.ts:83-85 | the collection becomes DeletedNotes of the old one; no note with the id remains; order is kept; unique ids stay unique; an unknown id changes nothing |
| Sequences.Filter | src/app.component.ts:30-37 | the result holds exactly the elements that pass the predicate and is no longer than the input |
| Sequences.FilterKeepsEveryOccurrence | src/app.component.ts:30-37 | each passing element is kept as many times as it occurs in the input, and each failing one is dropped entirely |
| Sequences.FilterIsSubsequence | src/app.component.ts:30-37 | a filter result is an order-preserving subsequence of its input |
| Sequences.FilterCommutes | src/app.component.ts:29-38 | two filters applied in either order give the same sequence |
| Text.LowerChar | src/app.component.ts:25-35 | per character `toLowerCase` on ASCII: an upper-case letter moves up by 32, any other character is unchanged, and the result is never an upper-case letter |
| Text.Lower | src/app.component.ts:25-36 | lower-casing keeps the length, leaves no upper-case ASCII letter, shifts each upper-case ASCII letter to its lower-case form and leaves every other character as it is |
| Text.Contains | src/app.component.ts:35-36 | `includes` holds exactly when the substring occurs at some position |
| App.FilterNotes | src/app.component.ts:24-41 | a note is returned exactly when it is in the view, has the selected category when the filter is on (neither null nor empty), and passes the lower-cased search test when the query is non-empty |
| App.InCategory | src/app.component.ts:30 | for a name of one of the four categories, the predicate keeps exactly the notes of that category; for any other string it keeps none |
| App.MentionsQuery | src/app.component.ts:34-37 | the search test holds exactly when the lower-cased query occurs in the lower-cased title or content |
| App.FilterNotesExact | src/app.component.ts:29-38 | sound and complete: a note of the view is returned exactly when it passes every active filter |
| App.FilterNotesHonoursCategory | src/app.component.ts:29-31 | with a category selected, every returned note has exactly that category |
| App.UnknownCategoryShowsNothing | src/app.component.ts:29-31 | a selected filter string that names none of the four categories shows no notes |
| App.FilterNotesHonoursQuery | src/app.component.ts:25-37 | with a non-empty query, every returned note has Lower(title) or Lower(content) containing Lower(query) |
| App.FilterNotesIsSubsequence | src/app.component.ts:29-38 | the result is an order-preserving subsequence of the sorted view |
| App.FilterNotesIdentity | src/app.component.ts:24-40 | with no category (null or empty) and an empty query, the result is the sorted view unchanged |
| App.FilterOrderIrrelevant | src/app.component.ts:29-38 | applying the search filter before the category filter gives the same result |
| App.AppComponent.constructor | src/app.component.ts:15-21 | the form starts closed, with no note being edited, an empty query and no category filter |
| App.AppComponent.FilteredNotes | src/app.component.ts:24-41 | the notes on screen are exactly the stored notes that pass the active filters, in sorted-view order and newest first |
| App.AppComponent.HandleSearch | src/app.component.ts:44-47 | the query becomes the input's value; nothing else changes |
| App.AppComponent.SetFilter | src/app.component.ts:49-51 | the category filter becomes the given value; nothing else changes |
| App.AppComponent.OpenCreateForm | src/app.component.ts:53-56 | editingNote becomes null and showForm becomes true |
| App.AppComponent.OpenEditForm | src/app.component.ts:58-61 | editingNote becomes the note and showForm becomes true |
| App.AppComponent.CloseForm | src/app.component.ts:63-66 | showForm becomes false and editingNote becomes null |
| App.AppComponent.HandleSave | src/app.component.ts:68-76 | with a note being edited, the store is updated at that note's id with every form field; otherwise a note is added; unique ids stay unique; afterwards showForm is false and editingNote is null |
| App.AppComponent.HandleDelete | src/app.component.ts:78-82 | the store is changed exactly as DeletedNotes says when the confirmation is true, and not at all otherwise |

## Left out

- Reading and writing `localStorage` and the auto-save `effect` (src/services/note.service.ts:21-24,63-65) are not modelled. They are browser I/O plus Angular change scheduling. The model therefore proves nothing about what is persisted, including the create-then-reload round trip.
- `JSON.parse` and `JSON.stringify` are foreign calls. Parsing is an input function of type `string -> Option<seq<Note>>`, so only parses that yield a sequence of well-formed notes are represented. The code stores whatever `JSON.parse` returns. With `null`, a non-array or notes missing fields, the app later throws in `.sort` (src/services/note.service.ts:15) or in `toLowerCase` (src/app.component.ts:35). What the app does with any such parsed value is not modelled.
- `console.error` on a failed parse (src/services/note.service.ts:33) is console output and is not modelled; the model keeps only the fallback to the defaults.
- `downloadData` and `downloadJson` are not modelled. They are Blob, object-URL and DOM-anchor plumbing.
- Angular signals and `computed` are not modelled: neither re-evaluation timing nor memoisation.
- `notes` calls `.sort` on the signal's own array and so reorders the stored array in place. The model returns a sorted copy and leaves the stored order alone. The aliasing is not captured, and it shows in the order of ties in the view. In the app, ties keep the order of the array as last sorted; in the model, they keep the order of adds and updates. Example: add A at time 1, add B at time 2, update A at time 3, render the view, then update B at time 3. The app lists A before B. The model's `Notes` lists B before A.
- `Date.now()` and `crypto.randomUUID()` are parameters.
- NoteStore.NoteService.AddNote: requires that `freshId` is not an id in the collection. This stands for `randomUUID` returning an unused id, which holds only with overwhelming probability.
- `toLowerCase` is modelled for ASCII letters only. Unicode case mapping is a foreign call.
- Timestamps are unbounded integers. Double-precision behaviour and non-numeric `updatedAt` values, which break the comparator `b.updatedAt - a.updatedAt`, are not modelled.
- A `Partial` update whose fields are explicitly `undefined` would erase those fields through the spread. The model treats a missing field as "keep".
- `confirm()` is a browser dialog. Its answer is the boolean `confirmed`.
- `handleSearch` reads the DOM event's target. The model takes the input value directly.
- `src/components/note-form.component.ts` is not part of this model. It is a template over Angular Reactive Forms, and its required-field checks come from `Validators.required`. `handleSave` receives its value as a `NoteInput` holding all three fields.
- `src/components/note-card.component.ts` is not part of this model. It is presentation only.
