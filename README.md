# Notes app: note store and query

A model of the logic of a browser note-taking page. The page keeps a list of
notes, newest first, prepending on every submission. It also keeps a
"pending delete" slot: a delete-button click fills it, and confirming or
cancelling clears it. The visible list comes from a query: a case-folded
substring search over the title and content, then an exact match on the tag.
Three lookups turn a tag into its CSS class, icon and label. An "empty" message
is shown exactly when the list checked has no notes.

Modules:

- `Notes` (notes.dfy): the `Note` record (`title`, `content`, `tag`, `date`) and `Option`.
- `Sequences` (sequences.dfy): the array operations the page uses, as functions.
  `Select` is `filter`, `Positions` gives the store positions of what `Select`
  keeps, `Prepend` is `unshift`, and `RemoveAt` is `splice(i, 1)`. Lemmas cover
  counting, membership and composition.
- `Text` (text.dfy): ASCII case folding, capitalisation, and `Includes`
  (a scanning substring test) proved equal to "there is an occurrence".
- `Query` (query.dfy): `FilterNotes` (the two filter passes of `filterNotes`),
  its properties, and `EmptyStateDisplay`.
- `Tags` (tags.dfy): the three tag tables and their lookups.
- `Store` (store.dfy): the class `NoteStore`, holding `notes`, the pending
  slot and the saved local-storage snapshot, with one method per handler.

Two behaviours of the code are worth stating. The search term is lowercased
but not trimmed (index.js:220). A stored value that is not valid JSON is not
recovered: `JSON.parse` throws (index.js:20). An absent key, or a stored value
that decodes to something falsy, gives an empty list.

## Model

| member | source | states |
|---|---|---|
| `Sequences.Select` | index.js:223-237 | the filtered list is no longer than the input and every element it keeps passes the test |
| `Sequences.Positions` | index.js:223-237 | the kept elements sit at strictly increasing positions of the input, one position per kept element, in order |
| `Sequences.SelectIsSubsequence` | index.js:223-237 | a filtered list is an order-preserving subsequence of its input, witnessed by `Positions` |
| `Sequences.SelectCount` | index.js:226-236 | every copy of an element that passes is kept, and no copy of one that fails |
| `Sequences.SelectMember` | index.js:226-236 | an element is in the filtered list if and only if it is in the input and passes |
| `Sequences.SelectExt` | index.js:226-236 | two tests that agree on every element filter any list the same way |
| `Sequences.SelectKeepsAll` | index.js:223-237 | a test every element passes returns the whole list unchanged |
| `Sequences.PositionsOfAll` | index.js:47-56 | when every element passes, the kept positions are 0, 1, 2, ... |
| `Sequences.SelectAppend` | index.js:226-236 | filtering a concatenation filters each part |
| `Sequences.SelectSelect` | index.js:225-237 | filtering by one test and then by another equals filtering once by their conjunction |
| `Sequences.Prepend` | index.js:178 | the new note is element 0, each existing note moves up exactly one place unchanged, the length grows by one and the multiset gains just that note |
| `Sequences.RemoveAt` | index.js:194 | at or past the end nothing changes; otherwise the length drops by one, the notes before the index stay and the ones after move down one place |
| `Sequences.RemoveAtMultiset` | index.js:194 | an in-range removal takes away exactly one copy of the note at that index |
| `Text.LowerChar` | index.js:220 | an upper-case ASCII letter maps to its lower-case letter; every other character is unchanged |
| `Text.UpperChar` | index.js:106-111 | a lower-case ASCII letter maps to its upper-case letter, which folds back to it; every other character is unchanged |
| `Text.Lower` | index.js:220 | lowercasing keeps the length and folds each character on its own |
| `Text.LowerIdempotent` | index.js:220 | lowercasing an already lowercased string changes nothing |
| `Text.LowerEmpty` | index.js:220-225 | the lowercased term is empty exactly when the typed term is, so the search pass is skipped exactly for an empty input |
| `Text.Capitalize` | index.js:106-111 | reference form, not computed by the code: the first character upper-cased and the rest kept; `Tags.TagName` proves that each entry of the name table is this form of its key |
| `Text.Includes` | index.js:228-229 | `includes` as a left-to-right scan: it never finds a needle longer than the text and always finds the empty needle; `Text.IncludesIff` proves it succeeds exactly when an occurrence exists |
| `Text.IncludesIff` | index.js:228-229 | the scanning substring test succeeds if and only if the needle occurs at some position of the text |
| `Query.MatchesSearch` | index.js:227-229 | the search test on one note: an empty term always matches (so the pass at index.js:225 would keep everything), and a match needs the term to fit in the title or the content |
| `Query.FilterNotes` | index.js:219-237 | the query result is no longer than `notes`, and with a filter value other than "all" every shown note has exactly that tag; `Query.QueryIsOnePass`, `Query.QueryMember` and `Query.QueryCount` give its full meaning |
| `Query.EmptySearchPassKeepsAll` | index.js:225 | running the search pass with an empty term would return `notes` unchanged, so skipping it for an empty term changes nothing |
| `Query.QueryIsOnePass` | index.js:219-237 | the search pass followed by the tag pass equals a single filter by the combined condition, with each half waived where the code skips it |
| `Query.StorePositions` | index.js:223-237 | positions in `notes` of the shown notes, card by card, strictly increasing |
| `Query.QueryIsSubsequence` | index.js:223-237 | the query result is an order-preserving subsequence of `notes` and is no longer than it |
| `Query.QueryUnfiltered` | index.js:223-237 | an empty search with the filter "all" returns `notes` unchanged |
| `Query.QueryCount` | index.js:225-236 | a wanted note appears as many times as it is stored; an unwanted one does not appear |
| `Query.QueryMember` | index.js:225-236 | a note is shown if and only if it is stored, it matches the non-empty lowercased search term in title or content, and its tag equals the filter value unless that is "all" |
| `Query.QuerySound` | index.js:225-236 | every shown note has the selected tag, unless the filter is "all", and, for a non-empty term, a lowercased title or content containing it |
| `Query.QueryCaseInsensitive` | index.js:220 | two search inputs with the same lowercase form give the same result |
| `Query.QueryIgnoresCase` | index.js:220 | searching for a term gives the same result as searching for its lowercase form |
| `Query.EmptyStateDisplay` | index.js:250-255 | the message's display is "block" exactly when the list checked is empty and "none" exactly when it is not |
| `Query.EmptyStateAfterQuery` | index.js:239-240 | after a query the message shows if and only if no stored note meets the search and tag conditions |
| `Tags.TablesCoverKnownTags` | index.js:85-113 | the class, icon and name tables are each keyed by exactly work, personal, ideas and reminders |
| `Tags.LookupOr` | index.js:92 | JavaScript's logical-or fallback on a table entry (the same shape at index.js:102 and index.js:112): a missing key gives the fallback, a present non-empty entry is returned, and nothing else can come out |
| `Tags.TagClass` | index.js:85-93 | a known tag gets "tag-" followed by the tag; any other tag gets "" |
| `Tags.TagIcon` | index.js:95-103 | a known tag gets a `<i class="fas fa-...">` element and any other tag gets "" |
| `Tags.TagName` | index.js:105-113 | a known tag gets its capitalised form; any other tag is returned as it is |
| `Tags.TagLookupsDistinct` | index.js:85-113 | different known tags get different classes, icons and names |
| `Store.NoteStore.Load` | index.js:20-22 | at start-up the notes are the stored list, or empty when the key is absent, and no delete is pending |
| `Store.NoteStore.Submit` | index.js:178-179 | the new note is prepended, the pending slot is untouched, and the saved snapshot equals the new list |
| `Store.NoteStore.SelectForDelete` | index.js:75 | a delete click records the index carried by the button and changes nothing else |
| `Store.NoteStore.SelectCardForDelete` | index.js:47-56 | corrected click: records the clicked card's own position in `notes`, `StorePositions(notes, ...)[card]`, which is in range and holds the note shown on that card; followed by `ConfirmDelete` this removes the element at that position |
| `Store.NoteStore.CancelDelete` | index.js:147-151 | cancelling clears the slot and leaves the notes and the snapshot alone |
| `Store.NoteStore.ConfirmDelete` | index.js:192-201 | with no index pending, nothing changes; with index i pending, the notes become `RemoveAt(notes, i)`, the snapshot equals them and the slot is cleared |
| `Store.DeleteByStorePosition` | index.js:192-199 | splicing `notes` at `StorePositions(notes, ...)[card]`, the position `SelectCardForDelete` records and `ConfirmDelete` removes, takes away exactly one copy of the note shown on card `card` |
| `Store.UnfilteredCardIndexIsStorePosition` | index.js:47-56 | with no search and the filter "all", a card's index is its position in `notes`, so the code as written is right in that case |
| `Store.FilteredCardIndexDeletesOtherNote` | index.js:56 | one concrete input: notes = ["Buy milk" (personal), "Ship release" (work)] with filter "work" shows only "Ship release" as card 0, its store position is 1, and `RemoveAt(notes, 0) == ["Ship release"]` removes "Buy milk" instead |

## Left out

- Rendering: building the note cards (`renderNotes`: `innerHTML`, `createElement`, `querySelectorAll`), wiring event listeners, and the modal and `body.style.overflow` toggles are DOM work. The model keeps only the index each delete button carries.
- Persistence: `localStorage` and JSON are foreign calls. The saved snapshot is an abstract field that `Submit` and `ConfirmDelete` set to the new list.
- Store.NoteStore.Load: takes the stored value as an already decoded optional list. It does not model a malformed value (`JSON.parse` throws) or a stored value that decodes to something falsy or that is not a list.
- Date handling: `formatDate` (locale formatting) and `new Date().toISOString()` depend on the clock and the locale. `date` is an opaque string passed to `Submit`.
- Reading the form fields (`document.getElementById(...).value`) is input. Title, content and tag are parameters of `Submit`.
- Text.Lower: folds only the ASCII letters A-Z; JavaScript's `toLowerCase` applies full Unicode case mapping, which can also change a string's length.
- Tags.TagClass: the lookup is on a plain object literal, so a tag spelled like an inherited property ("toString", "constructor") yields that property in JavaScript; the model treats such tags as unknown. The same holds for Tags.TagIcon and Tags.TagName.
- Tags.TagIcon: states the shape of the markup for known tags, not the glyph name each tag gets.
- `closeAddNoteModal`'s form reset and the calls to `renderNotes`, `updateEmptyState` and `filterNotes` after a change only redraw the page. They do not change `notes` or the slot.

## Findings

| source | as written | input that shows it | evidently intended | confidence | as-written member | corrected member |
|---|---|---|---|---|---|---|
| index.js:56 | a card's delete button carries the card's index in the rendered, possibly filtered, list, and `confirmDeleteNote` splices `notes` at that index (index.js:75, index.js:194) | notes = ["Buy milk" (personal), "Ship release" (work)], filter "work": the only card shows "Ship release"; confirming its deletion removes "Buy milk" | the button carries the note's position in `notes`, so the clicked note is the one removed | high (not executed) | `Store.FilteredCardIndexDeletesOtherNote` | `Store.DeleteByStorePosition` |
