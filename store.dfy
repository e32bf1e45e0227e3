/** The page's note list and its pending-delete slot (`notes` and
    `noteToDeleteId`), with the handlers that change them. */
module Store {
  import opened Notes
  import opened Sequences
  import Query
  import Text

  class NoteStore {
    /** The notes, newest first. */
    var notes: seq<Note>
    /** The index recorded by the last delete-button click, or none. */
    var pendingDelete: Option<nat>
    /** The snapshot held under the "notes" key of local storage, if any. */
    var saved: Option<seq<Note>>

    /** Page start-up: the stored list, or an empty list when the key is absent. */
    constructor Load(stored: Option<seq<Note>>)
      ensures stored.None? ==> notes == []
      ensures stored.Some? ==> notes == stored.value
      ensures pendingDelete == None
      ensures saved == stored
    {
      notes := if stored.Some? then stored.value else [];
      pendingDelete := None;
      saved := stored;
    }

    /** `handleNoteSubmit`: the new note goes to the front and the list is saved. */
    method Submit(title: string, content: string, tag: string, date: string)
      modifies this
      ensures notes == Prepend(Note(title, content, tag, date), old(notes))
      ensures pendingDelete == old(pendingDelete)
      ensures saved == Some(notes)
    {
      notes := Prepend(Note(title, content, tag, date), notes);
      saved := Some(notes);
    }

    /** A delete-button click: records the index the button carries, which is
        the card's position in the list that was last rendered. */
    method SelectForDelete(cardIndex: nat)
      modifies this
      ensures pendingDelete == Some(cardIndex)
      ensures notes == old(notes) && saved == old(saved)
    {
      pendingDelete := Some(cardIndex);
    }

    /** A delete-button click that records the note's position in `notes`
        instead: the card's position in the rendered query result, mapped back. */
    method SelectCardForDelete(searchInput: string, filterValue: string, card: nat)
      requires card < |Query.FilterNotes(notes, searchInput, filterValue)|
      modifies this
      ensures notes == old(notes) && saved == old(saved)
      ensures pendingDelete.Some?
      ensures pendingDelete.value < |notes|
      ensures pendingDelete == Some(Query.StorePositions(notes, searchInput, filterValue)[card])
      ensures notes[pendingDelete.value] == Query.FilterNotes(notes, searchInput, filterValue)[card]
    {
      var p := Query.StorePositions(notes, searchInput, filterValue);
      pendingDelete := Some(p[card]);
    }

    /** `closeConfirmModal`: clears the slot and leaves the notes alone. */
    method CancelDelete()
      modifies this
      ensures pendingDelete == None
      ensures notes == old(notes) && saved == old(saved)
    {
      pendingDelete := None;
    }

    /** `confirmDeleteNote`: with no index recorded nothing happens; otherwise
        the element at that index is spliced out (nothing when the index is
        past the end), the list is saved and the slot is cleared. */
    method ConfirmDelete()
      modifies this
      ensures old(pendingDelete).None? ==>
        notes == old(notes) && saved == old(saved) && pendingDelete == None
      ensures old(pendingDelete).Some? ==>
        notes == RemoveAt(old(notes), old(pendingDelete).value) &&
        saved == Some(notes) && pendingDelete == None
    {
      if pendingDelete.Some? {
        notes := RemoveAt(notes, pendingDelete.value);
        saved := Some(notes);
        pendingDelete := None;
      }
    }
  }

  /** A click on card `card` of the rendered result followed by a confirmation
      removes exactly one copy of the note on that card when the click is
      recorded as a position in `notes`. */
  lemma DeleteByStorePosition(notes: seq<Note>, searchInput: string, filterValue: string, card: nat)
    requires card < |Query.FilterNotes(notes, searchInput, filterValue)|
    ensures var i := Query.StorePositions(notes, searchInput, filterValue)[card];
      multiset(RemoveAt(notes, i))
        == multiset(notes) - multiset{Query.FilterNotes(notes, searchInput, filterValue)[card]}
  {
    var i := Query.StorePositions(notes, searchInput, filterValue)[card];
    RemoveAtMultiset(notes, i);
  }

  /** With an empty search and the filter "all" the rendered list is `notes`
      itself, so a card's index is also its position in `notes`. */
  lemma UnfilteredCardIndexIsStorePosition(notes: seq<Note>, card: nat)
    requires card < |notes|
    ensures card < |Query.FilterNotes(notes, "", Query.AllTags)|
    ensures Query.StorePositions(notes, "", Query.AllTags)[card] == card
  {
    var wanted := (n: Note) => Query.Wanted(n, Text.Lower(""), Query.AllTags);
    PositionsOfAll(notes, wanted);
  }

  /** As written, the index a card carries is its position in the filtered
      list, and confirmation splices `notes` at that index. With the filter
      on "work", the only card shows "Ship release", yet confirming its
      deletion removes "Buy milk" and keeps "Ship release". */
  lemma FilteredCardIndexDeletesOtherNote()
    ensures var milk := Note("Buy milk", "", "personal", "");
      var ship := Note("Ship release", "", "work", "");
      var notes := [milk, ship];
      Query.FilterNotes(notes, "", "work") == [ship] &&
      RemoveAt(notes, 0) == [ship] &&
      Query.StorePositions(notes, "", "work")[0] == 1 &&
      RemoveAt(notes, 1) == [milk]
  {
  }
}
