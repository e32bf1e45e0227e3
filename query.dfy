/** The search and tag filter behind the search box and the tag selector
    (`filterNotes`), and the empty-state message (`updateEmptyState`). */
module Query {
  import opened Notes
  import opened Text
  import opened Sequences

  /** The tag-filter value that means "no tag restriction". */
  const AllTags := "all"

  /** The folded title or the folded content contains the (already folded) term. */
  predicate MatchesSearch(n: Note, searchTerm: string)
    ensures MatchesSearch(n, searchTerm) ==> |searchTerm| <= |n.title| || |searchTerm| <= |n.content|
    ensures searchTerm == "" ==> MatchesSearch(n, searchTerm)
  {
    Includes(Lower(n.title), searchTerm) || Includes(Lower(n.content), searchTerm)
  }

  /** `filterNotes`: the search input is lowercased (not trimmed); a non-empty
      term keeps the notes whose title or content contains it; then a filter
      value other than "all" keeps the notes with exactly that tag. */
  function FilterNotes(notes: seq<Note>, searchInput: string, filterValue: string): (r: seq<Note>)
    ensures |r| <= |notes|
    ensures filterValue != AllTags ==> forall j :: 0 <= j < |r| ==> r[j].tag == filterValue
  {
    var searchTerm := Lower(searchInput);
    var afterSearch :=
      if searchTerm != "" then Select(notes, (n: Note) => MatchesSearch(n, searchTerm)) else notes;
    if filterValue != AllTags then Select(afterSearch, (n: Note) => n.tag == filterValue)
    else afterSearch
  }

  /** Running the search pass with an empty term would keep every note, so
      skipping it for an empty term changes nothing. */
  lemma EmptySearchPassKeepsAll(notes: seq<Note>)
    ensures Select(notes, (n: Note) => MatchesSearch(n, "")) == notes
  {
    SelectKeepsAll(notes, (n: Note) => MatchesSearch(n, ""));
  }

  /** The combined condition a note must meet to be shown, given the folded
      search term: each half is waived in the case the source skips it. */
  predicate Wanted(n: Note, searchTerm: string, filterValue: string) {
    (searchTerm != "" ==> MatchesSearch(n, searchTerm)) &&
    (filterValue != AllTags ==> n.tag == filterValue)
  }

  /** The two passes amount to one pass with the combined condition. */
  lemma QueryIsOnePass(notes: seq<Note>, searchInput: string, filterValue: string)
    ensures FilterNotes(notes, searchInput, filterValue)
         == Select(notes, (n: Note) => Wanted(n, Lower(searchInput), filterValue))
  {
    var t := Lower(searchInput);
    var search := (n: Note) => MatchesSearch(n, t);
    var tag := (n: Note) => n.tag == filterValue;
    var wanted := (n: Note) => Wanted(n, t, filterValue);
    if t != "" && filterValue != AllTags {
      SelectSelect(notes, search, tag, wanted);
    } else if t != "" {
      SelectExt(notes, search, wanted);
    } else if filterValue != AllTags {
      SelectExt(notes, tag, wanted);
    } else {
      SelectKeepsAll(notes, wanted);
    }
  }

  /** The positions in `notes` of the notes `FilterNotes` shows, card by card. */
  function StorePositions(notes: seq<Note>, searchInput: string, filterValue: string): (p: seq<nat>)
    ensures SubsequenceAt(FilterNotes(notes, searchInput, filterValue), notes, p)
  {
    QueryIsOnePass(notes, searchInput, filterValue);
    Positions(notes, (n: Note) => Wanted(n, Lower(searchInput), filterValue))
  }

  /** The result keeps the notes in their order and drops some of them. */
  lemma QueryIsSubsequence(notes: seq<Note>, searchInput: string, filterValue: string)
    ensures |FilterNotes(notes, searchInput, filterValue)| <= |notes|
    ensures exists p :: SubsequenceAt(FilterNotes(notes, searchInput, filterValue), notes, p)
  {
    var p := StorePositions(notes, searchInput, filterValue);
  }

  /** An empty search and the filter "all" show every note, in order. */
  lemma QueryUnfiltered(notes: seq<Note>)
    ensures FilterNotes(notes, "", AllTags) == notes
  {
  }

  /** A note is shown exactly when it is stored and meets both conditions;
      every stored copy of a wanted note is shown. */
  lemma QueryCount(notes: seq<Note>, searchInput: string, filterValue: string, n: Note)
    ensures multiset(FilterNotes(notes, searchInput, filterValue))[n]
         == if Wanted(n, Lower(searchInput), filterValue) then multiset(notes)[n] else 0
  {
    QueryIsOnePass(notes, searchInput, filterValue);
    SelectCount(notes, (m: Note) => Wanted(m, Lower(searchInput), filterValue), n);
  }

  lemma QueryMember(notes: seq<Note>, searchInput: string, filterValue: string, n: Note)
    ensures n in FilterNotes(notes, searchInput, filterValue)
        <==> (n in notes &&
              (Lower(searchInput) != "" ==> MatchesSearch(n, Lower(searchInput))) &&
              (filterValue != AllTags ==> n.tag == filterValue))
  {
    QueryIsOnePass(notes, searchInput, filterValue);
    SelectMember(notes, (m: Note) => Wanted(m, Lower(searchInput), filterValue), n);
  }

  /** Each shown note meets both conditions. */
  lemma QuerySound(notes: seq<Note>, searchInput: string, filterValue: string)
    ensures forall n <- FilterNotes(notes, searchInput, filterValue) ::
      (filterValue != AllTags ==> n.tag == filterValue) &&
      (Lower(searchInput) != "" ==>
        Includes(Lower(n.title), Lower(searchInput)) || Includes(Lower(n.content), Lower(searchInput)))
  {
    forall n <- FilterNotes(notes, searchInput, filterValue)
      ensures Wanted(n, Lower(searchInput), filterValue)
    {
      QueryMember(notes, searchInput, filterValue, n);
    }
  }

  /** The search input matters only through its folded form. */
  lemma QueryCaseInsensitive(notes: seq<Note>, input1: string, input2: string, filterValue: string)
    requires Lower(input1) == Lower(input2)
    ensures FilterNotes(notes, input1, filterValue) == FilterNotes(notes, input2, filterValue)
  {
  }

  /** Typing a term in upper case gives the same result as typing it folded. */
  lemma QueryIgnoresCase(notes: seq<Note>, searchInput: string, filterValue: string)
    ensures FilterNotes(notes, searchInput, filterValue)
         == FilterNotes(notes, Lower(searchInput), filterValue)
  {
    LowerIdempotent(searchInput);
  }

  /** `updateEmptyState`: the message's CSS display value for the list checked. */
  function EmptyStateDisplay(notesToCheck: seq<Note>): (display: string)
    ensures display == "block" <==> |notesToCheck| == 0
    ensures display == "none" <==> |notesToCheck| != 0
  {
    if |notesToCheck| == 0 then "block" else "none"
  }

  /** After a query, the message shows exactly when no stored note is wanted. */
  lemma EmptyStateAfterQuery(notes: seq<Note>, searchInput: string, filterValue: string)
    ensures EmptyStateDisplay(FilterNotes(notes, searchInput, filterValue)) == "block"
        <==> forall j :: 0 <= j < |notes| ==> !Wanted(notes[j], Lower(searchInput), filterValue)
  {
    var r := FilterNotes(notes, searchInput, filterValue);
    if r != [] {
      QueryMember(notes, searchInput, filterValue, r[0]);
    } else {
      forall j | 0 <= j < |notes|
        ensures !Wanted(notes[j], Lower(searchInput), filterValue)
      {
        QueryMember(notes, searchInput, filterValue, notes[j]);
      }
    }
  }
}
