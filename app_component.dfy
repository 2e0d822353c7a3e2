/** The application shell (`AppComponent`): the filter/search projection over
    the store's sorted view, and the small UI state machine that opens and
    closes the note form and routes saves and deletes to the store. */
module App {
  import opened Wrappers
  import opened NoteModel
  import opened Sequences
  import opened Text
  import opened NoteStore

  // ---------------------------------------------------------------------------
  // The projection

  /** `if (cat)`: the category filter is on unless it is null or "", the two
      falsy values a `string | null` can take. */
  predicate CategoryFilterActive(cat: Option<string>)
    ensures CategoryFilterActive(cat) <==> cat != None && cat != Some("")
  {
    cat.Some? && cat.value != ""
  }

  /** The predicate `n => n.category === c`: comparing the stored names keeps
      exactly the notes of the category named `c`, and none when `c` names no
      category. */
  function InCategory(c: string): (keep: Note -> bool)
    ensures forall n: Note, k: Category :: c == CategoryName(k) ==> (keep(n) <==> n.category == k)
    ensures c !in {"personal", "work", "idea", "todo"} ==> forall n: Note :: !keep(n)
  {
    forall n: Note, k: Category ensures c == CategoryName(k) ==> (CategoryName(n.category) == c <==> n.category == k) {
      CategoryNameInjective(n.category, k);
    }
    (n: Note) => CategoryName(n.category) == c
  }

  /** The predicate `n => n.title.toLowerCase().includes(query) ||
      n.content.toLowerCase().includes(query)`, for an already lower-cased
      query: it keeps a note exactly when the query occurs in its lower-cased
      title or content. */
  function MentionsQuery(query: string): (keep: Note -> bool)
    ensures forall n: Note :: keep(n) <==>
      (exists i :: OccursAt(Lower(n.title), query, i)) || (exists i :: OccursAt(Lower(n.content), query, i))
  {
    (n: Note) => Contains(Lower(n.title), query) || Contains(Lower(n.content), query)
  }

  /** `filteredNotes`: the category filter, then the search filter, each
      applied only when it is on. */
  function FilterNotes(view: seq<Note>, cat: Option<string>, searchQuery: string): (r: seq<Note>)
    ensures forall n :: n in r <==>
      (n in view
       && (CategoryFilterActive(cat) ==> InCategory(cat.value)(n))
       && (searchQuery != "" ==> MentionsQuery(Lower(searchQuery))(n)))
  {
    var query := Lower(searchQuery);
    var byCategory := if CategoryFilterActive(cat) then Filter(view, InCategory(cat.value)) else view;
    if query != "" then Filter(byCategory, MentionsQuery(query)) else byCategory
  }

  /** What a note must satisfy to be shown, stated without the filter chain:
      it has the selected category when one is selected, and the lower-cased
      query occurs in its lower-cased title or content when the query is not empty. */
  ghost predicate Shown(n: Note, cat: Option<string>, searchQuery: string) {
    && (CategoryFilterActive(cat) ==> CategoryName(n.category) == cat.value)
    && (searchQuery != "" ==>
          (exists i :: OccursAt(Lower(n.title), Lower(searchQuery), i))
          || (exists i :: OccursAt(Lower(n.content), Lower(searchQuery), i)))
  }

  /** Sound and complete: a note of the view is returned exactly when it passes
      every active filter. */
  lemma FilterNotesExact(view: seq<Note>, cat: Option<string>, searchQuery: string)
    ensures forall n :: n in FilterNotes(view, cat, searchQuery) <==> n in view && Shown(n, cat, searchQuery)
  {
  }

  /** With a category selected, every returned note has exactly that category. */
  lemma FilterNotesHonoursCategory(view: seq<Note>, c: string, searchQuery: string)
    requires c != ""
    ensures forall n :: n in FilterNotes(view, Some(c), searchQuery) ==> CategoryName(n.category) == c
  {
    FilterNotesExact(view, Some(c), searchQuery);
  }

  /** A selected category that is none of the four names shows nothing. */
  lemma UnknownCategoryShowsNothing(view: seq<Note>, c: string, searchQuery: string)
    requires c != "" && c !in {"personal", "work", "idea", "todo"}
    ensures FilterNotes(view, Some(c), searchQuery) == []
  {
    FilterNonePass(view, InCategory(c));
  }

  /** With a non-empty query, every returned note mentions it, ignoring ASCII case. */
  lemma FilterNotesHonoursQuery(view: seq<Note>, cat: Option<string>, searchQuery: string)
    requires searchQuery != ""
    ensures forall n :: n in FilterNotes(view, cat, searchQuery) ==>
      Contains(Lower(n.title), Lower(searchQuery)) || Contains(Lower(n.content), Lower(searchQuery))
  {
    FilterNotesExact(view, cat, searchQuery);
  }

  /** The result lists its notes in the order of the view. */
  lemma FilterNotesIsSubsequence(view: seq<Note>, cat: Option<string>, searchQuery: string)
    ensures IsSubsequence(FilterNotes(view, cat, searchQuery), view)
  {
    var query := Lower(searchQuery);
    if CategoryFilterActive(cat) {
      var byCategory := Filter(view, InCategory(cat.value));
      FilterIsSubsequence(view, InCategory(cat.value));
      if query != "" {
        FilterCommutes(view, InCategory(cat.value), MentionsQuery(query));
        var byQuery := Filter(view, MentionsQuery(query));
        FilterIsSubsequence(view, MentionsQuery(query));
        FilterIsSubsequence(byQuery, InCategory(cat.value));
        SubsequenceTransitive(Filter(byQuery, InCategory(cat.value)), byQuery, view);
      }
    } else if query != "" {
      FilterIsSubsequence(view, MentionsQuery(query));
    } else {
      SubsequenceReflexive(view);
    }
  }

  /** No category and an empty query: the view passes through unchanged. */
  lemma FilterNotesIdentity(view: seq<Note>, cat: Option<string>)
    requires !CategoryFilterActive(cat)
    ensures FilterNotes(view, cat, "") == view
  {
  }

  /** Applying the search filter first and the category filter second gives
      the same sequence. */
  lemma FilterOrderIrrelevant(view: seq<Note>, c: string, searchQuery: string)
    requires c != "" && searchQuery != ""
    ensures FilterNotes(view, Some(c), searchQuery)
         == Filter(Filter(view, MentionsQuery(Lower(searchQuery))), InCategory(c))
  {
    FilterCommutes(view, InCategory(c), MentionsQuery(Lower(searchQuery)));
  }

  // ---------------------------------------------------------------------------
  // The component

  class AppComponent {
    /** The injected store. */
    const noteService: NoteService

    var showForm: bool
    var editingNote: Option<Note>
    var searchQuery: string
    var selectedCategoryFilter: Option<string>

    constructor (noteService: NoteService)
      ensures this.noteService == noteService
      ensures !showForm && editingNote == None && searchQuery == "" && selectedCategoryFilter == None
    {
      this.noteService := noteService;
      showForm := false;
      editingNote := None;
      searchQuery := "";
      selectedCategoryFilter := None;
    }

    /** The notes on screen: exactly the stored notes that pass the active
        filters, newest first. */
    function FilteredNotes(): (shown: seq<Note>)
      reads this, noteService
      ensures forall n :: n in shown <==> n in noteService.notesSignal && Shown(n, selectedCategoryFilter, searchQuery)
      ensures IsSubsequence(shown, noteService.Notes())
      ensures NonIncreasing(shown)
    {
      var view := noteService.Notes();
      FilterNotesExact(view, selectedCategoryFilter, searchQuery);
      FilterNotesIsSubsequence(view, selectedCategoryFilter, searchQuery);
      SubsequenceKeepsNonIncreasing(FilterNotes(view, selectedCategoryFilter, searchQuery), view);
      assert forall n :: n in view <==> n in multiset(view);
      FilterNotes(view, selectedCategoryFilter, searchQuery)
    }

    /** `handleSearch`, given the input element's value. */
    method HandleSearch(value: string)
      modifies this
      ensures searchQuery == value
      ensures showForm == old(showForm) && editingNote == old(editingNote)
      ensures selectedCategoryFilter == old(selectedCategoryFilter)
    {
      searchQuery := value;
    }

    method SetFilter(category: Option<string>)
      modifies this
      ensures selectedCategoryFilter == category
      ensures showForm == old(showForm) && editingNote == old(editingNote) && searchQuery == old(searchQuery)
    {
      selectedCategoryFilter := category;
    }

    method OpenCreateForm()
      modifies this
      ensures showForm && editingNote == None
      ensures searchQuery == old(searchQuery) && selectedCategoryFilter == old(selectedCategoryFilter)
    {
      editingNote := None;
      showForm := true;
    }

    method OpenEditForm(note: Note)
      modifies this
      ensures showForm && editingNote == Some(note)
      ensures searchQuery == old(searchQuery) && selectedCategoryFilter == old(selectedCategoryFilter)
    {
      editingNote := Some(note);
      showForm := true;
    }

    method CloseForm()
      modifies this
      ensures !showForm && editingNote == None
      ensures searchQuery == old(searchQuery) && selectedCategoryFilter == old(selectedCategoryFilter)
    {
      showForm := false;
      editingNote := None;
    }

    /** Saves the form: an update of the note being edited, or else a new note;
        then closes the form. `freshId`, `now` and `later` are what the id
        generator and the clock return when a note is added, and `clock(i)`
        the reading taken while the update rewrites position `i`. */
    method HandleSave(formValue: NoteInput, freshId: string, now: int, later: int, clock: int -> int)
      requires editingNote.None? ==> IdAbsent(noteService.notesSignal, freshId)
      modifies this, noteService
      ensures old(editingNote).Some? ==>
        noteService.notesSignal == UpdatedNotes(old(noteService.notesSignal), old(editingNote).value.id, FullPatch(formValue), clock)
      ensures old(editingNote).None? ==>
        noteService.notesSignal == AddedNotes(old(noteService.notesSignal), formValue, freshId, now, later)
      ensures UniqueIds(old(noteService.notesSignal)) ==> UniqueIds(noteService.notesSignal)
      ensures !showForm && editingNote == None
      ensures searchQuery == old(searchQuery) && selectedCategoryFilter == old(selectedCategoryFilter)
    {
      var currentEdit := editingNote;
      if currentEdit.Some? {
        noteService.UpdateNote(currentEdit.value.id, FullPatch(formValue), clock);
      } else {
        noteService.AddNote(formValue, freshId, now, later);
      }
      CloseForm();
    }

    /** Deletes only when the user confirmed; `confirmed` is the dialog's answer. */
    method HandleDelete(id: string, confirmed: bool)
      modifies noteService
      ensures confirmed ==> noteService.notesSignal == DeletedNotes(old(noteService.notesSignal), id)
      ensures !confirmed ==> noteService.notesSignal == old(noteService.notesSignal)
    {
      if confirmed {
        noteService.DeleteNote(id);
      }
    }
  }
}
