/** The one entity of the application: a note record with a closed set of
    categories, and the shapes in which callers hand note fields to the store. */
module NoteModel {
  import opened Wrappers

  /** The four categories a note may carry. */
  datatype Category = Personal | Work | Idea | Todo

  /** The string under which a category is stored and compared. */
  function CategoryName(c: Category): (name: string)
    ensures name in {"personal", "work", "idea", "todo"}
  {
    match c
    case Personal => "personal"
    case Work => "work"
    case Idea => "idea"
    case Todo => "todo"
  }

  lemma CategoryNameInjective(a: Category, b: Category)
    ensures CategoryName(a) == CategoryName(b) <==> a == b
  {
  }

  /** A note; timestamps are integer milliseconds since the epoch. */
  datatype Note = Note(
    id: string,
    title: string,
    content: string,
    category: Category,
    createdAt: int,
    updatedAt: int)

  /** What `addNote` receives: a note without id and timestamps. */
  datatype NoteInput = NoteInput(title: string, content: string, category: Category)

  /** What `updateNote` receives: any subset of the editable fields. */
  datatype NotePatch = NotePatch(title: Option<string>, content: Option<string>, category: Option<Category>)

  /** The patch that supplies every editable field of `input`. */
  function FullPatch(input: NoteInput): (p: NotePatch)
    ensures p.title == Some(input.title)
    ensures p.content == Some(input.content)
    ensures p.category == Some(input.category)
  {
    NotePatch(Some(input.title), Some(input.content), Some(input.category))
  }

  /** `id` is not the id of any note in `notes`. */
  predicate IdAbsent(notes: seq<Note>, id: string) {
    forall n :: n in notes ==> n.id != id
  }

  /** No two positions of `notes` hold notes with the same id. */
  predicate UniqueIds(notes: seq<Note>) {
    forall i, j :: 0 <= i < j < |notes| ==> notes[i].id != notes[j].id
  }

  /** Every note was last updated no earlier than it was created. */
  predicate TimestampsOrdered(notes: seq<Note>) {
    forall n :: n in notes ==> n.createdAt <= n.updatedAt
  }
}
