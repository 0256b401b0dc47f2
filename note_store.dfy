/** The data both pages share through synchronized storage: the `notes`
    key (the whole list, newest first) and the `draft` key (the popup's
    unsaved text). */
module NoteStore {
  import opened Wrappers
  import opened JsText

  /** The popup's MAX_CHARS. */
  const MaxChars: nat := 500

  /** One stored note: `id` is the creation time in milliseconds and
      `timestamp` its ISO-8601 text; both are supplied by the caller. */
  datatype Note = Note(id: int, text: string, timestamp: string)

  /** What the popup promises about every note it stores: non-empty text
      of at most MaxChars with no surrounding whitespace. */
  predicate WellFormedNote(n: Note) {
    1 <= |n.text| <= MaxChars && Trim(n.text) == n.text
  }

  /** `result.notes || []`: a missing key reads as the empty list. */
  function StoredList(notes: Option<seq<Note>>): seq<Note> {
    notes.GetOr([])
  }

  /** Putting a well-formed note in front of a well-formed list keeps it well formed. */
  lemma PrependKeepsWellFormed(note: Note, notes: seq<Note>)
    requires WellFormedNote(note)
    requires forall n :: n in notes ==> WellFormedNote(n)
    ensures forall n :: n in [note] + notes ==> WellFormedNote(n)
  {
  }

  /** The two storage keys; None is a key that was never written. */
  class Store {
    var notes: Option<seq<Note>>
    var draft: Option<string>

    constructor (notes: Option<seq<Note>>, draft: Option<string>)
      ensures this.notes == notes && this.draft == draft
    {
      this.notes := notes;
      this.draft := draft;
    }

    ghost predicate NotesWellFormed()
      reads this
    {
      forall n :: n in StoredList(notes) ==> WellFormedNote(n)
    }
  }
}
