/** The options page: lists the stored notes in stored order (newest
    first), each with its natural-date timestamp, its text and a delete
    button; deletes one note by id; clears all notes. */
module Options {
  import opened Wrappers
  import opened NaturalDate
  import opened NoteStore

  /** One rendered `note-item`: the timestamp span's text, the note-text
      div's text, and the id its delete button removes. */
  datatype Entry = Entry(timestampText: string, text: string, noteId: int)

  /** What `formatNaturalDate` yields for an Invalid Date: every getter gives
      NaN, the name lookups give undefined, the suffix chain falls through
      to "th", `NaN >= 12` is false and `NaN % 12 || 12` is 12. */
  const InvalidDatePhrase: string := "undefined, undefined NaNth, NaN - 12:NaN am"

  /** The timestamp text for a note, given the local-time fields of
      `new Date(note.timestamp)` (None for a timestamp that does not parse). */
  function TimestampText(local: Option<LocalDate>): string {
    match local
    case Some(d) => FormatNaturalDate(d)
    case None => InvalidDatePhrase
  }

  /** `deleteNote`'s filter: the notes whose id differs from `id`, in order. */
  function RemoveId(notes: seq<Note>, id: int): (r: seq<Note>)
    ensures |r| <= |notes|
  {
    if notes == [] then []
    else (if notes[0].id == id then [] else [notes[0]]) + RemoveId(notes[1..], id)
  }

  /** A note survives the filter exactly when it was in the list with another id. */
  lemma {:induction false} RemoveIdMembers(notes: seq<Note>, id: int)
    ensures forall n :: n in RemoveId(notes, id) <==> n in notes && n.id != id
  {
    if notes != [] {
      RemoveIdMembers(notes[1..], id);
      assert notes == [notes[0]] + notes[1..];
    }
  }

  /** The filter distributes over concatenation, so the kept notes stay in
      their original relative order. */
  lemma {:induction false} RemoveIdAppend(a: seq<Note>, b: seq<Note>, id: int)
    ensures RemoveId(a + b, id) == RemoveId(a, id) + RemoveId(b, id)
  {
    if a == [] {
      assert a + b == b;
    } else {
      assert (a + b)[0] == a[0] && (a + b)[1..] == a[1..] + b;
      RemoveIdAppend(a[1..], b, id);
    }
  }

  /** Deleting an id that no note carries leaves the list as it is. */
  lemma {:induction false} RemoveIdAbsent(notes: seq<Note>, id: int)
    requires forall n :: n in notes ==> n.id != id
    ensures RemoveId(notes, id) == notes
  {
    if notes != [] {
      assert notes[0] in notes;
      RemoveIdAbsent(notes[1..], id);
    }
  }

  /** Deleting the same id twice is deleting it once. */
  lemma RemoveIdIdempotent(notes: seq<Note>, id: int)
    ensures RemoveId(RemoveId(notes, id), id) == RemoveId(notes, id)
  {
    RemoveIdMembers(notes, id);
    RemoveIdAbsent(RemoveId(notes, id), id);
  }

  /** Ids are distinct when no two positions carry the same id. */
  predicate DistinctIds(notes: seq<Note>) {
    forall i, j :: 0 <= i < j < |notes| ==> notes[i].id != notes[j].id
  }

  /** With distinct ids, deleting the id of the note at position k removes
      exactly that note and keeps the others in order. */
  lemma RemoveIdAt(notes: seq<Note>, k: nat)
    requires k < |notes| && DistinctIds(notes)
    ensures RemoveId(notes, notes[k].id) == notes[..k] + notes[k + 1..]
  {
    OthersHaveOtherIds(notes, k);
    RemoveIdSplit(notes[..k], notes[k], notes[k + 1..]);
    SplitAround(notes, k);
  }

  lemma SplitAround(s: seq<Note>, k: nat)
    requires k < |s|
    ensures s == s[..k] + [s[k]] + s[k + 1..]
  {
  }

  lemma RemoveIdSplit(before: seq<Note>, x: Note, after: seq<Note>)
    requires forall n :: n in before ==> n.id != x.id
    requires forall n :: n in after ==> n.id != x.id
    ensures RemoveId(before + [x] + after, x.id) == before + after
  {
    var id := x.id;
    assert RemoveId([x], id) == [] by {
      assert [x][1..] == [];
    }
    RemoveIdAbsent(before, id);
    RemoveIdAppend(before, [x], id);
    assert RemoveId(before + [x], id) == before;
    RemoveIdAbsent(after, id);
    RemoveIdAppend(before + [x], after, id);
  }

  lemma OthersHaveOtherIds(notes: seq<Note>, k: nat)
    requires k < |notes| && DistinctIds(notes)
    ensures forall n :: n in notes[..k] ==> n.id != notes[k].id
    ensures forall n :: n in notes[k + 1..] ==> n.id != notes[k].id
  {
    forall n | n in notes[..k] ensures n.id != notes[k].id {
      var i :| 0 <= i < k && notes[..k][i] == n;
      assert notes[i] == n;
    }
    forall n | n in notes[k + 1..] ensures n.id != notes[k].id {
      var i :| 0 <= i < |notes| - k - 1 && notes[k + 1..][i] == n;
      assert notes[k + 1 + i] == n;
    }
  }

  /** Deleting keeps every stored note well formed. */
  lemma RemoveIdKeepsWellFormed(notes: seq<Note>, id: int)
    requires forall n :: n in notes ==> WellFormedNote(n)
    ensures forall n :: n in RemoveId(notes, id) ==> WellFormedNote(n)
  {
    RemoveIdMembers(notes, id);
  }

  class OptionsPage {
    const store: Store
    /** `new Date(timestamp)` read in local time: ISO parsing and the time
        zone are outside the model. */
    const toLocal: string -> Option<LocalDate>
    /** The children of notesList. */
    var entries: seq<Entry>
    /** Whether emptyState is shown (its 'hidden' class removed). */
    var emptyStateShown: bool

    constructor (store: Store, toLocal: string -> Option<LocalDate>)
      ensures this.store == store && this.toLocal == toLocal
      ensures entries == [] && !emptyStateShown
    {
      this.store := store;
      this.toLocal := toLocal;
      entries := [];
      emptyStateShown := false;
    }

    /** The item `displayNotes` builds for one note. */
    function RenderEntry(note: Note): Entry {
      Entry(TimestampText(toLocal(note.timestamp)), note.text, note.id)
    }

    /** The page lists exactly `notes`: one entry per note, in order, with
        the note's text verbatim, and the empty state exactly when there is none. */
    ghost predicate Shows(notes: seq<Note>)
      reads this
    {
      && |entries| == |notes|
      && (forall k :: 0 <= k < |notes| ==> entries[k] == RenderEntry(notes[k]))
      && emptyStateShown == (notes == [])
    }

    /** `displayNotes`: clears the list and appends one item per note. */
    method DisplayNotes(notes: seq<Note>)
      modifies this`entries
      ensures |entries| == |notes|
      ensures forall k :: 0 <= k < |notes| ==> entries[k] == RenderEntry(notes[k])
    {
      entries := [];
      for i := 0 to |notes|
        invariant |entries| == i
        invariant forall k :: 0 <= k < i ==> entries[k] == RenderEntry(notes[k])
      {
        entries := entries + [RenderEntry(notes[i])];
      }
    }

    /** `loadNotes`: the empty state for an empty (or missing) list,
        otherwise the rendered notes. */
    method LoadNotes()
      modifies this`entries, this`emptyStateShown
      ensures Shows(StoredList(store.notes))
    {
      var notes := StoredList(store.notes);
      if |notes| == 0 {
        entries := [];
        emptyStateShown := true;
      } else {
        emptyStateShown := false;
        DisplayNotes(notes);
      }
    }

    /** `deleteNote`: writes the filtered list back to the `notes` key only
        (a failed write leaves it as it was) and reloads the page. */
    method DeleteNote(noteId: int, writeFailed: bool)
      modifies this`entries, this`emptyStateShown, store`notes
      ensures store.notes == if writeFailed then old(store.notes)
                             else Some(RemoveId(StoredList(old(store.notes)), noteId))
      ensures store.draft == old(store.draft)
      ensures Shows(StoredList(store.notes))
      ensures old(store.NotesWellFormed()) ==> store.NotesWellFormed()
    {
      var notes := StoredList(store.notes);
      var updatedNotes := RemoveId(notes, noteId);
      if store.NotesWellFormed() {
        RemoveIdKeepsWellFormed(notes, noteId);
      }
      if !writeFailed {
        store.notes := Some(updatedNotes);
      }
      LoadNotes();
    }

    /** The clear-all button: after the confirmation, writes the empty list
        to the `notes` key only and reloads the page. */
    method ClearAll(confirmed: bool, writeFailed: bool)
      modifies this`entries, this`emptyStateShown, store`notes
      ensures !confirmed ==> unchanged(this, store)
      ensures confirmed ==> store.notes == if writeFailed then old(store.notes) else Some([])
      ensures confirmed ==> Shows(StoredList(store.notes))
      ensures store.draft == old(store.draft)
      ensures old(store.NotesWellFormed()) ==> store.NotesWellFormed()
    {
      if confirmed {
        if !writeFailed {
          store.notes := Some([]);
        }
        LoadNotes();
      }
    }
  }
}
