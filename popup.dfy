/** The popup: a textarea whose text is clamped to MaxChars and autosaved
    as the draft, a character counter that disables the save button when
    over the limit, and the save action that prepends a new note. */
module Popup {
  import opened Wrappers
  import opened JsText
  import opened NaturalDate
  import opened NoteStore

  /** The clamp of the input and draft-load handlers:
      `text.length > MAX_CHARS ? text.substring(0, MAX_CHARS) : text`. */
  function Clamp(s: string): (r: string)
    ensures |r| <= MaxChars
    ensures |r| <= |s| && r == s[..|r|]
    ensures |s| <= MaxChars ==> r == s
    ensures |s| > MaxChars ==> |r| == MaxChars
  {
    if |s| > MaxChars then s[..MaxChars] else s
  }

  /** Clamping clamped text changes nothing. */
  lemma ClampIdempotent(s: string)
    ensures Clamp(Clamp(s)) == Clamp(s)
  {
  }

  /** `updateCharCounter`'s rule for the save button (and the over-limit style). */
  predicate SaveDisabled(length: nat) {
    length > MaxChars
  }

  /** The counter's text, "<length>/500 characters". */
  function CounterText(length: nat): string {
    NatToString(length) + "/" + NatToString(MaxChars) + " characters"
  }

  /** Whatever is typed or loaded, once clamped the save button is enabled. */
  lemma ClampEnablesSave(s: string)
    ensures !SaveDisabled(|Clamp(s)|)
    ensures SaveDisabled(|s|) <==> Clamp(s) != s
  {
  }

  /** Typing or pasting more than MaxChars: the text is cut to exactly
      MaxChars, the counter reads "500/500 characters" and saving is enabled. */
  lemma OverlongInput(s: string)
    requires |s| > MaxChars
    ensures |Clamp(s)| == 500
    ensures CounterText(|Clamp(s)|) == "500/500 characters"
    ensures !SaveDisabled(|Clamp(s)|)
  {
    assert NatToString(500) == "500" by {
      assert DigitChar(5) == '5' && DigitChar(0) == '0';
      assert NatToString(5) == "5";
      assert NatToString(50) == "5" + "0";
      assert NatToString(500) == "50" + "0";
    }
  }

  /** `if (result.draft)`: a stored draft is used only when present and non-empty. */
  predicate HasDraft(draft: Option<string>) {
    draft.Some? && draft.value != ""
  }

  /** `saveNote`'s guard on the trimmed text: non-empty and within the limit. */
  predicate Savable(text: string) {
    text != "" && |text| <= MaxChars
  }

  /** For text that respects the clamp, saving is refused exactly when the text is blank. */
  lemma SavableUnlessBlank(input: string)
    requires |input| <= MaxChars
    ensures Savable(Trim(input)) <==> !IsBlank(input)
  {
  }

  /** A note made from accepted text satisfies the stored-note invariant. */
  lemma SavedNoteWellFormed(input: string, id: int, timestamp: string)
    requires Savable(Trim(input))
    ensures WellFormedNote(Note(id, Trim(input), timestamp))
  {
    TrimIdempotent(input);
  }

  const SaveErrorPrefix: string := "Error saving note: "

  /** The keyboard shortcut: Enter with Command (Mac) or Control. */
  predicate IsSaveShortcut(key: string, metaKey: bool, ctrlKey: bool) {
    key == "Enter" && (metaKey || ctrlKey)
  }

  class PopupPage {
    const store: Store
    /** dateTimeEl's text. */
    var dateTimeText: string
    /** noteInput.value. */
    var input: string
    /** charCounterEl's text and its 'over-limit' class. */
    var counterText: string
    var overLimit: bool
    /** saveBtn.disabled. */
    var saveDisabled: bool
    /** The message of the last alert shown, if any. */
    var alert: Option<string>
    /** Whether window.close() was called. */
    var closed: bool

    /** The counter and the button always reflect the clamped input. */
    ghost predicate Valid()
      reads this
    {
      && |input| <= MaxChars
      && counterText == CounterText(|input|)
      && saveDisabled == SaveDisabled(|input|)
      && overLimit == saveDisabled
    }

    /** Opening the popup: an empty textarea with counter "0/500 characters"
        (the page's initial markup); `UpdateDateTime` then fills in the date. */
    constructor (store: Store)
      ensures this.store == store && Valid()
      ensures input == "" && !saveDisabled
      ensures alert == None && !closed
    {
      this.store := store;
      dateTimeText, input, counterText := "", "", CounterText(0);
      overLimit, saveDisabled := false, false;
      alert, closed := None, false;
    }

    /** `updateDateTime`, with `now` the local-time fields of `new Date()`. */
    method UpdateDateTime(now: LocalDate)
      modifies this`dateTimeText
      ensures dateTimeText == FormatNaturalDate(now)
    {
      dateTimeText := FormatNaturalDate(now);
    }

    /** `updateCharCounter`. */
    method UpdateCharCounter()
      modifies this`counterText, this`overLimit, this`saveDisabled
      ensures counterText == CounterText(|input|)
      ensures saveDisabled == SaveDisabled(|input|) && overLimit == saveDisabled
    {
      var length := |input|;
      counterText := CounterText(length);
      if length > MaxChars {
        overLimit := true;
        saveDisabled := true;
      } else {
        overLimit := false;
        saveDisabled := false;
      }
    }

    /** The draft-load callback: a non-empty stored draft replaces the
        input, clamped; otherwise nothing changes. */
    method LoadDraft()
      requires Valid()
      modifies this`input, this`counterText, this`overLimit, this`saveDisabled
      ensures Valid() && !saveDisabled
      ensures HasDraft(store.draft) ==> input == Clamp(store.draft.value)
      ensures !HasDraft(store.draft) ==> unchanged(this)
    {
      var draft := store.draft;
      if HasDraft(draft) {
        var d := draft.value;
        input := if |d| > MaxChars then d[..MaxChars] else d;
        UpdateCharCounter();
      }
    }

    /** The input handler, after the browser has set the textarea to
        `typed`: clamp, write the draft (a failed write leaves the stored
        draft as it was), update the counter. */
    method OnInput(typed: string, writeFailed: bool)
      modifies this`input, this`counterText, this`overLimit, this`saveDisabled, store`draft
      ensures Valid() && !saveDisabled
      ensures input == Clamp(typed)
      ensures store.draft == if writeFailed then old(store.draft) else Some(input)
    {
      input := typed;
      if |input| > MaxChars {
        input := input[..MaxChars];
      }
      if !writeFailed {
        store.draft := Some(input);
      }
      UpdateCharCounter();
    }

    /** What `saveNote` leaves behind. Refused text changes nothing; a
        failed read or write shows an alert and leaves storage as it was;
        otherwise the new note is put in front of the stored list (a
        missing list counts as empty), the draft is reset to "" in the
        same write, and the popup closes. */
    twostate predicate SaveOutcome(id: int, timestamp: string, readError: Option<string>, writeError: Option<string>)
      reads this, store
    {
      var text := Trim(old(input));
      && input == old(input)
      && if !Savable(text) then
           store.notes == old(store.notes) && store.draft == old(store.draft)
           && alert == old(alert) && closed == old(closed)
         else if readError.Some? then
           store.notes == old(store.notes) && store.draft == old(store.draft)
           && alert == Some(SaveErrorPrefix + readError.value) && closed == old(closed)
         else if writeError.Some? then
           store.notes == old(store.notes) && store.draft == old(store.draft)
           && alert == Some(SaveErrorPrefix + writeError.value) && closed == old(closed)
         else
           store.notes == Some([Note(id, text, timestamp)] + StoredList(old(store.notes)))
           && store.draft == Some("")
           && alert == old(alert) && closed
    }

    /** `saveNote`; `id` and `timestamp` stand for `Date.now()` and
        `toISOString()`, the two errors for `chrome.runtime.lastError`
        after the read and after the write. */
    method Save(id: int, timestamp: string, readError: Option<string>, writeError: Option<string>)
      requires Valid()
      modifies this`alert, this`closed, store
      ensures Valid()
      ensures SaveOutcome(id, timestamp, readError, writeError)
      ensures old(store.NotesWellFormed()) ==> store.NotesWellFormed()
    {
      var noteText := Trim(input);
      if noteText != "" && |noteText| <= MaxChars {
        var note := Note(id, noteText, timestamp);
        SavedNoteWellFormed(input, id, timestamp);
        StoreNote(note, readError, writeError);
      }
    }

    /** The storage part of `saveNote`: read the list, put the note in
        front (`unshift`), write the list and the empty draft together,
        close the popup; a read or write error shows an alert instead. */
    method StoreNote(note: Note, readError: Option<string>, writeError: Option<string>)
      modifies this`alert, this`closed, store
      ensures readError.Some? || writeError.Some? ==>
        && store.notes == old(store.notes) && store.draft == old(store.draft)
        && closed == old(closed)
        && alert == Some(SaveErrorPrefix + (if readError.Some? then readError else writeError).value)
      ensures readError.None? && writeError.None? ==>
        && store.notes == Some([note] + StoredList(old(store.notes)))
        && store.draft == Some("")
        && alert == old(alert) && closed
      ensures old(store.NotesWellFormed()) && WellFormedNote(note) ==> store.NotesWellFormed()
    {
      if readError.Some? {
        alert := Some(SaveErrorPrefix + readError.value);
        return;
      }
      var notes := StoredList(store.notes);
      ghost var stored := notes;
      notes := [note] + notes;
      if writeError.Some? {
        alert := Some(SaveErrorPrefix + writeError.value);
        return;
      }
      if store.NotesWellFormed() && WellFormedNote(note) {
        PrependKeepsWellFormed(note, stored);
      }
      store.notes, store.draft := Some(notes), Some("");
      closed := true;
    }

    /** The keydown handler: the shortcut suppresses the newline and saves;
        any other key is left to the textarea. */
    method OnKeyDown(key: string, metaKey: bool, ctrlKey: bool,
                     id: int, timestamp: string, readError: Option<string>, writeError: Option<string>)
      returns (preventDefault: bool)
      requires Valid()
      modifies this`alert, this`closed, store
      ensures Valid()
      ensures preventDefault == IsSaveShortcut(key, metaKey, ctrlKey)
      ensures preventDefault ==> SaveOutcome(id, timestamp, readError, writeError)
      ensures !preventDefault ==> unchanged(this, store)
    {
      preventDefault := IsSaveShortcut(key, metaKey, ctrlKey);
      if preventDefault {
        Save(id, timestamp, readError, writeError);
      }
    }
  }
}
