/** Clients of both pages over one shared store, checked against the
    contracts alone: the documented save, delete and clear scenarios. */
module Scenarios {
  import opened Wrappers
  import opened JsText
  import opened NoteStore
  import opened Popup
  import opened Options

  /** Saving "Buy milk" into empty storage stores exactly that note and clears the draft. */
  method SaveOneNote(t: int, iso: string) {
    var store := new Store(None, None);
    var popup := new PopupPage(store);
    var text := "Buy milk";
    popup.OnInput(text, false);
    assert popup.input == text && store.draft == Some(text);
    assert text[0] == 'B' && text[|text| - 1] == 'k';
    TrimFixed(text);
    assert Savable(Trim(popup.input));
    popup.Save(t, iso, None, None);
    assert store.notes == Some([Note(t, text, iso)] + []);
    assert store.draft == Some("");
    assert popup.closed;
  }

  /** Deleting the middle of three notes keeps the other two in order;
      clearing afterwards empties the list, shows the empty state and keeps the draft. */
  method DeleteMiddleThenClear(a: Note, b: Note, c: Note, toLocal: string -> Option<NaturalDate.LocalDate>)
    requires a.id != b.id && b.id != c.id && a.id != c.id
  {
    var store := new Store(Some([a, b, c]), Some("half-written"));
    var page := new OptionsPage(store, toLocal);
    page.LoadNotes();
    assert |page.entries| == 3 && page.entries[1].text == b.text;
    page.DeleteNote(b.id, false);
    assert store.notes == Some([a, c]) by {
      var notes := [a, b, c];
      assert DistinctIds(notes);
      RemoveIdAt(notes, 1);
      assert notes[..1] + notes[2..] == [a, c];
    }
    assert |page.entries| == 2 && page.entries[0].noteId == a.id && page.entries[1].noteId == c.id;
    page.ClearAll(true, false);
    assert store.notes == Some([]) && page.emptyStateShown && page.entries == [];
    assert store.draft == Some("half-written");
  }
}
