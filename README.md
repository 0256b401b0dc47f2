# Quick Notes browser extension — a Dafny model

The extension has two pages that share two keys of synchronized browser
storage: `notes`, the whole list of notes, newest first; and `draft`, the
text the user has typed but not saved.

- The **popup** (`popup/popup.js`) shows the current date as a phrase such
  as "Monday, January 1st, 2025 - 3:45 pm". It keeps the textarea to at most
  500 characters and saves it as the draft on every change. Its counter
  reads "<n>/500 characters" and disables the save button over the limit.
  Saving trims the text, refuses blank or over-long text, puts a new note in
  front of the stored list and resets the draft, all in one write.
- The **options page** (`options/options.js`) lists the notes in stored
  order. Each note shows its timestamp as a phrase, its text and a delete
  button. The page deletes one note by id, clears all notes after a
  confirmation, and shows an empty-state panel when there is nothing to list.

The model has one module per component:

| file | module | contents |
|---|---|---|
| `wrappers.dfy` | `Wrappers` | `Option`, used for absent storage keys and failed parses |
| `jstext.dfy` | `JsText` | the JavaScript string built-ins used: `String(n)`, `padStart(2, '0')`, `trim()` with ECMAScript's whitespace set |
| `natural_date.dfy` | `NaturalDate` | `formatNaturalDate` (both files hold identical copies; it is defined once), its tables, and an inverse parser for the round-trip law |
| `note_store.dfy` | `NoteStore` | `Note`, the 500-character limit, the stored-note invariant, and the `Store` class holding the two keys |
| `popup.dfy` | `Popup` | the clamp, the counter rule, the save guard, and the class `PopupPage` with the popup's handlers |
| `options.dfy` | `Options` | the delete filter and its laws, and the class `OptionsPage` with load, render, delete and clear-all |
| `scenarios.dfy` | `Scenarios` | clients that replay the documented save, delete and clear scenarios from the contracts alone |

The two page classes share one `Store` object. Every state change is stated
against that object: which key a handler writes, what it writes, and that
the other key stays as it was. Reported storage failures come in as
parameters; the draft read of the popup and the reads of the options page
ignore `chrome.runtime.lastError`, and a failed read there is not modelled
(see below). The save path takes `chrome.runtime.lastError` as an optional message for its
read and for its write. Unchecked writes (the draft autosave, delete and
clear-all) take a `writeFailed` flag. A failed write leaves the key as it
was. The clock is a parameter too: `Date.now()` and `toISOString()` are the
`id` and `timestamp` arguments of `Save`. The local-time fields of a `Date`
are a `LocalDate` value, and the options page receives
`new Date(timestamp)` read in local time as a function `toLocal`.

A stored timestamp that does not parse gives an Invalid Date. For it the
formatter yields "undefined, undefined NaNth, NaN - 12:NaN am":
`Options.InvalidDatePhrase` is that text and `Options.TimestampText` selects it.

`Store.NotesWellFormed` says that every stored note has 1 to 500
characters and no whitespace at either end. This is the data model's rule
that a note is never stored with empty or over-length text. Save, delete
and clear-all each keep it whenever it held before.

The ordinal suffix chain (`if day === 1 || day === 21 || day === 31 ...`)
looks like it might mishandle 11, 12 and 13. It does not: on 1..31 it
agrees with the general English rule, `NaturalDate.OrdinalSuffixIsEnglish`.

## Model

| member | source | states |
|---|---|---|
| `JsText.NatToString` | popup/popup.js:41 | `${n}` of a non-negative integer is a non-empty string of decimal digits with no leading zero; it is one digit exactly when n < 10 |
| `JsText.NatToStringRoundTrip` | popup/popup.js:41 | reading the decimal text of n back gives n |
| `JsText.IntToString` | popup/popup.js:41 | `${year}` is digits, with a leading minus sign for a negative year |
| `JsText.IntToStringRoundTrip` | popup/popup.js:23 | reading the text of any integer back gives that integer |
| `JsText.PadStart2` | popup/popup.js:37 | `padStart(2, '0')` gives length max(2, \|s\|), ends with s, and has only zeros in front of it |
| `JsText.TwoDigits` | popup/popup.js:37 | minutes 0..99 become exactly two digits that read back as the minute, with a leading zero below ten |
| `JsText.LeadingSpace` | popup/popup.js:96 | counts the whitespace prefix: everything before it is whitespace and the next code point is not |
| `JsText.TrailingSpace` | popup/popup.js:96 | counts the whitespace suffix: everything after it is whitespace and the code point before it is not |
| `JsText.IsWhitespace` | popup/popup.js:96 | the code points `trim()` removes: ECMAScript's WhiteSpace (tab, vertical tab, form feed, space, no-break space, byte order mark and the space separators) and LineTerminator (line feed, carriage return, line and paragraph separators); `Trim`'s contract is stated over this set |
| `JsText.Trim` | popup/popup.js:96 | `trim()` gives the infix after the leading whitespace that only whitespace follows; it is empty exactly when the input is blank, and otherwise starts and ends with non-whitespace |
| `JsText.TrimIdempotent` | popup/popup.js:96 | trimming twice equals trimming once |
| `JsText.TrimFixed` | popup/popup.js:96 | text with no whitespace at either end is unchanged by `trim()` |
| `NaturalDate.OrdinalSuffix` | popup/popup.js:26-33 | the if-chain: "st" for 1, 21, 31, "nd" for 2, 22, "rd" for 3, 23, otherwise "th"; `OrdinalSuffixIsEnglish` proves it agrees with the English ordinal rule |
| `NaturalDate.Meridiem` | popup/popup.js:38 | "pm" from hour 12 on, "am" before; `ClockTable` and `FormatEnding` state this marker |
| `NaturalDate.Minutes2` | popup/popup.js:37 | `String(minutes).padStart(2, '0')`; `TwoDigits` proves it is two digits that read back as the minute |
| `NaturalDate.FormatNaturalDate` | popup/popup.js:15-42 | the popup's phrase "<Weekday>, <Month> <Day><suffix>, <Year> - <h>:<mm> <am\|pm>" from the local-time fields; `FormatRoundTrip` proves every field can be read back from it and `FormatEnding` fixes its last six characters; the options page's copy (options/options.js:12-39, identical line for line) is this same function and builds each note's heading (see `Options.TimestampText`) |
| `NaturalDate.OrdinalSuffixIsEnglish` | popup/popup.js:26-33 | for every day 1..31 the if-chain gives the English suffix: "st" for 1, 21, 31; "nd" for 2, 22; "rd" for 3, 23; "th" otherwise, 11, 12 and 13 included |
| `NaturalDate.Hour12` | popup/popup.js:39 | `hours % 12 \|\| 12` lies in 1..12 and agrees with the hour modulo 12 |
| `NaturalDate.ClockTable` | popup/popup.js:36-39 | hours 0 and 12 show as 12, 1..11 show as themselves, 13..23 as hour - 12; the marker is "pm" exactly when hour >= 12 |
| `NaturalDate.ClockRoundTrip` | popup/popup.js:38-39 | the shown hour together with am/pm determines the hour of the day |
| `NaturalDate.FormatEnding` | popup/popup.js:37-41 | the phrase ends in ":<mm> <am\|pm>": two digits that read back as the minute (leading zero below ten), and "pm" exactly when hour >= 12, "am" exactly when hour < 12 |
| `NaturalDate.FormatRoundTrip` | popup/popup.js:15-42 | reading the phrase back gives every field it was made from: the layout "<Weekday>, <Month> <Day><suffix>, <Year> - <h>:<mm> <am\|pm>" is fixed and unambiguous |
| `NaturalDate.WeekdayNames` | options/options.js:13-17 | each weekday name is found at its own index in the table and holds no comma, so the name ends at the first comma |
| `NaturalDate.MonthNames` | options/options.js:14-18 | each month name is found at its own index in the table and holds no space, so the name ends at the next space |
| `NoteStore.StoredList` | options/options.js:46 | `result.notes \|\| []`: the stored list, or the empty list when the key is missing; the same rule appears in the save (popup/popup.js:110) and the delete (options/options.js:102), which use this function |
| `NoteStore.PrependKeepsWellFormed` | popup/popup.js:110-111 | `unshift` of a well-formed note onto a well-formed list gives a well-formed list |
| `Popup.Clamp` | popup/popup.js:85-87 | the clamped text is a prefix of the input of length at most 500; input within the limit is unchanged, longer input is cut to exactly 500 |
| `Popup.ClampIdempotent` | popup/popup.js:75-77 | clamping an already clamped (loaded or typed) text changes nothing |
| `Popup.SaveDisabled` | popup/popup.js:59-65 | the button is disabled, and the over-limit style set, exactly when the length exceeds 500; `ClampEnablesSave` proves this never holds after the clamp |
| `Popup.CounterText` | popup/popup.js:57 | the counter text "<length>/500 characters"; `OverlongInput` computes it for the cut text |
| `Popup.ClampEnablesSave` | popup/popup.js:59-65 | after the clamp the save button is never disabled, and the clamp changes the text exactly when the button would have been disabled |
| `Popup.OverlongInput` | popup/popup.js:83-90 | text over 500 characters is cut to 500, the counter reads "500/500 characters", and saving is enabled |
| `Popup.HasDraft` | popup/popup.js:73 | `if (result.draft)`: the draft is used only when present and not the empty string; `LoadDraft` states both branches |
| `Popup.Savable` | popup/popup.js:97 | the save guard: the trimmed text is non-empty and at most 500 characters; `SavableUnlessBlank` proves that for clamped input it passes exactly when the input is not blank |
| `Popup.SavableUnlessBlank` | popup/popup.js:96-97 | for clamped input, the save guard passes exactly when the input is not all whitespace |
| `Popup.SavedNoteWellFormed` | popup/popup.js:96-102 | a note made from text that passes the guard has 1..500 characters and is its own trim |
| `Popup.IsSaveShortcut` | popup/popup.js:130 | the shortcut is Enter together with Command or Control; `OnKeyDown` saves and suppresses the default exactly then |
| `Popup.PopupPage.constructor` | popup/popup.js:3-8 | a fresh popup has an empty input, the counter for length 0, save enabled, no alert, not closed |
| `Popup.PopupPage.UpdateDateTime` | popup/popup.js:47-50 | the date text is the phrase for the given local time |
| `Popup.PopupPage.UpdateCharCounter` | popup/popup.js:55-66 | the counter shows the input's length; the over-limit style and the disabled button are set exactly when the length exceeds 500 |
| `Popup.PopupPage.LoadDraft` | popup/popup.js:72-80 | a present, non-empty stored draft becomes the input, clamped; otherwise the popup is unchanged; counter and button stay consistent |
| `Popup.PopupPage.OnInput` | popup/popup.js:83-90 | the input becomes the clamped typed text, the draft key receives it unless the write fails, the notes key is untouched, and save is enabled |
| `Popup.PopupPage.Save` | popup/popup.js:95-123 | refused text (blank or over 500 after trim) changes nothing; a read or write error shows "Error saving note: " + message and leaves storage unchanged; otherwise notes becomes [new note] + old list (missing counts as empty), the note's text is the trimmed input, the draft becomes "" and the popup closes; the stored-note invariant is kept |
| `Popup.PopupPage.StoreNote` | popup/popup.js:104-121 | the storage callback of the save: on no error writes [note] + stored list together with the empty draft and closes; on a read or write error alerts and writes nothing |
| `Popup.PopupPage.OnKeyDown` | popup/popup.js:129-134 | the default action is suppressed exactly for Enter with Command or Control; that key saves with the outcome `Save` states, any other key changes nothing |
| `Options.RemoveId` | options/options.js:103-105 | the filter never lengthens the list |
| `Options.RemoveIdMembers` | options/options.js:103-105 | a note is kept exactly when it was in the list and its id differs from the deleted id |
| `Options.RemoveIdAppend` | options/options.js:103-105 | the filter distributes over concatenation, so the remaining notes keep their original relative order |
| `Options.RemoveIdAbsent` | options/options.js:103-105 | deleting an id that no note carries leaves the list unchanged |
| `Options.RemoveIdIdempotent` | options/options.js:103-105 | deleting the same id twice equals deleting it once |
| `Options.RemoveIdAt` | options/options.js:100-105 | with distinct ids, deleting the id of the note at position k gives the list without exactly that note, others in order |
| `Options.RemoveIdKeepsWellFormed` | options/options.js:102-107 | deleting keeps every stored note well formed |
| `Options.TimestampText` | options/options.js:74 | the heading of a note: the phrase of its timestamp in local time, or, when `new Date(timestamp)` is an Invalid Date, `InvalidDatePhrase`, the text "undefined, undefined NaNth, NaN - 12:NaN am" that the formatter produces for one |
| `Options.OptionsPage.constructor` | options/options.js:3-5 | the page starts with no entries and the empty state not shown (the markup assumption listed under "Left out") |
| `Options.OptionsPage.RenderEntry` | options/options.js:66-91 | one list item: the timestamp heading, the note's text verbatim and the note's id for its delete button; `DisplayNotes` states that each item is this rendering of its note |
| `Options.OptionsPage.DisplayNotes` | options/options.js:62-94 | exactly one entry per note, in stored order, each carrying the formatted timestamp, the note's text verbatim and the note's id for its delete button |
| `Options.OptionsPage.LoadNotes` | options/options.js:44-56 | the stored list (missing counts as empty) is displayed, and the empty state is shown exactly when that list is empty |
| `Options.OptionsPage.DeleteNote` | options/options.js:100-111 | the notes key becomes the stored list without the notes of that id (unchanged if the write fails), the draft key is untouched, the page then shows the stored list, and the invariant is kept |
| `Options.OptionsPage.ClearAll` | options/options.js:114-120 | without confirmation nothing changes; with it the notes key becomes the empty list (unless the write fails), the draft is untouched, and the page is reloaded |

## Left out

- DOM access and rendering: element lookup and creation, `innerHTML`, class toggling and listener registration. Each page keeps only the state it renders: the input, counter, button flag, date text, rendered entries and empty-state flag.
- The popup's markup is not part of this model. The constructor assumes the textarea starts empty with the counter reading "0/500 characters" and the save button enabled.
- The options page's markup is not part of this model either. Its constructor assumes the list starts empty and the empty-state panel hidden; the first `LoadNotes` (options/options.js:123) sets both.
- `Date`: `Date.now()`, `toISOString()`, ISO parsing, time zones and the calendar. They are parameters (`id`, `timestamp`, `now`, `toLocal`). The weekday field is not checked against the date.
- The asynchronous callbacks of `chrome.storage.sync` are modelled as the sequential effect each callback has. So is the last-write-wins race between the two pages. Nothing is modelled about interleaving.
- Sync quota and cross-device propagation. A quota failure appears only as a failed write.
- The popup's draft read (popup/popup.js:72-73) and the options page's reads do not check `chrome.runtime.lastError`. A failed read there is not modelled: `LoadDraft`, `LoadNotes` and `DeleteNote` always see the stored keys.
- The combined write of `notes` and `draft` in the save is treated as all-or-nothing.
- Stored values of the wrong JSON type (a non-array `notes`, a non-string `draft`) are outside the typed model. Only a missing key (`None`) and the empty string are distinguished.
- String lengths count Unicode code points. JavaScript counts UTF-16 code units, so for text outside the Basic Multilingual Plane the 500 limit and `substring(0, 500)` differ.
- The "View all notes" button (`chrome.runtime.openOptionsPage`) and the text of the confirmation prompt. `ClearAll` takes the prompt's answer as `confirmed`.
- `Options.RemoveId`: its own contract only bounds the length. Membership, order and idempotence are the lemmas `RemoveIdMembers`, `RemoveIdAppend`, `RemoveIdAbsent`, `RemoveIdIdempotent` and `RemoveIdAt`.
