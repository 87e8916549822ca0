# SimpleNotes persistence and labelling, modelled in Dafny

SimpleNotes is a small tkinter note-taking tool. Each note has content, a
label, a list of characters (participant names), a date and an order
number. Notes are appended to a JSON file. Labels live in a second JSON
file. This project models the value logic behind those files as pure
functions and proves its properties:

- the `Note` record and its dictionary form (`note.py`): the constructor's
  date default, `to_dict`, `from_dict`, and the ISO 8601 calendar-date text
  `YYYY-MM-DD` (extended format, section 5.2.1.1 of ISO 8601) that carries
  the date;
- the data manager (`data_manager.py`): `save_to_file`, `save_labels`,
  `load_labels` and `load_notes`. Each works on a file that is in one of
  five states:
  - missing;
  - blank (whitespace only);
  - malformed (not JSON even when stripped);
  - JSON only once stripped;
  - valid JSON as it stands.

  The fourth state exists because the two loaders decode the text after
  `str.strip()` (data_manager.py:43-45, 59-62), while `save_to_file`
  decodes the raw text (data_manager.py:16-17). JSON allows only space,
  tab, line feed and carriage return around a document, but `str.strip()`
  also removes form feed, no-break space and other characters. A stored
  list padded with such a character is read by both loaders, yet
  `save_to_file` replaces it with a list holding only the new note
  (`DataManager.PaddedListLostOnSave`);
- the value part of the form (`graphics.py`). `NoteApp.save_label` strips
  the text, deduplicates it and appends it. `NoteApp.save_note` strips the
  content, picks the ticked characters in roster order and builds the note.

Modules, one per concern:

| file | module | models |
|---|---|---|
| `wrappers.dfy` | `Wrappers` | `Option`, `Result` (a raised exception is an `Err`) |
| `json.dfy` | `Json` | decoded JSON values, Python truthiness, `dict.get` |
| `text.dfy` | `Text` | `str.strip()` with Python's whitespace set |
| `isodate.dfy` | `IsoDate` | `datetime.date`, `isoformat()`, date-only `fromisoformat()` |
| `note.dfy` | `NoteRecord` | `Note.__init__`, `to_dict`, `from_dict` |
| `datamanager.dfy` | `DataManager` | the notes and labels files |
| `noteapp.dfy` | `NoteApp` | `save_label`, `save_note` as functions of the form's contents |

Inputs that the source reads from its environment are parameters here.
The clock (`datetime.today()`) is the `today` argument. The roster
`self.characters` is part of the application state (`NoteApp.AppState`),
and `NoteApp.Roster` is the one `NoteApp.__init__` sets. The contents of a
file are a `FileState` value. The text box, the combobox and the check
boxes become a raw string, a raw string and a set of ticked names.

Three behaviours of the code are worth knowing:

- Nothing assigns an order. `save_note` never passes an `order`, so every
  saved note has `order = None` (`NoteApp.BuyMilkExample` shows this).
- `load_notes` raises `JSONDecodeError` on malformed text. `save_to_file`
  and `load_labels` carry on as if the file were empty
  (`DataManager.MalformedAsymmetry`).
- A non-empty date string that is not a date raises. Only a missing or
  falsy `date` becomes today (`NoteRecord.DecodeDate`).

## Model

| member | source | states |
|---|---|---|
| `Text.Strip` | graphics.py:76 | the result has no leading or trailing whitespace, and it is the input with a whitespace-only prefix and suffix cut off |
| `Text.StripCharacterized` | graphics.py:76 | any string without surrounding whitespace that is the input minus whitespace-only ends equals the stripped text, so stripping is uniquely determined |
| `Text.StripIdempotent` | graphics.py:76 | stripping twice gives the same text as stripping once |
| `Text.StripEmptyIffAllSpace` | graphics.py:76-78 | the stripped label is empty exactly when the raw text is all whitespace |
| `IsoDate.DaysInMonth` | note.py:26 | months have 28 to 31 days; February has 29 exactly in Gregorian leap years |
| `IsoDate.Format` | note.py:18 | `isoformat()` writes four year digits, a dash, two month digits, a dash, two day digits |
| `IsoDate.Parse` | note.py:26 | text is accepted only if it has the `DDDD-DD-DD` shape; text of that shape is rejected only when the day does not exist |
| `IsoDate.PaddedValue` | note.py:18 | a number that fits in the width reads back from its zero-padded digits |
| `IsoDate.ValuePadded` | note.py:26 | any digit string is the zero-padded form of its own value |
| `IsoDate.ParseFormat` | note.py:18-26 | every valid date reads back from its ISO text as the same (year, month, day) |
| `IsoDate.FormatParse` | note.py:18-26 | every accepted text is exactly the ISO text of the date it reads as |
| `IsoDate.ParseAcceptsExactlyFormatted` | note.py:18-26 | the parser accepts a string if and only if it is the ISO text of some date |
| `NoteRecord.NewNote` | note.py:4-10 | the constructor keeps a supplied date and uses today only when none is given; the other fields are stored as passed |
| `NoteRecord.ToDict` | note.py:12-20 | the dictionary has exactly the keys content, label, character, date, order, and date is the ISO text of the note's date |
| `NoteRecord.DecodeDate` | note.py:25-26 | a falsy date value (missing, `None`, `""`) decodes as today; a truthy non-string is an error; a non-empty string decodes exactly when it parses, and then it is that date's ISO text |
| `NoteRecord.FromDict` | note.py:22-33 | decoding fails when `content` is absent or the date is bad; on success content is the stored value, label, character and order are the stored values or `None`, and the date is today for a falsy `date` and otherwise the day whose ISO text the stored string is |
| `NoteRecord.FromDictDateDefault` | note.py:25-26 | with `content` present, an absent or falsy date decodes as today, whatever the other keys hold |
| `NoteRecord.FromDictParsedDate` | note.py:25-31 | with `content` present, an ISO date string decodes as the day it names, whatever the other keys hold |
| `NoteRecord.FromDictToDict` | note.py:12-33 | decoding the dictionary of any note gives back that note, whatever today is |
| `NoteRecord.ToDictFromDict` | note.py:12-33 | a five-key dictionary whose date is ISO text decodes and re-encodes to itself |
| `NoteRecord.FromDictDefaults` | note.py:25-32 | missing label, character and order become `None`, and a missing or empty date becomes today |
| `NoteRecord.FromDictRejectsBadDate` | note.py:25-26 | a non-empty date string that is not an ISO date is a `DateNotIso` error, not a default |
| `DataManager.SaveToFile` | data_manager.py:6-27 | on a missing or blank file, or one whose raw text is not JSON, the result is exactly the one-entry list; on a list the new entry is appended after the unchanged old ones; it fails exactly when the valid document is not a list |
| `DataManager.SaveLabels` | data_manager.py:31-34 | the labels file afterwards holds exactly the given list, whatever it held before |
| `DataManager.LoadLabels` | data_manager.py:39-51 | a missing, blank or malformed labels file loads as `[]`; one whose stripped text is JSON loads as its document |
| `DataManager.LoadNotes` | data_manager.py:53-62 | a missing or blank notes file loads as `[]`, one whose stripped text is JSON as its document, and it fails exactly on a malformed one |
| `DataManager.StoredItems` | data_manager.py:53-62 | the entries of a list-holding notes file are what `load_notes` returns |
| `DataManager.LoadSavedLabels` | data_manager.py:31-45 | `load_labels` after `save_labels(L)` returns exactly `L` |
| `DataManager.MalformedAsymmetry` | data_manager.py:9-62 | on malformed text, `load_labels` gives `[]` and `save_to_file` replaces the file with one entry, but `load_notes` raises |
| `DataManager.PaddedListLostOnSave` | data_manager.py:13-62 | a list stored with surrounding whitespace that JSON rejects but `str.strip()` removes is returned by both loaders, yet `save_to_file` replaces it with a list holding only the new note |
| `DataManager.LoadAfterSave` | data_manager.py:24-62 | on a missing, blank or list-holding (raw JSON) file, `save_to_file` then `load_notes` returns the previous entries in order followed by the new dictionary |
| `DataManager.SavesAccumulate` | data_manager.py:24-27 | on a missing, blank or list-holding (raw JSON) file, saving a sequence of notes one by one leaves the old entries followed by each note's dictionary in save order |
| `DataManager.SavedNotesDecode` | tests.py:24-42 | after saving notes into a fresh file, there is one entry per note and the i-th entry decodes to the i-th note |
| `DataManager.OneThenTwoSaves` | tests.py:24-42 | one save into a fresh file gives one entry with the note's content; two saves give two entries in save order |
| `NoteApp.RosterHasNoDuplicates` | graphics.py:13 | the character roster lists each name once |
| `NoteApp.SelectedCharacters` | graphics.py:59 | a name is selected exactly when it is in the roster and ticked; the selection keeps roster order and has no duplicates when the roster has none |
| `NoteApp.SelectNone` | graphics.py:59 | if no roster name is ticked, nothing is selected |
| `NoteApp.SelectOne` | graphics.py:59 | ticking one listed name selects exactly that name |
| `NoteApp.SaveLabel` | graphics.py:75-85 | the label file is written exactly when the stripped text is non-empty and not yet listed; then the text is appended at the end and the written file loads as the new list; otherwise the list is unchanged |
| `NoteApp.SaveLabelKeepsRegistry` | graphics.py:78-79 | a duplicate-free registry stays duplicate-free, earlier entries keep their positions, and a non-empty stripped label ends up listed |
| `NoteApp.SaveLabelIdempotent` | graphics.py:75-85 | registering the same text a second time changes nothing and writes nothing |
| `NoteApp.SaveLabelIgnoresPadding` | graphics.py:76 | raw text and its stripped form register identically |
| `NoteApp.SaveLabelSkipsBlank` | graphics.py:76-78 | whitespace-only text leaves the registry unchanged and writes nothing |
| `NoteApp.WorkLabelFirst` | graphics.py:78-82 | registering "Work" in an empty registry writes `["Work"]` |
| `NoteApp.WorkLabelAgain` | graphics.py:84-85 | registering "Work" again leaves `["Work"]` and writes nothing |
| `NoteApp.WorkLabelPadded` | graphics.py:76-79 | registering "  Work  " in an empty registry gives `["Work"]` |
| `NoteApp.BuildNote` | graphics.py:56-62 | the note's content is the stripped text, its label the raw combobox text, its characters the ticked roster names, its date today and its order `None` |
| `NoteApp.BuildNoteCharacters` | graphics.py:45-59 | the characters are a subsequence of the roster that contains exactly the ticked names, and it has no duplicates when the roster has none |
| `NoteApp.SubmitNote` | graphics.py:64-65 | submitting a note fails exactly when `save_to_file` does, and then the label is not registered; otherwise the notes file is what `save_to_file` makes of it, the label list and labels file are what `save_label` makes of them, and the roster is unchanged |
| `NoteApp.SaveNote` | graphics.py:56-65 | the save button fails exactly when the notes document is valid JSON but not a list; otherwise a file `save_to_file` reads as `[]` ends up holding one entry, a raw JSON list keeps its entries as a prefix and grows by one, the label list and labels file are what `save_label` makes of them, and the roster is unchanged |
| `NoteApp.SaveNoteOnCorruptFile` | graphics.py:64 | on a missing or blank notes file, or one whose raw text is not JSON, the save button leaves exactly the one-entry list of the built note, discarding what the file held |
| `NoteApp.SubmitNoteStoresNote` | graphics.py:64-65 | on a notes file holding a list, submitting succeeds, the earlier entries stay as they were, and the last entry decodes to exactly the submitted note |
| `NoteApp.SaveNoteStoresNote` | graphics.py:56-65 | after the save button (`SaveNote`, the built note submitted), earlier notes are untouched and the last stored entry decodes to exactly the note built from the form |
| `NoteApp.BuyMilkExample` | graphics.py:56-65 | saving "Buy milk" labelled "Errand" with Alex ticked on 2024-01-01 into empty files stores one dictionary with `order` `None` and registers `["Errand"]` |

## Left out

- temp.py (the table view, window geometry and column-width settings) is not part of this model: it is user-interface state with no invariants, and it overwrites its settings file wholesale.
- All widget plumbing in graphics.py: layout, combobox and check-box state, and clearing the form after a save. The `<Return>` binding at graphics.py:38 passes an event to the zero-argument `save_label`, which is a widget-level call error and is not modelled.
- `NoteApp.__init__` loading the labels at start-up (graphics.py:12) is not modelled as an operation. `SaveLabel` takes the in-memory list as a parameter, which assumes the labels document is a JSON list.
- Real file I/O: `open`, `os.path.exists`, and write failures such as permissions or a full disk. A failed write simply propagates, so there is nothing to prove. Files are the abstract `FileState`.
- JSON text encoding and decoding. The file's text is given already classified: blank, malformed, JSON only once stripped, or JSON as it stands, with its decoded `Value`. JSON numbers are integers only, because floats play no part in the core.
- Read errors other than a missing file or invalid JSON (for example undecodable bytes). These propagate in the source too.
- The `print` diagnostic in `load_labels` (data_manager.py:50).
- `Note.__str__` (note.py:35-36): display only.
- IsoDate.Parse: accepts only the ten-character `YYYY-MM-DD` text. `datetime.fromisoformat` also accepts a time part after the date and, from Python 3.11 on, further ISO forms. The model rejects those as errors. The source only ever writes `YYYY-MM-DD`.
- NoteRecord.Note: fields other than the date are JSON values. A Python caller could store an object that JSON cannot represent, but `save_to_file` would then fail while writing.
