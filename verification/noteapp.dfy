/** The value logic of `NoteApp` in graphics.py: registering a label and
    assembling and saving a note from the form's contents. The widgets are
    reduced to their readings: the text box, the combobox text and the set
    of ticked character names. */
module NoteApp {
  import opened Wrappers
  import opened Json
  import opened Text
  import opened IsoDate
  import opened NoteRecord
  import opened DataManager

  /** The character roster `NoteApp` is created with, in the order the check
      boxes are laid out. */
  const Roster: seq<string> := ["PP", "Kevin", "Mitch", "Alex", "Steven R", "Steven A", "Party", "DM"]

  predicate NoDuplicates<T(==)>(s: seq<T>)
  {
    forall i, j :: 0 <= i < j < |s| ==> s[i] != s[j]
  }

  /** `sub` is `s` with some elements left out, the rest in their order. */
  predicate IsSubsequence<T(==)>(sub: seq<T>, s: seq<T>)
    decreases |s|
  {
    if sub == [] then true
    else if s == [] then false
    else if sub[0] == s[0] then IsSubsequence(sub[1..], s[1..])
    else IsSubsequence(sub, s[1..])
  }

  lemma RosterHasNoDuplicates()
    ensures NoDuplicates(Roster)
  {
  }

  // ---------------------------------------------------------------------
  // Character selection

  /** The comprehension over `character_vars.items()`: the roster names whose
      box is ticked, in roster order. `character_vars` is a dictionary keyed
      by name, so a name listed twice in `self.characters` would still be
      offered once; the model follows the roster as given, which is
      faithful for every duplicate-free roster, `Roster` among them
      (`RosterHasNoDuplicates`). */
  function SelectedCharacters(roster: seq<string>, ticked: set<string>): (r: seq<string>)
    ensures forall c :: c in r <==> c in roster && c in ticked
    ensures IsSubsequence(r, roster)
    ensures NoDuplicates(roster) ==> NoDuplicates(r)
    decreases |roster|
  {
    if roster == [] then []
    else
      var rest := SelectedCharacters(roster[1..], ticked);
      if roster[0] in ticked then
        assert roster[0] !in roster[1..] ==> roster[0] !in rest;
        [roster[0]] + rest
      else rest
  }

  /** Ticking no listed name selects nothing. */
  lemma {:induction false} SelectNone(roster: seq<string>, ticked: set<string>)
    requires forall c :: c in roster ==> c !in ticked
    ensures SelectedCharacters(roster, ticked) == []
    decreases |roster|
  {
    if roster != [] {
      SelectNone(roster[1..], ticked);
    }
  }

  /** Ticking a single listed name selects exactly that name. */
  lemma {:induction false} SelectOne(roster: seq<string>, c: string)
    requires c in roster && NoDuplicates(roster)
    ensures SelectedCharacters(roster, {c}) == [c]
    decreases |roster|
  {
    var rest := SelectedCharacters(roster[1..], {c});
    if roster[0] == c {
      assert c !in roster[1..];
      SelectNone(roster[1..], {c});
    } else {
      assert NoDuplicates(roster[1..]) by {
        forall i, j | 0 <= i < j < |roster[1..]|
          ensures roster[1..][i] != roster[1..][j]
        {
          assert roster[1..][i] == roster[i + 1] && roster[1..][j] == roster[j + 1];
        }
      }
      SelectOne(roster[1..], c);
    }
  }

  // ---------------------------------------------------------------------
  // Label registry

  /** The effect of `save_label`: the new in-memory list, and the labels
      document written, if any. */
  datatype LabelUpdate = LabelUpdate(labels: seq<Value>, write: Option<FileState>)

  /** `save_label()` on the combobox text `raw`: the text is stripped; a
      non-empty label not yet listed is appended and the whole list saved;
      otherwise nothing changes and nothing is written. */
  function SaveLabel(labels: seq<Value>, raw: string): (u: LabelUpdate)
    ensures u.write.Some? <==> Strip(raw) != "" && Str(Strip(raw)) !in labels
    ensures u.write.Some? ==> u.labels == labels + [Str(Strip(raw))]
    ensures u.write.Some? ==> LoadLabels(u.write.value) == Arr(u.labels)
    ensures u.write.None? ==> u.labels == labels
  {
    var newLabel := Strip(raw);
    if newLabel != "" && Str(newLabel) !in labels then
      var updated := labels + [Str(newLabel)];
      LabelUpdate(updated, Some(SaveLabels(updated)))
    else
      LabelUpdate(labels, None)
  }

  /** Registration keeps the registry free of duplicates, keeps every earlier
      entry where it was, and leaves the new label (if any) in the list. */
  lemma SaveLabelKeepsRegistry(labels: seq<Value>, raw: string)
    requires NoDuplicates(labels)
    ensures var u := SaveLabel(labels, raw);
      && NoDuplicates(u.labels)
      && u.labels[..|labels|] == labels
      && (Strip(raw) != "" ==> Str(Strip(raw)) in u.labels)
  {
  }

  /** Registering the same text twice is registering it once; the second
      call writes nothing. */
  lemma SaveLabelIdempotent(labels: seq<Value>, raw: string)
    ensures var u := SaveLabel(labels, raw);
      SaveLabel(u.labels, raw) == LabelUpdate(u.labels, None)
  {
  }

  /** Surrounding whitespace does not matter: the text and its stripped
      form register the same way. */
  lemma SaveLabelIgnoresPadding(labels: seq<Value>, raw: string)
    ensures SaveLabel(labels, raw) == SaveLabel(labels, Strip(raw))
  {
    StripIdempotent(raw);
  }

  /** Whitespace-only text never registers a label. */
  lemma SaveLabelSkipsBlank(labels: seq<Value>, raw: string)
    requires AllSpace(raw)
    ensures SaveLabel(labels, raw) == LabelUpdate(labels, None)
  {
    StripEmptyIffAllSpace(raw);
  }

  // ---------------------------------------------------------------------
  // Note assembly and the save button

  /** The note `save_note` builds: stripped text, the combobox text as it
      stands, the ticked characters, today's date and no order. */
  function BuildNote(roster: seq<string>, rawContent: string, rawLabel: string, ticked: set<string>, today: Date): (n: Note)
    ensures n.content.Str? && Tight(n.content.s) && IsTrimOf(n.content.s, rawContent)
    ensures n.noteLabel == Str(rawLabel)
    ensures n.character.Arr?
    ensures forall c :: Str(c) in n.character.items <==> c in roster && c in ticked
    ensures n.date == today && n.order == Null
  {
    var characters := SelectedCharacters(roster, ticked);
    StrsMembers(characters);
    NewNote(Str(Strip(rawContent)), Str(rawLabel), Arr(Strs(characters)), Some(today), Null, today)
  }

  /** The characters of a built note are the ticked roster names, each once,
      in roster order. */
  lemma BuildNoteCharacters(roster: seq<string>, rawContent: string, rawLabel: string, ticked: set<string>, today: Date)
    ensures var n := BuildNote(roster, rawContent, rawLabel, ticked, today);
      exists cs: seq<string> ::
        && n.character == Arr(Strs(cs))
        && IsSubsequence(cs, roster)
        && (NoDuplicates(roster) ==> NoDuplicates(cs))
        && (forall c :: c in cs <==> c in roster && c in ticked)
  {
    var cs := SelectedCharacters(roster, ticked);
    assert BuildNote(roster, rawContent, rawLabel, ticked, today).character == Arr(Strs(cs));
  }

  /** What `save_note` works on: the two files, the in-memory label list
      and the character roster the check boxes were built from. */
  datatype AppState = AppState(notesFile: FileState, labelsFile: FileState, labels: seq<Value>, characters: seq<string>)

  /** Lines 64-65 of `save_note()`: `save_to_file` the built note, then
      `save_label()` with the same combobox text. A failing `save_to_file`
      raises before the label is registered. */
  function SubmitNote(st: AppState, note: Note, rawLabel: string): (r: Result<AppState, StoreError>)
    ensures r.Err? <==> st.notesFile.Valid? && !st.notesFile.doc.Arr?
    ensures r.Ok? ==> Ok(r.value.notesFile) == SaveToFile(st.notesFile, note)
    ensures r.Ok? ==> r.value.labels == SaveLabel(st.labels, rawLabel).labels
    ensures r.Ok? && SaveLabel(st.labels, rawLabel).write.None? ==> r.value.labelsFile == st.labelsFile
    ensures r.Ok? && SaveLabel(st.labels, rawLabel).write.Some? ==> r.value.labelsFile == SaveLabel(st.labels, rawLabel).write.value
    ensures r.Ok? ==> r.value.characters == st.characters
  {
    match SaveToFile(st.notesFile, note)
    case Err(e) => Err(e)
    case Ok(notesFile) =>
      var u := SaveLabel(st.labels, rawLabel);
      var labelsFile := if u.write.Some? then u.write.value else st.labelsFile;
      Ok(AppState(notesFile, labelsFile, u.labels, st.characters))
  }

  /** `save_note()`: the note built from the form, submitted. What lands in
      the notes file is stated by `SaveNoteStoresNote`. */
  function SaveNote(st: AppState, rawContent: string, rawLabel: string, ticked: set<string>, today: Date): (r: Result<AppState, StoreError>)
    ensures r.Err? <==> st.notesFile.Valid? && !st.notesFile.doc.Arr?
    ensures r.Ok? ==> r.value.labels == SaveLabel(st.labels, rawLabel).labels
    ensures r.Ok? && SaveLabel(st.labels, rawLabel).write.None? ==> r.value.labelsFile == st.labelsFile
    ensures r.Ok? && SaveLabel(st.labels, rawLabel).write.Some? ==> r.value.labelsFile == SaveLabel(st.labels, rawLabel).write.value
    ensures r.Ok? ==> r.value.characters == st.characters
    ensures r.Ok? && FailsOpen(st.notesFile) ==>
      && r.value.notesFile.Valid? && r.value.notesFile.doc.Arr?
      && |r.value.notesFile.doc.items| == 1
    ensures r.Ok? && st.notesFile.Valid? ==>
      && r.value.notesFile.Valid? && r.value.notesFile.doc.Arr?
      && |r.value.notesFile.doc.items| == |st.notesFile.doc.items| + 1
      && r.value.notesFile.doc.items[..|st.notesFile.doc.items|] == st.notesFile.doc.items
  {
    SubmitNote(st, BuildNote(st.characters, rawContent, rawLabel, ticked, today), rawLabel)
  }

  /** On a notes file holding a list, submitting succeeds, the earlier notes
      are untouched, and the last stored entry decodes back to exactly the
      submitted note. */
  lemma SubmitNoteStoresNote(st: AppState, note: Note, rawLabel: string, anyDay: Date)
    requires HoldsNoteList(st.notesFile)
    ensures SubmitNote(st, note, rawLabel).Ok?
    ensures var after := SubmitNote(st, note, rawLabel).value;
      && HoldsNoteList(after.notesFile)
      && var xs := StoredItems(after.notesFile);
      && xs[..|xs| - 1] == StoredItems(st.notesFile)
      && xs[|xs| - 1].Obj?
      && FromDict(xs[|xs| - 1].fields, anyDay) == Ok(note)
  {
    LoadAfterSave(st.notesFile, note);
    FromDictToDict(note, anyDay);
  }

  /** On a notes file that `save_to_file` reads as `[]` (missing, blank, or
      raw text that is not JSON), the save button leaves a list holding only
      the note built from the form: whatever the file held is gone. */
  lemma SaveNoteOnCorruptFile(st: AppState, rawContent: string, rawLabel: string, ticked: set<string>, today: Date)
    requires FailsOpen(st.notesFile)
    ensures SaveNote(st, rawContent, rawLabel, ticked, today).Ok?
    ensures SaveNote(st, rawContent, rawLabel, ticked, today).value.notesFile
         == Valid(Arr([NoteDoc(BuildNote(st.characters, rawContent, rawLabel, ticked, today))]))
  {
  }

  /** After the save button, the last stored note decodes back to exactly the
      note built from the form, and the earlier notes are untouched. */
  lemma SaveNoteStoresNote(st: AppState, rawContent: string, rawLabel: string, ticked: set<string>, today: Date, anyDay: Date)
    requires HoldsNoteList(st.notesFile)
    ensures SaveNote(st, rawContent, rawLabel, ticked, today).Ok?
    ensures var after := SaveNote(st, rawContent, rawLabel, ticked, today).value;
      && HoldsNoteList(after.notesFile)
      && var xs := StoredItems(after.notesFile);
      && xs[..|xs| - 1] == StoredItems(st.notesFile)
      && xs[|xs| - 1].Obj?
      && FromDict(xs[|xs| - 1].fields, anyDay) == Ok(BuildNote(st.characters, rawContent, rawLabel, ticked, today))
  {
    SubmitNoteStoresNote(st, BuildNote(st.characters, rawContent, rawLabel, ticked, today), rawLabel, anyDay);
  }

  // ---------------------------------------------------------------------
  // Worked examples

  /** Registering "Work" in an empty registry writes `["Work"]`. */
  lemma WorkLabelFirst()
    ensures SaveLabel([], "Work") == LabelUpdate([Str("Work")], Some(Valid(Arr([Str("Work")]))))
  {
    StripKeepsWork();
  }

  /** Registering "Work" again changes nothing and writes nothing. */
  lemma WorkLabelAgain()
    ensures SaveLabel([Str("Work")], "Work") == LabelUpdate([Str("Work")], None)
  {
    StripKeepsWork();
  }

  /** Padding is dropped before registering. */
  lemma WorkLabelPadded()
    ensures SaveLabel([], "  Work  ").labels == [Str("Work")]
  {
    StripDropsPadding();
  }

  lemma SelectAlex()
    ensures SelectedCharacters(Roster, {"Alex"}) == ["Alex"]
  {
    RosterHasNoDuplicates();
    assert Roster[3] == "Alex";
    SelectOne(Roster, "Alex");
  }

  lemma BuyMilkNote()
    ensures BuildNote(Roster, "Buy milk\n", "Errand", {"Alex"}, CalendarDay(2024, 1, 1))
         == Note(Str("Buy milk"), Str("Errand"), Arr([Str("Alex")]), CalendarDay(2024, 1, 1), Null)
  {
    StripBuyMilk();
    SelectAlex();
    assert Strs(["Alex"]) == [Str("Alex")];
  }

  lemma BuyMilkDict()
    ensures ToDict(Note(Str("Buy milk"), Str("Errand"), Arr([Str("Alex")]), CalendarDay(2024, 1, 1), Null))
         == map["content" := Str("Buy milk"), "label" := Str("Errand"),
                "character" := Arr([Str("Alex")]), "date" := Str("2024-01-01"),
                "order" := Null]
  {
    FormatNewYear2024();
  }

  lemma ErrandRegisters()
    ensures SaveLabel([], "Errand") == LabelUpdate([Str("Errand")], Some(Valid(Arr([Str("Errand")]))))
  {
    StripErrand();
  }

  /** Saving "Buy milk" labelled "Errand" with Alex ticked on 2024-01-01 into
      an empty store stores one note dictionary with no order, and
      registers "Errand". */
  lemma BuyMilkExample()
    ensures SaveNote(AppState(Missing, Missing, [], Roster), "Buy milk\n", "Errand", {"Alex"}, CalendarDay(2024, 1, 1))
         == Ok(AppState(
              Valid(Arr([Obj(map["content" := Str("Buy milk"), "label" := Str("Errand"),
                                 "character" := Arr([Str("Alex")]), "date" := Str("2024-01-01"),
                                 "order" := Null])])),
              Valid(Arr([Str("Errand")])),
              [Str("Errand")], Roster))
  {
    var note := Note(Str("Buy milk"), Str("Errand"), Arr([Str("Alex")]), CalendarDay(2024, 1, 1), Null);
    BuyMilkNote();
    BuyMilkDict();
    ErrandRegisters();
    assert SaveToFile(Missing, note) == Ok(Valid(Arr([NoteDoc(note)])));
  }
}
