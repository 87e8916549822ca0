/** data_manager.py: the notes document and the labels document, each an
    abstract file whose text is already classified by what `json` makes of it. */
module DataManager {
  import opened Wrappers
  import opened Json
  import opened NoteRecord

  /** What `open(...).read()` followed by JSON decoding finds. The readers
      differ: `load_labels` and `load_notes` decode the text after
      `str.strip()`, while `save_to_file` decodes the raw text, and JSON
      allows only space, tab, line feed and carriage return around a
      document, where `str.strip()` removes every Python whitespace
      character (form feed, no-break space, ...). */
  datatype FileState =
    | Missing             // `FileNotFoundError` / `os.path.exists` is false
    | Blank               // only whitespace: `read().strip()` is empty
    | Malformed           // not valid JSON even when stripped: `json.JSONDecodeError`
    | PaddedJson(doc: Value) // valid JSON once stripped, but not as raw text
    | Valid(doc: Value)   // valid JSON as raw text (and so also once stripped)

  /** Why a data-manager call raises. */
  datatype StoreError =
    | NotAList         // the notes document is valid JSON but has no `append`
    | JsonDecodeError  // `load_notes` on text that is not JSON

  /** The states `save_to_file` reads as `[]`: its `try` block either finds
      no file, finds blank text, or gets `JSONDecodeError` from the raw text. */
  predicate FailsOpen(f: FileState)
  {
    f.Missing? || f.Blank? || f.Malformed? || f.PaddedJson?
  }

  /** The states whose stripped text decodes, as the two loaders read them. */
  predicate DecodesStripped(f: FileState)
  {
    f.Valid? || f.PaddedJson?
  }

  /** The stored form of one note: the JSON object of `note.to_dict()`. */
  function NoteDoc(n: Note): Value
  {
    Obj(ToDict(n))
  }

  /** The stored forms of a sequence of notes, in order. */
  function NoteDocs(ns: seq<Note>): (vs: seq<Value>)
    ensures |vs| == |ns|
  {
    if ns == [] then [] else [NoteDoc(ns[0])] + NoteDocs(ns[1..])
  }

  lemma {:induction false} NoteDocsAt(ns: seq<Note>, i: int)
    requires 0 <= i < |ns|
    ensures NoteDocs(ns)[i] == NoteDoc(ns[i])
    decreases i
  {
    if i > 0 {
      NoteDocsAt(ns[1..], i - 1);
    }
  }

  /** `save_to_file(note)`: the `try` block reads the list (a missing or
      blank file, or raw text that is not JSON, reads as `[]`), the
      dictionary is appended, and the whole list is written back. */
  function SaveToFile(f: FileState, n: Note): (r: Result<FileState, StoreError>)
    ensures FailsOpen(f) ==> r == Ok(Valid(Arr([NoteDoc(n)])))
    ensures f.Valid? && f.doc.Arr? ==> r == Ok(Valid(Arr(f.doc.items + [NoteDoc(n)])))
    ensures r.Err? <==> f.Valid? && !f.doc.Arr?
  {
    var notes :=
      match f
      case Valid(doc) => doc
      case _ => Arr([]);
    if notes.Arr? then
      assert FailsOpen(f) ==> notes.items + [NoteDoc(n)] == [NoteDoc(n)];
      Ok(Valid(Arr(notes.items + [NoteDoc(n)])))
    else Err(NotAList)
  }

  /** `save_labels(labels)`: the file is overwritten with the list, whatever it held. */
  function SaveLabels(labels: seq<Value>): (f: FileState)
    ensures f.Valid? && f.doc == Arr(labels)
  {
    Valid(Arr(labels))
  }

  /** `load_labels()`: the decoded stripped text, or `[]` on every failure. */
  function LoadLabels(f: FileState): (r: Value)
    ensures f.Missing? || f.Blank? || f.Malformed? ==> r == Arr([])
    ensures DecodesStripped(f) ==> r == f.doc
  {
    match f
    case Valid(doc) => doc
    case PaddedJson(doc) => doc
    case _ => Arr([])
  }

  /** `load_notes()`: the decoded document, `[]` for a missing or blank
      file, but `JSONDecodeError` propagates for malformed text. */
  function LoadNotes(f: FileState): (r: Result<Value, StoreError>)
    ensures f.Missing? || f.Blank? ==> r == Ok(Arr([]))
    ensures DecodesStripped(f) ==> r == Ok(f.doc)
    ensures r.Err? <==> f.Malformed?
  {
    match f
    case Missing => Ok(Arr([]))
    case Blank => Ok(Arr([]))
    case Malformed => Err(JsonDecodeError)
    case PaddedJson(doc) => Ok(doc)
    case Valid(doc) => Ok(doc)
  }

  /** Missing, blank, or a list as raw JSON: the files a sequence of saves
      can extend without losing entries or failing. */
  predicate HoldsNoteList(f: FileState)
  {
    f.Missing? || f.Blank? || (f.Valid? && f.doc.Arr?)
  }

  /** The list `load_notes` yields from such a file. */
  function StoredItems(f: FileState): (xs: seq<Value>)
    requires HoldsNoteList(f)
    ensures LoadNotes(f) == Ok(Arr(xs))
  {
    if f.Valid? then f.doc.items else []
  }

  /** Saving a label list and loading it back gives exactly that list. */
  lemma LoadSavedLabels(labels: seq<Value>)
    ensures LoadLabels(SaveLabels(labels)) == Arr(labels)
  {
  }

  /** The read paths disagree on malformed text: `load_labels` and
      `save_to_file` carry on as if the file were empty, `load_notes` raises. */
  lemma MalformedAsymmetry(n: Note)
    ensures LoadLabels(Malformed) == Arr([])
    ensures SaveToFile(Malformed, n) == Ok(Valid(Arr([NoteDoc(n)])))
    ensures LoadNotes(Malformed) == Err(JsonDecodeError)
    ensures LoadNotes(SaveToFile(Malformed, n).value) == Ok(Arr([NoteDoc(n)]))
  {
  }

  /** Whitespace that `str.strip()` removes but JSON does not allow around a
      stored list (a trailing form feed, a leading no-break space) hides the
      list from `save_to_file` only: both loaders return it, but a save
      replaces it with a list of just the new note. */
  lemma PaddedListLostOnSave(xs: seq<Value>, n: Note)
    ensures LoadNotes(PaddedJson(Arr(xs))) == Ok(Arr(xs))
    ensures LoadLabels(PaddedJson(Arr(xs))) == Arr(xs)
    ensures SaveToFile(PaddedJson(Arr(xs)), n) == Ok(Valid(Arr([NoteDoc(n)])))
    ensures LoadNotes(SaveToFile(PaddedJson(Arr(xs)), n).value) == Ok(Arr([NoteDoc(n)]))
  {
  }

  /** `save_to_file` then `load_notes`: the earlier entries, in order, then the new one. */
  lemma LoadAfterSave(f: FileState, n: Note)
    requires HoldsNoteList(f)
    ensures SaveToFile(f, n).Ok?
    ensures HoldsNoteList(SaveToFile(f, n).value)
    ensures StoredItems(SaveToFile(f, n).value) == StoredItems(f) + [NoteDoc(n)]
  {
  }

  /** `save_to_file` called once per note, in order; stops at the first error. */
  function SaveAll(f: FileState, ns: seq<Note>): (r: Result<FileState, StoreError>)
    decreases |ns|
  {
    if ns == [] then Ok(f)
    else
      match SaveToFile(f, ns[0])
      case Err(e) => Err(e)
      case Ok(f') => SaveAll(f', ns[1..])
  }

  lemma ConcatAssoc<T>(a: seq<T>, b: seq<T>, c: seq<T>)
    ensures (a + b) + c == a + (b + c)
  {
  }

  /** One step of `SaveAll` on a file that holds a list. */
  lemma SaveAllStep(f: FileState, ns: seq<Note>)
    requires HoldsNoteList(f) && ns != []
    ensures SaveAll(f, ns) == SaveAll(Valid(Arr(StoredItems(f) + [NoteDoc(ns[0])])), ns[1..])
  {
    assert SaveToFile(f, ns[0]) == Ok(Valid(Arr(StoredItems(f) + [NoteDoc(ns[0])])));
  }

  /** Successive saves accumulate: after saving `ns` one by one, `load_notes`
      returns what was there followed by every note's dictionary in save order. */
  lemma {:induction false} SavesAccumulate(f: FileState, ns: seq<Note>)
    requires HoldsNoteList(f)
    ensures && SaveAll(f, ns).Ok?
            && HoldsNoteList(SaveAll(f, ns).value)
            && StoredItems(SaveAll(f, ns).value) == StoredItems(f) + NoteDocs(ns)
    decreases |ns|
  {
    if ns == [] {
      assert StoredItems(f) + NoteDocs(ns) == StoredItems(f);
    } else {
      var xs := StoredItems(f) + [NoteDoc(ns[0])];
      var f' := Valid(Arr(xs));
      SaveAllStep(f, ns);
      SavesAccumulate(f', ns[1..]);
      assert StoredItems(f') == xs;
      ConcatAssoc(StoredItems(f), [NoteDoc(ns[0])], NoteDocs(ns[1..]));
    }
  }

  /** Every note saved into a fresh store is read back: the `i`-th loaded
      entry decodes to the `i`-th saved note. */
  lemma SavedNotesDecode(ns: seq<Note>, today: IsoDate.Date)
    ensures SaveAll(Missing, ns).Ok? && HoldsNoteList(SaveAll(Missing, ns).value)
    ensures var xs := StoredItems(SaveAll(Missing, ns).value);
      && |xs| == |ns|
      && forall i :: 0 <= i < |ns| ==> xs[i].Obj? && FromDict(xs[i].fields, today) == Ok(ns[i])
  {
    SavesAccumulate(Missing, ns);
    forall i | 0 <= i < |ns|
      ensures NoteDocs(ns)[i] == NoteDoc(ns[i])
      ensures FromDict(ToDict(ns[i]), today) == Ok(ns[i])
    {
      NoteDocsAt(ns, i);
      FromDictToDict(ns[i], today);
    }
  }

  /** One save into a fresh file stores one entry with the note's content;
      a second save adds a second entry after it. */
  lemma OneThenTwoSaves(a: Note, b: Note)
    ensures SaveToFile(Missing, a).Ok? && HoldsNoteList(SaveToFile(Missing, a).value)
    ensures var xs := StoredItems(SaveToFile(Missing, a).value);
      |xs| == 1 && xs[0].Obj? && xs[0].fields["content"] == a.content
    ensures SaveAll(Missing, [a, b]).Ok? && HoldsNoteList(SaveAll(Missing, [a, b]).value)
    ensures StoredItems(SaveAll(Missing, [a, b]).value) == [NoteDoc(a), NoteDoc(b)]
  {
    SavesAccumulate(Missing, [a, b]);
  }
}
