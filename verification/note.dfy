/** The `Note` record of note.py and its dictionary form. */
module NoteRecord {
  import opened Wrappers
  import opened Json
  import opened IsoDate

  /** A note. Python stores whatever the caller passes for every field but
      the date, so those fields are JSON values; `Null` stands for `None`.
      The source's `label` field is `noteLabel` here, `label` being a Dafny keyword. */
  datatype Note = Note(content: Value, noteLabel: Value, character: Value, date: Date, order: Value)

  /** Why `Note.from_dict` raises. */
  datatype DecodeError =
    | DateNotText            // a truthy `date` that is not a string: `TypeError`
    | DateNotIso(text: string) // a non-empty string that is not a date: `ValueError`
    | MissingContent         // no `content` key: `KeyError`

  /** The keys of the dictionary form. */
  const NoteKeys: set<string> := {"content", "label", "character", "date", "order"}

  /** `Note(content, label, character, date, order)`, with the clock reading
      `today` passed in: a supplied date is kept, a missing one becomes today. */
  function NewNote(content: Value, noteLabel: Value, character: Value, date: Option<Date>, order: Value, today: Date): (n: Note)
    ensures n.content == content && n.noteLabel == noteLabel && n.character == character && n.order == order
    ensures date.Some? ==> n.date == date.value
    ensures date.None? ==> n.date == today
  {
    Note(content, noteLabel, character, if date.Some? then date.value else today, order)
  }

  /** `Note.to_dict()`: exactly the five keys, the date written as ISO text. */
  function ToDict(n: Note): (d: map<string, Value>)
    ensures d.Keys == NoteKeys
    ensures d["date"] == Str(Format(n.date))
    ensures d["content"] == n.content && d["label"] == n.noteLabel
    ensures d["character"] == n.character && d["order"] == n.order
  {
    map["content" := n.content, "label" := n.noteLabel, "character" := n.character,
        "date" := Str(Format(n.date)), "order" := n.order]
  }

  /** Lines 25-26 of `Note.from_dict`: the date a stored `date` value stands for.
      A falsy value (absent, `None`, `""`, ...) means today; a truthy value
      must be ISO text. */
  function DecodeDate(v: Value, today: Date): (r: Result<Date, DecodeError>)
    ensures !Truthy(v) ==> r == Ok(today)
    ensures Truthy(v) && !v.Str? ==> r == Err(DateNotText)
    ensures v.Str? && v.s != "" ==> (r.Ok? <==> Parse(v.s).Some?)
    ensures r.Ok? && Truthy(v) ==> v.Str? && Format(r.value) == v.s
  {
    if !Truthy(v) then Ok(today)
    else if !v.Str? then Err(DateNotText)
    else
      match Parse(v.s)
      case None => Err(DateNotIso(v.s))
      case Some(d) => FormatParse(v.s); Ok(d)
  }

  /** `Note.from_dict(d)`: the date is decoded first, then `content` is
      required and the other fields default to `None`. */
  function FromDict(d: map<string, Value>, today: Date): (r: Result<Note, DecodeError>)
    ensures "content" !in d ==> r.Err?
    ensures r.Ok? <==> "content" in d && DecodeDate(Lookup(d, "date"), today).Ok?
    ensures r.Ok? ==> && r.value.content == d["content"]
                      && r.value.noteLabel == Lookup(d, "label")
                      && r.value.character == Lookup(d, "character")
                      && r.value.order == Lookup(d, "order")
    ensures r.Ok? && !Truthy(Lookup(d, "date")) ==> r.value.date == today
    ensures r.Ok? && Truthy(Lookup(d, "date")) ==> Format(r.value.date) == Lookup(d, "date").s
  {
    match DecodeDate(Lookup(d, "date"), today)
    case Err(e) => Err(e)
    case Ok(date) =>
      if "content" !in d then Err(MissingContent)
      else Ok(NewNote(d["content"], Lookup(d, "label"), Lookup(d, "character"), Some(date), Lookup(d, "order"), today))
  }

  /** Decoding the dictionary form of a note gives back the same note,
      whatever the clock reads. */
  lemma FromDictToDict(n: Note, today: Date)
    ensures FromDict(ToDict(n), today) == Ok(n)
  {
    ParseFormat(n.date);
  }

  /** The other direction: a dictionary holding exactly the five keys with a
      date in ISO text is re-encoded verbatim after decoding. */
  lemma ToDictFromDict(d: map<string, Value>, today: Date)
    requires d.Keys == NoteKeys
    requires d["date"].Str? && Parse(d["date"].s).Some?
    ensures FromDict(d, today).Ok?
    ensures ToDict(FromDict(d, today).value) == d
  {
  }

  /** Missing optional keys decode as `None`, and a missing or empty date as today. */
  lemma FromDictDefaults(d: map<string, Value>, today: Date)
    requires "content" in d
    requires "label" !in d && "character" !in d && "order" !in d
    requires "date" !in d || d["date"] == Str("")
    ensures FromDict(d, today) == Ok(Note(d["content"], Null, Null, today, Null))
  {
  }

  /** Whatever else the dictionary holds, an absent or falsy date decodes as today. */
  lemma FromDictDateDefault(d: map<string, Value>, today: Date)
    requires "content" in d
    requires "date" !in d || !Truthy(d["date"])
    ensures FromDict(d, today).Ok? && FromDict(d, today).value.date == today
  {
  }

  /** Whatever else the dictionary holds, an ISO date string decodes as the
      day it names. */
  lemma FromDictParsedDate(d: map<string, Value>, today: Date)
    requires "content" in d
    requires "date" in d && d["date"].Str? && Parse(d["date"].s).Some?
    ensures FromDict(d, today).Ok? && FromDict(d, today).value.date == Parse(d["date"].s).value
  {
  }

  /** A non-empty date string that is not an ISO date is an error, never today. */
  lemma FromDictRejectsBadDate(d: map<string, Value>, today: Date)
    requires "date" in d && d["date"].Str? && d["date"].s != ""
    requires Parse(d["date"].s).None?
    ensures FromDict(d, today) == Err(DateNotIso(d["date"].s))
  {
  }
}
