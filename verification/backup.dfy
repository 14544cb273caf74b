/** The backup codec: the export file name and outcome, the envelope the
    note store persists, and the validation and coercion applied to an
    imported file once it has been parsed. */
module Backup {
  import opened Wrappers
  import opened Notes
  import opened Json
  import Seqs

  datatype ImportError =
    | ParseFailed                      // `JSON.parse` threw; re-thrown as is
    | PropertyOfNullish(e: TypeError)  // a property was read from `null` or `undefined`
    | InvalidBackupFormat              // "Invalid backup file format"

  /** One entry of an import. `id`, `title` and `content` are copied
      without any check, so they are whatever JSON value the file held. */
  datatype ImportedNote = ImportedNote(
    id: Json,
    title: Json,
    content: Json,
    tags: seq<Json>,
    createdAt: Timestamp,
    updatedAt: Timestamp,
    isFavorite: bool)

  // ---------------------------------------------------------------- export

  /** The text before the first `T` (`s.split('T')[0]`), the whole string when there is none. */
  function DatePart(iso: string): (r: string)
    ensures 'T' !in r
    ensures |r| <= |iso| && r == iso[..|r|]
    ensures |r| == |iso| || iso[|r|] == 'T'
  {
    iso[..Seqs.IndexOf(iso, 'T')]
  }

  const FilePrefix: string := "notes_backup_"
  const FileSuffix: string := ".json"

  /** The export file name, built from the current time as an ISO string. */
  function BackupFileName(iso: string): (r: string)
    ensures |r| >= |FilePrefix| + |FileSuffix|
    ensures r[..|FilePrefix|] == FilePrefix && r[|r| - |FileSuffix|..] == FileSuffix
    ensures var stamp := r[|FilePrefix|..|r| - |FileSuffix|];
            && 'T' !in stamp && |stamp| <= |iso| && stamp == iso[..|stamp|]
            && (|stamp| == |iso| || iso[|stamp|] == 'T')
  {
    var d := DatePart(iso);
    var r := FilePrefix + d + FileSuffix;
    assert r[|FilePrefix|..|r| - |FileSuffix|] == d;
    r
  }

  /** For an ISO string `yyyy-mm-ddThh:mm:ss.sssZ` the stamp is the calendar date. */
  lemma IsoDateStamp(iso: string)
    requires |iso| > 10 && iso[10] == 'T' && 'T' !in iso[..10]
    ensures BackupFileName(iso) == "notes_backup_" + iso[..10] + ".json"
  {
  }

  /** A note as the persist middleware writes it; dates become ISO strings. */
  function NoteToJson(n: Note, iso: Timestamp -> string): (r: Json)
    ensures r.Obj? && r.fields.Keys == {"id", "title", "content", "tags", "createdAt", "updatedAt", "isFavorite"}
    ensures Prop(r, "id") == Str(n.id) && Prop(r, "title") == Str(n.title) && Prop(r, "content") == Str(n.content)
    ensures var tags := Prop(r, "tags");
            tags.Arr? && |tags.items| == |n.tags| && forall i :: 0 <= i < |n.tags| ==> tags.items[i] == Str(n.tags[i])
    ensures Prop(r, "createdAt") == Str(iso(n.createdAt)) && Prop(r, "updatedAt") == Str(iso(n.updatedAt))
    ensures Prop(r, "isFavorite") == Bool(n.isFavorite)
  {
    Obj(map[
      "id" := Str(n.id),
      "title" := Str(n.title),
      "content" := Str(n.content),
      "tags" := Arr(seq(|n.tags|, i requires 0 <= i < |n.tags| => Str(n.tags[i]))),
      "createdAt" := Str(iso(n.createdAt)),
      "updatedAt" := Str(iso(n.updatedAt)),
      "isFavorite" := Bool(n.isFavorite)])
  }

  /** The blob stored under `note-storage`: `{ state: { notes }, version: 0 }`. */
  function Persisted(notes: seq<Note>, iso: Timestamp -> string): (r: Json)
    ensures r.Obj? && r.fields.Keys == {"state", "version"}
    ensures Prop(r, "version") == Num(0.0)
    ensures var state := Prop(r, "state");
            state.Obj? && state.fields.Keys == {"notes"}
    ensures var items := Prop(Prop(r, "state"), "notes");
            && items.Arr? && |items.items| == |notes|
            && forall i :: 0 <= i < |notes| ==> items.items[i] == NoteToJson(notes[i], iso)
  {
    Obj(map[
      "state" := Obj(map["notes" := Arr(seq(|notes|, i requires 0 <= i < |notes| => NoteToJson(notes[i], iso)))]),
      "version" := Num(0.0)])
  }

  datatype ExportError = NoNotesFound | StoredDataUnreadable | SharingUnavailable

  /** The file the export writes: its path and the JSON it holds. */
  datatype BackupFile = BackupFile(path: string, body: Json)

  /** The effect of one export: the file written, if any, and what the
      call returns (`Success` means the file was handed to the share sheet). */
  datatype ExportRun = ExportRun(written: Option<BackupFile>, outcome: Result<BackupFile, ExportError>)

  /** `exportNotes`, given what storage holds, the current time as an ISO
      string, the documents directory and whether sharing is available. */
  function ExportNotes(stored: Option<Stored>, isoNow: string, dir: string, sharingAvailable: bool)
    : (r: ExportRun)
    ensures (stored == None || stored.value.text == "") ==> r == ExportRun(None, Failure(NoNotesFound))
    ensures r.written.Some? <==> stored.Some? && stored.value.text != "" && stored.value.parsed.Parsed?
    ensures r.written.Some? ==>
              r.written.value == BackupFile(dir + BackupFileName(isoNow), stored.value.parsed.value)
    ensures r.outcome.Success? <==> r.written.Some? && sharingAvailable
    ensures r.outcome.Success? ==> r.outcome.value == r.written.value
    ensures r.written.Some? && !sharingAvailable ==> r.outcome == Failure(SharingUnavailable)
  {
    if stored == None || stored.value.text == "" then
      ExportRun(None, Failure(NoNotesFound))
    else if stored.value.parsed.SyntaxError? then
      ExportRun(None, Failure(StoredDataUnreadable))
    else
      var file := BackupFile(dir + BackupFileName(isoNow), stored.value.parsed.value);
      if sharingAvailable then ExportRun(Some(file), Success(file))
      else ExportRun(Some(file), Failure(SharingUnavailable))
  }

  // ---------------------------------------------------------------- import

  /** The envelope check: `data.state` is truthy and `data.state.notes` is an array. */
  predicate HasEnvelope(data: Json) {
    && !IsNullish(data)
    && Truthy(Prop(data, "state"))
    && Prop(Prop(data, "state"), "notes").Arr?
  }

  /** The coercion applied to one entry of `data.state.notes`. */
  function CoerceNote(v: Json, toDate: Json -> Timestamp): (r: Result<ImportedNote, ImportError>)
    ensures r.Failure? <==> IsNullish(v)
    ensures r.Failure? ==> r.error == PropertyOfNullish(CannotReadProperty("id"))
    ensures r.Success? ==>
              && r.value.id == Prop(v, "id")
              && r.value.title == Prop(v, "title")
              && r.value.content == Prop(v, "content")
              && r.value.createdAt == toDate(Prop(v, "createdAt"))
              && r.value.updatedAt == toDate(Prop(v, "updatedAt"))
    ensures r.Success? ==> (r.value.tags == if Prop(v, "tags").Arr? then Prop(v, "tags").items else [])
    ensures r.Success? ==> (r.value.isFavorite <==> Truthy(Prop(v, "isFavorite")))
  {
    match Get(v, "id")
    case Failure(e) => Failure(PropertyOfNullish(e))
    case Success(id) =>
      var tags := Prop(v, "tags");
      Success(ImportedNote(
        id,
        Prop(v, "title"),
        Prop(v, "content"),
        if tags.Arr? then tags.items else [],
        toDate(Prop(v, "createdAt")),
        toDate(Prop(v, "updatedAt")),
        Truthy(Prop(v, "isFavorite"))))
  }

  /** `notes.map(coerce)`: all entries coerced in order, or the first failure. */
  function CoerceAll(items: seq<Json>, toDate: Json -> Timestamp): (r: Result<seq<ImportedNote>, ImportError>)
    ensures r.Success? <==> forall i :: 0 <= i < |items| ==> !IsNullish(items[i])
    ensures r.Failure? ==> r.error == PropertyOfNullish(CannotReadProperty("id"))
    ensures r.Success? ==> |r.value| == |items|
    ensures r.Success? ==> forall i :: 0 <= i < |items| ==> Success(r.value[i]) == CoerceNote(items[i], toDate)
    decreases |items|
  {
    if items == [] then Success([])
    else
      match CoerceNote(items[0], toDate)
      case Failure(e) => Failure(e)
      case Success(n) =>
        match CoerceAll(items[1..], toDate)
        case Failure(e) => Failure(e)
        case Success(rest) => Success([n] + rest)
  }

  /** `importNotes` after the file has been read and parsed. */
  function ImportNotes(file: ParseOutcome, toDate: Json -> Timestamp): (r: Result<seq<ImportedNote>, ImportError>)
    ensures file.SyntaxError? ==> r == Failure(ParseFailed)
    ensures file.Parsed? && IsNullish(file.value) ==> r == Failure(PropertyOfNullish(CannotReadProperty("state")))
    ensures file.Parsed? && !IsNullish(file.value) && !HasEnvelope(file.value) ==> r == Failure(InvalidBackupFormat)
    ensures r.Success? ==> file.Parsed? && HasEnvelope(file.value)
    ensures file.Parsed? && HasEnvelope(file.value) ==>
              var items := Prop(Prop(file.value, "state"), "notes").items;
              r == CoerceAll(items, toDate)
  {
    match file
    case SyntaxError => Failure(ParseFailed)
    case Parsed(data) =>
      match Get(data, "state")
      case Failure(e) => Failure(PropertyOfNullish(e))
      case Success(state) =>
        if !Truthy(state) then Failure(InvalidBackupFormat)
        else
          var notes := Prop(state, "notes");
          if !notes.Arr? then Failure(InvalidBackupFormat)
          else CoerceAll(notes.items, toDate)
  }

  /** The typed note an imported entry stands for, when its fields have the types `Note` declares. */
  function ToNote(m: ImportedNote): (r: Option<Note>)
    ensures r.Some? <==> m.id.Str? && m.title.Str? && m.content.Str? && forall i :: 0 <= i < |m.tags| ==> m.tags[i].Str?
    ensures r.Some? ==>
              && Str(r.value.id) == m.id && Str(r.value.title) == m.title && Str(r.value.content) == m.content
              && |r.value.tags| == |m.tags| && (forall i :: 0 <= i < |m.tags| ==> Str(r.value.tags[i]) == m.tags[i])
              && r.value.createdAt == m.createdAt && r.value.updatedAt == m.updatedAt
              && r.value.isFavorite == m.isFavorite
  {
    if m.id.Str? && m.title.Str? && m.content.Str? && forall i :: 0 <= i < |m.tags| ==> m.tags[i].Str? then
      Some(Note(m.id.s, m.title.s, m.content.s,
                seq(|m.tags|, i requires 0 <= i < |m.tags| => m.tags[i].s),
                m.createdAt, m.updatedAt, m.isFavorite))
    else None
  }

  /** One note survives being written by the persist middleware and coerced back. */
  lemma NoteRoundTrip(n: Note, iso: Timestamp -> string, toDate: Json -> Timestamp)
    requires forall t :: toDate(Str(iso(t))) == t
    ensures CoerceNote(NoteToJson(n, iso), toDate).Success?
    ensures ToNote(CoerceNote(NoteToJson(n, iso), toDate).value) == Some(n)
  {
    var v := NoteToJson(n, iso);
    var m := CoerceNote(v, toDate).value;
    var tags := seq(|n.tags|, i requires 0 <= i < |n.tags| => Str(n.tags[i]));
    assert Prop(v, "tags") == Arr(tags);
    assert m.tags == tags;
    assert m.id == Str(n.id) && m.title == Str(n.title) && m.content == Str(n.content);
    assert m.createdAt == n.createdAt && m.updatedAt == n.updatedAt;
    assert m.isFavorite == n.isFavorite;
    assert ToNote(m).value.tags == n.tags;
  }

  /** Importing the envelope the store persists gives back every note, in
      order, provided date parsing inverts date formatting. */
  lemma PersistedRoundTrip(notes: seq<Note>, iso: Timestamp -> string, toDate: Json -> Timestamp)
    requires forall t :: toDate(Str(iso(t))) == t
    ensures var r := ImportNotes(Parsed(Persisted(notes, iso)), toDate);
            && r.Success?
            && |r.value| == |notes|
            && forall i :: 0 <= i < |notes| ==> ToNote(r.value[i]) == Some(notes[i])
  {
    var data := Persisted(notes, iso);
    var items := seq(|notes|, i requires 0 <= i < |notes| => NoteToJson(notes[i], iso));
    assert Prop(Prop(data, "state"), "notes") == Arr(items);
    assert HasEnvelope(data);
    forall i | 0 <= i < |items|
      ensures !IsNullish(items[i])
    {
    }
    var r := CoerceAll(items, toDate);
    forall i | 0 <= i < |notes|
      ensures ToNote(r.value[i]) == Some(notes[i])
    {
      NoteRoundTrip(notes[i], iso, toDate);
    }
  }

  /** Exporting the persisted collection and importing the file gives the collection back. */
  lemma ExportImportRoundTrip(notes: seq<Note>, text: string, isoNow: string, dir: string,
                              iso: Timestamp -> string, toDate: Json -> Timestamp)
    requires text != ""
    requires forall t :: toDate(Str(iso(t))) == t
    ensures var run := ExportNotes(Some(Stored(text, Parsed(Persisted(notes, iso)))), isoNow, dir, true);
            && run.outcome.Success?
            && var r := ImportNotes(Parsed(run.outcome.value.body), toDate);
            && r.Success?
            && |r.value| == |notes|
            && forall i :: 0 <= i < |notes| ==> ToNote(r.value[i]) == Some(notes[i])
  {
    PersistedRoundTrip(notes, iso, toDate);
  }

  /** A file whose top level lacks `state` is rejected. */
  lemma MissingStateRejected(toDate: Json -> Timestamp)
    ensures ImportNotes(Parsed(Obj(map["not_state" := Bool(true)])), toDate) == Failure(InvalidBackupFormat)
  {
  }

  /** A top-level `null` fails with the `TypeError` of reading `state`. */
  lemma NullTopLevelRejected(toDate: Json -> Timestamp)
    ensures ImportNotes(Parsed(Null), toDate) == Failure(PropertyOfNullish(CannotReadProperty("state")))
  {
  }

  /** A `null` entry anywhere in the notes array fails the whole import
      with the `TypeError` of reading its `id`. */
  lemma NullEntryRejected(items: seq<Json>, k: nat, toDate: Json -> Timestamp)
    requires k < |items| && items[k] == Null
    ensures ImportNotes(Parsed(Obj(map["state" := Obj(map["notes" := Arr(items)])])), toDate)
            == Failure(PropertyOfNullish(CannotReadProperty("id")))
  {
    var data := Obj(map["state" := Obj(map["notes" := Arr(items)])]);
    assert HasEnvelope(data);
  }

  /** Non-array tags become `[]`, and a non-empty string counts as a favourite. */
  lemma LooseEntryCoerced(toDate: Json -> Timestamp)
    ensures var entry := Obj(map["id" := Str("1"), "title" := Str("T"), "content" := Str(""),
                                 "tags" := Str("not-an-array"), "isFavorite" := Str("yes")]);
            var r := ImportNotes(Parsed(Obj(map["state" := Obj(map["notes" := Arr([entry])])])), toDate);
            && r.Success? && |r.value| == 1
            && r.value[0].tags == [] && r.value[0].isFavorite
            && r.value[0].id == Str("1")
  {
    var entry := Obj(map["id" := Str("1"), "title" := Str("T"), "content" := Str(""),
                         "tags" := Str("not-an-array"), "isFavorite" := Str("yes")]);
    var data := Obj(map["state" := Obj(map["notes" := Arr([entry])])]);
    assert HasEnvelope(data);
    assert Prop(entry, "tags") == Str("not-an-array");
    assert Truthy(Prop(entry, "isFavorite"));
  }
}
