# Note-taking app core in Dafny

A model of the logic of a React Native note-taking app, with proofs about it. Every part is written as pure functions over immutable values:

- the **note store**: add, update, delete, toggle favourite and replace-all, each mapping the note list to the next note list;
- the **backup codec**: the export file name and outcome, the envelope the store persists, and the checks and coercions that import applies to a parsed file;
- the **note card**: `stripHtml` (tag removal, entity decoding, whitespace collapsing, trimming), the preview length and `...` cut, and the "two tags, then `+N`" chips;
- the **tag editor**: adding and removing tags on a list capped at three distinct entries;
- the **category views**: the distinct tag list in first-occurrence order, the selected flag of each chip, and the notes that carry a tag;
- the **theme store**: dark/light mode, following the system scheme, the palette derived from the mode, and the preference each transition saves.

The app reads the clock, generates ids, parses dates and performs storage and file I/O. The model takes all of these as arguments. Clock readings are `Timestamp`s, and the new note's id is the decimal rendering of one of them (`NoteStore.ClockId`). Parsing a date from JSON is a function `Json -> Timestamp`, and formatting one is a function `Timestamp -> string`. What storage holds is a `Stored` value: the text together with what `JSON.parse` makes of it. A write to storage is returned as a value (`ThemeStep.write`, `ExportRun.written`).

Modules: `Wrappers` (Option, Result), `Seqs` (filter, index-of, subsequences), `Text` (JavaScript whitespace and `trim`), `Notes` (the `Note` record and operation arguments), `NoteStore`, `Json` (parsed JSON values, truthiness, property reads), `Backup`, `Preview`, `TagInput`, `Categories`, `Theme`.

Where the model follows the code rather than what a reader might expect of a note store:

- `toggleFavorite` does not refresh `updatedAt`. `NoteStore.ToggleFavorite` states that the field is left as it was.
- The new note's id is `Date.now().toString()`. Two consecutive adds give their notes the same id exactly when the clock reads the same millisecond both times (`NoteStore.SameMillisecondCollides`). Ids stay unique only when each clock-derived id is fresh (`NoteStore.AddKeepsIdsUnique`).
- `updateNote` takes a `Partial<Note>`, so a patch may also change `id` and `createdAt`. `createdAt <= updatedAt` is kept only by patches that leave `createdAt` alone (`NoteStore.TransitionsKeepWellTimed`).
- Import does not check `id`, `title` or `content`: they are whatever JSON the file held. So `Backup.ImportedNote` keeps them as `Json`, and `Backup.ToNote` recovers a typed `Note` when the types fit.
- Reading a property of `null` throws. Import therefore fails when the file's top level is `null`, and also when any single entry of `notes` is `null`.

## Model

| member | source | states |
|---|---|---|
| `NoteStore.Decimal` | hooks/useNoteStore.ts:13 | a natural number is written as decimal digits that read back, most significant first, as the number itself, in standard form: no leading zero, and `0` alone for 0 |
| `NoteStore.ClockId` | hooks/useNoteStore.ts:13 | the id starts with `-` exactly for a negative reading and with `0` exactly for the reading 0; it has no leading zero, after the `-` or otherwise; and it reads back as the clock reading in milliseconds |
| `NoteStore.ClockIdInjective` | hooks/useNoteStore.ts:13 | two clock readings give the same id exactly when they are the same millisecond, because each id reads back as its reading |
| `NoteStore.AddNote` | hooks/useNoteStore.ts:10-17 | exactly one note is appended at the end; earlier notes are unchanged and in order; the new note's id is the decimal clock reading and both timestamps are the store's readings, whatever the draft carried |
| `NoteStore.Merge` | hooks/useNoteStore.ts:21 | each field present in the patch wins and each absent field is kept; `updatedAt` is always the new time, even if the patch carried one |
| `NoteStore.UpdateNote` | hooks/useNoteStore.ts:18-24 | length and order are kept; notes with another id are untouched; matching notes are merged with the patch; an unknown id leaves the list unchanged |
| `NoteStore.DeleteNote` | hooks/useNoteStore.ts:25-27 | the result holds exactly the notes whose id differs, with their multiplicities, as an order-preserving subsequence; an absent id is a no-op |
| `NoteStore.ToggleFavorite` | hooks/useNoteStore.ts:28-34 | only `isFavorite` of matching notes flips; `updatedAt` and every other field stay; other notes and an unknown id leave the list unchanged |
| `NoteStore.UpdateNotes` | hooks/useNoteStore.ts:35 | the collection becomes the given list verbatim |
| `NoteStore.ToggleTwice` | hooks/useNoteStore.ts:28-34 | toggling the same id twice gives back the original list |
| `NoteStore.UpdateIdempotent` | hooks/useNoteStore.ts:18-24 | repeating an update with the same patch and clock changes nothing more, when the patch does not move the note to another id |
| `NoteStore.UpdateTitleOnly` | hooks/useNoteStore.ts:21 | a title-only patch changes just the title and `updatedAt` of the matching notes |
| `NoteStore.AddKeepsIdsUnique` | hooks/useNoteStore.ts:10-17 | when the clock-derived id is not yet in use, adding keeps ids pairwise distinct |
| `NoteStore.SameMillisecondCollides` | hooks/useNoteStore.ts:10-17 | two consecutive adds give their notes the same id exactly when the clock reads the same millisecond for both, and then the ids are no longer unique |
| `NoteStore.DeleteAndToggleKeepIdsUnique` | hooks/useNoteStore.ts:25-34 | deleting and toggling never introduce a duplicate id |
| `NoteStore.TransitionsKeepWellTimed` | hooks/useNoteStore.ts:10-34 | `createdAt <= updatedAt` survives add (creation time not after update time), update (patch without `createdAt`, clock not before any creation) and toggle |
| `Json.Truthy` | services/backup.ts:64 | a value is falsy exactly when it is `undefined`, `null`, `false`, `0` or `""` |
| `Json.Get` | services/backup.ts:52 | reading a property fails exactly on `null` and `undefined`; otherwise it yields the object's own property or `undefined` |
| `Backup.DatePart` | services/backup.ts:19 | the text before the first `T`, or the whole string when there is none; it contains no `T` |
| `Backup.BackupFileName` | services/backup.ts:19 | the name is `notes_backup_`, then the ISO string up to its first `T`, then `.json` |
| `Backup.IsoDateStamp` | services/backup.ts:19 | for an ISO timestamp the stamp is its `yyyy-mm-dd` date |
| `Backup.ExportNotes` | services/backup.ts:6-41 | missing or empty storage fails with no file written, and so does stored text that does not parse; otherwise the stored JSON is written under the dated name in the documents directory; the call succeeds exactly when sharing is available; the file is written even when sharing is not |
| `Backup.CoerceNote` | services/backup.ts:57-65 | a `null` or `undefined` entry fails with the `TypeError` of reading `id`; otherwise `id`, `title` and `content` are copied; `tags` is the array or `[]`; `isFavorite` is the truthiness of the field; dates come from the date parser |
| `Backup.CoerceAll` | services/backup.ts:57-65 | it succeeds exactly when no entry is nullish, and otherwise fails with the `TypeError` of reading `id`; the output has the input's length and order, entry by entry |
| `Backup.ImportNotes` | services/backup.ts:43-72 | a parse failure is passed on; a `null` top level throws the `TypeError` of reading `state`; a falsy `state` or a non-array `state.notes` is an invalid format; otherwise the result is the entry-wise coercion, all or nothing |
| `Backup.ToNote` | types/index.ts:1-9 | an imported entry is a `Note` exactly when `id`, `title`, `content` and every tag are strings; then every field is carried over: the strings, the tags in order, both dates and the favourite flag |
| `Backup.NoteToJson` | hooks/useNoteStore.ts:37-40 | a persisted note is an object with exactly the seven `Note` keys: `id`, `title`, `content` as strings, `tags` as an array of the tags in order, the two dates as formatted strings, `isFavorite` as a boolean |
| `Backup.Persisted` | hooks/useNoteStore.ts:37-40 | the stored envelope has exactly the keys `state` and `version`; `version` is 0; `state` holds only `notes`, an array with one persisted entry per note, in order |
| `Backup.NoteRoundTrip` | services/backup.ts:57-65 | a note as the store persists it is coerced back to the same note |
| `Backup.PersistedRoundTrip` | services/backup.ts:52-67 | importing the store's persisted envelope gives back every note in order, provided date parsing inverts date formatting |
| `Backup.ExportImportRoundTrip` | services/backup.ts:6-67 | exporting the persisted collection and importing the file reproduces the collection |
| `Backup.MissingStateRejected` | services/backup.ts:52-54 | `{"not_state": true}` is an invalid format |
| `Backup.NullTopLevelRejected` | services/backup.ts:52 | a top-level `null` fails with the error of reading `state` |
| `Backup.NullEntryRejected` | services/backup.ts:57-65 | one `null` entry fails the whole import with the `TypeError` of reading its `id` |
| `Backup.LooseEntryCoerced` | services/backup.ts:58-64 | a string `tags` becomes `[]`, `"yes"` is a favourite, and the id is copied as is |
| `Text.TrimStart` | components/notes/TagInput.tsx:16 | the result is a suffix with no leading whitespace; everything dropped is whitespace |
| `Text.TrimEnd` | components/notes/TagInput.tsx:16 | the result is a prefix with no trailing whitespace; everything dropped is whitespace |
| `Text.Trim` | components/notes/TagInput.tsx:16 | the result is a slice of the input with no whitespace at either end, and only whitespace lies outside it |
| `Text.TrimTrimmed` | components/notes/NoteCard.tsx:37 | trimming a string with no whitespace at its ends changes nothing |
| `Preview.RemoveTags` | components/notes/NoteCard.tsx:23 | it never lengthens the text; text without `<` or without `>` is unchanged; no `<` in the output has a `>` after it |
| `Preview.RemoveTagsKeepsText` | components/notes/NoteCard.tsx:23 | text before the first `<` passes through unchanged |
| `Preview.RemoveTagsReplacesTag` | components/notes/NoteCard.tsx:23 | a closed tag becomes exactly one space, whatever it contains |
| `Preview.ReplaceAll` | components/notes/NoteCard.tsx:26-32 | text that does not contain the pattern's first character is unchanged; a replacement no longer than the pattern never lengthens the text |
| `Preview.ReplaceAllSkips` | components/notes/NoteCard.tsx:26-32 | text that cannot start the pattern is copied and scanning continues after it |
| `Preview.ReplaceAllHits` | components/notes/NoteCard.tsx:26-32 | an occurrence at the front is replaced, and scanning resumes after it without rescanning the replacement |
| `Preview.ReplaceAllMisses` | components/notes/NoteCard.tsx:26-32 | a first character that does not begin an occurrence is kept |
| `Preview.DecodeEntities` | components/notes/NoteCard.tsx:26-32 | text without `&` is unchanged |
| `Preview.PassSkipsEntity` | components/notes/NoteCard.tsx:26-32 | a pass for one entity leaves an occurrence of a different entity, in `&`-free text, alone |
| `Preview.PassDecodesEntity` | components/notes/NoteCard.tsx:26-32 | the pass for an entity turns its occurrence into the decoded character and leaves the text around it alone |
| `Preview.PassSkipsAmpersand` | components/notes/NoteCard.tsx:28-32 | a `&` produced by the `&amp;` pass starts no later entity when no `;` follows it |
| `Preview.DecodesNbsp` | components/notes/NoteCard.tsx:27 | for any `&`-free `x` and `y`, `x&nbsp;y` decodes to `x y` |
| `Preview.DecodesAmp` | components/notes/NoteCard.tsx:28 | for any `&`-free `x` and `y` where `y` has no `;`, `x&amp;y` decodes to `x&y` |
| `Preview.DecodesLt` | components/notes/NoteCard.tsx:29 | for any `&`-free `x` and `y`, `x&lt;y` decodes to `x<y` |
| `Preview.DecodesGt` | components/notes/NoteCard.tsx:30 | for any `&`-free `x` and `y`, `x&gt;y` decodes to `x>y` |
| `Preview.DecodesQuot` | components/notes/NoteCard.tsx:31 | for any `&`-free `x` and `y`, `x&quot;y` decodes to `x"y` |
| `Preview.DecodesApos` | components/notes/NoteCard.tsx:32 | for any `&`-free `x` and `y`, `x&#39;y` decodes to `x'y` |
| `Preview.DecodesDoubleEscapedLt` | components/notes/NoteCard.tsx:28-29 | for any `&`-free `x` and `y`, `x&amp;lt;y` decodes to `x<y`: the `&` the `&amp;` pass yields starts an entity that the `&lt;` pass then decodes |
| `Preview.Collapse` | components/notes/NoteCard.tsx:35-36 | the output has only plain spaces as whitespace, never two in a row; it is empty exactly when the input is; it starts with whitespace exactly when the input does; already-collapsed text is unchanged |
| `Preview.CollapseKeepsWord` | components/notes/NoteCard.tsx:36 | a run of non-whitespace characters at the front passes through unchanged, and collapsing continues after it |
| `Preview.CollapseRun` | components/notes/NoteCard.tsx:36 | a whole run of whitespace at the front, of any length and kind, becomes exactly one plain space |
| `Preview.VisibleCollapse` | components/notes/NoteCard.tsx:36 | collapsing keeps every non-whitespace character, in order |
| `Text.VisibleTrim` | components/notes/NoteCard.tsx:37 | trimming keeps every non-whitespace character, in order |
| `Preview.CollapsedSlice` | components/notes/NoteCard.tsx:35-37 | a slice of collapsed text is collapsed |
| `Preview.TrimKeepsCollapsed` | components/notes/NoteCard.tsx:35-37 | trimming collapsed text keeps it collapsed |
| `Preview.StripHtml` | components/notes/NoteCard.tsx:19-38 | empty input gives empty output; the output has no whitespace at either end, only single plain spaces inside; its non-whitespace characters are exactly those of the text after tag removal and entity decoding, in order |
| `Preview.StripHtmlPlainText` | components/notes/NoteCard.tsx:19-38 | for text with no `<` and no `&`, `stripHtml` only collapses and trims, and every non-whitespace character survives in order |
| `Preview.PlainTextUnchanged` | components/notes/NoteCard.tsx:19-38 | text with no `<`, no `&`, only single spaces and no space at either end is returned unchanged |
| `Preview.TidyTextFixed` | components/notes/NoteCard.tsx:35-37 | collapsing and trimming leave tidy text alone |
| `Preview.DecodesEscapedMarkup` | components/notes/NoteCard.tsx:26-32 | for any `&`-free `x`, `t` and `y`, `x&lt;t&gt;y` decodes to `x<t>y` |
| `Preview.EscapedMarkupKept` | components/notes/NoteCard.tsx:19-38 | for any `x`, `t` and `y` without `&`, `<` or whitespace, `x&lt;t&gt;y` yields the literal markup `x<t>y`: tags are removed before entities are decoded, so the decoded `<` and `>` are never taken for a tag |
| `Preview.EscapedTagKept` | components/notes/NoteCard.tsx:23-32 | `&lt;b&gt;` yields the literal text `<b>`, because tags are removed before entities are decoded |
| `Preview.AmpersandDecodedFirst` | components/notes/NoteCard.tsx:26-32 | `&amp;lt;` yields `<`, because `&amp;` is decoded before `&lt;` |
| `Preview.TagsBecomeSpaces` | components/notes/NoteCard.tsx:19-38 | for any single word `w` without `<`, `&` or whitespace, `<p>w</p>` yields `w`: the tags become spaces, which are trimmed away |
| `Preview.TagSeparatesWords` | components/notes/NoteCard.tsx:19-38 | for any two words `x` and `y` without `<`, `&` or whitespace and any tag body `t` without `>`, `x<t>y` yields `x y`: the tag leaves exactly one space between the words |
| `Preview.WhitespaceSeparatesWords` | components/notes/NoteCard.tsx:19-38 | for any two such words and any non-empty run `w` of whitespace of any kinds, `xwy` yields `x y`: the run leaves exactly one plain space between the words |
| `Preview.PreviewLimit` | components/notes/NoteCard.tsx:40 | the limit is 80 for a title longer than 30 characters and 120 otherwise |
| `Preview.PreviewText` | components/notes/NoteCard.tsx:40-44 | the preview is never longer than the limit plus 3; text within the limit is shown whole; longer text shows its first `limit` characters followed by `...` |
| `Preview.VisibleTags` | components/notes/NoteCard.tsx:102 | at most the first two tags are shown, in order |
| `Preview.MoreBadge` | components/notes/NoteCard.tsx:115-118 | the `+N` badge appears exactly when there are more than two tags, and shown plus hidden counts add up to all tags |
| `TagInput.AddTag` | components/notes/TagInput.tsx:15-21 | an accepted input (non-empty after trimming, fewer than 3 tags, not already present) is appended at the end and the input cleared; otherwise nothing changes |
| `TagInput.RemoveTag` | components/notes/TagInput.tsx:23-25 | every occurrence of the tag is dropped; every other tag keeps its multiplicity, and the rest keep their order; an absent tag changes nothing; the list never grows |
| `TagInput.AddKeepsValid` | components/notes/TagInput.tsx:17 | at most 3 distinct tags before an add means at most 3 distinct tags after it |
| `TagInput.RemoveKeepsValid` | components/notes/TagInput.tsx:24 | removing keeps the list at most 3 long and free of duplicates |
| `TagInput.AddedTagIsTidy` | components/notes/TagInput.tsx:16-18 | an added tag is non-empty and has no surrounding whitespace |
| `TagInput.RemoveUndoesAdd` | components/notes/TagInput.tsx:15-25 | removing the tag just added restores the tag list |
| `TagInput.RejectedAddIsNoop` | components/notes/TagInput.tsx:17-20 | an add rejected by any of the three rules leaves tags and input unchanged |
| `Categories.FlatTags` | components/categories/CategoryPicker.tsx:11 | a tag occurs in the flattened list exactly when some note carries it |
| `Seqs.Dedup` | components/categories/CategoryPicker.tsx:11 | `Array.from(new Set(s))` has no duplicates, holds exactly the elements of `s`, and orders them by first occurrence in `s` |
| `Seqs.DedupOfDistinct` | components/categories/CategoryPicker.tsx:11 | a sequence without duplicates comes back unchanged |
| `Categories.DistinctTags` | components/categories/CategoryPicker.tsx:11 | no duplicates; a tag is listed exactly when some note carries it; tags appear in the order of their first occurrence, notes in store order and each note's tags in order |
| `Categories.DistinctTagsOfDistinct` | components/categories/CategoryPicker.tsx:11 | when no tag repeats across the notes, the distinct list is the flattened list itself |
| `Categories.Chips` | components/categories/CategoryPicker.tsx:19-31 | one chip per tag in order, marked selected exactly when the tag is in the selected list |
| `Categories.NotesWithTag` | components/categories/CategoryList.tsx:11-13 | exactly the notes carrying the tag, compared by string equality, unmodified and with their multiplicities, as an order-preserving subsequence of the store |
| `Theme.GenerateColors` | hooks/useTheme.ts:45-101 | dark mode has background `#0A0A0F` and white text; light mode has background `#F8FAFC` and text `#0F172A` |
| `Theme.PalettesDiffer` | hooks/useTheme.ts:45-101 | two modes give the same palette exactly when they are the same mode |
| `Theme.PreferenceJson` | hooks/useTheme.ts:107-125 | the saved preference is an object with exactly the keys `isDark` and `isSystemTheme`, each holding the boolean it was given |
| `Theme.Initial` | hooks/useTheme.ts:103-106 | the store starts light, following the system, with the matching palette |
| `Theme.ToggleTheme` | hooks/useTheme.ts:107-118 | the mode flips, the system is no longer followed, the palette matches, and `{isDark: new mode, isSystemTheme: false}` is saved |
| `Theme.SetSystemTheme` | hooks/useTheme.ts:119-125 | only `isSystemTheme` changes, and the current mode is saved with the new value |
| `Theme.LoadPreference` | hooks/useTheme.ts:133-147 | nothing changes when no preference is stored, when it does not parse, or when it is `null`; otherwise mode = (saved system flag ? system scheme is dark : saved mode), with the matching palette |
| `Theme.SystemSchemeChanged` | hooks/useTheme.ts:151-159 | while the system is followed, the mode becomes "scheme is dark" with the matching palette; otherwise the state is unchanged |
| `Theme.TransitionsKeepCoherent` | hooks/useTheme.ts:107-159 | every transition keeps `colors == generateColors(isDark)` |
| `Theme.ToggleTwice` | hooks/useTheme.ts:107-118 | toggling twice restores mode and palette, and the system is no longer followed |
| `Theme.ToggleSurvivesReload` | hooks/useTheme.ts:107-147 | loading the preference a toggle saved restores the toggled state, whatever the system scheme |
| `Theme.SystemPreferenceFollowsScheme` | hooks/useTheme.ts:119-141 | after a saved `setSystemTheme(true)`, a reload follows the system scheme |

## Left out

- Device storage, file and share I/O are not modelled as effects. This covers AsyncStorage, the persist middleware, `FileSystem.readAsStringAsync`/`writeAsStringAsync` and `Sharing.shareAsync`. What storage holds is an argument, and writes are returned as values. Failures of these calls are not modelled: `AsyncStorage.getItem` in export, `FileSystem.readAsStringAsync` in import, the file write and the share sheet. Each would make the export or import reject.
- JSON text is not modelled: `JSON.parse` is an argument of type `ParseOutcome`, and the pretty-printed export text (`JSON.stringify(notes, null, 2)`) is represented by the JSON value it encodes.
- `new Date(...)`, `toISOString()` and the `date-fns` date shown on a card are library calls. They are passed in as functions or strings, and `Invalid Date` is whatever the date-parsing argument returns.
- `Json.Get`: only own properties of parsed objects are looked up. Inherited properties of the prototype chain are not modelled, and the keys the core reads are not among them.
- `NoteStore.Merge`: a patch key that is present but holds `undefined` is treated as absent, whereas the object spread in the source overwrites the field with `undefined`.
- `Theme.LoadPreference`: a saved `isDark`/`isSystemTheme` that is not a boolean is kept raw by the source, while the model stores its truthiness. The app itself only ever saves booleans (`toggleTheme` and `setSystemTheme` write `Preference` values), so a non-boolean flag needs a preference written outside the app. The raw value would otherwise reach the settings switch and the next saved preference.
- The ordering between the asynchronous preference load and the system-scheme effect is not modelled, because it depends on React's scheduling.
- Strings are sequences of Unicode scalar values. JavaScript's `.length` and `.slice` count UTF-16 code units, so for characters outside the Basic Multilingual Plane the preview limit counts differently, and the source's slice may split a surrogate pair.
- The `+N` badge is modelled as the number `N`, not as its text.
- Logging is not modelled: the `console.error` calls in the export and import catch blocks and in the theme preference load are side effects with no bearing on the results. Export and import re-throw after logging, which the model's `Failure` results represent; the theme load swallows the error, which the model represents as the unchanged state.
- Rendering, navigation, styles and the rich-text editor are not modelled: `components/ui/*`, `app/*`, `NoteEditor.tsx` and `RichTextEditor.tsx` only pass props through.
