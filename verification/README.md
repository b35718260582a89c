# dayone-to-obsidian: the entry pipeline of `splitfile.py`

The script turns a Day One journal export (a JSON document with an `entries`
array) into one Markdown file per entry, organised as
`<journal>/<year>/<year>-<month>/<title> <date>[ <letter>].md`. This project
models the per-entry loop of the script and `rename_media`, and proves what
each step does:

- **Zone resolution** (`Timezone`). A `timeZone` the zone database knows is
  used as it is. Otherwise the anchored, case-insensitive pattern
  `(UTC|GMT)([-+]\d{2,4})` is tried. Its signed group is read with `int()` and
  multiplied by 60 only when it is three characters long (a sign and two
  digits). If nothing matches, the local date is the creation date.
- **Body text** (`Sanitise`). Backslashes are removed from a real `text`
  (not from the configured default text). Then U+2028 becomes a newline and
  U+1C6A becomes two.
- **Moment references** (`Moments`, `Media`, `Entries.MediaPass`). For each
  media key present, in the order photos, audios, pdfAttachments, videos:
  every attachment file `root/<kind>/<md5>.<ext>` is renamed to
  `root/<kind>/<identifier>.<ext>`. Then every `![](dayone-moment…/ID)`
  reference of that kind is replaced by the processor's callback,
  left to right and without overlap.
- **Document** (`Document`). The front matter is `---`, `date:`, an optional
  `weather:` line, an optional `tags:` line, `locations: ` and `---`. Then
  come the body (unless the text stage raised), the separator `\n\n---\n`
  and the location line (unless it is empty).
- **File name** (`FileNames`). The base name is used if it is free.
  Otherwise the first free `"<title> <date> <c>.md"` is used, with `c` taken
  from `a` onwards.

The file system is a finite set of paths. The foreign code the loop calls is
passed in as the function-valued fields of `Entries.Env`: pytz's zone
database, `astimezone`, `strftime`, the `EntryProcessor` helpers and the
processors' `replace_entry_id_with_info` callbacks. The settings file is
`Entries.Config`.

Points where the code does something other than one might expect, and the model follows the code:

- `UTC+0100` resolves to 100 minutes, not 60, although the comment at
  `splitfile.py:80` promises to interpret such names correctly. A three- or
  four-digit offset is never split into hours and minutes
  (`Timezone.FourDigitOffsetExample`).
- `rename_media` does not check the destination. An existing destination is
  replaced, as `os.rename` does on POSIX; it is not skipped.
- A missing `md5`, a missing `type` on a photo, PDF or video (the audio
  loop never reads `type`), or a missing `identifier` when the hash-named
  file exists raises `KeyError` inside the text stage's `try` block. So it
  is not fatal. An attachment without `identifier` whose hash-named file is
  absent, as on every run after the first, raises nothing. When the error
  is raised, the entry is still written without its body, and the renames done before the
  error stay on disk. In the model, only an offset that pytz refuses is
  fatal (`pytz.FixedOffset` raises `ValueError` for a whole day or more,
  outside any handler); the other exceptions raised outside the `try` block
  are listed under "Left out".
- The default text is separator-normalised as well, so an entry without
  `text` gets the normalised default, not the raw placeholder.

## Model

| member | source | states |
|---|---|---|
| Media.RenameMedia | splitfile.py:20-25 | missing `md5` raises; absent source leaves the file set unchanged; present source with missing `identifier` raises; otherwise the identifier path is present, the hash path is gone (unless both are the same path), every other path is unchanged, the file count never grows and nothing outside the kind's folder changes |
| Media.RenameMediaIdempotent | splitfile.py:20-25 | repeating a successful rename leaves the file set as the first rename left it |
| Media.AudioIgnoresType | splitfile.py:146-150 | two audio lists that agree on every hash and identifier rename the same files and stop at the same attachment, whatever their `type` keys hold, missing ones included |
| Media.MissingTypeStops | splitfile.py:136-139 | for photos, PDFs and videos, an attachment without `type` stops the loop with a `KeyError` before any file is touched |
| Media.RenameAll | splitfile.py:137-139 | renaming a list in order never grows the file set and touches nothing outside the kind's folder; if no `KeyError` stopped it, every attachment had an extension and an `md5` |
| Media.RenameAllOne | splitfile.py:137-139 | the loop over one attachment is its rename with the kind's extension: a missing `type` or the rename's `KeyError` stops it with the file set unchanged, otherwise the rename's file set results |
| Media.RenameAllAppend | splitfile.py:137-139 | the loop over a concatenation is the loop over the first part, then, unless that raised, the loop over the rest from the file set it left |
| Media.WellFormedListCompletes | splitfile.py:137-139 | a list whose attachments all carry the keys the loop reads never raises |
| Media.WellFormedOneRenames | splitfile.py:20-25 | a well-formed attachment whose hash-named file exists ends up at its identifier name, and the hash-named file is gone unless the two names coincide |
| Timezone.ParseOffset | splitfile.py:81-83 | an offset is produced exactly when the string starts, case-insensitively, with UTC or GMT, a sign and two ASCII digits |
| Timezone.TwoDigitOffsetIsHours | splitfile.py:81-83 | a sign and exactly two digits (then no further digit) give sign × value × 60 minutes, whatever follows |
| Timezone.LongOffsetIsLiteralMinutes | splitfile.py:81-83 | a sign and three or four digits give sign × value minutes, unscaled; characters after the fourth digit are ignored |
| Timezone.HourOffsetExamples | splitfile.py:80-83 | `GMT-05` gives -300 and `utc+05:30` gives 300 |
| Timezone.FourDigitOffsetExample | splitfile.py:80-83 | `UTC+0100` gives 100 minutes, not the 60 the comment's "correctly" suggests |
| Timezone.ThreeDigitOffsetExample | splitfile.py:80-83 | `Gmt+530` gives 530 minutes |
| Timezone.NonOffsetExamples | splitfile.py:80-83 | `UTC+5` and `CET` give no offset |
| Timezone.ResolveZone | splitfile.py:75-86 | a known name resolves to that named zone; an unknown name without the pattern resolves to no zone without error; a parsed offset resolves to that fixed zone exactly when it is less than a day in magnitude, and raises otherwise |
| Timezone.LocalDate | splitfile.py:87 | the instant never changes; with no zone the local date is the creation date; otherwise the offset is the fixed zone's or the named zone's at that instant |
| Timezone.UnknownZoneFallsBack | splitfile.py:79-87 | a string that is neither a known zone nor an offset string raises nothing and leaves the local date equal to the creation date |
| Sanitise.Replace | splitfile.py:125-129 | after replacing a character by a text not containing it, the character is gone; a text without it is unchanged; every other character not in the replacement keeps its count |
| Sanitise.ReplaceDistributes | splitfile.py:125-129 | replacement distributes over concatenation, so the untouched characters keep their order |
| Sanitise.Normalise | splitfile.py:128-129 | the result contains neither U+2028 nor U+1C6A, and every character other than those two and the newline keeps its count |
| Sanitise.NormaliseDistributes | splitfile.py:128-129 | normalisation distributes over concatenation |
| Sanitise.NormaliseCharacter | splitfile.py:128-129 | U+2028 becomes one newline, U+1C6A two, any other character stays itself |
| Sanitise.SanitiseBody | splitfile.py:124-129 | the body has no U+2028 or U+1C6A; with `text` present it has no backslash and every other ordinary character keeps its count; with `text` absent it keeps the default text's backslashes |
| Sanitise.CleanTextKept | splitfile.py:124-129 | real text without backslashes or separators is kept exactly |
| Sanitise.SanitiseIdempotent | splitfile.py:124-129 | sanitising an already sanitised body of real text changes nothing |
| Moments.MatchAt | splitfile.py:142-144 | a match found is a non-empty upper-case hex identifier, and the text starts with prefix, identifier and `)` over exactly the match length |
| Moments.MatchAtComplete | splitfile.py:142-144 | whenever the text starts with prefix, a non-empty hex identifier and `)`, that identifier is the match |
| Moments.SubstituteWithoutReference | splitfile.py:142-171 | a text with no reference is returned unchanged, whatever the callback |
| Moments.SubstituteVerbatimIsIdentity | splitfile.py:142-171 | every text is returned unchanged when the callback gives each reference back verbatim |
| Moments.SubstituteReplacesReference | splitfile.py:142-144 | a reference at the start becomes the callback's text for its identifier, and scanning resumes after its `)` |
| Moments.SubstituteCopiesPlainText | splitfile.py:142-144 | a stretch of text in which no position starts a reference is copied verbatim |
| Moments.PhotoReferenceExample | splitfile.py:142-144 | the body `![](dayone-moment://ABC123)` becomes exactly the callback's text for `ABC123` |
| Document.FrontMatter | splitfile.py:95-109 | the block starts with `---`, the date line and ends with `locations: ` and `---`; a weather line follows the date line exactly when the weather is non-empty, and a tags line follows the date and weather lines exactly when the tags are non-empty |
| Document.BareFrontMatter | splitfile.py:95-109 | without weather or tags the block is the date line followed directly by `locations: ` and `---` |
| Document.FrontMatterRoundTrip | splitfile.py:95-109 | the date, weather and tags can be read back from the block, and whatever follows the block is untouched; as the reader refuses an empty `weather:` or `tags:` line, each line is present exactly when its value is non-empty |
| Document.EmptyTagsLineRefused | splitfile.py:101-103 | a block with an empty `tags:` line does not read back, so no block the loop writes has one |
| Document.Fragments | splitfile.py:111-187 | the fragments start with the front matter, then the body when there is one; the last is the location, preceded by the separator, or the separator when the location is empty |
| Document.ConcatAppend | splitfile.py:220-222 | writing two lists of fragments in turn gives the text of their concatenation, so the file holds every fragment once and in order |
| Document.DocumentLayout | splitfile.py:111-187 | the written text is front matter, body (empty when the text stage raised), separator and location; the location fragment is there exactly when the location is non-empty |
| FileNames.TakenCandidatesBound | splitfile.py:214-218 | at most as many suffixed names can be taken as there are files, so the suffix search ends |
| FileNames.TakenCandidatesInDir | splitfile.py:214-218 | the suffixed names all lie in the month folder, so only the files there can take them and the search ends within that many steps |
| FileNames.FirstFreeSuffix | splitfile.py:214-218 | the search from a suffix returns a free name, having passed only taken names |
| FileNames.ChooseSuffix | splitfile.py:209-218 | no suffix exactly when the base name is free; otherwise the smallest code from `a` whose name is free, all smaller ones being taken |
| FileNames.TargetPath | splitfile.py:209-218 | the chosen path is not an existing file and lies in the month folder; only the number of files in that folder is bounded |
| FileNames.TargetPathLocal | splitfile.py:209-218 | the chosen path depends only on the files in the month folder, not on files elsewhere |
| FileNames.FreeBaseNameIsUsed | splitfile.py:209-212 | a free base name `<title> <date>.md` is used |
| FileNames.SecondEntryGetsSuffixA | splitfile.py:212-215 | with the base name taken and the `a` name free, `<title> <date> a.md` is used |
| Entries.MediaPass | splitfile.py:131-144 | an absent media key skips the pass; a present key runs that kind's rename loop, whose file set the pass leaves, and the pass completes exactly when the loop raised nothing, rewriting exactly that kind's references; the file count never grows and nothing outside the attachment folders changes |
| Entries.MediaPasses | splitfile.py:131-171 | after an exception nothing more happens; with none of the keys present nothing changes; files outside the attachment folders are untouched |
| Entries.TextStage | splitfile.py:123-178 | only attachment keys can make the stage raise; an entry without attachment keys gets its sanitised text and leaves the disk alone |
| Entries.MediaPassesComplete | splitfile.py:131-171 | with well-formed attachments, the passes complete: the file set is every present kind's rename loop in turn, and the text is every present kind's substitution in turn, in the given order |
| Entries.TextStageComplete | splitfile.py:123-178 | an entry with well-formed attachments gets its attachment files renamed kind by kind and its sanitised text with photo, audio, PDF and video references rewritten, in that order |
| Entries.PhotosOnly | splitfile.py:131-171 | with only the `photos` key present, only photo references are rewritten and only the photo loop runs |
| Entries.PhotoEntryExample | splitfile.py:123-173 | an entry whose body is the reference to `ABC123`, with a photo of identifier `ABC123`, gets the photo processor's replacement for `ABC123` as its body, and the photo's hash-named file, if present, is renamed to `ABC123`: that file is present afterwards and the hash-named one is gone unless the hash is `ABC123` |
| Entries.LocalDateOfRefuses | splitfile.py:75-87 | the zone step fails exactly when the name is unknown, matches the offset pattern and gives a day or more; a local date keeps the creation instant |
| Entries.MonthDir | splitfile.py:196-197 | the month folder lies in the journal folder |
| Entries.JournalFilesOutsideMedia | splitfile.py:40-46 | when the journal folder and the attachment folders do not contain one another, no file in the journal folder is an attachment file |
| Entries.TextStageKeepsJournal | splitfile.py:123-178 | the text stage leaves the journal folder's files as they were |
| Entries.TextStageKeepsMonth | splitfile.py:123-178 | the text stage leaves the month folder's files as they were |
| Entries.EntryDocument | splitfile.py:95-187 | the document is the front matter of the creation date, weather and tags, then the body (empty when the text stage raised), the separator and the location |
| Entries.ProcessEntry | splitfile.py:72-222 | the entry fails exactly when its zone offset is refused, with that error; otherwise at most one file is added |
| Entries.ProcessEntryWrites | splitfile.py:72-222 | a written entry's document is its `EntryDocument`, at the path the month folder's files before the entry give for its title and local date, a path the text stage left free and the only file added to what that stage left |
| Entries.ProcessEntryJournal | splitfile.py:196-222 | the document lies in the month folder, was not a file before, and is the only file added to the journal folder |
| Entries.FrontMatterRecordsCreationDate | splitfile.py:90-111 | the written front matter reads back as the formatted creation date, weather and tags, followed by body, separator and location |
| Entries.TimeZoneOnlyAffectsFileName | splitfile.py:87-209 | two entries differing only in `timeZone` get the same document in the same month folder |
| Entries.EntryWithoutTextUsesDefault | splitfile.py:95-187 | an entry with no text, attachments, weather or tags is written as the date and `locations` keys, the normalised default text, the separator and the location, adding only its own file |
| Entries.UnknownZoneNamesFileByCreationDate | splitfile.py:79-209 | an unrecognised zone string does not stop the entry, and its file name carries the creation date |
| Entries.RunStopsAtRefusedOffset | splitfile.py:71-224 | the run aborts exactly when some entry's offset is refused, at the first such entry and with its error; every earlier entry is written, all entries are written when it does not abort, and each adds at most one file |
| Entries.RunJournal | splitfile.py:71-224 | the journal folder ends up holding exactly its earlier files plus the written documents, each a new file there, no two at the same path |
| Entries.RunWritesEntry | splitfile.py:71-224 | the `i`-th written document is what entry `i` writes after the entries before it, whose documents are exactly the ones written before it |
| Entries.RunWritesEntryDocument | splitfile.py:71-224 | the `i`-th written document holds entry `i`'s text and lies in entry `i`'s month folder, at a path that was free when it was written |
| Entries.SameTitleAndDayCollide | splitfile.py:209-218 | of two entries with the same title, local date and month folder, whatever their attachments, the first is written as `<title> <date>.md` and the second as `<title> <date> a.md` when neither name was taken |

## Left out

- Configuration loading, `EntryProcessor.initialize`, reading the JSON file, deleting and recreating the journal folder, `time.sleep` and `os.mkdir` of the year and month folders (lines 28-64, 199-203) are I/O set-up. The settings are the `Config` parameter.
- pytz's zone database, `dateutil.parser.isoparse`, `astimezone` calendar arithmetic and `strftime` are foreign libraries. They are the `Env` fields `isKnownZone`, `zoneOffset` and `format…`. A creation date without an embedded offset (which `astimezone` would read as system local time) is not modelled.
- The `EntryProcessor` helpers (`get_title`, `get_tags`, `get_weather`, `get_location_coordinate`) and the processors' `replace_entry_id_with_info` callbacks are not part of this model. They are uninterpreted `Env` functions.
- The processors' `add_entry_to_dict` is left out entirely: `Env` has no field for it, as it only records an attachment in the processor's dictionary. The state the processors accumulate across entries, and what the callback does for an identifier it never saw, are therefore not modelled.
- The `get_coordinates` call (line 106) is left out: its result is never used.
- Exceptions raised outside the `try` block also abort the script, and the model does not represent them: a missing `creationDate` or `timeZone` key (lines 74, 78), a date `isoparse` rejects (line 74), an exception from `get_weather`, `get_tags`, `get_coordinates`, `get_location_coordinate` or `get_title` (lines 98-106, 185, 205), and a failing `os.mkdir` (lines 200, 203) or `open` (line 220). The helpers are total `Env` functions and the file operations always succeed.
- Exceptions in the text stage other than a missing attachment key are not modelled: a raising callback, an `OSError` from `os.rename`, a `text` that is not a string. Each of them would have the same modelled outcome: the body is omitted.
- `Entry` makes `creationDate` and `timeZone` required fields, as the script reads both without a default.
- `print` and `logging` output, the unused `icons`, `dateIcon` and `coordinates` variables, the commented-out heading and GPS code, and the final `open(...).write` are not modelled. The written text and path are returned instead.
- Timezone.ParseOffset: only ASCII digits are modelled. Python's `\d` and `int()` also accept other Unicode decimal digits.
- Files.Join: `os.path.join` is modelled as `dir + "/" + name`. Absolute components and trailing separators are not modelled, and `.`, `..` and empty components are not normalised. So `JournalOutsideMedia`, which compares folder names as strings, accepts a journal folder named `.`, `..` or the empty name, even though such a folder does nest with the attachment folders on disk.
- FileNames.TargetPath: requires fewer than 0xD800 - 97 files in the month folder. A suffix code in the surrogate range is not a Dafny character, while Python would go on to `chr(0xD800)`. `ProcessEntry` carries the same bound on the month folder, and `Run` bounds the journal folder's files plus the number of entries.
- Entries.ProcessEntry: requires the journal folder and the attachment folders not to contain one another (`JournalOutsideMedia`). With an attachment folder inside the journal folder, the script's deletion of the journal folder (lines 44-46) removes the attachments before they are renamed. With the journal folder inside an attachment folder the attachments survive, but a hash or identifier containing `/` can name a file in the journal folder, so a rename could move or replace a written document, which the model does not track. `Run` and the lemmas about it carry the same assumption.
- Renaming onto an existing destination: `os.rename` replaces an existing destination on POSIX, and the model does the same; the Windows behaviour of raising instead is not modelled.
- The order of the four media passes is fixed. That reordering them gives the same text is not proved, and need not hold: a callback may itself produce a reference of another kind.
