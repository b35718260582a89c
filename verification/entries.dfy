/** The per-entry loop of the export script: resolve the entry's local date,
    tidy its text and rewrite its moment references (renaming the attachment
    files on the way), assemble the document and choose its file name.

    The script's collaborators that are not part of this model are the
    parameters `Config` (the settings file) and `Env` (the zone database,
    `strftime`, and the entry-processor helpers and callbacks). */
module Entries {
  import opened Wrappers
  import opened Files
  import opened Timezone
  import opened Sanitise
  import opened Media
  import opened Moments
  import opened Document
  import opened FileNames
  import opened Seqs

  /** One element of the archive's `entries` array. `metadata` stands for the
      remaining JSON fields (location, weather, tags, ...), read only by the
      helper functions in `Env`. */
  datatype Entry = Entry(
    creationDate: Timestamp,
    timeZone: string,
    text: Option<string>,
    media: MediaLists,
    metadata: map<string, string>)

  /** The entry's `photos`, `audios`, `pdfAttachments` and `videos` keys. */
  datatype MediaLists = MediaLists(
    photos: Option<seq<Attachment>>,
    audios: Option<seq<Attachment>>,
    pdfAttachments: Option<seq<Attachment>>,
    videos: Option<seq<Attachment>>)
  {
    function Of(kind: MediaKind): Option<seq<Attachment>> {
      match kind
      case Photo => photos
      case Audio => audios
      case Pdf => pdfAttachments
      case Video => videos
    }

    predicate IsEmpty() {
      photos.None? && audios.None? && pdfAttachments.None? && videos.None?
    }
  }

  /** The settings read from the configuration file: `ROOT`, the name of
      the journal folder below it, and `DEFAULT_TEXT`. */
  datatype Config = Config(root: string, journalFolder: string, defaultText: string)

  /** The foreign code the loop calls: whether pytz knows a zone name and a
      named zone's offset at an instant; the `strftime` formats used for the
      front-matter date (`%Y-%m-%d %H:%M:%S %A`), the file-name date
      (`%Y-%m-%d`), the year and the year-month folder (`%Y-%m`); the
      `EntryProcessor` helpers; and each media processor's
      `replace_entry_id_with_info`, as a function of the captured identifier. */
  datatype Env = Env(
    isKnownZone: string -> bool,
    zoneOffset: (string, int) -> int,
    formatDateTime: Timestamp -> string,
    formatDay: Timestamp -> string,
    formatYear: Timestamp -> string,
    formatYearMonth: Timestamp -> string,
    weather: Entry -> string,
    tags: Entry -> string,
    locationLine: Entry -> string,
    title: Entry -> string,
    resolve: MediaKind -> string -> string)

  /** The order of the media passes in the script. */
  const PassOrder: seq<MediaKind> := [Photo, Audio, Pdf, Video]

  /** The file set during the text stage, and the body built so far; `None`
      once an exception has ended the stage. */
  datatype Stage = Stage(fs: FileSet, text: Option<string>)

  /** True when `p` lies in none of the attachment folders. */
  predicate OutsideMedia(p: string, root: string) {
    forall kind: MediaKind :: !InDir(p, MediaDir(root, kind))
  }

  /** One `if '<key>' in entry:` block: rename each attachment, then rewrite
      the references of that kind. A missing key raises and ends the stage,
      with the renames done so far kept on disk. */
  function MediaPass(cfg: Config, env: Env, fs: FileSet, text: string, kind: MediaKind, items: Option<seq<Attachment>>): (r: Stage)
    ensures items.None? ==> r == Stage(fs, Some(text))
    ensures items.Some? ==> && r.fs == RenameAll(fs, cfg.root, kind, items.value).fs
                            && (r.text.Some? <==> RenameAll(fs, cfg.root, kind, items.value).failure.None?)
    ensures items.Some? && r.text.Some? ==> r.text.value == Substitute(text, Prefix(kind), env.resolve(kind))
    ensures |r.fs| <= |fs|
    ensures forall p :: OutsideMedia(p, cfg.root) ==> (p in r.fs <==> p in fs)
  {
    match items
    case None => Stage(fs, Some(text))
    case Some(list) =>
      var renamed := RenameAll(fs, cfg.root, kind, list);
      if renamed.failure.Some? then Stage(renamed.fs, None)
      else Stage(renamed.fs, Some(Substitute(text, Prefix(kind), env.resolve(kind))))
  }

  /** The media passes of `kinds`, in order, stopping at the first exception. */
  function MediaPasses(cfg: Config, env: Env, st: Stage, media: MediaLists, kinds: seq<MediaKind>): (r: Stage)
    ensures st.text.None? ==> r == st
    ensures (forall i :: 0 <= i < |kinds| ==> media.Of(kinds[i]).None?) ==> r == st
    ensures |r.fs| <= |st.fs|
    ensures forall p :: OutsideMedia(p, cfg.root) ==> (p in r.fs <==> p in st.fs)
    decreases |kinds|
  {
    if |kinds| == 0 || st.text.None? then st
    else
      var next := MediaPass(cfg, env, st.fs, st.text.value, kinds[0], media.Of(kinds[0]));
      MediaPasses(cfg, env, next, media, kinds[1..])
  }

  /** The `try` block around the text and attachment handling. Only the attachment passes can raise
      here, and they touch no file outside the attachment folders; an entry
      without attachment keys gets its sanitised text and leaves the disk
      alone. */
  function TextStage(cfg: Config, env: Env, fs: FileSet, text: Option<string>, media: MediaLists): (r: Stage)
    ensures r.text.None? ==> !media.IsEmpty()
    ensures media.IsEmpty() ==> r == Stage(fs, Some(SanitiseBody(text, cfg.defaultText)))
    ensures |r.fs| <= |fs|
    ensures forall p :: OutsideMedia(p, cfg.root) ==> (p in r.fs <==> p in fs)
  {
    assert media.IsEmpty() ==> forall i :: 0 <= i < |PassOrder| ==> media.Of(PassOrder[i]).None?;
    MediaPasses(cfg, env, Stage(fs, Some(SanitiseBody(text, cfg.defaultText))), media, PassOrder)
  }

  /** The text once the substitution pass of every kind in `kinds` whose key
      is present has run, in that order: the reference definition of the
      text stage's rewriting. */
  function SubstituteAll(env: Env, text: string, media: MediaLists, kinds: seq<MediaKind>): string
    decreases |kinds|
  {
    if |kinds| == 0 then text
    else
      var kind := kinds[0];
      var next := if media.Of(kind).Some? then Substitute(text, Prefix(kind), env.resolve(kind)) else text;
      SubstituteAll(env, next, media, kinds[1..])
  }

  /** The file set once the rename loop of every kind in `kinds` whose key
      is present has run, in that order. */
  function RenameEach(fs: FileSet, root: string, media: MediaLists, kinds: seq<MediaKind>): FileSet
    decreases |kinds|
  {
    if |kinds| == 0 then fs
    else
      var kind := kinds[0];
      var next := if media.Of(kind).Some? then RenameAll(fs, root, kind, media.Of(kind).value).fs else fs;
      RenameEach(next, root, media, kinds[1..])
  }

  /** Every attachment of every present kind carries the keys its loop
      reads. */
  predicate ListsWellFormed(media: MediaLists) {
    forall kind: MediaKind :: media.Of(kind).Some? ==>
      forall i :: 0 <= i < |media.Of(kind).value| ==> WellFormed(kind, media.Of(kind).value[i])
  }

  /** With well-formed attachments no pass raises: the passes rename every
      present kind's attachments and rewrite every present kind's references,
      kind after kind in the given order. */
  lemma {:induction false} MediaPassesComplete(cfg: Config, env: Env, st: Stage, media: MediaLists, kinds: seq<MediaKind>)
    requires st.text.Some? && ListsWellFormed(media)
    ensures MediaPasses(cfg, env, st, media, kinds)
            == Stage(RenameEach(st.fs, cfg.root, media, kinds), Some(SubstituteAll(env, st.text.value, media, kinds)))
    decreases |kinds|
  {
    if |kinds| > 0 {
      var kind := kinds[0];
      if media.Of(kind).Some? {
        WellFormedListCompletes(st.fs, cfg.root, kind, media.Of(kind).value);
      }
      var next := MediaPass(cfg, env, st.fs, st.text.value, kind, media.Of(kind));
      MediaPassesComplete(cfg, env, next, media, kinds[1..]);
    }
  }

  /** The text stage of an entry whose attachments are all well-formed
      completes: its attachment files are renamed kind by kind, and its body
      is the sanitised text with the photo, audio, PDF and video references
      rewritten, in that order. */
  lemma TextStageComplete(cfg: Config, env: Env, fs: FileSet, text: Option<string>, media: MediaLists)
    requires ListsWellFormed(media)
    ensures TextStage(cfg, env, fs, text, media)
            == Stage(RenameEach(fs, cfg.root, media, PassOrder), Some(SubstituteAll(env, SanitiseBody(text, cfg.defaultText), media, PassOrder)))
  {
    MediaPassesComplete(cfg, env, Stage(fs, Some(SanitiseBody(text, cfg.defaultText))), media, PassOrder);
  }

  /** When only the `photos` key is present, the stage rewrites only photo
      references and runs only the photo loop. */
  lemma PhotosOnly(env: Env, fs: FileSet, root: string, text: string, photos: seq<Attachment>)
    ensures var media := MediaLists(Some(photos), None, None, None);
            && SubstituteAll(env, text, media, PassOrder) == Substitute(text, Prefix(Photo), env.resolve(Photo))
            && RenameEach(fs, root, media, PassOrder) == RenameAll(fs, root, Photo, photos).fs
  {
  }

  /** An entry whose body is one photo reference, with the photo attachment
      of that identifier: the body becomes the photo processor's replacement
      for the identifier, and the photo's hash-named file, if present, is
      renamed to the identifier. */
  lemma PhotoEntryExample(cfg: Config, env: Env, fs: FileSet, hash: string, fileType: string)
    ensures var photo := Attachment(Some(hash), Some("ABC123"), Some(fileType));
            var r := TextStage(cfg, env, fs, Some("![](dayone-moment://ABC123)"), MediaLists(Some([photo]), None, None, None));
            && r.text == Some(env.resolve(Photo)("ABC123"))
            && (MediaPath(MediaDir(cfg.root, Photo), hash, fileType) in fs ==>
                  && MediaPath(MediaDir(cfg.root, Photo), "ABC123", fileType) in r.fs
                  && (hash != "ABC123" ==> MediaPath(MediaDir(cfg.root, Photo), hash, fileType) !in r.fs))
  {
    var body := "![](dayone-moment://ABC123)";
    var photo := Attachment(Some(hash), Some("ABC123"), Some(fileType));
    var media := MediaLists(Some([photo]), None, None, None);
    assert ListsWellFormed(media) by {
      assert WellFormed(Photo, photo);
    }
    TextStageComplete(cfg, env, fs, Some(body), media);
    PhotoBodyClean();
    CleanTextKept(body, cfg.defaultText);
    PhotoReferenceExample(env.resolve(Photo));
    PhotosOnly(env, fs, cfg.root, body, [photo]);
    var r := TextStage(cfg, env, fs, Some(body), media);
    assert r.fs == RenameAll(fs, cfg.root, Photo, [photo]).fs;
    if MediaPath(MediaDir(cfg.root, Photo), hash, fileType) in fs {
      assert Extension(Photo, photo) == Some(fileType);
      WellFormedOneRenames(fs, cfg.root, Photo, photo);
      assert hash != "ABC123" ==> photo.md5 != photo.identifier;
    }
  }

  /** The zone resolution: the local date, or the error that aborts the run. */
  function LocalDateOf(env: Env, e: Entry): Result<Timestamp, ZoneError> {
    match ResolveZone(e.timeZone, env.isKnownZone)
    case Failure(err) => Failure(err)
    case Success(tz) => Success(LocalDate(e.creationDate, tz, env.zoneOffset))
  }

  /** Only a matched offset of a day or more is refused; the local date is
      the creation instant seen in the resolved zone. */
  lemma LocalDateOfRefuses(env: Env, e: Entry)
    ensures var r := LocalDateOf(env, e);
            && (r.Failure? <==> && !env.isKnownZone(e.timeZone) && MatchesOffsetPattern(e.timeZone)
                                && !(-MinutesPerDay < ParseOffset(e.timeZone).value < MinutesPerDay))
            && (r.Success? ==> r.value.instant == e.creationDate.instant)
  {
  }

  /** The journal folder, `ROOT/<journal folder name>`. */
  function JournalDir(cfg: Config): string {
    Join(cfg.root, cfg.journalFolder)
  }

  /** The journal folder is neither an attachment folder, nor inside one, nor
      around one. With an attachment folder inside the journal folder, the
      script's deletion of the journal folder before the loop would remove the
      attachments. With the journal folder inside an attachment folder, the
      attachments survive, but a hash or identifier holding `/` could name a
      file in the journal folder, so a rename could move or replace a
      written document. */
  predicate JournalOutsideMedia(cfg: Config) {
    forall kind: MediaKind ::
      !(Subpath(kind) + "/" <= cfg.journalFolder + "/") && !(cfg.journalFolder + "/" <= Subpath(kind) + "/")
  }

  /** Under that configuration no journal file is an attachment file. */
  lemma JournalFilesOutsideMedia(cfg: Config, p: string)
    requires JournalOutsideMedia(cfg) && InDir(p, JournalDir(cfg))
    ensures OutsideMedia(p, cfg.root)
  {
    var c := cfg.root + "/";
    var j := cfg.journalFolder + "/";
    assert JournalDir(cfg) + "/" == c + j;
    forall kind: MediaKind
      ensures !InDir(p, MediaDir(cfg.root, kind))
    {
      var m := Subpath(kind) + "/";
      assert MediaDir(cfg.root, kind) + "/" == c + m;
      if InDir(p, MediaDir(cfg.root, kind)) {
        PrefixesComparable(c + j, c + m, p);
        if c + j <= c + m {
          StripCommonPrefix(c, j, m);
        } else {
          StripCommonPrefix(c, m, j);
        }
        assert false;
      }
    }
  }

  /** `<journal>/<year>/<year>-<month>`, from the creation date: a folder
      inside the journal folder. */
  function MonthDir(cfg: Config, env: Env, e: Entry): (r: string)
    ensures InDir(r, JournalDir(cfg))
  {
    Join(Join(JournalDir(cfg), env.formatYear(e.creationDate)), env.formatYearMonth(e.creationDate))
  }

  /** Every file in a month folder is a journal file. */
  lemma MonthFileInJournal(cfg: Config, env: Env, e: Entry, p: string)
    requires InDir(p, MonthDir(cfg, env, e))
    ensures InDir(p, JournalDir(cfg))
  {
    var year := Join(JournalDir(cfg), env.formatYear(e.creationDate));
    InSubDir(p, year, env.formatYearMonth(e.creationDate));
    InSubDir(p, JournalDir(cfg), env.formatYear(e.creationDate));
  }

  /** The text stage leaves the journal folder as it was. */
  lemma TextStageKeepsJournal(cfg: Config, env: Env, fs: FileSet, text: Option<string>, media: MediaLists)
    requires JournalOutsideMedia(cfg)
    ensures FilesIn(TextStage(cfg, env, fs, text, media).fs, JournalDir(cfg)) == FilesIn(fs, JournalDir(cfg))
  {
    var stage := TextStage(cfg, env, fs, text, media);
    forall p | InDir(p, JournalDir(cfg))
      ensures p in stage.fs <==> p in fs
    {
      JournalFilesOutsideMedia(cfg, p);
    }
  }

  /** Nor does it change the entry's month folder. */
  lemma TextStageKeepsMonth(cfg: Config, env: Env, fs: FileSet, e: Entry)
    requires JournalOutsideMedia(cfg)
    ensures FilesIn(TextStage(cfg, env, fs, e.text, e.media).fs, MonthDir(cfg, env, e)) == FilesIn(fs, MonthDir(cfg, env, e))
  {
    var stage := TextStage(cfg, env, fs, e.text, e.media);
    forall p | InDir(p, MonthDir(cfg, env, e))
      ensures p in stage.fs <==> p in fs
    {
      MonthFileInJournal(cfg, env, e, p);
      JournalFilesOutsideMedia(cfg, p);
    }
  }

  /** The document written for an entry and where it goes. */
  datatype Written = Written(path: string, contents: string)

  datatype Processed = Processed(fs: FileSet, file: Written)

  /** The document text, given the file set the text stage starts from: the
      front matter of the creation date, weather and tags, then the body
      (nothing when the text stage raised), the separator and the location. */
  function EntryDocument(cfg: Config, env: Env, fs: FileSet, e: Entry): (r: string)
    ensures var body := TextStage(cfg, env, fs, e.text, e.media).text;
            r == FrontMatter(env.formatDateTime(e.creationDate), env.weather(e), env.tags(e))
                 + (body.GetOr("") + MetadataSeparator + env.locationLine(e))
  {
    var frontMatter := FrontMatter(env.formatDateTime(e.creationDate), env.weather(e), env.tags(e));
    var body := TextStage(cfg, env, fs, e.text, e.media).text;
    DocumentLayout(frontMatter, body, env.locationLine(e));
    Concat(Fragments(frontMatter, body, env.locationLine(e)))
  }

  /** What writing an entry needs: the journal folder lies outside the
      attachment folders, and the month folder holds too few files to use up
      every suffix letter. */
  predicate ProcessRoom(cfg: Config, env: Env, fs: FileSet, e: Entry) {
    JournalOutsideMedia(cfg) && |FilesIn(fs, MonthDir(cfg, env, e))| < SurrogateStart - FirstSuffix
  }

  /** The body of the loop. A zone offset pytz refuses aborts the run;
      otherwise one document is written and the file count grows by at most
      that one file. */
  function ProcessEntry(cfg: Config, env: Env, fs: FileSet, e: Entry): (r: Result<Processed, ZoneError>)
    requires ProcessRoom(cfg, env, fs, e)
    ensures r.Failure? <==> LocalDateOf(env, e).Failure?
    ensures r.Failure? ==> r.error == LocalDateOf(env, e).error
    ensures r.Success? ==> |r.value.fs| <= |fs| + 1
  {
    match LocalDateOf(env, e)
    case Failure(err) => Failure(err)
    case Success(localDate) =>
      var stage := TextStage(cfg, env, fs, e.text, e.media);
      var dir := MonthDir(cfg, env, e);
      TextStageKeepsMonth(cfg, env, fs, e);
      var contents := EntryDocument(cfg, env, fs, e);
      var path := TargetPath(stage.fs, dir, env.title(e), env.formatDay(localDate));
      Success(Processed(stage.fs + {path}, Written(path, contents)))
  }

  /** What a written entry leaves behind: its document goes to a fresh file
      in the month folder of the creation date, named after the local date,
      and is the only file added outside the attachment folders. The name is
      chosen after the text stage, which leaves the month folder alone, so it
      is the name the file set before the entry gives. */
  lemma ProcessEntryWrites(cfg: Config, env: Env, fs: FileSet, e: Entry)
    requires ProcessRoom(cfg, env, fs, e)
    requires ProcessEntry(cfg, env, fs, e).Success?
    ensures var r := ProcessEntry(cfg, env, fs, e).value;
            var stage := TextStage(cfg, env, fs, e.text, e.media);
            && r.file.path !in stage.fs
            && r.fs == stage.fs + {r.file.path}
            && r.file.path == TargetPath(fs, MonthDir(cfg, env, e), env.title(e), env.formatDay(LocalDateOf(env, e).value))
            && r.file.contents == EntryDocument(cfg, env, fs, e)
  {
    var stage := TextStage(cfg, env, fs, e.text, e.media);
    TextStageKeepsMonth(cfg, env, fs, e);
    TargetPathLocal(stage.fs, fs, MonthDir(cfg, env, e), env.title(e), env.formatDay(LocalDateOf(env, e).value));
  }

  /** Writing an entry adds exactly its own file to the journal folder, a
      file that was not there before, in its month folder. */
  lemma ProcessEntryJournal(cfg: Config, env: Env, fs: FileSet, e: Entry)
    requires ProcessRoom(cfg, env, fs, e)
    requires ProcessEntry(cfg, env, fs, e).Success?
    ensures var r := ProcessEntry(cfg, env, fs, e).value;
            && InDir(r.file.path, MonthDir(cfg, env, e))
            && r.file.path !in fs
            && FilesIn(r.fs, JournalDir(cfg)) == FilesIn(fs, JournalDir(cfg)) + {r.file.path}
  {
    var r := ProcessEntry(cfg, env, fs, e).value;
    ProcessEntryWrites(cfg, env, fs, e);
    MonthFileInJournal(cfg, env, e, r.file.path);
    TextStageKeepsJournal(cfg, env, fs, e.text, e.media);
  }

  /** The front matter of every written document records the creation date,
      formatted, whatever the zone resolved to; what follows it is the body
      (if the text stage completed), the separator and the location line. */
  lemma FrontMatterRecordsCreationDate(cfg: Config, env: Env, fs: FileSet, e: Entry)
    requires ProcessRoom(cfg, env, fs, e)
    requires ProcessEntry(cfg, env, fs, e).Success?
    requires '\n' !in env.formatDateTime(e.creationDate) && '\n' !in env.weather(e) && '\n' !in env.tags(e)
    ensures var contents := ProcessEntry(cfg, env, fs, e).value.file.contents;
            var body := TextStage(cfg, env, fs, e.text, e.media).text;
            ParseFrontMatter(contents) == Some(Parsed(
              Fields(env.formatDateTime(e.creationDate), env.weather(e), env.tags(e)),
              body.GetOr("") + MetadataSeparator + env.locationLine(e)))
  {
    var body := TextStage(cfg, env, fs, e.text, e.media).text;
    var rest := body.GetOr("") + MetadataSeparator + env.locationLine(e);
    ProcessEntryWrites(cfg, env, fs, e);
    FrontMatterRoundTrip(env.formatDateTime(e.creationDate), env.weather(e), env.tags(e), rest);
  }

  /** The time zone only decides the date in the file name: two entries that
      differ only in `timeZone` get the same document in the same folder. */
  lemma TimeZoneOnlyAffectsFileName(cfg: Config, env: Env, fs: FileSet, e: Entry, zone: string)
    requires ProcessRoom(cfg, env, fs, e)
    requires ProcessEntry(cfg, env, fs, e).Success?
    requires ProcessEntry(cfg, env, fs, e.(timeZone := zone)).Success?
    requires env.weather(e) == env.weather(e.(timeZone := zone))
    requires env.tags(e) == env.tags(e.(timeZone := zone))
    requires env.locationLine(e) == env.locationLine(e.(timeZone := zone))
    ensures var a := ProcessEntry(cfg, env, fs, e).value.file;
            var b := ProcessEntry(cfg, env, fs, e.(timeZone := zone)).value.file;
            a.contents == b.contents && InDir(a.path, MonthDir(cfg, env, e)) && InDir(b.path, MonthDir(cfg, env, e))
  {
    var e' := e.(timeZone := zone);
    ProcessEntryWrites(cfg, env, fs, e);
    ProcessEntryWrites(cfg, env, fs, e');
    assert EntryDocument(cfg, env, fs, e') == EntryDocument(cfg, env, fs, e);
    assert MonthDir(cfg, env, e') == MonthDir(cfg, env, e);
  }

  /** An entry with neither `text` nor attachments, weather or tags: the
      document is the date and `locations` keys, the default text
      (normalised, backslashes kept), the separator and the location. */
  lemma EntryWithoutTextUsesDefault(cfg: Config, env: Env, fs: FileSet, e: Entry)
    requires ProcessRoom(cfg, env, fs, e)
    requires e.text.None? && e.media.IsEmpty()
    requires env.weather(e) == "" && env.tags(e) == ""
    requires LocalDateOf(env, e).Success?
    ensures var r := ProcessEntry(cfg, env, fs, e);
            && r.Success?
            && r.value.file.contents == Opening + env.formatDateTime(e.creationDate) + "\n" + Closing
                                        + (Normalise(cfg.defaultText) + MetadataSeparator + env.locationLine(e))
            && r.value.fs == fs + {r.value.file.path}
  {
    var date := env.formatDateTime(e.creationDate);
    var stage := TextStage(cfg, env, fs, e.text, e.media);
    assert stage == Stage(fs, Some(Normalise(cfg.defaultText)));
    BareFrontMatter(date);
    ProcessEntryWrites(cfg, env, fs, e);
  }

  /** A `timeZone` that is neither a known zone nor an offset string: the
      entry is still written, and its file name carries the creation date. */
  lemma UnknownZoneNamesFileByCreationDate(cfg: Config, env: Env, fs: FileSet, e: Entry)
    requires ProcessRoom(cfg, env, fs, e)
    requires !env.isKnownZone(e.timeZone) && !MatchesOffsetPattern(e.timeZone)
    ensures var r := ProcessEntry(cfg, env, fs, e);
            && r.Success?
            && r.value.file.path == TargetPath(fs, MonthDir(cfg, env, e), env.title(e), env.formatDay(e.creationDate))
  {
    UnknownZoneFallsBack(e.timeZone, env.isKnownZone, env.zoneOffset, e.creationDate);
    ProcessEntryWrites(cfg, env, fs, e);
  }

  /** The state after a run: the file set, the documents written in order,
      and the error that aborted the run, if one did. Documents written before
      an abort stay on disk. */
  datatype RunOutcome = RunOutcome(fs: FileSet, written: seq<Written>, aborted: Option<ZoneError>)

  /** What a run needs: the journal folder lies outside the attachment
      folders, and it holds too few files, counting the ones the run adds,
      to use up the suffix letters of any month folder. */
  predicate RunRoom(cfg: Config, fs: FileSet, n: nat) {
    JournalOutsideMedia(cfg) && |FilesIn(fs, JournalDir(cfg))| + n < SurrogateStart - FirstSuffix
  }

  /** A run has room for each entry it reaches. */
  lemma EntryRoom(cfg: Config, env: Env, fs: FileSet, e: Entry, n: nat)
    requires RunRoom(cfg, fs, n)
    ensures ProcessRoom(cfg, env, fs, e)
  {
    forall p | p in FilesIn(fs, MonthDir(cfg, env, e))
      ensures p in FilesIn(fs, JournalDir(cfg))
    {
      MonthFileInJournal(cfg, env, e, p);
    }
    SubsetSize(FilesIn(fs, MonthDir(cfg, env, e)), FilesIn(fs, JournalDir(cfg)));
  }

  /** After an entry is written the journal folder has one file more, so the
      room left for the remaining entries is kept. */
  lemma RoomAfterEntry(cfg: Config, env: Env, fs: FileSet, e: Entry, n: nat)
    requires RunRoom(cfg, fs, n + 1)
    ensures ProcessRoom(cfg, env, fs, e)
    ensures ProcessEntry(cfg, env, fs, e).Success? ==> RunRoom(cfg, ProcessEntry(cfg, env, fs, e).value.fs, n)
  {
    EntryRoom(cfg, env, fs, e, n + 1);
    if ProcessEntry(cfg, env, fs, e).Success? {
      ProcessEntryJournal(cfg, env, fs, e);
    }
  }

  /** The loop over the archive's entries. The run is aborted exactly when
      some entry's offset is refused, right at the first such entry; every
      entry before it is written once. The count reported at the end is the
      number of entries. */
  function Run(cfg: Config, env: Env, fs: FileSet, entries: seq<Entry>): (r: RunOutcome)
    requires RunRoom(cfg, fs, |entries|)
    ensures |r.written| <= |entries|
    decreases |entries|
  {
    if |entries| == 0 then RunOutcome(fs, [], None)
    else
      RoomAfterEntry(cfg, env, fs, entries[0], |entries| - 1);
      match ProcessEntry(cfg, env, fs, entries[0])
      case Failure(err) => RunOutcome(fs, [], Some(err))
      case Success(first) =>
        var rest := Run(cfg, env, first.fs, entries[1..]);
        RunOutcome(rest.fs, [first.file] + rest.written, rest.aborted)
  }

  /** The run is aborted exactly when some entry's offset is refused, right
      at the first such entry, and every entry before it is written once;
      otherwise every entry is written. Each document adds at most one
      file. */
  lemma {:induction false} RunStopsAtRefusedOffset(cfg: Config, env: Env, fs: FileSet, entries: seq<Entry>)
    requires RunRoom(cfg, fs, |entries|)
    ensures var r := Run(cfg, env, fs, entries);
            && (r.aborted.None? <==> Resolves(env, entries, |entries|))
            && (r.aborted.None? ==> |r.written| == |entries|)
            && (r.aborted.Some? ==> && |r.written| < |entries|
                                    && LocalDateOf(env, entries[|r.written|]).Failure?
                                    && r.aborted.value == LocalDateOf(env, entries[|r.written|]).error)
            && Resolves(env, entries, |r.written|)
            && |r.fs| <= |fs| + |r.written|
    decreases |entries|
  {
    if |entries| > 0 {
      RoomAfterEntry(cfg, env, fs, entries[0], |entries| - 1);
      var r := Run(cfg, env, fs, entries);
      if ProcessEntry(cfg, env, fs, entries[0]).Success? {
        var first := ProcessEntry(cfg, env, fs, entries[0]).value;
        RunStopsAtRefusedOffset(cfg, env, first.fs, entries[1..]);
        ResolvesCons(env, entries, |entries|);
        ResolvesCons(env, entries, |r.written|);
      }
    }
  }

  /** The first `n` entries all have a local date. */
  predicate Resolves(env: Env, entries: seq<Entry>, n: nat)
    requires n <= |entries|
  {
    forall i :: 0 <= i < n ==> LocalDateOf(env, entries[i]).Success?
  }

  lemma ResolvesCons(env: Env, entries: seq<Entry>, n: nat)
    requires 0 < n <= |entries|
    ensures Resolves(env, entries, n) <==> LocalDateOf(env, entries[0]).Success? && Resolves(env, entries[1..], n - 1)
  {
    if LocalDateOf(env, entries[0]).Success? && Resolves(env, entries[1..], n - 1) {
      forall i | 0 < i < n
        ensures LocalDateOf(env, entries[i]).Success?
      {
        assert entries[i] == entries[1..][i - 1];
      }
    }
  }

  /** The paths of the written documents. */
  function WrittenPaths(written: seq<Written>): set<string> {
    set i | 0 <= i < |written| :: written[i].path
  }

  /** No two written documents share a path. */
  predicate DistinctPaths(written: seq<Written>) {
    forall i, j :: 0 <= i < j < |written| ==> written[i].path != written[j].path
  }

  /** Writing one more document in front, at a path not among the others. */
  lemma WrittenCons(w: Written, written: seq<Written>)
    requires DistinctPaths(written) && w.path !in WrittenPaths(written)
    ensures WrittenPaths([w] + written) == {w.path} + WrittenPaths(written)
    ensures DistinctPaths([w] + written)
  {
    var all := [w] + written;
    forall q | q in WrittenPaths(all)
      ensures q in {w.path} + WrittenPaths(written)
    {
      var i :| 0 <= i < |all| && all[i].path == q;
      if i > 0 {
        assert written[i - 1].path == q;
      }
    }
    forall q | q in WrittenPaths(written)
      ensures q in WrittenPaths(all)
    {
      var i :| 0 <= i < |written| && written[i].path == q;
      assert all[i + 1].path == q;
    }
    assert all[0].path == w.path;
    forall i, j | 0 <= i < j < |all|
      ensures all[i].path != all[j].path
    {
      assert all[j] == written[j - 1];
      if i > 0 {
        assert all[i] == written[i - 1];
      } else {
        assert written[j - 1].path in WrittenPaths(written);
      }
    }
  }

  /** What a run leaves in the journal folder: exactly the files there
      before plus the written documents, each a new file there, no two of
      them at the same path. */
  predicate JournalGrows(cfg: Config, fs: FileSet, r: RunOutcome) {
    && FilesIn(r.fs, JournalDir(cfg)) == FilesIn(fs, JournalDir(cfg)) + WrittenPaths(r.written)
    && (forall q :: q in WrittenPaths(r.written) ==> InDir(q, JournalDir(cfg)) && q !in fs)
    && DistinctPaths(r.written)
  }

  /** One more document written first, at a new path in the journal folder,
      keeps that shape. */
  lemma JournalGrowsCons(cfg: Config, fs: FileSet, first: Processed, rest: RunOutcome)
    requires JournalGrows(cfg, first.fs, rest)
    requires InDir(first.file.path, JournalDir(cfg)) && first.file.path !in fs
    requires FilesIn(first.fs, JournalDir(cfg)) == FilesIn(fs, JournalDir(cfg)) + {first.file.path}
    ensures JournalGrows(cfg, fs, RunOutcome(rest.fs, [first.file] + rest.written, rest.aborted))
  {
    assert first.file.path in FilesIn(first.fs, JournalDir(cfg));
    WrittenCons(first.file, rest.written);
  }

  /** A run adds exactly the written documents to the journal folder: each
      was a new file there, and no two of them share a path, so no document
      overwrites another. */
  lemma {:induction false} RunJournal(cfg: Config, env: Env, fs: FileSet, entries: seq<Entry>)
    requires RunRoom(cfg, fs, |entries|)
    ensures JournalGrows(cfg, fs, Run(cfg, env, fs, entries))
    decreases |entries|
  {
    if |entries| > 0 {
      RoomAfterEntry(cfg, env, fs, entries[0], |entries| - 1);
      if ProcessEntry(cfg, env, fs, entries[0]).Success? {
        var first := ProcessEntry(cfg, env, fs, entries[0]).value;
        ProcessEntryJournal(cfg, env, fs, entries[0]);
        MonthFileInJournal(cfg, env, entries[0], first.file.path);
        RunJournal(cfg, env, first.fs, entries[1..]);
        JournalGrowsCons(cfg, fs, first, Run(cfg, env, first.fs, entries[1..]));
      }
    }
  }

  /** A run over a non-empty list whose first entry is written: that
      document, then the run over the rest from the file set it left. */
  lemma RunCons(cfg: Config, env: Env, fs: FileSet, entries: seq<Entry>)
    requires RunRoom(cfg, fs, |entries|) && |entries| > 0
    ensures ProcessRoom(cfg, env, fs, entries[0])
    ensures var p := ProcessEntry(cfg, env, fs, entries[0]);
            p.Success? ==>
              && RunRoom(cfg, p.value.fs, |entries| - 1)
              && var rest := Run(cfg, env, p.value.fs, entries[1..]);
                 Run(cfg, env, fs, entries) == RunOutcome(rest.fs, [p.value.file] + rest.written, rest.aborted)
  {
    RoomAfterEntry(cfg, env, fs, entries[0], |entries| - 1);
  }

  /** After the run `before`, processing `e` writes `w`. */
  predicate WritesNext(cfg: Config, env: Env, before: RunOutcome, e: Entry, w: Written) {
    && before.aborted.None?
    && ProcessRoom(cfg, env, before.fs, e)
    && ProcessEntry(cfg, env, before.fs, e).Success?
    && ProcessEntry(cfg, env, before.fs, e).value.file == w
  }

  /** Each written document is its entry's: the `i`-th is what processing
      entry `i` writes, against the file set the entries before it left,
      and the documents before it are those of that shorter run. */
  lemma {:induction false} RunWritesEntry(cfg: Config, env: Env, fs: FileSet, entries: seq<Entry>, i: nat)
    requires RunRoom(cfg, fs, |entries|)
    requires i < |Run(cfg, env, fs, entries).written|
    ensures var r := Run(cfg, env, fs, entries);
            var before := Run(cfg, env, fs, entries[..i]);
            before.written == r.written[..i] && WritesNext(cfg, env, before, entries[i], r.written[i])
    decreases i
  {
    RunCons(cfg, env, fs, entries);
    var first := ProcessEntry(cfg, env, fs, entries[0]).value;
    var tail := entries[1..];
    var rest := Run(cfg, env, first.fs, tail);
    if i == 0 {
      assert entries[..0] == [];
    } else {
      RunWritesEntry(cfg, env, first.fs, tail, i - 1);
      PrefixOfTail(entries, i);
      RunCons(cfg, env, fs, entries[..i]);
      ConsPrefix(first.file, rest.written, i);
    }
  }

  /** So the `i`-th written document holds entry `i`'s text and lies in that
      entry's month folder, at a path that was free when it was written. */
  lemma RunWritesEntryDocument(cfg: Config, env: Env, fs: FileSet, entries: seq<Entry>, i: nat)
    requires RunRoom(cfg, fs, |entries|)
    requires i < |Run(cfg, env, fs, entries).written|
    ensures var r := Run(cfg, env, fs, entries);
            var before := Run(cfg, env, fs, entries[..i]);
            && r.written[i].contents == EntryDocument(cfg, env, before.fs, entries[i])
            && InDir(r.written[i].path, MonthDir(cfg, env, entries[i]))
            && r.written[i].path !in before.fs
  {
    RunWritesEntry(cfg, env, fs, entries, i);
    var before := Run(cfg, env, fs, entries[..i]);
    assert WritesNext(cfg, env, before, entries[i], Run(cfg, env, fs, entries).written[i]);
    ProcessEntryWrites(cfg, env, before.fs, entries[i]);
    ProcessEntryJournal(cfg, env, before.fs, entries[i]);
  }

  /** Two entries with the same title and local date written into a folder
      holding neither name, whatever their attachments: the first is written
      to `<title> <date>.md`, the second to `<title> <date> a.md`. */
  lemma SameTitleAndDayCollide(cfg: Config, env: Env, fs: FileSet, e1: Entry, e2: Entry)
    requires RunRoom(cfg, fs, 2)
    requires LocalDateOf(env, e1).Success? && LocalDateOf(env, e2).Success?
    requires env.title(e1) == env.title(e2)
    requires env.formatDay(LocalDateOf(env, e1).value) == env.formatDay(LocalDateOf(env, e2).value)
    requires MonthDir(cfg, env, e1) == MonthDir(cfg, env, e2)
    requires var name := env.title(e1) + " " + env.formatDay(LocalDateOf(env, e1).value);
             Join(MonthDir(cfg, env, e1), name + ".md") !in fs && Join(MonthDir(cfg, env, e1), name + " a.md") !in fs
    ensures var name := env.title(e1) + " " + env.formatDay(LocalDateOf(env, e1).value);
            var r := Run(cfg, env, fs, [e1, e2]);
            && r.aborted.None? && |r.written| == 2
            && r.written[0].path == Join(MonthDir(cfg, env, e1), name + ".md")
            && r.written[1].path == Join(MonthDir(cfg, env, e1), name + " a.md")
  {
    var dir := MonthDir(cfg, env, e1);
    var title := env.title(e1);
    var day := env.formatDay(LocalDateOf(env, e1).value);
    var base := Join(dir, BaseName(title, day));
    var second := Join(dir, title + " " + day + " a.md");
    assert title + " " + day + ".md" == BaseName(title, day);
    var first := FirstOfSameDay(cfg, env, fs, e1, second);
    SecondOfSameDay(cfg, env, first.fs, e2, base, second);
    RunCons(cfg, env, fs, [e1, e2]);
    assert [e1, e2][1..] == [e2];
    RunCons(cfg, env, first.fs, [e2]);
    assert [e2][1..] == [];
  }

  /** The first of the two takes the free base name and leaves the `a` name
      free. */
  lemma FirstOfSameDay(cfg: Config, env: Env, fs: FileSet, e: Entry, second: string) returns (first: Processed)
    requires RunRoom(cfg, fs, 2) && LocalDateOf(env, e).Success?
    requires var name := env.title(e) + " " + env.formatDay(LocalDateOf(env, e).value);
             Join(MonthDir(cfg, env, e), name + ".md") !in fs && second == Join(MonthDir(cfg, env, e), name + " a.md") && second !in fs
    ensures ProcessRoom(cfg, env, fs, e) && ProcessEntry(cfg, env, fs, e) == Success(first)
    ensures first.file.path == Join(MonthDir(cfg, env, e), BaseName(env.title(e), env.formatDay(LocalDateOf(env, e).value)))
    ensures second !in first.fs && RunRoom(cfg, first.fs, 1)
  {
    var dir := MonthDir(cfg, env, e);
    var title := env.title(e);
    var day := env.formatDay(LocalDateOf(env, e).value);
    var base := Join(dir, BaseName(title, day));
    assert title + " " + day + ".md" == BaseName(title, day);
    assert second != base by {
      var k := |dir| + 1 + |title| + 1 + |day|;
      assert second[k] == ' ';
      assert base[k] == '.';
    }
    RoomAfterEntry(cfg, env, fs, e, 1);
    first := ProcessEntry(cfg, env, fs, e).value;
    ProcessEntryWrites(cfg, env, fs, e);
    ProcessEntryJournal(cfg, env, fs, e);
    FreeBaseNameIsUsed(fs, dir, title, day);
    MonthFileInJournal(cfg, env, e, second);
    assert second !in FilesIn(first.fs, JournalDir(cfg));
  }

  /** The second finds the base name taken and the `a` name free. */
  lemma SecondOfSameDay(cfg: Config, env: Env, fs: FileSet, e: Entry, base: string, second: string)
    requires RunRoom(cfg, fs, 1) && LocalDateOf(env, e).Success?
    requires var dir := MonthDir(cfg, env, e);
             var title := env.title(e);
             var day := env.formatDay(LocalDateOf(env, e).value);
             base == Join(dir, BaseName(title, day)) && base in fs
             && second == Join(dir, title + " " + day + " a.md") && second !in fs
    ensures ProcessRoom(cfg, env, fs, e) && ProcessEntry(cfg, env, fs, e).Success?
    ensures ProcessEntry(cfg, env, fs, e).value.file.path == second
  {
    RoomAfterEntry(cfg, env, fs, e, 0);
    ProcessEntryWrites(cfg, env, fs, e);
    SecondEntryGetsSuffixA(fs, MonthDir(cfg, env, e), env.title(e), env.formatDay(LocalDateOf(env, e).value));
  }
}
