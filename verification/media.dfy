/** Attachments and `rename_media`: an attachment file is stored under its
    content hash and renamed, on first encounter, to the identifier the entry
    text refers to. */
module Media {
  import opened Wrappers
  import opened Files

  datatype MediaKind = Photo | Audio | Pdf | Video

  /** The folder, below the export root, that holds one kind of attachment. */
  function Subpath(kind: MediaKind): string {
    match kind
    case Photo => "photos"
    case Audio => "audios"
    case Pdf => "pdfs"
    case Video => "videos"
  }

  /** One element of an entry's `photos`, `audios`, `pdfAttachments` or
      `videos` list. Every field is a JSON key that may be missing. */
  datatype Attachment = Attachment(md5: Option<string>, identifier: Option<string>, fileType: Option<string>)

  /** The `KeyError` raised when an attachment lacks a field. */
  datatype MissingKey = MissingKey(key: string)

  /** The directory holding one kind of attachment. */
  function MediaDir(root: string, kind: MediaKind): string {
    Join(root, Subpath(kind))
  }

  /** The file named by a stem and an extension, in directory `dir`. */
  function MediaPath(dir: string, stem: string, ext: string): string {
    Join(dir, stem + "." + ext)
  }

  /** Renaming one attachment. The hash-named file is
      renamed to the identifier name when it exists; a destination that
      already exists is replaced, as `os.rename` does. */
  function RenameMedia(fs: FileSet, root: string, kind: MediaKind, a: Attachment, ext: string): (r: Result<FileSet, MissingKey>)
    ensures a.md5.None? ==> r == Failure(MissingKey("md5"))
    ensures a.md5.Some? && MediaPath(MediaDir(root, kind), a.md5.value, ext) !in fs ==> r == Success(fs)
    ensures a.md5.Some? && MediaPath(MediaDir(root, kind), a.md5.value, ext) in fs && a.identifier.None? ==>
              r == Failure(MissingKey("identifier"))
    ensures a.md5.Some? && a.identifier.Some? && r.Success? ==>
              var src := MediaPath(MediaDir(root, kind), a.md5.value, ext);
              var dst := MediaPath(MediaDir(root, kind), a.identifier.value, ext);
              && (src in fs ==> dst in r.value && (src != dst ==> src !in r.value))
              && (forall p :: p != src && p != dst ==> (p in r.value <==> p in fs))
    ensures r.Success? ==> |r.value| <= |fs|
    ensures r.Success? ==> forall p :: !InDir(p, MediaDir(root, kind)) ==> (p in r.value <==> p in fs)
  {
    match a.md5
    case None => Failure(MissingKey("md5"))
    case Some(hash) =>
      var src := MediaPath(MediaDir(root, kind), hash, ext);
      if src !in fs then Success(fs)
      else
        match a.identifier
        case None => Failure(MissingKey("identifier"))
        case Some(id) =>
          var dst := MediaPath(MediaDir(root, kind), id, ext);
          assert InDir(src, MediaDir(root, kind)) && InDir(dst, MediaDir(root, kind));
          assert |fs - {src}| == |fs| - 1;
          Success(fs - {src} + {dst})
  }

  /** Renaming is idempotent: once a rename has happened, repeating it changes
      nothing, which is why every run after the first leaves the media alone. */
  lemma RenameMediaIdempotent(fs: FileSet, root: string, kind: MediaKind, a: Attachment, ext: string)
    requires RenameMedia(fs, root, kind, a, ext).Success?
    ensures var fs' := RenameMedia(fs, root, kind, a, ext).value;
            RenameMedia(fs', root, kind, a, ext) == Success(fs')
  {
    var fs' := RenameMedia(fs, root, kind, a, ext).value;
    var src := MediaPath(MediaDir(root, kind), a.md5.value, ext);
    if src in fs {
      var dst := MediaPath(MediaDir(root, kind), a.identifier.value, ext);
      if src == dst {
        assert fs' == fs;
      }
    }
  }

  /** The extension passed to `rename_media`: audio is always `m4a`, every
      other kind reads the attachment's `type` key. */
  function Extension(kind: MediaKind, a: Attachment): (r: Option<string>)
    ensures kind == Audio ==> r == Some("m4a")
    ensures kind != Audio ==> r == a.fileType
  {
    if kind == Audio then Some("m4a") else a.fileType
  }

  /** The file set after renaming a list of attachments in order, and the
      `KeyError` that stopped the loop early, if any. */
  datatype Renamed = Renamed(fs: FileSet, failure: Option<MissingKey>)

  /** The loop over one media kind's attachments, renaming each in turn and
      stopping at the first missing key. Only files in that kind's folder are touched, and a
      rename never adds to the number of files. */
  function RenameAll(fs: FileSet, root: string, kind: MediaKind, items: seq<Attachment>): (r: Renamed)
    ensures |r.fs| <= |fs|
    ensures forall p :: !InDir(p, MediaDir(root, kind)) ==> (p in r.fs <==> p in fs)
    ensures r.failure.None? ==> forall i :: 0 <= i < |items| ==> Extension(kind, items[i]).Some? && items[i].md5.Some?
    decreases |items|
  {
    if |items| == 0 then Renamed(fs, None)
    else
      match Extension(kind, items[0])
      case None => Renamed(fs, Some(MissingKey("type")))
      case Some(ext) =>
        match RenameMedia(fs, root, kind, items[0], ext)
        case Failure(k) => Renamed(fs, Some(k))
        case Success(fs') => RenameAll(fs', root, kind, items[1..])
  }

  /** The audio loop passes the fixed extension `m4a` and never reads an
      attachment's `type`: two audio lists that agree on every hash and
      identifier rename the same files and stop at the same place, whatever
      their types say, even when a type is missing. */
  lemma {:induction false} AudioIgnoresType(fs: FileSet, root: string, items: seq<Attachment>, items': seq<Attachment>)
    requires |items| == |items'|
    requires forall i :: 0 <= i < |items| ==> items[i].md5 == items'[i].md5 && items[i].identifier == items'[i].identifier
    ensures RenameAll(fs, root, Audio, items) == RenameAll(fs, root, Audio, items')
    decreases |items|
  {
    if |items| > 0 {
      var a, a' := items[0], items'[0];
      assert RenameMedia(fs, root, Audio, a, "m4a") == RenameMedia(fs, root, Audio, a', "m4a");
      match RenameMedia(fs, root, Audio, a, "m4a")
      case Failure(_) =>
      case Success(fs') =>
        assert forall i :: 0 <= i < |items| - 1 ==> items[1..][i] == items[i + 1] && items'[1..][i] == items'[i + 1];
        AudioIgnoresType(fs', root, items[1..], items'[1..]);
    }
  }

  /** Every other kind reads `type`: an attachment without it stops that
      kind's loop with a `KeyError`, before its file is looked at. */
  lemma MissingTypeStops(fs: FileSet, root: string, kind: MediaKind, items: seq<Attachment>)
    requires kind != Audio && |items| > 0 && items[0].fileType.None?
    ensures RenameAll(fs, root, kind, items) == Renamed(fs, Some(MissingKey("type")))
  {
  }

  /** Renaming one attachment alone: the missing `type` of a kind that reads
      it, or the `KeyError` of `RenameMedia`, stops the loop with the file set
      as it was; otherwise the rename's result is the new file set. */
  lemma RenameAllOne(fs: FileSet, root: string, kind: MediaKind, a: Attachment)
    ensures var r := RenameAll(fs, root, kind, [a]);
            match Extension(kind, a)
            case None => r == Renamed(fs, Some(MissingKey("type")))
            case Some(ext) =>
              match RenameMedia(fs, root, kind, a, ext)
              case Failure(k) => r == Renamed(fs, Some(k))
              case Success(fs') => r == Renamed(fs', None)
  {
  }

  /** The loop over a list is the loop over its first part, then, unless
      that stopped with a `KeyError`, the loop over the rest from the file set
      the first part left. With `RenameAllOne` this pins the loop down to the
      renames of its attachments, one after another in list order. */
  lemma {:induction false} RenameAllAppend(fs: FileSet, root: string, kind: MediaKind, xs: seq<Attachment>, ys: seq<Attachment>)
    ensures var first := RenameAll(fs, root, kind, xs);
            RenameAll(fs, root, kind, xs + ys) == if first.failure.Some? then first else RenameAll(first.fs, root, kind, ys)
    decreases |xs|
  {
    if |xs| == 0 {
      assert xs + ys == ys;
    } else {
      assert (xs + ys)[0] == xs[0] && (xs + ys)[1..] == xs[1..] + ys;
      match Extension(kind, xs[0])
      case None =>
      case Some(ext) =>
        match RenameMedia(fs, root, kind, xs[0], ext)
        case Failure(_) =>
        case Success(fs') =>
          RenameAllAppend(fs', root, kind, xs[1..], ys);
    }
  }

  /** Every key the loop of `kind` reads from the attachment is present:
      `md5`, `identifier`, and `type` unless the kind is audio. */
  predicate WellFormed(kind: MediaKind, a: Attachment) {
    a.md5.Some? && a.identifier.Some? && Extension(kind, a).Some?
  }

  /** A list of well-formed attachments never raises: the loop completes.
      What each rename does is then given by `RenameAllAppend` and
      `WellFormedOneRenames`, attachment by attachment. */
  lemma {:induction false} WellFormedListCompletes(fs: FileSet, root: string, kind: MediaKind, items: seq<Attachment>)
    requires forall i :: 0 <= i < |items| ==> WellFormed(kind, items[i])
    ensures RenameAll(fs, root, kind, items).failure.None?
    decreases |items|
  {
    if |items| > 0 {
      var a := items[0];
      var ext := Extension(kind, a).value;
      var fs' := RenameMedia(fs, root, kind, a, ext).value;
      assert forall i :: 0 <= i < |items| - 1 ==> items[1..][i] == items[i + 1];
      WellFormedListCompletes(fs', root, kind, items[1..]);
    }
  }

  /** The loop over one well-formed attachment whose hash-named file exists
      moves that file to its identifier name. */
  lemma WellFormedOneRenames(fs: FileSet, root: string, kind: MediaKind, a: Attachment)
    requires WellFormed(kind, a)
    requires MediaPath(MediaDir(root, kind), a.md5.value, Extension(kind, a).value) in fs
    ensures var r := RenameAll(fs, root, kind, [a]);
            var dir := MediaDir(root, kind);
            var ext := Extension(kind, a).value;
            && r.failure.None?
            && MediaPath(dir, a.identifier.value, ext) in r.fs
            && (a.md5 != a.identifier ==> MediaPath(dir, a.md5.value, ext) !in r.fs)
  {
    RenameAllOne(fs, root, kind, a);
    var dir, ext := MediaDir(root, kind), Extension(kind, a).value;
    if MediaPath(dir, a.md5.value, ext) == MediaPath(dir, a.identifier.value, ext) {
      MediaPathInjective(dir, a.md5.value, a.identifier.value, ext);
    }
  }

  /** Different stems give different files. */
  lemma MediaPathInjective(dir: string, stem: string, stem': string, ext: string)
    requires MediaPath(dir, stem, ext) == MediaPath(dir, stem', ext)
    ensures stem == stem'
  {
    var p, p' := MediaPath(dir, stem, ext), MediaPath(dir, stem', ext);
    assert p == (dir + "/") + stem + ("." + ext);
    assert p' == (dir + "/") + stem' + ("." + ext);
    assert stem == p[|dir| + 1..|dir| + 1 + |stem|];
    assert stem' == p'[|dir| + 1..|dir| + 1 + |stem'|];
  }
}
