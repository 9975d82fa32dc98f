/**
 * The per-file record `getExtendedFile` builds: the discovered file, the
 * EXIF data if it could be parsed, the provenance tag of the filing date,
 * the diagnostics collected, and the filing date itself.
 *
 * The EXIF parser is a foreign callback; its outcome is an input here.
 */
module ExtendedFiles {
  import opened Wrappers

  /** A JavaScript `Date`, as milliseconds since the epoch. */
  datatype Instant = Instant(ms: int)

  /** The stat snapshot the discovery step attaches to a file. In Node `birthtime` is
      `new Date(birthtimeMs)`; here the two are separate fields, and no contract depends on
      the link between them. */
  datatype Stats = Stats(birthtime: Instant, birthtimeMs: int, btimeMs: int, mtimeMs: int, atimeMs: int)

  /** A discovered file: absolute path, base name and stats. */
  datatype FileEntry = FileEntry(path: string, name: string, stats: Stats)

  /** The five timestamp fields the date chain looks at; `None` is any absent value. */
  datatype ExifData = ExifData(
    createDate: Option<string>,         // exif.CreateDate
    dateTimeOriginal: Option<string>,   // exif.DateTimeOriginal
    dateTimeDigitized: Option<string>,  // exif.DateTimeDigitized
    imageModifyDate: Option<string>,    // image.ModifyDate
    imageCreateDate: Option<string>)    // image.CreateDate

  /** What became of the call to the EXIF parser. */
  datatype ExifOutcome =
    | Parsed(data: ExifData)      // the callback received data
    | ParseError(message: string) // the callback received an error
    | Threw(message: string)      // the parser's constructor threw

  /** Provenance of the filing date: `'exif'` or `'file.createdAt'`. */
  datatype DateSource = Exif | FileCreatedAt {
    function Tag(): (r: string) {
      match this
      case Exif => "exif"
      case FileCreatedAt => "file.createdAt"
    }
  }

  datatype ExtendedFile = ExtendedFile(
    path: string,
    name: string,
    stats: Stats,
    exifData: Option<ExifData>,
    filingDateSrc: DateSource,
    errorInfo: seq<string>,
    filingCreatedDate: Instant)

  /** JavaScript truthiness of an optional text: present and not the empty string. */
  predicate Truthy(v: Option<string>) {
    v.Some? && v.value != ""
  }

  /** The EXIF fields in the order the `||` chain tries them. */
  function Candidates(d: ExifData): (cs: seq<Option<string>>)
    ensures |cs| == 5
  {
    [d.createDate, d.dateTimeOriginal, d.dateTimeDigitized, d.imageModifyDate, d.imageCreateDate]
  }

  /** The value of `c0 || c1 || ...`, with every falsy result read as `None`. */
  function FirstTruthy(cs: seq<Option<string>>): (r: Option<string>)
  {
    if cs == [] then None
    else if Truthy(cs[0]) then cs[0]
    else FirstTruthy(cs[1..])
  }

  /** `exifCreateDate`: the first truthy field of the chain. */
  function ExifCreateDate(d: ExifData): (r: Option<string>) {
    FirstTruthy(Candidates(d))
  }

  /** The diagnostic pushed when the parser reports an error. */
  function ParseErrorMessage(path: string, message: string): (r: string) {
    "Error parsing EXIF data for \"" + path + "\". Using file date instead - " + message
  }

  /** The diagnostic pushed when the parser throws; the file object is interpolated, and
      a plain object renders as "[object Object]". */
  function ThrownMessage(message: string): (r: string) {
    ThrownPrefix + "[object Object]\". Using file created date instead - " + message
  }

  /** `getExtendedFile`, as written: the resolved record for `file` given the parser's outcome.
      The object spread at the resolve calls puts back the local `filingCreatedDate`, so the
      filing date is the birth time in every branch. */
  function GetExtendedFile(file: FileEntry, exif: ExifOutcome): (r: ExtendedFile)
    ensures r.path == file.path && r.name == file.name && r.stats == file.stats
    ensures r.filingDateSrc == Exif <==> exif.Parsed? && ExifCreateDate(exif.data).Some?
    ensures r.filingCreatedDate == file.stats.birthtime
    ensures r.exifData.Some? <==> exif.Parsed?
    ensures exif.Parsed? ==> r.exifData == Some(exif.data) && r.errorInfo == []
    ensures exif.ParseError? ==> r.errorInfo == [ParseErrorMessage(file.path, exif.message)]
    ensures exif.Threw? ==> r.errorInfo == [ThrownMessage(exif.message)]
  {
    match exif
    case ParseError(msg) =>
      ExtendedFile(file.path, file.name, file.stats, None, FileCreatedAt,
                   [ParseErrorMessage(file.path, msg)], file.stats.birthtime)
    case Parsed(data) =>
      var src := if ExifCreateDate(data).Some? then Exif else FileCreatedAt;
      ExtendedFile(file.path, file.name, file.stats, Some(data), src, [], file.stats.birthtime)
    case Threw(msg) =>
      ExtendedFile(file.path, file.name, file.stats, None, FileCreatedAt,
                   [ThrownMessage(msg)], file.stats.birthtime)
  }

  /** `FirstTruthy` picks the first truthy candidate: it returns `v` exactly when some
      candidate is truthy with value `v` and every earlier one is falsy. */
  lemma {:induction false} FirstTruthySpec(cs: seq<Option<string>>, v: string)
    ensures FirstTruthy(cs) == Some(v) <==>
      exists i :: 0 <= i < |cs| && Truthy(cs[i]) && cs[i].value == v
                  && forall j :: 0 <= j < i ==> !Truthy(cs[j])
  {
    if cs != [] {
      FirstTruthySpec(cs[1..], v);
      if FirstTruthy(cs) == Some(v) {
        if !Truthy(cs[0]) {
          var i :| 0 <= i < |cs[1..]| && Truthy(cs[1..][i]) && cs[1..][i].value == v
                   && forall j :: 0 <= j < i ==> !Truthy(cs[1..][j]);
          assert forall j :: 0 <= j < i + 1 ==> !Truthy(cs[j]) by {
            forall j | 0 <= j < i + 1 ensures !Truthy(cs[j]) {
              if j > 0 { assert cs[j] == cs[1..][j - 1]; }
            }
          }
          assert cs[i + 1] == cs[1..][i];
        }
      } else {
        forall i | 0 <= i < |cs| && Truthy(cs[i]) && cs[i].value == v
          ensures exists j :: 0 <= j < i && Truthy(cs[j])
        {
          if i == 0 {
            assert false;
          } else if !Truthy(cs[0]) {
            assert cs[i] == cs[1..][i - 1];
            var j :| 0 <= j < i - 1 && Truthy(cs[1..][j]);
            assert cs[j + 1] == cs[1..][j];
          } else {
            assert Truthy(cs[0]);
          }
        }
      }
    }
  }

  /** No truthy candidate means the chain is falsy. */
  lemma {:induction false} FirstTruthyNone(cs: seq<Option<string>>)
    ensures FirstTruthy(cs).None? <==> forall j :: 0 <= j < |cs| ==> !Truthy(cs[j])
  {
    if cs != [] {
      FirstTruthyNone(cs[1..]);
      assert forall j :: 1 <= j < |cs| ==> cs[j] == cs[1..][j - 1];
    }
  }

  /** The provenance is `'exif'` exactly when parsing succeeded and one of the five fields is
      truthy; the tag is then the first truthy field in the order CreateDate,
      DateTimeOriginal, DateTimeDigitized, image.ModifyDate, image.CreateDate. */
  lemma ProvenanceIsExif(file: FileEntry, exif: ExifOutcome)
    ensures GetExtendedFile(file, exif).filingDateSrc.Tag() == "exif" <==>
      exif.Parsed? && exists j :: 0 <= j < 5 && Truthy(Candidates(exif.data)[j])
    ensures GetExtendedFile(file, exif).filingDateSrc.Tag() == "file.createdAt" <==>
      !exif.Parsed? || forall j :: 0 <= j < 5 ==> !Truthy(Candidates(exif.data)[j])
  {
    if exif.Parsed? {
      FirstTruthyNone(Candidates(exif.data));
    }
  }

  /** The intended filing date: the first truthy EXIF field when parsing
      succeeded, the birth time otherwise. */
  datatype FilingDate = FromExif(text: string) | FromBirthtime(date: Instant)

  function IntendedFilingDate(file: FileEntry, exif: ExifOutcome): (d: FilingDate)
    ensures d.FromBirthtime? ==> d.date == file.stats.birthtime
    ensures d.FromExif? <==> GetExtendedFile(file, exif).filingDateSrc == Exif
    ensures d.FromExif? ==> exif.Parsed? && Some(d.text) == ExifCreateDate(exif.data)
  {
    if exif.Parsed? && ExifCreateDate(exif.data).Some? then FromExif(ExifCreateDate(exif.data).value)
    else FromBirthtime(file.stats.birthtime)
  }

  /** An EXIF capture date wins over the birth time in the intended resolution, with the
      first truthy field in chain order. */
  lemma IntendedDateFollowsChain(file: FileEntry, data: ExifData, i: nat)
    requires i < 5 && Truthy(Candidates(data)[i])
    requires forall j :: 0 <= j < i ==> !Truthy(Candidates(data)[j])
    ensures IntendedFilingDate(file, Parsed(data)) == FromExif(Candidates(data)[i].value)
  {
    FirstTruthySpec(Candidates(data), Candidates(data)[i].value);
  }

  /** As written, a file whose EXIF CreateDate says 2021-05-03 and whose birth time is
      2023-01-01 is tagged `'exif'` yet filed under its birth time. */
  lemma ExifDateNotUsedForFiling()
    ensures
      var birth := Instant(1672531200000);
      var file := FileEntry("/src/photo.jpg", "photo.jpg", Stats(birth, 1672531200000, 0, 1672531200000, 1672531200000));
      var data := ExifData(Some("2021:05:03 10:00:00"), None, None, None, None);
      var r := GetExtendedFile(file, Parsed(data));
      r.filingDateSrc == Exif && r.filingCreatedDate == birth
      && IntendedFilingDate(file, Parsed(data)) == FromExif("2021:05:03 10:00:00")
  {
  }

  /** The opening of the diagnostic pushed when the parser throws. */
  const ThrownPrefix := "No EXIF data for \""

  /** As written, the diagnostic of a throwing parser does not say which file it was about:
      two different files get the same text. */
  lemma ThrownMessageHidesPath(a: FileEntry, b: FileEntry, message: string)
    ensures GetExtendedFile(a, Threw(message)).errorInfo == GetExtendedFile(b, Threw(message)).errorInfo
  {
  }

  /** The intended diagnostic when the parser throws, naming the file's path as the
      parse-error diagnostic does. */
  function IntendedThrownMessage(path: string, message: string): (t: string)
    ensures |ThrownPrefix| + |path| <= |t|
    ensures t[..|ThrownPrefix|] == ThrownPrefix
    ensures t[|ThrownPrefix|..|ThrownPrefix| + |path|] == path
  {
    var t := ThrownPrefix + path + "\". Using file created date instead - " + message;
    assert t == ThrownPrefix + (path + ("\". Using file created date instead - " + message));
    t
  }

  /** The discovery pass: each file, in order, replaced by its extended record. */
  method GetFilesInfo(files: seq<FileEntry>, exif: seq<ExifOutcome>) returns (extended: seq<ExtendedFile>)
    requires |exif| == |files|
    ensures |extended| == |files|
    ensures forall i :: 0 <= i < |files| ==> extended[i] == GetExtendedFile(files[i], exif[i])
  {
    extended := [];
    for i := 0 to |files|
      invariant |extended| == i
      invariant forall k :: 0 <= k < i ==> extended[k] == GetExtendedFile(files[k], exif[k])
    {
      extended := extended + [GetExtendedFile(files[i], exif[i])];
    }
  }
}
