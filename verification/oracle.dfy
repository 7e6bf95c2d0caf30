/**
 The operating system and the metadata decoders, as the organiser sees them.
 Every answer the system gives may depend on the operations issued before it,
 so renames that overwrite, collide or race are all covered without the model
 choosing a semantics for them.
 */
module Oracle {
  import opened Wrappers
  import opened Paths
  import opened Timestamps
  import opened Classifier

  type Blob = seq<bv8>

  /** The text of an error returned by the OS or by a decoder. */
  type OsError = string

  /** The filesystem-changing calls the organiser makes. */
  datatype Op = Rename(src: Path, dst: Path) | MkdirAll(dir: Path)

  /** The operations issued so far in one run, oldest first. */
  type History = seq<Op>

  /** What exif.Decode yields: a record whose DateTime() may itself fail. */
  datatype ExifInfo = ExifInfo(dateTime: Result<Timestamp, OsError>)

  /**
   os.Stat, the contents read through os.Open, heif.Open(...).EXIF(), exif.Decode,
   and the outcome of os.Rename / os.MkdirAll (None is success).
   */
  datatype World = World(
    stat: (History, Path) -> Result<Kind, OsError>,
    open: (History, Path) -> Result<Blob, OsError>,
    heifExif: Blob -> Result<Blob, OsError>,
    exifDecode: Blob -> Result<ExifInfo, OsError>,
    perform: (History, Op) -> Option<OsError>)

  /** Where getPhotoTakenTime gave up. */
  datatype ExtractError =
    | OpenFailed(cause: OsError)
    | HeifFailed(cause: OsError)
    | DecodeFailed(cause: OsError)
    | DateTimeFailed(cause: OsError)

  /** The EXIF decoder and DateTime() applied to a block of bytes. */
  function DecodeTakenTime(w: World, data: Blob): Result<Timestamp, ExtractError> {
    match w.exifDecode(data)
    case Failure(e) => Failure(DecodeFailed(e))
    case Success(info) =>
      match info.dateTime
      case Failure(e) => Failure(DateTimeFailed(e))
      case Success(t) => Success(t)
  }

  /** getPhotoTakenTime: ".heic" files are unwrapped to their EXIF block first; all others are decoded as read. */
  function PhotoTakenTime(w: World, h: History, p: Path): (r: Result<Timestamp, ExtractError>)
    ensures w.open(h, p).Failure? ==> r == Failure(OpenFailed(w.open(h, p).error))
    ensures r.Success? ==> w.open(h, p).Success?
    ensures r.Success? && LowerCaseExt(p) != ".heic" ==>
      w.exifDecode(w.open(h, p).value) == Success(ExifInfo(Success(r.value)))
    ensures r.Success? && LowerCaseExt(p) == ".heic" ==>
      && w.heifExif(w.open(h, p).value).Success?
      && w.exifDecode(w.heifExif(w.open(h, p).value).value) == Success(ExifInfo(Success(r.value)))
    ensures r.Failure? && r.error.HeifFailed? ==> LowerCaseExt(p) == ".heic"
  {
    match w.open(h, p)
    case Failure(e) => Failure(OpenFailed(e))
    case Success(bytes) =>
      if LowerCaseExt(p) == ".heic" then
        match w.heifExif(bytes)
        case Failure(e) => Failure(HeifFailed(e))
        case Success(block) => DecodeTakenTime(w, block)
      else DecodeTakenTime(w, bytes)
  }

  /**
   The converse of PhotoTakenTime's contract: once the bytes are read, the
   outcome is the one the unwrapper and the decoder give, a time they yield
   included.
   */
  lemma TakenTimeOfDecoded(w: World, h: History, p: Path, t: Timestamp)
    ensures
      && w.open(h, p).Success?
      && LowerCaseExt(p) != ".heic"
      && w.exifDecode(w.open(h, p).value) == Success(ExifInfo(Success(t)))
      ==> PhotoTakenTime(w, h, p) == Success(t)
    ensures
      && w.open(h, p).Success?
      && LowerCaseExt(p) == ".heic"
      && w.heifExif(w.open(h, p).value).Success?
      && w.exifDecode(w.heifExif(w.open(h, p).value).value) == Success(ExifInfo(Success(t)))
      ==> PhotoTakenTime(w, h, p) == Success(t)
    ensures
      && w.open(h, p).Success?
      && LowerCaseExt(p) != ".heic"
      && w.exifDecode(w.open(h, p).value).Failure?
      ==> PhotoTakenTime(w, h, p) == Failure(DecodeFailed(w.exifDecode(w.open(h, p).value).error))
    ensures
      && w.open(h, p).Success?
      && LowerCaseExt(p) != ".heic"
      && w.exifDecode(w.open(h, p).value).Success?
      && w.exifDecode(w.open(h, p).value).value.dateTime.Failure?
      ==> PhotoTakenTime(w, h, p) == Failure(DateTimeFailed(w.exifDecode(w.open(h, p).value).value.dateTime.error))
    ensures
      && w.open(h, p).Success?
      && LowerCaseExt(p) == ".heic"
      && w.heifExif(w.open(h, p).value).Success?
      && w.exifDecode(w.heifExif(w.open(h, p).value).value).Failure?
      ==> PhotoTakenTime(w, h, p) == Failure(DecodeFailed(w.exifDecode(w.heifExif(w.open(h, p).value).value).error))
    ensures
      && w.open(h, p).Success?
      && LowerCaseExt(p) == ".heic"
      && w.heifExif(w.open(h, p).value).Success?
      && w.exifDecode(w.heifExif(w.open(h, p).value).value).Success?
      && w.exifDecode(w.heifExif(w.open(h, p).value).value).value.dateTime.Failure?
      ==> PhotoTakenTime(w, h, p) == Failure(DateTimeFailed(w.exifDecode(w.heifExif(w.open(h, p).value).value).value.dateTime.error))
  {
  }

  /** Only ".heic" files (in any case) go through the HEIF unwrapper; for every other file it is irrelevant. */
  lemma HeifOnlyForHeic(w: World, h: History, p: Path, other: Blob -> Result<Blob, OsError>)
    requires LowerCaseExt(p) != ".heic"
    ensures PhotoTakenTime(w.(heifExif := other), h, p) == PhotoTakenTime(w, h, p)
  {
  }

  /** A ".heic" file whose container yields no EXIF block fails there, whatever the EXIF decoder would say. */
  lemma HeicWithoutExifFails(w: World, h: History, p: Path)
    requires LowerCaseExt(p) == ".heic"
    requires w.open(h, p).Success? && w.heifExif(w.open(h, p).value).Failure?
    ensures PhotoTakenTime(w, h, p) == Failure(HeifFailed(w.heifExif(w.open(h, p).value).error))
  {
  }

  /** The operations in ops all succeeded, each in the history of those before it. */
  predicate Succeeded(w: World, ops: History) {
    forall i :: 0 <= i < |ops| ==> w.perform(ops[..i], ops[i]).None?
  }
}
