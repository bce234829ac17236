/** The upload configuration of server.js: the mimetype allowlist of the file
    filter, the size limit, and the shape of the generated file name. The
    clock value and the random number of the name's suffix are parameters. */
module Upload {
  import opened Common
  import opened Text

  /** The mimetypes the file filter accepts. */
  const AllowedTypes: seq<string> := [
    "video/mp4", "video/avi", "video/mov", "video/wmv", "video/flv", "video/webm",
    "application/pdf", "application/msword",
    "application/vnd.openxmlformats-officedocument.wordprocessingml.document",
    "image/jpeg", "image/png", "image/gif", "image/webp",
    "audio/mp3", "audio/wav", "audio/mpeg", "audio/ogg"]

  /** The upload size limit: 100 MiB. */
  const MaxFileSize: nat := 100 * 1024 * 1024

  lemma MaxFileSizeValue()
    ensures MaxFileSize == 104857600
  {
  }

  /** The reasons multer refuses a file. */
  datatype UploadError = InvalidFileType | FileTooLarge

  /** The message the client receives for each reason. */
  function ErrorMessage(e: UploadError): string {
    match e
    case InvalidFileType => "Invalid file type"
    case FileTooLarge => "File too large"
  }

  /** An incoming file part. */
  datatype IncomingFile = IncomingFile(fieldname: string, originalname: string, mimetype: string, size: nat)

  /** `fileFilter`, then the size limit: the filter runs first, so a file of a
      refused type is reported as such whatever its size. */
  function CheckFile(f: IncomingFile): (r: Option<UploadError>)
    ensures r == Some(InvalidFileType) <==> f.mimetype !in AllowedTypes
    ensures r == Some(FileTooLarge) <==> f.mimetype in AllowedTypes && f.size > MaxFileSize
    ensures r.None? <==> f.mimetype in AllowedTypes && f.size <= MaxFileSize
  {
    if f.mimetype !in AllowedTypes then Some(InvalidFileType)
    else if f.size > MaxFileSize then Some(FileTooLarge)
    else None
  }

  /** The accepted mimetypes are exactly seventeen distinct ones, and none
      outside the video, application, image and audio families. */
  lemma AllowedTypesShape()
    ensures |AllowedTypes| == 17
    ensures forall i, j :: 0 <= i < j < |AllowedTypes| ==> AllowedTypes[i] != AllowedTypes[j]
    ensures "text/html" !in AllowedTypes && "application/octet-stream" !in AllowedTypes
  {
  }

  /** The part of a path after its last '/'. */
  function Basename(p: string): (r: string)
    ensures |r| <= |p| && r == p[|p| - |r|..]
    ensures forall i :: 0 <= i < |r| ==> r[i] != '/'
  {
    if p == [] then []
    else if p[|p| - 1] == '/' then []
    else Basename(p[..|p| - 1]) + [p[|p| - 1]]
  }

  /** The position of the last '.' of `s`, if any. */
  function LastDot(s: string): (r: Option<nat>)
    ensures r.Some? ==> r.value < |s| && s[r.value] == '.'
    ensures r.Some? ==> forall j :: r.value < j < |s| ==> s[j] != '.'
    ensures r.None? ==> forall j :: 0 <= j < |s| ==> s[j] != '.'
  {
    if s == [] then None
    else if s[|s| - 1] == '.' then Some(|s| - 1)
    else LastDot(s[..|s| - 1])
  }

  /** `path.extname`: from the last '.' of the base name to its end; empty when
      the base name has no '.', or only a leading one, or is "..". */
  function Extname(p: string): (r: string)
    ensures r == [] || (r[0] == '.' && forall i :: 1 <= i < |r| ==> r[i] != '.' && r[i] != '/')
  {
    var b := Basename(p);
    var d := LastDot(b);
    if d.None? || d.value == 0 || b == ".." then [] else b[d.value..]
  }

  /** The unique part of a stored name: the clock value, '-', the random number. */
  function UniqueSuffix(now: nat, random: nat): (r: string)
    ensures |r| >= 3
  {
    NatToString(now) + "-" + NatToString(random)
  }

  /** The stored file name: field name, '-', the unique suffix, then the
      original extension. */
  function Filename(f: IncomingFile, now: nat, random: nat): string {
    (f.fieldname + "-") + (UniqueSuffix(now, random) + Extname(f.originalname))
  }

  /** Reads the "now-random" stamp at the start of a name's suffix. */
  function ReadStamp(s: string): Option<(nat, nat)> {
    var a := DigitPrefixLen(s);
    if a == 0 || a == |s| || s[a] != '-' then None
    else
      var rest := s[a + 1..];
      var b := DigitPrefixLen(rest);
      if b == 0 then None else Some((DigitsValue(s[..a]), DigitsValue(rest[..b])))
  }

  /** Two digit runs joined by '-' and followed by a non-digit read back as a stamp. */
  lemma {:induction false} ReadStampOfDigits(n: string, m: string, e: string)
    requires n != [] && m != [] && AllDigits(n) && AllDigits(m)
    requires e == [] || !IsDigit(e[0])
    ensures ReadStamp(n + "-" + m + e) == Some((DigitsValue(n), DigitsValue(m)))
  {
    var s := n + "-" + m + e;
    DashPieces(n, m, e);
    DigitPrefixOfDigits(n, "-" + m + e);
    DigitPrefixOfDigits(m, e);
    assert (m + e)[..|m|] == m;
    ReadStampAt(s, |n|, |m|);
  }

  /** The pieces of "n-me" around its first dash. */
  lemma DashPieces(n: string, m: string, e: string)
    ensures var s := n + "-" + m + e;
      s == n + ("-" + m + e) && s[..|n|] == n && s[|n|] == '-' && s[|n| + 1..] == m + e
  {
    var s := n + "-" + m + e;
    assert s == n + ("-" + m + e);
    assert s[|n| + 1..] == m + e;
  }

  /** A digit run of length `a`, a dash, and a digit run of length `b`. */
  lemma ReadStampAt(s: string, a: nat, b: nat)
    requires DigitPrefixLen(s) == a > 0 && a < |s| && s[a] == '-' && DigitPrefixLen(s[a + 1..]) == b > 0
    ensures ReadStamp(s) == Some((DigitsValue(s[..a]), DigitsValue(s[a + 1..][..b])))
  {
  }

  /** After the field name and its '-', the name carries the clock value and the
      random number, so two names for the same field differ whenever their stamps do. */
  lemma FilenameCarriesStamp(f: IncomingFile, now: nat, random: nat)
    ensures |Filename(f, now, random)| > |f.fieldname|
    ensures Filename(f, now, random)[..|f.fieldname| + 1] == f.fieldname + "-"
    ensures ReadStamp(Filename(f, now, random)[|f.fieldname| + 1..]) == Some((now, random))
  {
    var n, m, e := NatToString(now), NatToString(random), Extname(f.originalname);
    PrefixAndDash(f.fieldname, UniqueSuffix(now, random) + e);
    assert UniqueSuffix(now, random) + e == n + "-" + m + e;
    assert e == [] || !IsDigit(e[0]);
    ReadStampOfDigits(n, m, e);
    DigitsOfNat(now);
    DigitsOfNat(random);
  }

  lemma PrefixAndDash(a: string, t: string)
    ensures ((a + "-") + t)[..|a| + 1] == a + "-"
    ensures ((a + "-") + t)[|a| + 1..] == t
  {
  }

  lemma FilenameInjective(f: IncomingFile, now1: nat, random1: nat, now2: nat, random2: nat)
    requires Filename(f, now1, random1) == Filename(f, now2, random2)
    ensures now1 == now2 && random1 == random2
  {
    FilenameCarriesStamp(f, now1, random1);
    FilenameCarriesStamp(f, now2, random2);
  }
}
