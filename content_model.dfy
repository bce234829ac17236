/** The Content schema (models/Content.js): the type enumeration, the required
    paths (the `url` of a link, the `filePath` of a file), and the defaults
    applied when a document is validated. A path left out of the input is
    `None`; Mongoose's `required` also rejects an empty string. */
module ContentModel {
  import opened Common

  datatype ContentType = Video | Document | Image | Audio | Link

  /** The string stored for each type. */
  function TypeName(t: ContentType): string {
    match t
    case Video => "video"
    case Document => "document"
    case Image => "image"
    case Audio => "audio"
    case Link => "link"
  }

  /** The enum validator: exactly the five names are accepted. */
  function ParseType(name: string): (r: Option<ContentType>)
    ensures r.Some? ==> TypeName(r.value) == name
  {
    if name == "video" then Some(Video)
    else if name == "document" then Some(Document)
    else if name == "image" then Some(Image)
    else if name == "audio" then Some(Audio)
    else if name == "link" then Some(Link)
    else None
  }

  lemma ParseTypeName(t: ContentType)
    ensures ParseType(TypeName(t)) == Some(t)
  {
  }

  /** `url` is required for a link. */
  predicate UrlRequired(t: ContentType) {
    t == Link
  }

  /** `filePath` is required for the four file types. */
  predicate FilePathRequired(t: ContentType) {
    t in {Video, Document, Image, Audio}
  }

  /** Every type requires exactly one of `url` and `filePath`. */
  lemma ExactlyOneLocation(t: ContentType)
    ensures UrlRequired(t) <==> !FilePathRequired(t)
  {
  }

  /** The fields of a content document as given to the model constructor. */
  datatype ContentInput = ContentInput(
    title: Option<string>,
    ctype: Option<string>,
    url: Option<string>,
    filePath: Option<string>,
    fileName: Option<string>,
    fileSize: Option<int>,
    mimeType: Option<string>,
    description: Option<string>,
    instructor: Option<Id>,
    isPublic: Option<bool>,
    allowedStudents: seq<Id>,
    tags: seq<string>)

  /** A validated content document. `isPublished` and `category` are not paths
      of the schema; they stand for what the listing route filters on. */
  datatype Content = Content(
    title: string,
    ctype: ContentType,
    url: Option<string>,
    filePath: Option<string>,
    fileName: Option<string>,
    fileSize: Option<int>,
    mimeType: Option<string>,
    description: Option<string>,
    instructor: Id,
    isPublic: bool,
    allowedStudents: seq<Id>,
    tags: seq<string>,
    isPublished: bool,
    category: Option<string>)

  /** A required string path: present and not empty. */
  predicate Present(s: Option<string>) {
    s.Some? && s.value != ""
  }

  /** The document passes the schema's validators. */
  predicate ValidInput(d: ContentInput) {
    Present(d.title) && Present(d.ctype) && ParseType(d.ctype.value).Some?
    && (UrlRequired(ParseType(d.ctype.value).value) ==> Present(d.url))
    && (FilePathRequired(ParseType(d.ctype.value).value) ==> Present(d.filePath))
    && d.instructor.Some?
  }

  /** Validating (and saving) a document: a validation error is thrown when a
      required path is missing or the type is not in the enumeration; otherwise
      the defaults apply. */
  function Validate(d: ContentInput): (r: Result<Content>)
    ensures r.Ok? <==> ValidInput(d)
    ensures r.Fail? ==> r.status == ServerError
    ensures r.Ok? ==> r.value.title == d.title.value && TypeName(r.value.ctype) == d.ctype.value
    ensures r.Ok? ==> r.value.instructor == d.instructor.value
    ensures r.Ok? ==> r.value.isPublic == (d.isPublic.Some? && d.isPublic.value)
    ensures r.Ok? && r.value.ctype == Link ==> Present(r.value.url)
    ensures r.Ok? && r.value.ctype != Link ==> Present(r.value.filePath)
  {
    if !ValidInput(d) then Fail(ServerError)
    else
      var t := ParseType(d.ctype.value).value;
      Ok(Content(d.title.value, t, d.url, d.filePath, d.fileName, d.fileSize, d.mimeType, d.description,
                 d.instructor.value, if d.isPublic.Some? then d.isPublic.value else false,
                 d.allowedStudents, d.tags, false, None))
  }
}
