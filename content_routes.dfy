/** The handlers of routes/content.js: the upload with its checks and the
    document it builds, creation, the listings, the access rule of a single
    item, the owner guards of update, assign and delete, and the order in which
    the GET routes are registered. */
module ContentRoutes {
  import opened Common
  import opened ContentModel
  import opened Upload
  import opened Routing

  // ---------------------------------------------------------------- upload

  /** A list-valued form field, sent as JSON text: absent, parsed, or text
      that `JSON.parse` rejects. */
  datatype FormList = Absent | Parsed(items: seq<string>) | Malformed

  /** The form fields of an upload request. */
  datatype UploadBody = UploadBody(
    title: Option<string>,
    ctype: Option<string>,
    description: Option<string>,
    tags: FormList,
    allowedStudents: FormList,
    url: Option<string>)

  /** What becomes of a request: an answer, or none at all. */
  datatype Outcome<T> = Answered(result: Result<T>) | NoAnswer

  /** A list field's value: an absent field is the empty list. */
  function ListValue(l: FormList): (r: Option<seq<string>>)
    ensures r.None? <==> l.Malformed?
    ensures l.Absent? ==> r == Some([])
    ensures l.Parsed? ==> r == Some(l.items)
  {
    match l
    case Absent => Some([])
    case Parsed(items) => Some(items)
    case Malformed => None
  }

  /** Where the stored file lands: the uploads directory and the generated name. */
  function StoredPath(uploadsDir: string, f: IncomingFile, now: nat, random: nat): string {
    uploadsDir + "/" + Filename(f, now, random)
  }

  /** The document an upload builds: a link keeps the posted url, any other
      type the stored file's path, original name, size and mimetype. */
  function UploadData(body: UploadBody, file: Option<IncomingFile>, user: Id, path: string): (d: ContentInput)
    requires body.ctype.Some? && (body.ctype.value != "link" ==> file.Some?)
    requires ListValue(body.tags).Some? && ListValue(body.allowedStudents).Some?
    ensures d.title == body.title && d.ctype == body.ctype && d.instructor == Some(user)
    ensures d.tags == ListValue(body.tags).value && d.allowedStudents == ListValue(body.allowedStudents).value
    ensures body.ctype.value == "link" ==> d.url == body.url && d.filePath.None?
    ensures body.ctype.value != "link" ==> d.url.None? && d.filePath == Some(path)
    ensures body.ctype.value != "link" ==> d.fileName == Some(file.value.originalname)
    ensures body.ctype.value != "link" ==> d.fileSize == Some(file.value.size) && d.mimeType == Some(file.value.mimetype)
  {
    if body.ctype.value == "link" then
      ContentInput(body.title, body.ctype, body.url, None, None, None, None, body.description,
                   Some(user), None, ListValue(body.allowedStudents).value, ListValue(body.tags).value)
    else
      ContentInput(body.title, body.ctype, None, Some(path), Some(file.value.originalname),
                   Some(file.value.size), Some(file.value.mimetype), body.description,
                   Some(user), None, ListValue(body.allowedStudents).value, ListValue(body.tags).value)
  }

  /** The checks the handler makes itself before building the document. */
  function UploadRefusal(body: UploadBody, file: Option<IncomingFile>): (r: Option<Status>)
    ensures r.None? <==> ((file.Some? ==> CheckFile(file.value).None?)
      && Present(body.title) && Present(body.ctype) && (body.ctype.value != "link" ==> file.Some?))
    ensures r.Some? ==> r.value == BadRequest
  {
    if file.Some? && CheckFile(file.value).Some? then Some(BadRequest)
    else if !Present(body.title) || !Present(body.ctype) then Some(BadRequest)
    else if body.ctype.value != "link" && file.None? then Some(BadRequest)
    else None
  }

  /** POST /upload as written: everything after multer's callback starts runs
      outside the handler's try/catch, so a list field `JSON.parse` rejects or
      a document the schema rejects leaves the request without an answer. */
  function UploadAsWritten(body: UploadBody, file: Option<IncomingFile>, user: Id,
                           uploadsDir: string, now: nat, random: nat): (r: Outcome<Content>)
    ensures UploadRefusal(body, file).Some? ==> r == Answered(Fail(BadRequest))
    ensures r.NoAnswer? <==> (UploadRefusal(body, file).None?
      && (ListValue(body.tags).None? || ListValue(body.allowedStudents).None?
          || Validate(UploadData(body, file, user, if file.Some? then StoredPath(uploadsDir, file.value, now, random) else "")).Fail?))
  {
    if UploadRefusal(body, file).Some? then Answered(Fail(BadRequest))
    else if ListValue(body.tags).None? || ListValue(body.allowedStudents).None? then NoAnswer
    else
      var path := if file.Some? then StoredPath(uploadsDir, file.value, now, random) else "";
      match Validate(UploadData(body, file, user, path))
      case Ok(c) => Answered(Ok(c))
      case Fail(_) => NoAnswer
  }

  /** A link upload without a url passes the handler's checks, is refused by
      the schema, and is never answered. */
  lemma UploadAsWrittenUnanswered()
    ensures UploadAsWritten(UploadBody(Some("Notes"), Some("link"), None, Absent, Absent, None),
                            None, "instructor", "uploads", 0, 0) == NoAnswer
  {
    var body := UploadBody(Some("Notes"), Some("link"), None, Absent, Absent, None);
    assert UploadRefusal(body, None).None?;
    assert !ValidInput(UploadData(body, None, "instructor", ""));
  }

  /** POST /upload, every path answered: the failures that escaped the
      handler's try/catch answer 500, as its catch clause does. */
  function UploadResponse(body: UploadBody, file: Option<IncomingFile>, user: Id,
                          uploadsDir: string, now: nat, random: nat): (r: Result<Content>)
    ensures UploadRefusal(body, file).Some? ==> r == Fail(BadRequest)
    ensures r.Fail? ==> r.status == BadRequest || r.status == ServerError
    ensures r.Ok? ==> UploadRefusal(body, file).None?
    ensures r.Ok? ==> r.value.title == body.title.value && TypeName(r.value.ctype) == body.ctype.value
    ensures r.Ok? ==> r.value.instructor == user && !r.value.isPublic
    ensures r.Ok? ==> ListValue(body.tags).Some? && ListValue(body.allowedStudents).Some?
    ensures r.Ok? ==> r.value.tags == ListValue(body.tags).value
    ensures r.Ok? ==> r.value.allowedStudents == ListValue(body.allowedStudents).value
    ensures r.Ok? && r.value.ctype == Link ==> r.value.url == body.url && Present(body.url) && r.value.filePath.None?
    ensures r.Ok? && r.value.ctype != Link ==> file.Some?
    ensures r.Ok? && r.value.ctype != Link ==> r.value.filePath == Some(StoredPath(uploadsDir, file.value, now, random))
    ensures r.Ok? && r.value.ctype != Link ==> r.value.fileName == Some(file.value.originalname)
    ensures r.Ok? && r.value.ctype != Link ==> r.value.fileSize == Some(file.value.size) && r.value.mimeType == Some(file.value.mimetype)
    ensures UploadAsWritten(body, file, user, uploadsDir, now, random).NoAnswer? ==> r == Fail(ServerError)
    ensures r.Ok? ==> UploadAsWritten(body, file, user, uploadsDir, now, random) == Answered(r)
  {
    match UploadAsWritten(body, file, user, uploadsDir, now, random)
    case Answered(res) => res
    case NoAnswer => Fail(ServerError)
  }

  /** An upload of a file type the filter accepts, within the size limit, with
      a title and a valid file type, is stored. */
  lemma UploadOfAcceptedFile(body: UploadBody, f: IncomingFile, user: Id, uploadsDir: string, now: nat, random: nat)
    requires CheckFile(f).None?
    requires Present(body.title) && Present(body.ctype)
    requires ParseType(body.ctype.value).Some? && body.ctype.value != "link"
    requires !body.tags.Malformed? && !body.allowedStudents.Malformed?
    ensures UploadResponse(body, Some(f), user, uploadsDir, now, random).Ok?
  {
    var path := StoredPath(uploadsDir, f, now, random);
    assert Present(UploadData(body, Some(f), user, path).filePath);
  }

  // ---------------------------------------------------------------- access

  predicate IsHexDigit(c: char) {
    ('0' <= c <= '9') || ('a' <= c <= 'f') || ('A' <= c <= 'F')
  }

  /** A path parameter that casts to an ObjectId: 24 hexadecimal digits. */
  predicate IsObjectIdText(s: string) {
    |s| == 24 && forall i :: 0 <= i < |s| ==> IsHexDigit(s[i])
  }

  /** The access rule of GET /:id: the owner or a student the item is assigned to. */
  predicate MayAccess(c: Content, user: Id) {
    c.instructor == user || user in c.allowedStudents
  }

  /** The refusal shared by update, assign and delete: 500 for an id that does
      not cast, 404 for no such item, 403 for anyone but its instructor. */
  function OwnerRefusal(contents: map<Id, Content>, id: Id, user: Id): (r: Option<Status>)
    ensures r.None? <==> IsObjectIdText(id) && id in contents && contents[id].instructor == user
    ensures !IsObjectIdText(id) ==> r == Some(ServerError)
    ensures IsObjectIdText(id) && id !in contents ==> r == Some(NotFound)
    ensures IsObjectIdText(id) && id in contents && contents[id].instructor != user ==> r == Some(Forbidden)
  {
    if !IsObjectIdText(id) then Some(ServerError)
    else if id !in contents then Some(NotFound)
    else if contents[id].instructor != user then Some(Forbidden)
    else None
  }

  // ---------------------------------------------------------------- assign

  /** The posted ids not yet in the list, in posted order. */
  function NewIds(existing: seq<Id>, ids: seq<Id>): (r: seq<Id>)
    ensures forall x :: x in r <==> x in ids && x !in existing
    ensures |r| <= |ids|
  {
    if ids == [] then []
    else
      var rest := NewIds(existing, ids[..|ids| - 1]);
      assert forall x :: x in ids <==> x in ids[..|ids| - 1] || x == ids[|ids| - 1];
      if ids[|ids| - 1] in existing then rest else rest + [ids[|ids| - 1]]
  }

  /** The assigned list: the existing ids in their order, then the new ones. */
  function AssignedIds(existing: seq<Id>, ids: seq<Id>): (r: seq<Id>)
    ensures |existing| <= |r| <= |existing| + |ids|
    ensures r[..|existing|] == existing
    ensures forall x :: x in r <==> x in existing || x in ids
  {
    existing + NewIds(existing, ids)
  }

  /** Repeating an assignment changes nothing. */
  lemma {:induction false} AssignIdempotent(existing: seq<Id>, ids: seq<Id>)
    ensures AssignedIds(AssignedIds(existing, ids), ids) == AssignedIds(existing, ids)
  {
    var once := AssignedIds(existing, ids);
    NoNewIds(once, ids);
  }

  lemma {:induction false} NoNewIds(existing: seq<Id>, ids: seq<Id>)
    requires forall x :: x in ids ==> x in existing
    ensures NewIds(existing, ids) == []
  {
    if ids != [] {
      NoNewIds(existing, ids[..|ids| - 1]);
    }
  }

  /** An assignment of distinct ids to a list of distinct ids keeps it free of
      repeats. */
  lemma {:induction false} AssignKeepsDistinct(existing: seq<Id>, ids: seq<Id>)
    requires Distinct(existing) && Distinct(ids)
    ensures Distinct(AssignedIds(existing, ids))
  {
    NewIdsDistinct(existing, ids);
    var n := NewIds(existing, ids);
    var r := existing + n;
    forall i, j | 0 <= i < j < |r|
      ensures r[i] != r[j]
    {
      if j >= |existing| && i < |existing| {
        assert r[j] == n[j - |existing|] && r[j] in n;
        assert r[i] in existing;
      } else if i >= |existing| {
        assert r[i] == n[i - |existing|] && r[j] == n[j - |existing|];
      }
    }
  }

  lemma {:induction false} NewIdsDistinct(existing: seq<Id>, ids: seq<Id>)
    requires Distinct(ids)
    ensures Distinct(NewIds(existing, ids))
  {
    if ids != [] {
      var init := ids[..|ids| - 1];
      assert Distinct(init);
      NewIdsDistinct(existing, init);
      var last := ids[|ids| - 1];
      assert last !in init;
    }
  }

  /** A repeated id in the posted list is appended twice. */
  lemma RepeatedPostedIdAppendedTwice()
    ensures AssignedIds([], ["s", "s"]) == ["s", "s"]
  {
  }

  // ---------------------------------------------------------------- update

  /** The paths an update body may carry, each `None` when absent. A nullable
      path carries `Some(None)` for an explicit `null`. Nothing is validated:
      `findByIdAndUpdate` runs no validators, so the type and the file paths
      can be rewritten as freely as the title. */
  datatype ContentPatch = ContentPatch(
    title: Option<string>,
    ctype: Option<ContentType>,
    url: Option<Option<string>>,
    filePath: Option<Option<string>>,
    fileName: Option<Option<string>>,
    fileSize: Option<Option<int>>,
    mimeType: Option<Option<string>>,
    description: Option<Option<string>>,
    instructor: Option<Id>,
    isPublic: Option<bool>,
    allowedStudents: Option<seq<Id>>,
    tags: Option<seq<string>>,
    isPublished: Option<bool>,
    category: Option<Option<string>>)

  /** The body that carries nothing. */
  const EmptyPatch := ContentPatch(None, None, None, None, None, None, None, None, None, None, None, None, None, None)

  /** `findByIdAndUpdate(id, {...req.body, updatedAt})`: every path the body
      carries is set, every other path keeps its stored value. */
  function Patched(c: Content, p: ContentPatch): (r: Content)
    ensures Carried(p.title, c.title, r.title) && Carried(p.ctype, c.ctype, r.ctype)
    ensures Carried(p.url, c.url, r.url) && Carried(p.filePath, c.filePath, r.filePath)
    ensures Carried(p.fileName, c.fileName, r.fileName) && Carried(p.fileSize, c.fileSize, r.fileSize)
    ensures Carried(p.mimeType, c.mimeType, r.mimeType) && Carried(p.description, c.description, r.description)
    ensures Carried(p.instructor, c.instructor, r.instructor) && Carried(p.isPublic, c.isPublic, r.isPublic)
    ensures Carried(p.allowedStudents, c.allowedStudents, r.allowedStudents) && Carried(p.tags, c.tags, r.tags)
    ensures Carried(p.isPublished, c.isPublished, r.isPublished) && Carried(p.category, c.category, r.category)
  {
    Content(Overwrite(p.title, c.title), Overwrite(p.ctype, c.ctype), Overwrite(p.url, c.url),
      Overwrite(p.filePath, c.filePath), Overwrite(p.fileName, c.fileName), Overwrite(p.fileSize, c.fileSize),
      Overwrite(p.mimeType, c.mimeType), Overwrite(p.description, c.description),
      Overwrite(p.instructor, c.instructor), Overwrite(p.isPublic, c.isPublic),
      Overwrite(p.allowedStudents, c.allowedStudents), Overwrite(p.tags, c.tags),
      Overwrite(p.isPublished, c.isPublished), Overwrite(p.category, c.category))
  }

  /** An empty body leaves the item as it is. */
  lemma EmptyPatchIsIdentity(c: Content)
    ensures Patched(c, EmptyPatch) == c
  {
  }

  /** Sending the same body twice is sending it once. */
  lemma PatchIdempotent(c: Content, p: ContentPatch)
    ensures Patched(Patched(c, p), p) == Patched(c, p)
  {
  }

  /** Because nothing is validated, a body that only changes a file item's
      type to "link" leaves a link without the url the schema requires. */
  lemma PatchCanBreakLocation(c: Content)
    requires c.ctype != Link && c.url.None?
    ensures var r := Patched(c, EmptyPatch.(ctype := Some(Link)));
      r.ctype == Link && UrlRequired(r.ctype) && !Present(r.url)
  {
  }

  // ---------------------------------------------------------------- routing

  datatype GetHandler = ListPublic | ListAssigned | ShowById | ListMine

  /** The GET routes in the order the file registers them. */
  const GetRoutesAsWritten: seq<(Pattern, GetHandler)> :=
    [(Root, ListPublic), (Literal("assigned"), ListAssigned), (Param, ShowById), (Literal("my-content"), ListMine)]

  /** The same routes with the literal path registered before the parameter. */
  const GetRoutes: seq<(Pattern, GetHandler)> :=
    [(Root, ListPublic), (Literal("assigned"), ListAssigned), (Literal("my-content"), ListMine), (Param, ShowById)]

  /** As registered, no request reaches the instructor's own listing: "/my-content"
      goes to GET /:id, whose id does not cast, so it answers 500. */
  lemma MyContentUnreachable(path: Option<string>)
    ensures Dispatch(GetRoutesAsWritten, path) != Some(ListMine)
    ensures Dispatch(GetRoutesAsWritten, Some("my-content")) == Some(ShowById)
    ensures !IsObjectIdText("my-content")
  {
    ShadowedLiteral(GetRoutesAsWritten, 2, 3, path);
    FirstMatching(GetRoutesAsWritten, 2, Some("my-content"));
  }

  /** With the literal first, "/my-content" reaches its handler and every other
      path is dispatched as before. */
  lemma MyContentReachable(path: Option<string>)
    ensures Dispatch(GetRoutes, Some("my-content")) == Some(ListMine)
    ensures path != Some("my-content") ==> Dispatch(GetRoutes, path) == Dispatch(GetRoutesAsWritten, path)
  {
    FirstMatching(GetRoutes, 2, Some("my-content"));
    if path != Some("my-content") {
      SwapAdjacent(GetRoutesAsWritten, GetRoutes, 2, path);
    }
  }

  // ---------------------------------------------------------------- store

  class ContentApi {
    var contents: map<Id, Content>
    /** The registered users, which the populated instructor of GET /:id needs. */
    var users: set<Id>

    constructor (users: set<Id>)
      ensures contents == map[] && this.users == users
    {
      contents := map[];
      this.users := users;
    }

    /** POST /upload: the answer of UploadResponse; a created item is stored. */
    method Upload(body: UploadBody, file: Option<IncomingFile>, user: Id, uploadsDir: string,
                  now: nat, random: nat, newId: Id) returns (r: Result<Content>)
      requires newId !in contents
      modifies this
      ensures r == UploadResponse(body, file, user, uploadsDir, now, random)
      ensures contents == if r.Ok? then old(contents)[newId := r.value] else old(contents)
      ensures users == old(users)
    {
      r := UploadResponse(body, file, user, uploadsDir, now, random);
      if r.Ok? {
        contents := contents[newId := r.value];
      }
    }

    /** POST /: the posted document with the requester as instructor; a schema
      error answers 500. */
    method Create(input: ContentInput, user: Id, newId: Id) returns (r: Result<Content>)
      requires newId !in contents
      modifies this
      ensures r == Validate(input.(instructor := Some(user)))
      ensures r.Ok? ==> r.value.instructor == user
      ensures contents == if r.Ok? then old(contents)[newId := r.value] else old(contents)
      ensures users == old(users)
    {
      r := Validate(input.(instructor := Some(user)));
      if r.Ok? {
        contents := contents[newId := r.value];
      }
    }

    /** GET /: published items, narrowed by the type and category filters when given. */
    function PublicList(ctype: Option<string>, category: Option<string>): (r: set<Id>)
      reads this
      ensures forall id :: id in r <==> (id in contents && contents[id].isPublished
        && (Present(ctype) ==> TypeName(contents[id].ctype) == ctype.value)
        && (Present(category) ==> contents[id].category == category))
    {
      set id | id in contents && contents[id].isPublished
        && (Present(ctype) ==> TypeName(contents[id].ctype) == ctype.value)
        && (Present(category) ==> contents[id].category == category)
    }

    /** GET /assigned: the items the student is assigned to. */
    function Assigned(user: Id): (r: set<Id>)
      reads this
      ensures forall id :: id in r <==> id in contents && user in contents[id].allowedStudents
    {
      set id | id in contents && user in contents[id].allowedStudents
    }

    /** GET /my-content: the instructor's own items. */
    function MyContent(user: Id): (r: set<Id>)
      reads this
      ensures forall id :: id in r <==> id in contents && contents[id].instructor == user
    {
      set id | id in contents && contents[id].instructor == user
    }

    /** GET /:id: 500 for an id that does not cast or an item whose instructor
      no longer exists, 404 for no such item, 403 unless MayAccess. */
    function Get(id: Id, user: Id): (r: Result<Content>)
      reads this
      ensures r.Ok? <==> (IsObjectIdText(id) && id in contents && contents[id].instructor in users
        && MayAccess(contents[id], user))
      ensures r.Ok? ==> r.value == contents[id]
      ensures IsObjectIdText(id) && id !in contents ==> r == Fail(NotFound)
      ensures (IsObjectIdText(id) && id in contents && contents[id].instructor in users
        && !MayAccess(contents[id], user)) ==> r == Fail(Forbidden)
    {
      if !IsObjectIdText(id) then Fail(ServerError)
      else if id !in contents then Fail(NotFound)
      else if contents[id].instructor !in users then Fail(ServerError)
      else if !MayAccess(contents[id], user) then Fail(Forbidden)
      else Ok(contents[id])
    }

    /** PUT /:id: the owner's patch is applied unvalidated. */
    method Update(id: Id, user: Id, patch: ContentPatch) returns (r: Result<Content>)
      modifies this
      ensures r.Fail? <==> OwnerRefusal(old(contents), id, user).Some?
      ensures r.Fail? ==> r.status == OwnerRefusal(old(contents), id, user).value && contents == old(contents)
      ensures r.Ok? ==> r.value == Patched(old(contents)[id], patch) && contents == old(contents)[id := r.value]
      ensures users == old(users)
    {
      var refusal := OwnerRefusal(contents, id, user);
      if refusal.Some? {
        return Fail(refusal.value);
      }
      var updated := Patched(contents[id], patch);
      contents := contents[id := updated];
      return Ok(updated);
    }

    /** POST /:id/assign: appends the posted ids not yet assigned; a body
      without `studentIds` fails with 500. */
    method Assign(id: Id, user: Id, studentIds: Option<seq<Id>>) returns (r: Result<Content>)
      modifies this
      ensures OwnerRefusal(old(contents), id, user).Some? ==> r == Fail(OwnerRefusal(old(contents), id, user).value)
      ensures r.Ok? <==> OwnerRefusal(old(contents), id, user).None? && studentIds.Some?
      ensures r.Ok? ==> r.value == old(contents)[id].(allowedStudents := AssignedIds(old(contents)[id].allowedStudents, studentIds.value))
      ensures contents == if r.Ok? then old(contents)[id := r.value] else old(contents)
      ensures users == old(users)
    {
      var refusal := OwnerRefusal(contents, id, user);
      if refusal.Some? {
        return Fail(refusal.value);
      }
      if studentIds.None? {
        return Fail(ServerError);
      }
      var c := contents[id];
      var widened := c.(allowedStudents := AssignedIds(c.allowedStudents, studentIds.value));
      contents := contents[id := widened];
      return Ok(widened);
    }

    /** DELETE /:id. */
    method Delete(id: Id, user: Id) returns (r: Result<()>)
      modifies this
      ensures r.Fail? <==> OwnerRefusal(old(contents), id, user).Some?
      ensures r.Fail? ==> r.status == OwnerRefusal(old(contents), id, user).value
      ensures contents == if r.Ok? then old(contents) - {id} else old(contents)
      ensures users == old(users)
    {
      var refusal := OwnerRefusal(contents, id, user);
      if refusal.Some? {
        return Fail(refusal.value);
      }
      contents := contents - {id};
      return Ok(());
    }
  }
}
