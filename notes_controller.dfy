/** The decision logic of the NestJS `NotesController`: `getNotes` (list or
    search) and `createNote` (checks on the body, then `create`). */
module NotesController {
  import opened Wrappers
  import opened Text
  import opened Notes
  import opened SearchQueries
  import opened NoteArrays
  import opened JsonValues
  import opened NoteServices
  import FileRepository
  import NotesRoute

  // ------------------------------------------------------------- getNotes

  /** `!v` for an optional query-string value: absent or "". */
  predicate Falsy(v: Option<string>) {
    v.None? || v.value == []
  }

  /** `getNotes` lists instead of searching exactly when `q` and `tag` are
      both absent or "". A whitespace-only value is not one of these. */
  function ListRequested(q: Option<string>, tag: Option<string>): (b: bool)
    ensures b <==> (q.None? || q.value == []) && (tag.None? || tag.value == [])
  {
    Falsy(q) && Falsy(tag)
  }

  /** `v && v.trim().length > 0` for an optional query-string value. */
  function Filled(v: Option<string>): (b: bool)
    ensures b <==> v.Some? && !AllWs(v.value)
  {
    if Falsy(v) then false
    else TrimEmptyIffBlank(v.value); |Trim(v.value)| > 0
  }

  /** The query `getNotes` sends to `search`: `text` only when `q` is
      non-blank after trimming and `tag` only when `tag` is, each with its
      raw value. */
  function ControllerQuery(q: Option<string>, tag: Option<string>): (r: SearchQuery)
    ensures r.text.Some? <==> q.Some? && !AllWs(q.value)
    ensures r.tag.Some? <==> tag.Some? && !AllWs(tag.value)
    ensures r.text.Some? ==> r.text == q
    ensures r.tag.Some? ==> r.tag == tag
  {
    SearchQuery(if Filled(q) then q else None, if Filled(tag) then tag else None)
  }

  /** A whitespace-only `q` with no `tag` skips the list and sends a query
      with no fields to `search`, which rejects it: the answer is [] and not
      the list of notes. */
  lemma BlankQueryIsEmptySearch(q: string)
    requires q != [] && AllWs(q)
    ensures !ListRequested(Some(q), None)
    ensures ControllerQuery(Some(q), None) == EmptyQuery
    ensures !IsValid(EmptyQuery)
  {
  }

  /** `GET /notes?q=&tag=`. */
  method GetNotes(service: NoteService, q: Option<string>, tag: Option<string>)
    returns (r: Result<seq<Note>, FileRepository.StorageError>)
    requires service.repo.HasQuerySearch()
    modifies service.repo.Store()
    ensures ListRequested(q, tag) ==>
      r == old(service.ListOutcome()) && service.Queries() == old(service.Queries())
    ensures !ListRequested(q, tag) ==> r == old(service.SearchOutcome(ControllerQuery(q, tag)))
    ensures service.Stored() == old(service.Stored()) && service.Saves() == old(service.Saves())
  {
    if Falsy(q) && Falsy(tag) {
      r := service.List();
      return;
    }
    var searchQuery := ControllerQuery(q, tag);
    r := service.Search(searchQuery);
  }

  // ----------------------------------------------------------- createNote

  const BodyMissing := "リクエストボディが空です"
  const TitleRequiredMessage := "titleは必須で、空文字列は許可されません"
  const BodyRequiredMessage := "bodyは必須で、空文字列は許可されません"
  const TagsNotArray := "tagは配列で指定してください"

  /** `typeof v === 'string' && v.trim().length > 0` for a field of the body. */
  function NonBlankString(v: Option<Json>): (b: bool)
    ensures b <==> IsString(v) && !AllWs(v.value.s)
  {
    if !IsString(v) then false
    else TrimEmptyIffBlank(v.value.s); |Trim(v.value.s)| > 0
  }

  /** What the controller, as written, forwards to `create`: the elements
      of `tags` are whatever the body held. */
  datatype ForwardedInput = ForwardedInput(title: string, body: string, tags: seq<Json>)

  /** The checks of `createNote` as written, in order: a body must be
      present (truthy), `title` and `body` must be non-blank strings, and
      `tags`, if present, an array. The elements of `tags` are not checked. */
  function CreateNoteInputAsWritten(body: Option<Json>): (r: Result<ForwardedInput, string>)
    ensures !Truthy(body) ==> r == Failure(BodyMissing)
    ensures Truthy(body) && !NonBlankString(Field(body.value, "title")) ==> r == Failure(TitleRequiredMessage)
    ensures Truthy(body) && NonBlankString(Field(body.value, "title")) && !NonBlankString(Field(body.value, "body")) ==>
      r == Failure(BodyRequiredMessage)
    ensures Truthy(body) && NonBlankString(Field(body.value, "title")) && NonBlankString(Field(body.value, "body")) ==>
      var tags := Field(body.value, "tags");
      && (tags.Some? && !tags.value.JArray? ==> r == Failure(TagsNotArray))
      && (tags.None? || tags.value.JArray? ==> r.Success?)
    ensures r.Success? ==>
      && Field(body.value, "title") == Some(JString(r.value.title)) && !AllWs(r.value.title)
      && Field(body.value, "body") == Some(JString(r.value.body)) && !AllWs(r.value.body)
      && (Field(body.value, "tags").None? ==> r.value.tags == [])
      && (Field(body.value, "tags").Some? ==> Field(body.value, "tags") == Some(JArray(r.value.tags)))
  {
    if !Truthy(body) then Failure(BodyMissing)
    else
      var title := Field(body.value, "title");
      var noteBody := Field(body.value, "body");
      var tags := Field(body.value, "tags");
      if !NonBlankString(title) then Failure(TitleRequiredMessage)
      else if !NonBlankString(noteBody) then Failure(BodyRequiredMessage)
      else if tags.Some? && !tags.value.JArray? then Failure(TagsNotArray)
      else Success(ForwardedInput(title.value.s, noteBody.value.s, if tags.Some? then tags.value.items else []))
  }

  /** As written, a body whose `tags` holds a number passes every check,
      and a non-string is forwarded as a tag. */
  lemma NonStringTagAccepted()
    ensures var body := JObject(map["title" := JString("a"), "body" := JString("b"), "tags" := JArray([JNumber(1)])]);
      && CreateNoteInputAsWritten(Some(body)).Success?
      && !AllStrings(CreateNoteInputAsWritten(Some(body)).value.tags)
  {
    var body := JObject(map["title" := JString("a"), "body" := JString("b"), "tags" := JArray([JNumber(1)])]);
    assert Truthy(Some(body));
    assert Field(body, "title") == Some(JString("a"));
    assert Field(body, "body") == Some(JString("b"));
    assert Field(body, "tags") == Some(JArray([JNumber(1)]));
    assert !IsWs("a"[0]) && !IsWs("b"[0]);
    assert NonBlankString(Some(JString("a"))) && NonBlankString(Some(JString("b")));
    assert CreateNoteInputAsWritten(Some(body)) == Success(ForwardedInput("a", "b", [JNumber(1)]));
    assert !([JNumber(1)][0]).JString?;
  }

  /** The check on `tags` with the element check added, using the message
      `route.ts` gives for it: absent reads as [], a non-array and an array
      with a non-string element are rejected, in that order. */
  function CheckedTags(tags: Option<Json>): (r: Result<seq<string>, string>)
    ensures tags.None? ==> r == Success([])
    ensures tags.Some? && !tags.value.JArray? ==> r == Failure(TagsNotArray)
    ensures tags.Some? && tags.value.JArray? && !AllStrings(tags.value.items) ==> r == Failure(NotesRoute.TagNotString)
    ensures tags.Some? && tags.value.JArray? && AllStrings(tags.value.items) ==>
      r.Success? && tags.value.items == JStrings(r.value)
  {
    if tags.None? then Success([])
    else if !tags.value.JArray? then Failure(TagsNotArray)
    else if !AllStrings(tags.value.items) then Failure(NotesRoute.TagNotString)
    else
      var strings := StringsOf(tags.value.items);
      assert tags.value.items == JStrings(strings);
      Success(strings)
  }

  /** The checks of `createNote` with the element check the `tags?:
      string[]` declaration calls for: in order, a body must be present
      (truthy), `title` must be a non-blank string, `body` must be a
      non-blank string, `tags`, if present, an array of strings. Title and
      body are forwarded untrimmed, an absent `tags` as []. */
  function CreateNoteInput(body: Option<Json>): (r: Result<NotesRoute.NewNote, string>)
    ensures !Truthy(body) ==> r == Failure(BodyMissing)
    ensures Truthy(body) && !NonBlankString(Field(body.value, "title")) ==> r == Failure(TitleRequiredMessage)
    ensures Truthy(body) && NonBlankString(Field(body.value, "title")) && !NonBlankString(Field(body.value, "body")) ==>
      r == Failure(BodyRequiredMessage)
    ensures Truthy(body) && NonBlankString(Field(body.value, "title")) && NonBlankString(Field(body.value, "body")) ==>
      var tags := Field(body.value, "tags");
      && (tags.Some? && !tags.value.JArray? ==> r == Failure(TagsNotArray))
      && (tags.Some? && tags.value.JArray? && !AllStrings(tags.value.items) ==> r == Failure(NotesRoute.TagNotString))
      && (tags.None? || (tags.value.JArray? && AllStrings(tags.value.items)) ==> r.Success?)
    ensures r.Success? ==>
      && Field(body.value, "title") == Some(JString(r.value.title)) && !AllWs(r.value.title)
      && Field(body.value, "body") == Some(JString(r.value.body)) && !AllWs(r.value.body)
      && (Field(body.value, "tags").None? ==> r.value.tags == [])
      && (Field(body.value, "tags").Some? ==> Field(body.value, "tags") == Some(JArray(JStrings(r.value.tags))))
  {
    if !Truthy(body) then Failure(BodyMissing)
    else
      var title := Field(body.value, "title");
      var noteBody := Field(body.value, "body");
      if !NonBlankString(title) then Failure(TitleRequiredMessage)
      else if !NonBlankString(noteBody) then Failure(BodyRequiredMessage)
      else match CheckedTags(Field(body.value, "tags"))
        case Failure(message) => Failure(message)
        case Success(tags) => Success(NotesRoute.NewNote(title.value.s, noteBody.value.s, tags))
  }

  /** The corrected checks differ from the checks as written only on an
      array of tags with a non-string element: every other body gets the
      same verdict, and an accepted body forwards the same fields. */
  lemma CorrectedChecksAgreeOnStringTags(body: Option<Json>)
    ensures CreateNoteInput(body).Success? <==>
      CreateNoteInputAsWritten(body).Success? && AllStrings(CreateNoteInputAsWritten(body).value.tags)
    ensures CreateNoteInput(body).Success? ==>
      var forwarded := CreateNoteInputAsWritten(body).value;
      var input := CreateNoteInput(body).value;
      input.title == forwarded.title && input.body == forwarded.body && JStrings(input.tags) == forwarded.tags
    ensures CreateNoteInputAsWritten(body).Failure? ==> CreateNoteInput(body) == Failure(CreateNoteInputAsWritten(body).error)
  {
  }

  /** The checked input passes the blank checks of `Note.create` too, so
      only the title-length rule can still reject it there. */
  lemma CheckedInputPassesBlankRules(body: Option<Json>, clock: Millis, defaultId: NoteId)
    requires CreateNoteInput(body).Success?
    ensures var input := CreateNoteInput(body).value;
      var made := Notes.Create(NotesRoute.CreateParams(input), clock, defaultId);
      made.Success? || made == Failure(TitleTooLong)
  {
    var input := CreateNoteInput(body).value;
    TrimEmptyIffBlank(input.title);
    TrimEmptyIffBlank(input.body);
  }

  /** Why `createNote` fails: a rejected body (a bad request), or an error
      of `create`, which is passed on. */
  datatype CreateFailure = Rejected(message: string) | CreateFailed(error: ServiceError)

  /** `POST /notes`, with the corrected checks. The repository is touched
      only once all checks pass; then the created note is saved once. */
  method CreateNote(service: NoteService, body: Option<Json>, clock: Millis, defaultId: NoteId)
    returns (r: Result<Note, CreateFailure>)
    modifies service.repo.Store()
    ensures CreateNoteInput(body).Failure? ==>
      r == Failure(Rejected(CreateNoteInput(body).error)) && unchanged(service.repo.Store())
    ensures CreateNoteInput(body).Success? ==>
      var params := NotesRoute.CreateParams(CreateNoteInput(body).value);
      match old(service.CreateOutcome(params, clock, defaultId))
      case Success(n) => r == Success(n)
      case Failure(e) => r == Failure(CreateFailed(e))
    ensures CreateNoteInput(body).Success? ==>
      var made := Notes.Create(NotesRoute.CreateParams(CreateNoteInput(body).value), clock, defaultId);
      && (made.Failure? ==> unchanged(service.repo.Store()))
      && (made.Success? ==> service.Saves() == old(service.Saves()) + [made.value])
      && (made.Success? && old(service.Stored()).Success? ==>
            service.Stored() == Success(PutOrReplace(old(service.Stored()).value, made.value)))
  {
    var checked := CreateNoteInput(body);
    if checked.Failure? {
      return Failure(Rejected(checked.error));
    }
    var created := service.Create(NotesRoute.CreateParams(checked.value), clock, defaultId);
    match created
    case Success(n) => r := Success(n);
    case Failure(e) => r := Failure(CreateFailed(e));
  }
}
