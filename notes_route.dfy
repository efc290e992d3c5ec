/** The decision logic of the Next.js route handlers for `/api/notes`:
    `GET` (list or search, then an optional title/body filter) and `POST`
    (checks on the request body, then `create`). Responses are reduced to
    what they carry; HTTP framing and DTO formatting are not modelled. */
module NotesRoute {
  import opened Wrappers
  import opened Text
  import opened Notes
  import opened SearchQueries
  import opened NoteArrays
  import opened JsonValues
  import opened NoteServices
  import FileRepository

  // ------------------------------------------------------------------ GET

  /** Which field a text search is narrowed to. */
  datatype Target = All | TitleOnly | BodyOnly

  /** `searchParams.get(name) ?? ""`. */
  function ParamOrEmpty(p: Option<string>): (s: string)
    ensures p.Some? ==> s == p.value
    ensures p.None? ==> s == []
  {
    if p.Some? then p.value else []
  }

  /** `target`: "title" and "body" are honoured; any other value, or none,
      means all fields. */
  function NormalizeTarget(raw: Option<string>): (t: Target)
    ensures t == TitleOnly <==> raw == Some("title")
    ensures t == BodyOnly <==> raw == Some("body")
    ensures t == All <==> raw != Some("title") && raw != Some("body")
  {
    if raw == Some("title") then TitleOnly
    else if raw == Some("body") then BodyOnly
    else All
  }

  /** The query `GET` assembles: `text` only for a non-blank `q` and `tag`
      only for a non-blank `tag`, each with its raw, untrimmed value. */
  function RouteQuery(q: string, tag: string): (r: SearchQuery)
    ensures r.text.Some? <==> !AllWs(q)
    ensures r.tag.Some? <==> !AllWs(tag)
    ensures r.text.Some? ==> r.text.value == q
    ensures r.tag.Some? ==> r.tag.value == tag
    ensures r == EmptyQuery <==> AllWs(q) && AllWs(tag)
  {
    TrimEmptyIffBlank(q);
    TrimEmptyIffBlank(tag);
    SearchQuery(if |Trim(q)| > 0 then Some(q) else None, if |Trim(tag)| > 0 then Some(tag) else None)
  }

  /** Passes the notes whose target field includes `qLower`. */
  function TargetPred(target: Target, qLower: string): Note -> bool {
    (n: Note) => match target
         case TitleOnly => Includes(Lower(n.title), qLower)
         case BodyOnly => Includes(Lower(n.body), qLower)
         case All => true
  }

  /** The narrowing `GET` applies to search results. */
  function TargetFilter(notes: seq<Note>, q: string, target: Target): (r: seq<Note>)
    ensures |r| <= |notes|
  {
    if |Trim(q)| > 0 && target != All then Filter(notes, TargetPred(target, Lower(Trim(q)))) else notes
  }

  /** The narrowing only removes notes and keeps the order; with a
      non-blank `q` and target `title` (or `body`) it keeps exactly the
      notes whose lowercased title (or body) includes the trimmed,
      lowercased `q`; otherwise it keeps everything. */
  lemma TargetFilterSpec(notes: seq<Note>, q: string, target: Target)
    ensures IsSubsequence(TargetFilter(notes, q, target), notes)
    ensures AllWs(q) || target == All ==> TargetFilter(notes, q, target) == notes
    ensures !AllWs(q) && target == TitleOnly ==>
      forall n :: n in TargetFilter(notes, q, target) <==> n in notes && Includes(Lower(n.title), Lower(Trim(q)))
    ensures !AllWs(q) && target == BodyOnly ==>
      forall n :: n in TargetFilter(notes, q, target) <==> n in notes && Includes(Lower(n.body), Lower(Trim(q)))
    ensures !AllWs(q) && target == TitleOnly ==>
      forall n :: multiset(TargetFilter(notes, q, target))[n] ==
        (if Includes(Lower(n.title), Lower(Trim(q))) then multiset(notes)[n] else 0)
    ensures !AllWs(q) && target == BodyOnly ==>
      forall n :: multiset(TargetFilter(notes, q, target))[n] ==
        (if Includes(Lower(n.body), Lower(Trim(q))) then multiset(notes)[n] else 0)
  {
    TrimEmptyIffBlank(q);
    if |Trim(q)| > 0 && target != All {
      FilterSpec(notes, TargetPred(target, Lower(Trim(q))));
      FilterCounts(notes, TargetPred(target, Lower(Trim(q))));
    } else {
      SubsequenceOfSelf(notes);
    }
  }

  lemma {:induction false} SubsequenceOfSelf(s: seq<Note>)
    ensures IsSubsequence(s, s)
  {
    if s != [] {
      SubsequenceOfSelf(s[1..]);
    }
  }

  /** The search branch of `GET`: the service search for the assembled
      query, narrowed to the target field. */
  method SearchAndNarrow(service: NoteService, q: string, tag: string, target: Target)
    returns (r: Result<seq<Note>, FileRepository.StorageError>)
    requires service.repo.HasQuerySearch()
    modifies service.repo.Store()
    ensures match old(service.SearchOutcome(RouteQuery(q, tag)))
      case Failure(e) => r == Failure(e)
      case Success(found) => r == Success(TargetFilter(found, q, target))
    ensures service.Stored() == old(service.Stored()) && service.Saves() == old(service.Saves())
  {
    var found := service.Search(RouteQuery(q, tag));
    if found.Failure? {
      return found;
    }
    r := Success(TargetFilter(found.value, q, target));
  }

  /** `GET /api/notes?q=&tag=&target=`: when the assembled query is empty
      (`q` and `tag` both blank, by `RouteQuery`) the list is returned and
      `search` is never called; otherwise the search result, narrowed to
      the target field. The list branch works over any repository; the
      search branch needs one with `search(query)`. */
  method Get(service: NoteService, qParam: Option<string>, tagParam: Option<string>, targetParam: Option<string>)
    returns (r: Result<seq<Note>, FileRepository.StorageError>)
    requires service.repo.HasQuerySearch() || RouteQuery(ParamOrEmpty(qParam), ParamOrEmpty(tagParam)) == EmptyQuery
    modifies service.repo.Store()
    ensures var q, tag := ParamOrEmpty(qParam), ParamOrEmpty(tagParam);
      RouteQuery(q, tag) == EmptyQuery ==>
        r == old(service.ListOutcome()) && service.Queries() == old(service.Queries())
    ensures var q, tag := ParamOrEmpty(qParam), ParamOrEmpty(tagParam);
      RouteQuery(q, tag) != EmptyQuery ==>
        match old(service.SearchOutcome(RouteQuery(q, tag)))
        case Failure(e) => r == Failure(e)
        case Success(found) => r == Success(TargetFilter(found, q, NormalizeTarget(targetParam)))
    ensures service.Stored() == old(service.Stored()) && service.Saves() == old(service.Saves())
  {
    var q := ParamOrEmpty(qParam);
    var tag := ParamOrEmpty(tagParam);
    var target := NormalizeTarget(targetParam);
    if RouteQuery(q, tag) == EmptyQuery {
      r := service.List();
    } else {
      r := SearchAndNarrow(service, q, tag, target);
    }
  }

  // ----------------------------------------------------------------- POST

  const InvalidBody := "リクエストボディが不正です"
  const TitleBodyNotStrings := "title/body は文字列で指定してください"
  const TagsNotArray := "tags は配列で指定してください"
  const TagNotString := "tags の各要素は文字列で指定してください"

  /** The fields `POST` passes on to `create`. */
  datatype NewNote = NewNote(title: string, body: string, tags: seq<string>)

  /** The checks `POST` makes of a parsed body, in order: it must be an
      object (arrays count), `title` and `body` must be strings, `tags`, if
      present, must be an array, and all of its elements strings. An absent
      `tags` becomes []. Title and body are passed on untrimmed. */
  function CreateInput(body: Json): (r: Result<NewNote, string>)
    ensures !IsObjectLike(body) ==> r == Failure(InvalidBody)
    ensures IsObjectLike(body) && !(IsString(Field(body, "title")) && IsString(Field(body, "body"))) ==>
      r == Failure(TitleBodyNotStrings)
    ensures IsObjectLike(body) && IsString(Field(body, "title")) && IsString(Field(body, "body")) ==>
      var tags := Field(body, "tags");
      && (tags.Some? && !tags.value.JArray? ==> r == Failure(TagsNotArray))
      && (tags.Some? && tags.value.JArray? && !AllStrings(tags.value.items) ==> r == Failure(TagNotString))
      && (tags.None? || (tags.value.JArray? && AllStrings(tags.value.items)) ==> r.Success?)
    ensures r.Success? ==>
      && Field(body, "title") == Some(JString(r.value.title))
      && Field(body, "body") == Some(JString(r.value.body))
      && (Field(body, "tags").None? ==> r.value.tags == [])
      && (Field(body, "tags").Some? ==> Field(body, "tags") == Some(JArray(JStrings(r.value.tags))))
  {
    if !IsObjectLike(body) then Failure(InvalidBody)
    else
      var title := Field(body, "title");
      var noteBody := Field(body, "body");
      var tags := Field(body, "tags");
      if !IsString(title) || !IsString(noteBody) then Failure(TitleBodyNotStrings)
      else if tags.None? then Success(NewNote(title.value.s, noteBody.value.s, []))
      else if !tags.value.JArray? then Failure(TagsNotArray)
      else if !AllStrings(tags.value.items) then Failure(TagNotString)
      else
        var strings := StringsOf(tags.value.items);
        assert tags.value.items == JStrings(strings);
        Success(NewNote(title.value.s, noteBody.value.s, strings))
  }

  /** The parameters `POST` calls `create` with: no clock or id override. */
  function CreateParams(input: NewNote): CreateNoteParams {
    CreateNoteParams(input.title, input.body, input.tags, None, None)
  }

  /** The two responses `POST` gives. */
  datatype PostResponse = Created(note: Note) | BadRequest(error: string)

  /** `POST /api/notes`. `request` is the parsed body, or the message of
      the parse failure. Every failure, a failed check or an error thrown
      by `create`, becomes a bad request carrying its message; the
      repository is touched only once all checks pass. */
  method Post(service: NoteService, request: Result<Json, string>, clock: Millis, defaultId: NoteId)
    returns (resp: PostResponse)
    modifies service.repo.Store()
    ensures request.Failure? ==> resp == BadRequest(request.error) && unchanged(service.repo.Store())
    ensures request.Success? && CreateInput(request.value).Failure? ==>
      resp == BadRequest(CreateInput(request.value).error) && unchanged(service.repo.Store())
    ensures request.Success? && CreateInput(request.value).Success? ==>
      match old(service.CreateOutcome(CreateParams(CreateInput(request.value).value), clock, defaultId))
      case Success(n) => resp == Created(n)
      case Failure(e) => resp == BadRequest(ErrorMessage(e))
    ensures request.Success? && CreateInput(request.value).Success? ==>
      var made := Notes.Create(CreateParams(CreateInput(request.value).value), clock, defaultId);
      && (made.Failure? ==> unchanged(service.repo.Store()))
      && (made.Success? ==> service.Saves() == old(service.Saves()) + [made.value])
      && (made.Success? && old(service.Stored()).Success? ==>
            service.Stored() == Success(PutOrReplace(old(service.Stored()).value, made.value)))
  {
    if request.Failure? {
      return BadRequest(request.error);
    }
    var body := request.value;
    if !IsObjectLike(body) {
      return BadRequest(InvalidBody);
    }
    var title := Field(body, "title");
    var noteBody := Field(body, "body");
    var tags := Field(body, "tags");
    if !IsString(title) || !IsString(noteBody) {
      return BadRequest(TitleBodyNotStrings);
    }
    var tagsArray: seq<string> := [];
    if tags.Some? {
      if !tags.value.JArray? {
        return BadRequest(TagsNotArray);
      }
      if !AllStrings(tags.value.items) {
        return BadRequest(TagNotString);
      }
      tagsArray := StringsOf(tags.value.items);
    }
    assert CreateInput(body) == Success(NewNote(title.value.s, noteBody.value.s, tagsArray));
    var created := service.Create(CreateNoteParams(title.value.s, noteBody.value.s, tagsArray, None, None), clock, defaultId);
    match created
    case Success(n) => resp := Created(n);
    case Failure(e) => resp := BadRequest(ErrorMessage(e));
  }
}
