/** The Note entity: an immutable record built by a validating factory
    (`Note.create`) or by trusted rehydration from storage (`Note.from`). */
module Notes {
  import opened Wrappers
  import opened Text

  type NoteId = string

  /** Instants are milliseconds since the epoch, as `Date.getTime()` gives. */
  type Millis = int

  /** A note. Dafny datatypes are immutable, as the source's `readonly`
      fields are: no operation of the system edits a note. */
  datatype Note = Note(
    id: NoteId,
    title: string,
    body: string,
    tags: seq<string>,
    createdAt: Millis,
    updatedAt: Millis)

  /** The input of `Note.create`. `now` and `idFactory` are optional
      overrides of the clock and of the default id generator. */
  datatype CreateNoteParams = CreateNoteParams(
    title: string,
    body: string,
    tags: seq<string>,
    now: Option<Millis>,
    idFactory: Option<() -> NoteId>)

  /** Longest title, in characters, that `create` accepts. */
  const MaxTitleLength := 100

  /** The three rule violations `create` reports, in the order it checks them. */
  datatype ValidationError = TitleRequired | BodyRequired | TitleTooLong

  /** The message each violation is thrown with. */
  function Message(e: ValidationError): (m: string)
    ensures m != []
  {
    match e
    case TitleRequired => "タイトルは必須です"
    case BodyRequired => "本文は必須です"
    case TitleTooLong => "タイトルは100字未満です"
  }

  /** What every note made by `create` satisfies: a title of 1 to 100
      characters and a non-empty body, neither of them with whitespace at
      either end, and equal creation and update instants. */
  predicate WellFormed(n: Note) {
    0 < |n.title| <= MaxTitleLength && Trimmed(n.title)
    && 0 < |n.body| && Trimmed(n.body)
    && n.createdAt == n.updatedAt
  }

  /** `Note.create`. The clock reading and the output of the default id
      generator are parameters, used only when `params` gives no override.
      Title and body are trimmed; then, in this order, a blank title, a
      blank body and a title over 100 characters are rejected. Tags are
      carried through as given. */
  function Create(params: CreateNoteParams, clock: Millis, defaultId: NoteId): (r: Result<Note, ValidationError>)
    ensures r.Success? <==>
      |Trim(params.title)| != 0 && |Trim(params.body)| != 0 && |Trim(params.title)| <= MaxTitleLength
    ensures |Trim(params.title)| == 0 ==> r == Failure(TitleRequired)
    ensures |Trim(params.title)| != 0 && |Trim(params.body)| == 0 ==> r == Failure(BodyRequired)
    ensures |Trim(params.title)| != 0 && |Trim(params.body)| != 0 && |Trim(params.title)| > MaxTitleLength
      ==> r == Failure(TitleTooLong)
    ensures r.Success? ==>
      && r.value.title == Trim(params.title)
      && r.value.body == Trim(params.body)
      && r.value.tags == params.tags
      && r.value.createdAt == r.value.updatedAt == (if params.now.Some? then params.now.value else clock)
      && r.value.id == (if params.idFactory.Some? then params.idFactory.value() else defaultId)
      && WellFormed(r.value)
  {
    var title := Trim(params.title);
    var body := Trim(params.body);
    if |title| == 0 then Failure(TitleRequired)
    else if |body| == 0 then Failure(BodyRequired)
    else if |title| > MaxTitleLength then Failure(TitleTooLong)
    else
      var now := if params.now.Some? then params.now.value else clock;
      var id := if params.idFactory.Some? then params.idFactory.value() else defaultId;
      Success(Note(id, title, body, params.tags, now, now))
  }

  /** `Note.from`: rebuilds a note from fields that were validated when it
      was first written, without running the rules of `Create` again. */
  function From(id: NoteId, title: string, body: string, tags: seq<string>,
                createdAt: Millis, updatedAt: Millis): (n: Note)
    ensures n.id == id && n.title == title && n.body == body && n.tags == tags
    ensures n.createdAt == createdAt && n.updatedAt == updatedAt
  {
    Note(id, title, body, tags, createdAt, updatedAt)
  }

  /** Trimming is why a blank title is always reported as missing, whatever
      the body: the first check sees an empty string. */
  lemma BlankTitleRejected(params: CreateNoteParams, clock: Millis, defaultId: NoteId)
    requires AllWs(params.title)
    ensures Create(params, clock, defaultId) == Failure(TitleRequired)
  {
    TrimEmptyIffBlank(params.title);
  }

  /** A blank body is rejected as missing once the title is not blank. */
  lemma BlankBodyRejected(params: CreateNoteParams, clock: Millis, defaultId: NoteId)
    requires !AllWs(params.title) && AllWs(params.body)
    ensures Create(params, clock, defaultId) == Failure(BodyRequired)
  {
    TrimEmptyIffBlank(params.title);
    TrimEmptyIffBlank(params.body);
  }

  /** Creation is stable under the normalisation it performs: re-creating a
      note from its own title and body yields the same note. */
  lemma {:induction false} CreateFromCreated(params: CreateNoteParams, clock: Millis, defaultId: NoteId)
    requires Create(params, clock, defaultId).Success?
    ensures var n := Create(params, clock, defaultId).value;
            Create(params.(title := n.title, body := n.body), clock, defaultId) == Success(n)
  {
    TrimIdempotent(params.title);
    TrimIdempotent(params.body);
  }
}
