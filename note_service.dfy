/** The use-case layer: create, list and search, delegating to whichever
    repository the service was constructed with. */
module NoteServices {
  import opened Wrappers
  import opened Text
  import opened Notes
  import opened SearchQueries
  import opened NoteArrays
  import ApiMemoryRepository
  import SharedMemoryRepository
  import FileRepository

  /** The `NoteRepository` a service is built over: one of the three
      implementations in this system. */
  datatype Backend =
    | ApiMemory(api: ApiMemoryRepository.InMemoryNoteRepository)
    | SharedMemory(shared: SharedMemoryRepository.InMemoryNoteRepository)
    | FileBacked(file: FileRepository.FileNoteRepository)
  {
    /** The implementations that have `search(query)`; the other one has
        `searchByText(text)` instead. */
    predicate HasQuerySearch() {
      !SharedMemory?
    }

    /** The object holding the repository's state. */
    function Store(): object {
      match this
      case ApiMemory(r) => r
      case SharedMemory(r) => r
      case FileBacked(r) => r
    }

    /** The order `findAll` lists notes in. */
    function ListOrder(): Order {
      if SharedMemory? then Descending else Ascending
    }
  }

  /** Why `create` fails: a broken rule of the Note entity, or a storage
      failure of the file repository. */
  datatype ServiceError =
    | Invalid(rule: ValidationError)
    | Storage(failure: FileRepository.StorageError)

  /** The message the failure carries. */
  function ErrorMessage(e: ServiceError): string {
    match e
    case Invalid(rule) => Message(rule)
    case Storage(failure) => failure.message
  }

  class NoteService {
    const repo: Backend

    constructor (repo: Backend)
      ensures this.repo == repo
    {
      this.repo := repo;
    }

    /** The notes the repository holds, as `loadNotes` would read them for
        the file repository. */
    ghost function Stored(): Result<seq<Note>, FileRepository.StorageError>
      reads repo.Store()
    {
      match repo
      case ApiMemory(r) => Success(r.notes)
      case SharedMemory(r) => Success(r.notes)
      case FileBacked(r) => FileRepository.Loaded(r.disk)
    }

    /** The repository's record of `save` calls. */
    ghost function Saves(): seq<Note>
      reads repo.Store()
    {
      match repo
      case ApiMemory(r) => r.saves
      case SharedMemory(r) => r.saves
      case FileBacked(r) => r.saves
    }

    /** The repository's record of `search` calls ([] where there is no
        `search`). */
    ghost function Queries(): seq<SearchQuery>
      reads repo.Store()
    {
      match repo
      case ApiMemory(r) => r.queries
      case SharedMemory(_) => []
      case FileBacked(r) => r.queries
    }

    /** The repository's record of `searchByText` calls ([] where there is
        no `searchByText`). */
    ghost function TextQueries(): seq<string>
      reads repo.Store()
    {
      match repo
      case ApiMemory(_) => []
      case SharedMemory(r) => r.textQueries
      case FileBacked(_) => []
    }

    /** What `create(params)` returns in the current state. */
    ghost function CreateOutcome(params: CreateNoteParams, clock: Millis, defaultId: NoteId): Result<Note, ServiceError>
      reads repo.Store()
    {
      match Notes.Create(params, clock, defaultId)
      case Failure(rule) => Failure(Invalid(rule))
      case Success(n) => if Stored().Failure? then Failure(Storage(Stored().error)) else Success(n)
    }

    /** What `list()` returns in the current state. */
    ghost function ListOutcome(): Result<seq<Note>, FileRepository.StorageError>
      reads repo.Store()
    {
      match Stored()
      case Failure(e) => Failure(e)
      case Success(notes) => Success(Sort(notes, repo.ListOrder()))
    }

    /** What `search(query)` returns in the current state. */
    ghost function SearchOutcome(query: SearchQuery): Result<seq<Note>, FileRepository.StorageError>
      reads repo.Store()
    {
      if !IsValid(query) then Success([])
      else match Stored()
        case Failure(e) => Failure(e)
        case Success(notes) => Success(SearchNotes(notes, query, Ascending))
    }

    /** The interface call `repo.save(note)`. */
    method RepoSave(note: Note) returns (r: Result<(), FileRepository.StorageError>)
      modifies repo.Store()
      ensures Saves() == old(Saves()) + [note]
      ensures Queries() == old(Queries()) && TextQueries() == old(TextQueries())
      ensures old(Stored()).Success? ==> r.Success? && Stored() == Success(PutOrReplace(old(Stored()).value, note))
      ensures old(Stored()).Failure? ==> r == Failure(old(Stored()).error) && Stored() == old(Stored())
    {
      match repo
      case ApiMemory(a) =>
        a.Save(note);
        r := Success(());
      case SharedMemory(s) =>
        s.Save(note);
        r := Success(());
      case FileBacked(f) =>
        if !f.disk.Unreadable? {
          FileRepository.SaveKeepsOthers(f.disk, note);
        }
        r := f.Save(note);
    }

    /** The interface call `repo.findAll()`. */
    method RepoFindAll() returns (r: Result<seq<Note>, FileRepository.StorageError>)
      modifies repo.Store()
      ensures old(Stored()).Success? ==> r == Success(Sort(old(Stored()).value, repo.ListOrder()))
      ensures old(Stored()).Failure? ==> r == Failure(old(Stored()).error)
      ensures Stored() == old(Stored())
      ensures Saves() == old(Saves()) && Queries() == old(Queries()) && TextQueries() == old(TextQueries())
    {
      match repo
      case ApiMemory(a) =>
        var all := a.FindAll();
        r := Success(all);
      case SharedMemory(s) =>
        var all := s.FindAll();
        r := Success(all);
      case FileBacked(f) =>
        r := f.FindAll();
    }

    /** The interface call `repo.search(query)`. */
    method RepoSearch(query: SearchQuery) returns (r: Result<seq<Note>, FileRepository.StorageError>)
      requires repo.HasQuerySearch()
      requires |TrimmedOrEmpty(query.text)| != 0 || |TrimmedOrEmpty(query.tag)| != 0
      modifies repo.Store()
      ensures Queries() == old(Queries()) + [query]
      ensures old(Stored()).Success? ==> r == Success(SearchNotes(old(Stored()).value, query, Ascending))
      ensures old(Stored()).Failure? ==> r == Failure(old(Stored()).error)
      ensures Stored() == old(Stored()) && Saves() == old(Saves())
    {
      match repo
      case ApiMemory(a) =>
        var found := a.Search(query);
        r := Success(found);
      case FileBacked(f) =>
        r := f.Search(query);
    }

    /** `create`: builds the note, saves it once and returns it. A rule
        violation is returned before the repository is touched; a storage
        failure of `save` is passed on. */
    method Create(params: CreateNoteParams, clock: Millis, defaultId: NoteId)
      returns (r: Result<Note, ServiceError>)
      modifies repo.Store()
      ensures r == old(CreateOutcome(params, clock, defaultId))
      ensures Notes.Create(params, clock, defaultId).Failure? ==>
        r == Failure(Invalid(Notes.Create(params, clock, defaultId).error)) && unchanged(repo.Store())
      ensures Notes.Create(params, clock, defaultId).Success? ==>
        var n := Notes.Create(params, clock, defaultId).value;
        && Saves() == old(Saves()) + [n]
        && Queries() == old(Queries()) && TextQueries() == old(TextQueries())
        && (old(Stored()).Success? ==> r == Success(n) && Stored() == Success(PutOrReplace(old(Stored()).value, n)))
        && (old(Stored()).Failure? ==> r == Failure(Storage(old(Stored()).error)) && Stored() == old(Stored()))
    {
      var made := Notes.Create(params, clock, defaultId);
      if made.Failure? {
        return Failure(Invalid(made.error));
      }
      var saved := RepoSave(made.value);
      if saved.Failure? {
        return Failure(Storage(saved.error));
      }
      r := Success(made.value);
    }

    /** `list`: exactly what `findAll` returns. */
    method List() returns (r: Result<seq<Note>, FileRepository.StorageError>)
      modifies repo.Store()
      ensures r == old(ListOutcome())
      ensures old(Stored()).Success? ==> r == Success(Sort(old(Stored()).value, repo.ListOrder()))
      ensures old(Stored()).Failure? ==> r == Failure(old(Stored()).error)
      ensures Stored() == old(Stored())
      ensures Saves() == old(Saves()) && Queries() == old(Queries()) && TextQueries() == old(TextQueries())
    {
      r := RepoFindAll();
    }

    /** `search(query: string)`, the text-only search over a repository
        with `searchByText`: a blank query gives [] without calling the
        repository; otherwise `searchByText` is called once, with the
        trimmed string, and its result is returned. */
    method SearchText(query: string) returns (r: seq<Note>)
      requires repo.SharedMemory?
      modifies repo.shared`textQueries
      ensures Trim(query) == [] ==> r == [] && unchanged(repo.shared)
      ensures Trim(query) != [] ==>
        && repo.shared.textQueries == old(repo.shared.textQueries) + [Trim(query)]
        && r == NoteArrays.SearchByText(repo.shared.notes, query, Descending)
    {
      var q := Trim(query);
      if |q| == 0 {
        return [];
      }
      SearchByTextOfTrimmed(repo.shared.notes, query, Descending);
      r := repo.shared.SearchByText(q);
    }

    /** `search(query: SearchQuery)`: an invalid query gives [] and the
        repository is not touched at all; a valid one is normalised and
        passed to `search` exactly once, and its result is returned. */
    method Search(query: SearchQuery) returns (r: Result<seq<Note>, FileRepository.StorageError>)
      requires repo.HasQuerySearch()
      modifies repo.Store()
      ensures r == old(SearchOutcome(query))
      ensures !IsValid(query) ==> r == Success([]) && unchanged(repo.Store())
      ensures IsValid(query) ==>
        && Queries() == old(Queries()) + [Normalize(query)]
        && (old(Stored()).Success? ==> r == Success(SearchNotes(old(Stored()).value, query, Ascending)))
        && (old(Stored()).Failure? ==> r == Failure(old(Stored()).error))
      ensures Stored() == old(Stored()) && Saves() == old(Saves())
    {
      if !IsValid(query) {
        return Success([]);
      }
      var normalized := Normalize(query);
      NormalizePreservesTerms(query);
      if old(Stored()).Success? {
        SearchIgnoresNormalization(Stored().value, query, Ascending);
      }
      r := RepoSearch(normalized);
    }
  }
}
