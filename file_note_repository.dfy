/** The JSON-file repository of the NestJS application. The file is the
    field `disk`; reading and writing it is replacing that value. The file
    holds the records of `saveNotes`, whose instants are stored as they
    are (the ISO-8601 text and its parse are taken to round-trip). */
module FileRepository {
  import opened Wrappers
  import opened Notes
  import opened SearchQueries
  import opened NoteArrays

  /** A failure of the file system or of the JSON parse, other than the
      file being missing. */
  datatype StorageError = StorageError(message: string)

  /** One element of the JSON array on disk. */
  datatype StoredNote = StoredNote(
    id: NoteId,
    title: string,
    body: string,
    tags: seq<string>,
    createdAt: Millis,
    updatedAt: Millis)

  /** What reading the file gives: no file (`ENOENT`), a read or parse that
      fails with some other error, or a parsed array of records. */
  datatype Disk = Missing | Unreadable(error: StorageError) | Holds(records: seq<StoredNote>)

  /** `data.map(d => Note.from(...))`. */
  function Rehydrate(records: seq<StoredNote>): (notes: seq<Note>)
    ensures |notes| == |records|
    ensures forall i :: 0 <= i < |records| ==>
      var d := records[i];
      && notes[i].id == d.id && notes[i].title == d.title && notes[i].body == d.body
      && notes[i].tags == d.tags && notes[i].createdAt == d.createdAt && notes[i].updatedAt == d.updatedAt
  {
    seq(|records|, i requires 0 <= i < |records| =>
      var d := records[i];
      From(d.id, d.title, d.body, d.tags, d.createdAt, d.updatedAt))
  }

  /** The records `saveNotes` writes. */
  function Serialize(notes: seq<Note>): (records: seq<StoredNote>)
    ensures |records| == |notes|
    ensures forall i :: 0 <= i < |notes| ==>
      var n := notes[i];
      && records[i].id == n.id && records[i].title == n.title && records[i].body == n.body
      && records[i].tags == n.tags && records[i].createdAt == n.createdAt && records[i].updatedAt == n.updatedAt
  {
    seq(|notes|, i requires 0 <= i < |notes| =>
      var n := notes[i];
      StoredNote(n.id, n.title, n.body, n.tags, n.createdAt, n.updatedAt))
  }

  /** Writing notes and reading them back gives the same notes. */
  lemma RehydrateSerialize(notes: seq<Note>)
    ensures Rehydrate(Serialize(notes)) == notes
  {
  }

  /** Reading records and writing them back gives the same records. */
  lemma SerializeRehydrate(records: seq<StoredNote>)
    ensures Serialize(Rehydrate(records)) == records
  {
  }

  /** What `loadNotes` returns: [] for a missing file, the error of a
      failing read, the rehydrated records otherwise. */
  function Loaded(d: Disk): (r: Result<seq<Note>, StorageError>)
    ensures d.Missing? ==> r == Success([])
    ensures d.Unreadable? ==> r == Failure(d.error)
    ensures d.Holds? ==> r == Success(Rehydrate(d.records))
  {
    match d
    case Missing => Success([])
    case Unreadable(e) => Failure(e)
    case Holds(records) => Success(Rehydrate(records))
  }

  /** The file after `loadNotes`: a missing file is created holding `[]`;
      an existing one is not written. */
  function AfterLoad(d: Disk): (d': Disk)
    ensures d.Missing? ==> d' == Holds([])
    ensures !d.Missing? ==> d' == d
  {
    if d.Missing? then Holds([]) else d
  }

  /** The file after `save(note)`: unchanged when loading fails, otherwise
      the loaded notes with `note` put or replaced by id. */
  function AfterSave(d: Disk, note: Note): (d': Disk)
    ensures d.Unreadable? ==> d' == d
    ensures !d.Unreadable? ==> d' == Holds(Serialize(PutOrReplace(Loaded(d).value, note)))
  {
    match Loaded(d)
    case Failure(_) => d
    case Success(notes) => Holds(Serialize(PutOrReplace(notes, note)))
  }

  /** A save makes the note findable by its id, whatever the file held
      before, unless reading the file fails. */
  lemma {:induction false} SaveThenFindById(d: Disk, note: Note)
    requires !d.Unreadable?
    ensures Loaded(AfterSave(d, note)).Success?
    ensures FirstWithId(Loaded(AfterSave(d, note)).value, note.id) == Some(note)
  {
    var notes := PutOrReplace(Loaded(d).value, note);
    RehydrateSerialize(notes);
    SaveThenFind(Loaded(d).value, note);
  }

  /** After a save the file holds the loaded notes with the one note put or
      replaced: the other notes and their order are kept, and no id is
      duplicated that was not already. */
  lemma {:induction false} SaveKeepsOthers(d: Disk, note: Note)
    requires !d.Unreadable?
    ensures Loaded(AfterSave(d, note)) == Success(PutOrReplace(Loaded(d).value, note))
    ensures DistinctIds(Loaded(d).value) ==> DistinctIds(Loaded(AfterSave(d, note)).value)
  {
    RehydrateSerialize(PutOrReplace(Loaded(d).value, note));
    if DistinctIds(Loaded(d).value) {
      PutOrReplaceKeepsIdsDistinct(Loaded(d).value, note);
    }
  }

  class FileNoteRepository {
    /** The store file. */
    var disk: Disk
    /** Every note `save` has been called with, in call order. */
    ghost var saves: seq<Note>
    /** Every query `search` has been called with, in call order. */
    ghost var queries: seq<SearchQuery>

    /** A repository over a file in the state `disk`. */
    constructor (disk: Disk)
      ensures this.disk == disk && saves == [] && queries == []
    {
      this.disk, saves, queries := disk, [], [];
    }

    /** Reads all notes. A missing file is not an error: it is created
        holding an empty array, and [] is returned. Any other failure is
        returned unchanged. */
    method LoadNotes() returns (r: Result<seq<Note>, StorageError>)
      modifies this`disk
      ensures r == Loaded(old(disk))
      ensures disk == AfterLoad(old(disk))
    {
      match disk
      case Missing =>
        disk := Holds([]);
        r := Success([]);
      case Unreadable(e) =>
        r := Failure(e);
      case Holds(records) =>
        r := Success(Rehydrate(records));
    }

    /** Overwrites the whole file with `notes`. */
    method SaveNotes(notes: seq<Note>)
      modifies this`disk
      ensures disk == Holds(Serialize(notes))
    {
      disk := Holds(Serialize(notes));
    }

    /** Loads, puts or replaces by id, and writes everything back. */
    method Save(note: Note) returns (r: Result<(), StorageError>)
      modifies this`disk, this`saves
      ensures saves == old(saves) + [note]
      ensures r.Failure? <==> old(disk).Unreadable?
      ensures r.Failure? ==> r.error == old(disk).error
      ensures disk == AfterSave(old(disk), note)
    {
      saves := saves + [note];
      var loaded := LoadNotes();
      if loaded.Failure? {
        return Failure(loaded.error);
      }
      var notes := loaded.value;
      var idx := FindIndex(notes, note.id);
      if idx >= 0 {
        notes := notes[idx := note];
      } else {
        notes := notes + [note];
      }
      SaveNotes(notes);
      r := Success(());
    }

    /** The stored notes, oldest first, equal instants in file order. The
        file is not written, except that a missing one is created. */
    method FindAll() returns (r: Result<seq<Note>, StorageError>)
      modifies this`disk
      ensures disk == AfterLoad(old(disk))
      ensures r.Failure? ==> Loaded(old(disk)) == r
      ensures r.Success? ==> Loaded(old(disk)).Success? && r.value == Sort(Loaded(old(disk)).value, Ascending)
      ensures r.Success? ==> Sorted(r.value, Ascending) && multiset(r.value) == multiset(Loaded(old(disk)).value)
      ensures old(disk).Unreadable? <==> r.Failure?
    {
      var loaded := LoadNotes();
      if loaded.Failure? {
        return loaded;
      }
      SortSorted(loaded.value, Ascending);
      r := Success(Sort(loaded.value, Ascending));
    }

    /** The first stored note with this id, or none. */
    method FindById(id: NoteId) returns (r: Result<Option<Note>, StorageError>)
      modifies this`disk
      ensures disk == AfterLoad(old(disk))
      ensures old(disk).Unreadable? ==> r == Failure(old(disk).error)
      ensures !old(disk).Unreadable? ==> r == Success(FirstWithId(Loaded(old(disk)).value, id))
    {
      var loaded := LoadNotes();
      if loaded.Failure? {
        return Failure(loaded.error);
      }
      r := Success(FirstWithId(loaded.value, id));
    }

    /** Nothing, without reading the file, for a query whose trimmed text
        and tag are both empty; otherwise the notes of `FindAll` that match
        both terms. */
    method Search(query: SearchQuery) returns (r: Result<seq<Note>, StorageError>)
      modifies this`disk, this`queries
      ensures queries == old(queries) + [query]
      ensures |TrimmedOrEmpty(query.text)| == 0 && |TrimmedOrEmpty(query.tag)| == 0 ==>
        r == Success([]) && disk == old(disk)
      ensures |TrimmedOrEmpty(query.text)| != 0 || |TrimmedOrEmpty(query.tag)| != 0 ==>
        disk == AfterLoad(old(disk))
      ensures !old(disk).Unreadable? ==> r == Success(SearchNotes(Loaded(old(disk)).value, query, Ascending))
      ensures old(disk).Unreadable? && (|TrimmedOrEmpty(query.text)| != 0 || |TrimmedOrEmpty(query.tag)| != 0) ==>
        r == Failure(old(disk).error)
    {
      queries := queries + [query];
      var text := TextTerm(query);
      var tag := TagTerm(query);
      if |text| == 0 && |tag| == 0 {
        return Success([]);
      }
      var all := FindAll();
      if all.Failure? {
        return all;
      }
      r := Success(Filter(all.value, MatchPred(text, tag)));
    }
  }
}
