/** The in-memory repository of the NestJS application: a `notes` array,
    put-or-replace by id, listed oldest first. */
module ApiMemoryRepository {
  import opened Wrappers
  import opened Notes
  import opened SearchQueries
  import opened NoteArrays

  class InMemoryNoteRepository {
    /** The stored notes, in insertion order. */
    var notes: seq<Note>
    /** Every note `save` has been called with, in call order. */
    ghost var saves: seq<Note>
    /** Every query `search` has been called with, in call order. */
    ghost var queries: seq<SearchQuery>

    constructor ()
      ensures notes == [] && saves == [] && queries == []
    {
      notes, saves, queries := [], [], [];
    }

    /** Overwrites the first note with the same id, or appends. */
    method Save(note: Note)
      modifies this`notes, this`saves
      ensures notes == PutOrReplace(old(notes), note)
      ensures saves == old(saves) + [note]
    {
      saves := saves + [note];
      var idx := FindIndex(notes, note.id);
      if idx >= 0 {
        notes := notes[idx := note];
        return;
      }
      notes := notes + [note];
    }

    /** A sorted copy of the notes: oldest first, equal instants in
        insertion order; the stored array is left as it is. */
    method FindAll() returns (r: seq<Note>)
      ensures r == Sort(notes, Ascending)
      ensures Sorted(r, Ascending) && multiset(r) == multiset(notes)
      ensures forall k :: Filter(r, HasKey(Ascending, k)) == Filter(notes, HasKey(Ascending, k))
    {
      r := Sort(notes, Ascending);
      SortSorted(notes, Ascending);
      forall k ensures Filter(r, HasKey(Ascending, k)) == Filter(notes, HasKey(Ascending, k)) {
        SortStable(notes, Ascending, k);
      }
    }

    /** The first stored note with this id, or none. */
    method FindById(id: NoteId) returns (r: Option<Note>)
      ensures r.None? <==> forall n :: n in notes ==> n.id != id
      ensures r.Some? ==> r.value.id == id
      ensures r.Some? ==>
        exists i :: 0 <= i < |notes| && notes[i] == r.value && forall j :: 0 <= j < i ==> notes[j].id != id
    {
      r := FirstWithId(notes, id);
      if r.Some? {
        assert notes[FindIndex(notes, id)] == r.value;
      }
    }

    /** Nothing for a query whose trimmed text and tag are both empty;
        otherwise the notes of `FindAll` that match both terms. */
    method Search(query: SearchQuery) returns (r: seq<Note>)
      modifies this`queries
      ensures queries == old(queries) + [query]
      ensures r == SearchNotes(notes, query, Ascending)
    {
      queries := queries + [query];
      var text := TextTerm(query);
      var tag := TagTerm(query);
      if |text| == 0 && |tag| == 0 {
        return [];
      }
      var all := FindAll();
      r := Filter(all, MatchPred(text, tag));
    }
  }
}
