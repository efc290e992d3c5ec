/** The in-memory repository of the Next.js application: a `notes` array,
    put-or-replace by id, listed newest first, searched by text only. */
module SharedMemoryRepository {
  import opened Wrappers
  import opened Text
  import opened Notes
  import opened NoteArrays

  class InMemoryNoteRepository {
    /** The stored notes, in insertion order. */
    var notes: seq<Note>
    /** Every note `save` has been called with, in call order. */
    ghost var saves: seq<Note>
    /** Every string `searchByText` has been called with, in call order. */
    ghost var textQueries: seq<string>

    constructor ()
      ensures notes == [] && saves == [] && textQueries == []
    {
      notes, saves, textQueries := [], [], [];
    }

    /** Overwrites the first note with the same id, or appends. */
    method Save(note: Note)
      modifies this`notes, this`saves
      ensures notes == PutOrReplace(old(notes), note)
      ensures saves == old(saves) + [note]
    {
      saves := saves + [note];
      var idx := FindIndex(notes, note.id);
      if idx >= 0 {
        notes := notes[idx := note];
        return;
      }
      notes := notes + [note];
    }

    /** A sorted copy of the notes: newest first, equal instants in
        insertion order; the stored array is left as it is. */
    method FindAll() returns (r: seq<Note>)
      ensures r == Sort(notes, Descending)
      ensures Sorted(r, Descending) && multiset(r) == multiset(notes)
      ensures forall i, j :: 0 <= i < j < |r| ==> r[i].createdAt >= r[j].createdAt
      ensures forall k :: Filter(r, HasKey(Descending, k)) == Filter(notes, HasKey(Descending, k))
    {
      r := Sort(notes, Descending);
      SortSorted(notes, Descending);
      forall i, j | 0 <= i < j < |r| ensures r[i].createdAt >= r[j].createdAt {
        assert Key(r[i], Descending) <= Key(r[j], Descending);
      }
      forall k ensures Filter(r, HasKey(Descending, k)) == Filter(notes, HasKey(Descending, k)) {
        SortStable(notes, Descending, k);
      }
    }

    /** The first stored note with this id, or none. */
    method FindById(id: NoteId) returns (r: Option<Note>)
      ensures r.None? <==> forall n :: n in notes ==> n.id != id
      ensures r.Some? ==> r.value.id == id
      ensures r.Some? ==>
        exists i :: 0 <= i < |notes| && notes[i] == r.value && forall j :: 0 <= j < i ==> notes[j].id != id
    {
      r := FirstWithId(notes, id);
      if r.Some? {
        assert notes[FindIndex(notes, id)] == r.value;
      }
    }

    /** Nothing for a blank query; otherwise the notes of `FindAll` whose
        lowercased title or body includes the trimmed, lowercased query. */
    method SearchByText(query: string) returns (r: seq<Note>)
      modifies this`textQueries
      ensures textQueries == old(textQueries) + [query]
      ensures r == NoteArrays.SearchByText(notes, query, Descending)
    {
      textQueries := textQueries + [query];
      var q := Lower(Trim(query));
      if |q| == 0 {
        return [];
      }
      var all := FindAll();
      r := Filter(all, TextPred(q));
    }
  }
}
