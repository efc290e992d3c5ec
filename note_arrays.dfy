/** The array operations every repository performs on its notes:
    `findIndex`/`find` by id, put-or-replace, the `Array.prototype.sort` by
    creation instant, and the text/tag filters of search. Each repository
    class states its methods in terms of these functions. */
module NoteArrays {
  import opened Wrappers
  import opened Text
  import opened Notes
  import opened SearchQueries

  // ---------------------------------------------------------------- by id

  /** `notes.findIndex(n => n.id === id)`: the first index holding `id`, or
      -1 when no note has it. */
  function FindIndex(notes: seq<Note>, id: NoteId): (i: int)
    ensures -1 <= i < |notes|
    ensures i >= 0 ==> notes[i].id == id && forall j :: 0 <= j < i ==> notes[j].id != id
    ensures i == -1 ==> forall j :: 0 <= j < |notes| ==> notes[j].id != id
  {
    if notes == [] then -1
    else if notes[0].id == id then 0
    else
      var k := FindIndex(notes[1..], id);
      if k == -1 then -1 else k + 1
  }

  /** `notes.find(n => n.id === id) ?? null`. */
  function FirstWithId(notes: seq<Note>, id: NoteId): (r: Option<Note>)
    ensures r.None? <==> forall n :: n in notes ==> n.id != id
    ensures r.Some? ==> r.value in notes && r.value.id == id
    ensures r.Some? ==> exists k :: 0 <= k < |notes| && notes[k] == r.value && forall j :: 0 <= j < k ==> notes[j].id != id
  {
    var i := FindIndex(notes, id);
    if i >= 0 then Some(notes[i]) else None
  }

  /** The put-or-replace step of `save`: overwrite the first slot holding the
      note's id, or append the note when its id is new. */
  function PutOrReplace(notes: seq<Note>, note: Note): (r: seq<Note>)
    ensures (forall n :: n in notes ==> n.id != note.id) ==> r == notes + [note]
    ensures (exists n :: n in notes && n.id == note.id) ==>
      exists k :: 0 <= k < |notes| && notes[k].id == note.id && (forall j :: 0 <= j < k ==> notes[j].id != note.id) && r == notes[k := note]
  {
    var i := FindIndex(notes, note.id);
    if i >= 0 then notes[i := note] else notes + [note]
  }

  predicate DistinctIds(notes: seq<Note>) {
    forall i, j :: 0 <= i < j < |notes| ==> notes[i].id != notes[j].id
  }

  /** Saving a note with an unseen id appends it: one more entry, the old
      ones in place. */
  lemma PutOrReplaceAppends(notes: seq<Note>, note: Note)
    requires forall n :: n in notes ==> n.id != note.id
    ensures PutOrReplace(notes, note) == notes + [note]
    ensures |PutOrReplace(notes, note)| == |notes| + 1
  {
  }

  /** Saving a note whose id is stored replaces the first slot with that id
      and nothing else; the length is unchanged. */
  lemma PutOrReplaceReplaces(notes: seq<Note>, note: Note, k: nat)
    requires k < |notes| && notes[k].id == note.id
    requires forall j :: 0 <= j < k ==> notes[j].id != note.id
    ensures |PutOrReplace(notes, note)| == |notes|
    ensures PutOrReplace(notes, note)[k] == note
    ensures forall j :: 0 <= j < |notes| && j != k ==> PutOrReplace(notes, note)[j] == notes[j]
  {
  }

  /** Put-or-replace never duplicates an id. */
  lemma PutOrReplaceKeepsIdsDistinct(notes: seq<Note>, note: Note)
    requires DistinctIds(notes)
    ensures DistinctIds(PutOrReplace(notes, note))
  {
    var i := FindIndex(notes, note.id);
    var r := PutOrReplace(notes, note);
    forall a, b | 0 <= a < b < |r| ensures r[a].id != r[b].id {
      if i == -1 && b == |notes| {
        assert r[a] == notes[a];
      }
    }
  }

  /** Every saved note can be found again by its id, whatever was stored. */
  lemma SaveThenFind(notes: seq<Note>, note: Note)
    ensures FirstWithId(PutOrReplace(notes, note), note.id) == Some(note)
  {
    var i := FindIndex(notes, note.id);
    var r := PutOrReplace(notes, note);
    var k := FindIndex(r, note.id);
    if i >= 0 {
      assert r[i] == note;
    } else {
      assert r[|notes|] == note;
    }
  }

  /** Saving one note does not change what is found under another id. */
  lemma SaveKeepsOtherIds(notes: seq<Note>, note: Note, id: NoteId)
    requires id != note.id
    ensures FirstWithId(PutOrReplace(notes, note), id) == FirstWithId(notes, id)
  {
    var i := FindIndex(notes, note.id);
    var r := PutOrReplace(notes, note);
    var k := FindIndex(r, id);
    var m := FindIndex(notes, id);
    assert forall j :: 0 <= j < |notes| ==> (r[j].id == id <==> notes[j].id == id);
    if i == -1 {
      assert r[|notes|].id != id;
    }
    assert k == m;
    if m >= 0 {
      assert r[m] == notes[m];
    }
  }

  // ---------------------------------------------------------- sort order

  /** The two orders the repositories sort by: `a.createdAt - b.createdAt`
      (oldest first) and `b.createdAt - a.createdAt` (newest first). */
  datatype Order = Ascending | Descending

  /** The sort key: a comparator `x.createdAt - y.createdAt` sorts by
      `createdAt`, and `y.createdAt - x.createdAt` by its negation. */
  function Key(n: Note, o: Order): int {
    if o == Ascending then n.createdAt else -n.createdAt
  }

  predicate Sorted(s: seq<Note>, o: Order) {
    forall i, j :: 0 <= i < j < |s| ==> Key(s[i], o) <= Key(s[j], o)
  }

  /** Inserts `x` after every element whose key is not larger than its own. */
  function Insert(s: seq<Note>, x: Note, o: Order): (r: seq<Note>)
    ensures multiset(r) == multiset(s) + multiset{x}
    ensures |r| == |s| + 1
  {
    if s == [] then [x]
    else if Key(x, o) < Key(s[0], o) then [x] + s
    else
      assert s == [s[0]] + s[1..];
      [s[0]] + Insert(s[1..], x, o)
  }

  /** `Array.prototype.sort` with a comparator by creation instant. The
      sort is stable (ECMA-262 since its 2019 edition): this is insertion
      sort that keeps notes with equal keys in their original order. */
  function Sort(s: seq<Note>, o: Order): (r: seq<Note>)
    ensures multiset(r) == multiset(s)
    ensures |r| == |s|
  {
    if s == [] then []
    else
      assert s == s[..|s| - 1] + [s[|s| - 1]];
      Insert(Sort(s[..|s| - 1], o), s[|s| - 1], o)
  }

  /** Every element of a key-sorted sequence has a key at least that of
      its first element. */
  lemma HeadKeyIsLeast(s: seq<Note>, o: Order, n: Note)
    requires Sorted(s, o) && n in s
    ensures Key(s[0], o) <= Key(n, o)
  {
    var i :| 0 <= i < |s| && s[i] == n;
    if i > 0 {
      assert Key(s[0], o) <= Key(s[i], o);
    }
  }

  /** The tail of a sorted sequence is sorted. */
  lemma SortedTail(s: seq<Note>, o: Order)
    requires Sorted(s, o) && s != []
    ensures Sorted(s[1..], o)
  {
    forall i, j | 0 <= i < j < |s[1..]| ensures Key(s[1..][i], o) <= Key(s[1..][j], o) {
      assert s[1..][i] == s[i + 1] && s[1..][j] == s[j + 1];
    }
  }

  /** A key no larger than every key of a sorted sequence can head it. */
  lemma ConsSorted(h: Note, t: seq<Note>, o: Order)
    requires Sorted(t, o)
    requires forall j :: 0 <= j < |t| ==> Key(h, o) <= Key(t[j], o)
    ensures Sorted([h] + t, o)
  {
    var r := [h] + t;
    forall i, j | 0 <= i < j < |r| ensures Key(r[i], o) <= Key(r[j], o) {
      if i == 0 {
        assert r[j] == t[j - 1];
      } else {
        assert r[i] == t[i - 1] && r[j] == t[j - 1];
      }
    }
  }

  /** Every note of an insertion result is the inserted note or was there. */
  lemma InsertMember(s: seq<Note>, x: Note, o: Order, n: Note)
    requires n in Insert(s, x, o)
    ensures n == x || n in s
  {
    assert n in multiset(Insert(s, x, o));
    if n != x {
      assert n in multiset(s);
    }
  }

  lemma {:induction false} InsertSorted(s: seq<Note>, x: Note, o: Order)
    requires Sorted(s, o)
    ensures Sorted(Insert(s, x, o), o)
  {
    if s == [] {
    } else if Key(x, o) < Key(s[0], o) {
      forall j | 0 <= j < |s| ensures Key(x, o) <= Key(s[j], o) {
        HeadKeyIsLeast(s, o, s[j]);
      }
      ConsSorted(x, s, o);
    } else {
      var t := Insert(s[1..], x, o);
      SortedTail(s, o);
      InsertSorted(s[1..], x, o);
      forall j | 0 <= j < |t| ensures Key(s[0], o) <= Key(t[j], o) {
        InsertMember(s[1..], x, o, t[j]);
        if t[j] != x {
          HeadKeyIsLeast(s, o, t[j]);
        }
      }
      ConsSorted(s[0], t, o);
    }
  }

  /** The sort returns the notes in key order. */
  lemma {:induction false} SortSorted(s: seq<Note>, o: Order)
    ensures Sorted(Sort(s, o), o)
  {
    if s != [] {
      SortSorted(s[..|s| - 1], o);
      InsertSorted(Sort(s[..|s| - 1], o), s[|s| - 1], o);
    }
  }

  /** `Filter(s, p)` is `s.filter(p)`. */
  function Filter(s: seq<Note>, p: Note -> bool): (r: seq<Note>)
    ensures |r| <= |s|
  {
    if s == [] then []
    else if p(s[0]) then [s[0]] + Filter(s[1..], p)
    else Filter(s[1..], p)
  }

  /** `a` is an order-preserving subsequence of `b`. */
  predicate IsSubsequence(a: seq<Note>, b: seq<Note>)
    decreases |b|
  {
    a == [] || (b != [] && if a[0] == b[0] then IsSubsequence(a[1..], b[1..]) else IsSubsequence(a, b[1..]))
  }

  lemma {:induction false} FilterSplits(a: seq<Note>, b: seq<Note>, p: Note -> bool)
    ensures Filter(a + b, p) == Filter(a, p) + Filter(b, p)
  {
    if a != [] {
      assert (a + b)[0] == a[0];
      assert (a + b)[1..] == a[1..] + b;
      FilterSplits(a[1..], b, p);
      if p(a[0]) {
        assert Filter(a + b, p) == [a[0]] + Filter(a[1..] + b, p);
        assert Filter(a, p) == [a[0]] + Filter(a[1..], p);
      } else {
        assert Filter(a + b, p) == Filter(a[1..] + b, p);
        assert Filter(a, p) == Filter(a[1..], p);
      }
    } else {
      assert a + b == b;
    }
  }

  /** `filter` keeps exactly the elements that pass, in their order. */
  lemma {:induction false} FilterSpec(s: seq<Note>, p: Note -> bool)
    ensures forall n :: n in Filter(s, p) <==> n in s && p(n)
    ensures IsSubsequence(Filter(s, p), s)
  {
    if s != [] {
      FilterSpec(s[1..], p);
      var t := Filter(s[1..], p);
      assert s == [s[0]] + s[1..];
      if p(s[0]) {
        assert ([s[0]] + t)[1..] == t;
      } else if t != [] {
        assert t[0] in t;
      }
    }
  }

  /** `filter` keeps every passing note as often as it occurs and drops
      every other note. */
  lemma {:induction false} FilterCounts(s: seq<Note>, p: Note -> bool)
    ensures forall n :: multiset(Filter(s, p))[n] == (if p(n) then multiset(s)[n] else 0)
  {
    if s != [] {
      FilterCounts(s[1..], p);
      assert s == [s[0]] + s[1..];
      assert multiset(s) == multiset{s[0]} + multiset(s[1..]);
      if p(s[0]) {
        assert multiset(Filter(s, p)) == multiset{s[0]} + multiset(Filter(s[1..], p));
      }
    }
  }

  /** A filter that nothing passes returns []. */
  lemma FilterNone(s: seq<Note>, p: Note -> bool)
    requires forall n :: n in s ==> !p(n)
    ensures Filter(s, p) == []
  {
    FilterSpec(s, p);
  }

  // ----------------------------------------------------------- stability

  /** Passes the notes whose sort key is `k`. */
  function HasKey(o: Order, k: int): Note -> bool {
    n => Key(n, o) == k
  }

  /** Inserting in front of a sorted sequence: the inserted note's key is
      below every key already there. */
  lemma InsertFrontStable(s: seq<Note>, x: Note, o: Order, k: int)
    requires Sorted(s, o) && s != [] && Key(x, o) < Key(s[0], o)
    ensures Filter([x] + s, HasKey(o, k)) ==
            Filter(s, HasKey(o, k)) + (if Key(x, o) == k then [x] else [])
  {
    var p := HasKey(o, k);
    assert ([x] + s)[1..] == s;
    if Key(x, o) == k {
      forall n | n in s ensures !p(n) {
        HeadKeyIsLeast(s, o, n);
      }
      FilterNone(s, p);
    }
  }

  lemma AppendAssoc(a: seq<Note>, b: seq<Note>, c: seq<Note>)
    ensures a + (b + c) == (a + b) + c
  {
  }

  /** Filtering commutes with putting a note in front. */
  lemma FilterCons(h: Note, t: seq<Note>, p: Note -> bool)
    ensures Filter([h] + t, p) == (if p(h) then [h] else []) + Filter(t, p)
  {
    assert ([h] + t)[1..] == t;
  }

  /** Putting the first note of `s` back in front of `rest`, whose filter
      is that of the rest of `s` followed by `tail`. */
  lemma FilterBehindHead(s: seq<Note>, rest: seq<Note>, p: Note -> bool, tail: seq<Note>)
    requires s != [] && Filter(rest, p) == Filter(s[1..], p) + tail
    ensures Filter([s[0]] + rest, p) == Filter(s, p) + tail
  {
    var head := if p(s[0]) then [s[0]] else [];
    var kept := Filter(s[1..], p);
    calc {
      Filter([s[0]] + rest, p);
      { FilterCons(s[0], rest, p); }
      head + Filter(rest, p);
      head + (kept + tail);
      { AppendAssoc(head, kept, tail); }
      (head + kept) + tail;
      { assert [] + kept == kept; }
      Filter(s, p) + tail;
    }
  }

  lemma {:induction false} InsertStable(s: seq<Note>, x: Note, o: Order, k: int)
    requires Sorted(s, o)
    ensures Filter(Insert(s, x, o), HasKey(o, k)) ==
            Filter(s, HasKey(o, k)) + (if Key(x, o) == k then [x] else [])
  {
    if s == [] {
    } else if Key(x, o) < Key(s[0], o) {
      InsertFrontStable(s, x, o, k);
    } else {
      SortedTail(s, o);
      InsertStable(s[1..], x, o, k);
      FilterBehindHead(s, Insert(s[1..], x, o), HasKey(o, k), if Key(x, o) == k then [x] else []);
    }
  }

  /** The sort is stable: the notes sharing any one key come out in the
      order they went in. */
  lemma {:induction false} SortStable(s: seq<Note>, o: Order, k: int)
    ensures Filter(Sort(s, o), HasKey(o, k)) == Filter(s, HasKey(o, k))
  {
    if s != [] {
      var p := HasKey(o, k);
      var init, last := s[..|s| - 1], s[|s| - 1];
      var tail := if Key(last, o) == k then [last] else [];
      SortSorted(init, o);
      calc {
        Filter(Sort(s, o), p);
        Filter(Insert(Sort(init, o), last, o), p);
        { InsertStable(Sort(init, o), last, o, k); }
        Filter(Sort(init, o), p) + tail;
        { SortStable(init, o, k); }
        Filter(init, p) + tail;
        { assert Filter([last], p) == tail; }
        Filter(init, p) + Filter([last], p);
        { FilterSplits(init, [last], p); }
        Filter(init + [last], p);
        { assert s == init + [last]; }
        Filter(s, p);
      }
    }
  }

  // -------------------------------------------------------------- search

  /** `query.text?.trim().toLowerCase() ?? ''`. */
  function TextTerm(q: SearchQuery): (t: string)
    ensures q.text.None? ==> t == []
    ensures q.text.Some? ==> t == Lower(Trim(q.text.value))
    ensures |t| == |TrimmedOrEmpty(q.text)|
  {
    Lower(TrimmedOrEmpty(q.text))
  }

  /** `query.tag?.trim().toLowerCase() ?? ''`. */
  function TagTerm(q: SearchQuery): (t: string)
    ensures q.tag.None? ==> t == []
    ensures q.tag.Some? ==> t == Lower(Trim(q.tag.value))
    ensures |t| == |TrimmedOrEmpty(q.tag)|
  {
    Lower(TrimmedOrEmpty(q.tag))
  }

  /** The lowercased title or the lowercased body includes `text`. */
  function MatchesText(n: Note, text: string): (b: bool)
    ensures b <==> (exists i :: OccursAt(Lower(n.title), text, i)) || (exists i :: OccursAt(Lower(n.body), text, i))
  {
    Includes(Lower(n.title), text) || Includes(Lower(n.body), text)
  }

  /** `tags.some(t => t.toLowerCase().includes(term))`. */
  function SomeTagIncludes(tags: seq<string>, term: string): (b: bool)
    ensures b <==> exists i, k :: 0 <= i < |tags| && OccursAt(Lower(tags[i]), term, k)
  {
    exists i :: 0 <= i < |tags| && Includes(Lower(tags[i]), term)
  }

  /** The filter of `search`: an empty term matches every note. */
  predicate Matches(n: Note, text: string, tag: string) {
    (|text| == 0 || MatchesText(n, text)) && (|tag| == 0 || SomeTagIncludes(n.tags, tag))
  }

  function MatchPred(text: string, tag: string): Note -> bool {
    n => Matches(n, text, tag)
  }

  function TextPred(text: string): Note -> bool {
    n => MatchesText(n, text)
  }

  /** `search(query)` over the stored `notes`, listed in order `o`. */
  function SearchNotes(notes: seq<Note>, query: SearchQuery, o: Order): (r: seq<Note>)
    ensures |r| <= |notes|
  {
    var text := TextTerm(query);
    var tag := TagTerm(query);
    if |text| == 0 && |tag| == 0 then [] else Filter(Sort(notes, o), MatchPred(text, tag))
  }

  /** `search` finds nothing when both trimmed terms are empty; otherwise
      exactly the notes that match both lowercased terms, as an
      order-preserving subsequence of the sorted list. */
  lemma SearchNotesSpec(notes: seq<Note>, query: SearchQuery, o: Order)
    ensures |TrimmedOrEmpty(query.text)| == 0 && |TrimmedOrEmpty(query.tag)| == 0 ==>
      SearchNotes(notes, query, o) == []
    ensures IsSubsequence(SearchNotes(notes, query, o), Sort(notes, o))
    ensures forall n :: n in SearchNotes(notes, query, o) <==>
      && (|TrimmedOrEmpty(query.text)| != 0 || |TrimmedOrEmpty(query.tag)| != 0)
      && n in notes
      && Matches(n, TextTerm(query), TagTerm(query))
    ensures
      forall n :: multiset(SearchNotes(notes, query, o))[n] ==
        (if (|TrimmedOrEmpty(query.text)| != 0 || |TrimmedOrEmpty(query.tag)| != 0) && Matches(n, TextTerm(query), TagTerm(query))
         then multiset(notes)[n] else 0)
  {
    var text := TextTerm(query);
    var tag := TagTerm(query);
    if |text| != 0 || |tag| != 0 {
      FilterSpec(Sort(notes, o), MatchPred(text, tag));
      FilterCounts(Sort(notes, o), MatchPred(text, tag));
      assert forall n :: n in Sort(notes, o) <==> n in multiset(Sort(notes, o));
    }
  }

  /** `searchByText(query)` over the stored `notes`, listed in order `o`. */
  function SearchByText(notes: seq<Note>, query: string, o: Order): (r: seq<Note>)
    ensures |r| <= |notes|
  {
    var q := Lower(Trim(query));
    if |q| == 0 then [] else Filter(Sort(notes, o), TextPred(q))
  }

  /** `searchByText` finds nothing for a blank query; otherwise exactly the
      notes whose lowercased title or body includes the trimmed, lowercased
      query, as an order-preserving subsequence of the sorted list. */
  lemma SearchByTextSpec(notes: seq<Note>, query: string, o: Order)
    ensures |Trim(query)| == 0 ==> SearchByText(notes, query, o) == []
    ensures IsSubsequence(SearchByText(notes, query, o), Sort(notes, o))
    ensures forall n :: n in SearchByText(notes, query, o) <==>
      |Trim(query)| != 0 && n in notes && MatchesText(n, Lower(Trim(query)))
    ensures
      forall n :: multiset(SearchByText(notes, query, o))[n] ==
        (if |Trim(query)| != 0 && MatchesText(n, Lower(Trim(query))) then multiset(notes)[n] else 0)
  {
    var q := Lower(Trim(query));
    if |q| != 0 {
      FilterSpec(Sort(notes, o), TextPred(q));
      FilterCounts(Sort(notes, o), TextPred(q));
      assert forall n :: n in Sort(notes, o) <==> n in multiset(Sort(notes, o));
    }
  }

  /** The service's normalisation does not change what a repository finds. */
  lemma SearchIgnoresNormalization(notes: seq<Note>, query: SearchQuery, o: Order)
    ensures SearchNotes(notes, Normalize(query), o) == SearchNotes(notes, query, o)
  {
    NormalizePreservesTerms(query);
  }

  /** Trimming the query first does not change what `searchByText` finds. */
  lemma SearchByTextOfTrimmed(notes: seq<Note>, query: string, o: Order)
    ensures SearchByText(notes, Trim(query), o) == SearchByText(notes, query, o)
  {
    TrimIdempotent(query);
  }

  lemma {:induction false} FilterPointwise(s: seq<Note>, p: Note -> bool, q: Note -> bool)
    requires forall n :: n in s ==> p(n) == q(n)
    ensures Filter(s, p) == Filter(s, q)
  {
    if s != [] {
      assert forall n :: n in s[1..] ==> n in s;
      FilterPointwise(s[1..], p, q);
    }
  }

  /** A text-only `search` finds what `searchByText` finds for the same
      text, when both list in the same order. */
  lemma TextSearchAgrees(notes: seq<Note>, text: string, o: Order)
    ensures SearchNotes(notes, SearchQuery(Some(text), None), o) == SearchByText(notes, text, o)
  {
    var t := Lower(Trim(text));
    if |t| != 0 {
      FilterPointwise(Sort(notes, o), MatchPred(t, []), TextPred(t));
    }
  }
}
