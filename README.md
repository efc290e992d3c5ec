# knowledge-note-app core, modelled in Dafny

This project models the domain and request-handling core of a small note-taking
application. It has:

- a `Note` entity that validates and trims its input;
- a `SearchQuery` validator and normaliser;
- a thin `NoteService` use-case layer;
- three `NoteRepository` implementations: two in-memory ones and a JSON-file one;
- two HTTP entry points: the Next.js route handler `app/api/notes/route.ts` and
  the NestJS `NotesController`.

Modules, one per file:

| file | module | models |
|---|---|---|
| `wrappers.dfy` | `Wrappers` | `Option` and `Result` |
| `text.dfy` | `Text` | `String.prototype.trim` (the ECMAScript whitespace set), `toLowerCase` and `includes` |
| `note.dfy` | `Notes` | the `Note` record, `Note.create` with its three rules in order, and `Note.from` |
| `search_query.dfy` | `SearchQueries` | `SearchQueryValidator.isValid` and `normalize` |
| `note_arrays.dfy` | `NoteArrays` | the array operations the repositories perform (`findIndex`, `find`, replace-or-push, a stable `sort` by `createdAt`, `filter`, the match predicates of `search`/`searchByText`) as functions, with their lemmas |
| `api_memory_repository.dfy` | `ApiMemoryRepository` | the NestJS in-memory repository: a class whose `notes` field the methods update |
| `shared_memory_repository.dfy` | `SharedMemoryRepository` | the shared in-memory repository: newest first, with `searchByText` |
| `file_note_repository.dfy` | `FileRepository` | the JSON-file repository over an abstract disk state |
| `note_service.dfy` | `NoteServices` | `NoteService`, over a `Backend` that is one of the three repositories |
| `json.dfy` | `JsonValues` | parsed JSON request bodies and JavaScript truthiness |
| `notes_route.dfy` | `NotesRoute` | `GET` and `POST` of the Next.js route |
| `notes_controller.dfy` | `NotesController` | `getNotes` and `createNote` of the NestJS controller |

The repositories are classes. `save` updates their `notes` (or `disk`) field, and
each method's `ensures` gives the new state and the result as functions of the old
state from `NoteArrays`. Lemmas about those functions carry the promises:

- a note saved is the one found by its id afterwards;
- other ids are unaffected;
- distinct ids stay distinct;
- `findAll` is a sorted permutation and is stable among equal `createdAt`;
- a search result is an order-preserving subsequence of `findAll` holding exactly
  the matching notes.

Ghost logs of `save` and `search` calls stand for the call counters the tests
assert on. Through them the service proves two facts: an invalid query never
reaches the repository, and a valid one reaches it once, normalised.

Behaviour of the code as written that the model follows:

- `Note.create` as written enforces no body-length limit and no tag rules;
  tags are passed through unchanged.
- The 100-character title limit accepts a title of exactly 100 characters,
  although the message says "under 100".
- The shared repository lists newest first. The NestJS and file repositories
  list oldest first.
- Tag search is substring containment in both repositories that search by tag.
- `shared/domain/NoteService.ts` as written has only `search(query: string)`,
  which calls `searchByText`. Its callers and tests use a `search(query:
  SearchQuery)` that checks `isValid`, normalises and calls `repo.search`. Both
  are modelled: `NoteServices.NoteService.SearchText` and
  `NoteServices.NoteService.Search`.
- `Note.ts` as written has neither a `tags` field nor `Note.from`, though the
  repositories and callers use both. The model's `Note` carries `tags`, and
  `Notes.From` builds a note without validation.

## Model

| member | source | states |
|---|---|---|
| Text.Trim | shared/domain/Note.ts:23-24 | the result neither starts nor ends with ECMAScript whitespace and is no longer than the input |
| Text.TrimSlice | shared/domain/Note.ts:23-24 | the trimmed string is a slice of the input whose removed ends are whitespace only |
| Text.TrimIdempotent | shared/domain/SearchQuery.ts:35-36 | trimming twice is trimming once |
| Text.TrimEmptyIffBlank | shared/domain/Note.ts:26-27 | `trim()` is empty exactly when the string is all whitespace (or empty) |
| Text.IsWs | shared/domain/Note.ts:23-24 | the whitespace `trim` removes: space, tab, line feed and carriage return are in it, ASCII letters and digits are not |
| Text.Lower | apps/api/src/infrastructure/InMemoryNoteRepository.ts:33 | `toLowerCase` character by character: same length, 'A'..'Z' lowered, every other character kept |
| Text.Includes | shared/infrastructure/InMemoryNoteRepository.ts:37 | `includes` holds exactly when the needle occurs at some position of the haystack |
| Notes.Create | shared/domain/Note.ts:22-34 | blank title is rejected first, then blank body, then a trimmed title over 100 characters; success holds exactly when none applies; the note has the trimmed title and body, the given tags, createdAt = updatedAt = `now` or the clock, and the id from `idFactory` or the default |
| Notes.From | apps/api/src/infrastructure/FileNoteRepository.ts:31-38 | rebuilding a note keeps every field as given, without validation |
| Notes.BlankTitleRejected | shared/domain/Note.ts:26 | a whitespace-only title always fails with the title-required rule |
| Notes.BlankBodyRejected | shared/domain/Note.ts:27 | a non-blank title with a whitespace-only body always fails with the body-required rule |
| Notes.CreateFromCreated | shared/domain/Note.ts:22-34 | re-creating from a created note's fields, its time and its id gives the same note |
| SearchQueries.TrimmedOrEmpty | shared/domain/SearchQuery.ts:21-22 | an absent field reads as "", a present one as its trimmed value |
| SearchQueries.TrimmedOrAbsent | shared/domain/SearchQuery.ts:35-36 | a field is kept, trimmed, exactly when it is present and non-blank after trimming |
| SearchQueries.IsValid | shared/domain/SearchQuery.ts:20-27 | invalid when both trimmed fields are empty, invalid when the trimmed text has length 1 whatever the tag, valid when it has length at least 2, valid for a tag-only query |
| SearchQueries.Normalize | shared/domain/SearchQuery.ts:33-38 | both fields are trimmed and a blank field becomes absent; `{}` maps to `{}` |
| SearchQueries.NormalizeIsNormal | shared/domain/SearchQuery.ts:33-38 | a normalised query has only trimmed, non-empty fields |
| SearchQueries.TrimmedOrEmptyOfAbsent | shared/domain/SearchQuery.ts:21-22 | reading a normalised field gives the same term as reading the raw field |
| SearchQueries.NormalizeIdempotent | shared/domain/SearchQuery.ts:33-38 | normalising twice is normalising once |
| SearchQueries.NormalizePreservesTerms | shared/domain/SearchQuery.ts:20-38 | normalising keeps both search terms and the validity of the query |
| SearchQueries.ValidIffNormalHasTerms | shared/domain/SearchQuery.ts:20-27 | validity stated both ways over the two trimmed terms |
| NoteArrays.FindIndex | shared/infrastructure/InMemoryNoteRepository.ts:12 | -1 when no note has the id, otherwise the first index holding it |
| NoteArrays.FirstWithId | shared/infrastructure/InMemoryNoteRepository.ts:27 | none exactly when no note has the id; otherwise the note at the first index holding the id, as `find` returns |
| NoteArrays.PutOrReplace | shared/infrastructure/InMemoryNoteRepository.ts:12-18 | a note with an id no stored note has is appended; otherwise it overwrites the first slot holding its id and nothing else |
| NoteArrays.PutOrReplaceAppends | shared/infrastructure/InMemoryNoteRepository.ts:17 | a note with a new id is appended at the end |
| NoteArrays.PutOrReplaceReplaces | shared/infrastructure/InMemoryNoteRepository.ts:12-15 | a note whose id first occurs at k replaces position k and nothing else; the length is kept |
| NoteArrays.PutOrReplaceKeepsIdsDistinct | shared/infrastructure/InMemoryNoteRepository.ts:11-18 | saving keeps the ids of the stored notes distinct |
| NoteArrays.SaveThenFind | shared/infrastructure/InMemoryNoteRepository.ts:11-28 | after saving a note, looking up its id finds exactly that note |
| NoteArrays.SaveKeepsOtherIds | shared/infrastructure/InMemoryNoteRepository.ts:11-28 | saving a note changes the lookup of no other id |
| NoteArrays.Insert | shared/infrastructure/InMemoryNoteRepository.ts:21-23 | an insertion step adds exactly one occurrence of the note |
| NoteArrays.Sort | shared/infrastructure/InMemoryNoteRepository.ts:21-23 | sorting is a permutation of the input |
| NoteArrays.HeadKeyIsLeast | shared/infrastructure/InMemoryNoteRepository.ts:21-23 | the first note of a sorted list has the least key of all its notes |
| NoteArrays.InsertSorted | shared/infrastructure/InMemoryNoteRepository.ts:21-23 | inserting into a sorted list keeps it sorted |
| NoteArrays.SortSorted | shared/infrastructure/InMemoryNoteRepository.ts:21-23 | the sorted list is ordered by `createdAt` in the requested direction |
| NoteArrays.InsertStable | shared/infrastructure/InMemoryNoteRepository.ts:21-23 | an insertion step keeps the relative order of notes with equal `createdAt` |
| NoteArrays.InsertFrontStable | shared/infrastructure/InMemoryNoteRepository.ts:21-23 | a note placed in front of a sorted list, below all its keys, comes last among the notes of its key |
| NoteArrays.SortStable | shared/infrastructure/InMemoryNoteRepository.ts:21-23 | sorting keeps notes with equal `createdAt` in their stored order, as `Array.prototype.sort` is stable |
| NoteArrays.Filter | shared/infrastructure/InMemoryNoteRepository.ts:34 | filtering never lengthens the list |
| NoteArrays.FilterSplits | shared/infrastructure/InMemoryNoteRepository.ts:34 | filtering a concatenation filters each part |
| NoteArrays.FilterSpec | shared/infrastructure/InMemoryNoteRepository.ts:34-38 | a note is in the result exactly when it is in the input and passes; the result is a subsequence of the input |
| NoteArrays.FilterCounts | shared/infrastructure/InMemoryNoteRepository.ts:34-38 | a passing note occurs in the result as often as in the input; another note does not occur |
| NoteArrays.FilterNone | shared/infrastructure/InMemoryNoteRepository.ts:34-38 | when no note passes, the result is empty |
| NoteArrays.FilterPointwise | shared/infrastructure/InMemoryNoteRepository.ts:34-38 | two predicates that agree on every note give the same result |
| NoteArrays.TextTerm | apps/api/src/infrastructure/InMemoryNoteRepository.ts:33 | "" when the query has no text, otherwise the trimmed text lowercased |
| NoteArrays.TagTerm | apps/api/src/infrastructure/InMemoryNoteRepository.ts:34 | "" when the query has no tag, otherwise the trimmed tag lowercased |
| NoteArrays.MatchesText | apps/api/src/infrastructure/InMemoryNoteRepository.ts:41-42 | the text test holds exactly when the term occurs in the lowercased title or in the lowercased body |
| NoteArrays.SomeTagIncludes | apps/api/src/infrastructure/InMemoryNoteRepository.ts:45 | the tag test holds exactly when the term occurs in some lowercased tag |
| NoteArrays.SearchNotes | apps/api/src/infrastructure/InMemoryNoteRepository.ts:32-49 | the result never holds more notes than are stored |
| NoteArrays.SearchNotesSpec | apps/api/src/infrastructure/InMemoryNoteRepository.ts:32-49 | both terms blank gives []; otherwise the result is a subsequence of `findAll`'s list, a note is in it exactly when it is stored, its lowercased title or body includes the text term (or the term is empty) and some lowercased tag includes the tag term (or the term is empty), and it occurs as often as it is stored |
| NoteArrays.SearchByText | shared/infrastructure/InMemoryNoteRepository.ts:30-39 | the result never holds more notes than are stored |
| NoteArrays.SearchByTextSpec | shared/infrastructure/InMemoryNoteRepository.ts:30-39 | a blank query gives []; otherwise the result is a subsequence of `findAll`'s list of exactly the notes whose lowercased title or body includes the trimmed, lowercased query, each as often as it is stored |
| NoteArrays.SearchIgnoresNormalization | apps/api/src/infrastructure/InMemoryNoteRepository.ts:32-49 | searching with the normalised query returns what searching with the raw one does |
| NoteArrays.SearchByTextOfTrimmed | shared/infrastructure/InMemoryNoteRepository.ts:31 | searching by the trimmed text returns what searching by the raw text does |
| NoteArrays.TextSearchAgrees | shared/infrastructure/InMemoryNoteRepository.ts:30-39 | a text-only `search` returns the same notes as `searchByText` with that text |
| ApiMemoryRepository.InMemoryNoteRepository.constructor | apps/api/src/infrastructure/InMemoryNoteRepository.ts:10 | a new repository holds no notes |
| ApiMemoryRepository.InMemoryNoteRepository.Save | apps/api/src/infrastructure/InMemoryNoteRepository.ts:12-19 | replaces the stored note with the same id in place, or appends; the call is logged |
| ApiMemoryRepository.InMemoryNoteRepository.FindAll | apps/api/src/infrastructure/InMemoryNoteRepository.ts:21-25 | a copy of the notes sorted oldest first: sorted, a permutation, stable among equal `createdAt`; the store is unchanged |
| ApiMemoryRepository.InMemoryNoteRepository.FindById | apps/api/src/infrastructure/InMemoryNoteRepository.ts:27-30 | none exactly when no note has the id; otherwise the first note with it |
| ApiMemoryRepository.InMemoryNoteRepository.Search | apps/api/src/infrastructure/InMemoryNoteRepository.ts:32-49 | the query is logged; the result is the text-and-tag search over the oldest-first list |
| SharedMemoryRepository.InMemoryNoteRepository.constructor | shared/infrastructure/InMemoryNoteRepository.ts:9 | a new repository holds no notes |
| SharedMemoryRepository.InMemoryNoteRepository.Save | shared/infrastructure/InMemoryNoteRepository.ts:11-18 | replaces the stored note with the same id in place, or appends; the call is logged |
| SharedMemoryRepository.InMemoryNoteRepository.FindAll | shared/infrastructure/InMemoryNoteRepository.ts:20-24 | a copy of the notes sorted newest first: `createdAt` non-increasing, a permutation, stable; the store is unchanged |
| SharedMemoryRepository.InMemoryNoteRepository.FindById | shared/infrastructure/InMemoryNoteRepository.ts:26-28 | none exactly when no note has the id; otherwise the first note with it |
| SharedMemoryRepository.InMemoryNoteRepository.SearchByText | shared/infrastructure/InMemoryNoteRepository.ts:30-39 | the query is logged; the result is the text search over the newest-first list |
| FileRepository.Rehydrate | apps/api/src/infrastructure/FileNoteRepository.ts:30-39 | one note per stored record, in order, each with the record's id, title, body, tags and both instants |
| FileRepository.Serialize | apps/api/src/infrastructure/FileNoteRepository.ts:55-62 | one record per note, in order, each with the note's id, title, body, tags and both instants |
| FileRepository.RehydrateSerialize | apps/api/src/infrastructure/FileNoteRepository.ts:30-62 | reading back what was written gives the same notes |
| FileRepository.SerializeRehydrate | apps/api/src/infrastructure/FileNoteRepository.ts:30-62 | writing back what was read gives the same records |
| FileRepository.Loaded | apps/api/src/infrastructure/FileNoteRepository.ts:18-52 | a missing file reads as [], an unreadable one fails with its error, a present one as its records |
| FileRepository.AfterLoad | apps/api/src/infrastructure/FileNoteRepository.ts:41-48 | loading creates the file as `[]` when it is missing and changes nothing otherwise |
| FileRepository.AfterSave | apps/api/src/infrastructure/FileNoteRepository.ts:68-77 | saving to an unreadable file changes nothing; otherwise the file holds the loaded notes with the note replaced or appended |
| FileRepository.SaveThenFindById | apps/api/src/infrastructure/FileNoteRepository.ts:68-87 | after a save to a readable file, looking up the note's id finds exactly that note |
| FileRepository.SaveKeepsOthers | apps/api/src/infrastructure/FileNoteRepository.ts:68-77 | a save to a readable file stores the loaded notes with the one replacement and keeps ids distinct |
| FileRepository.FileNoteRepository.constructor | apps/api/src/infrastructure/FileNoteRepository.ts:14-16 | the repository starts on the given file state |
| FileRepository.FileNoteRepository.LoadNotes | apps/api/src/infrastructure/FileNoteRepository.ts:18-52 | returns the file's notes, [] for a missing file (which it creates), the error otherwise |
| FileRepository.FileNoteRepository.SaveNotes | apps/api/src/infrastructure/FileNoteRepository.ts:54-66 | the file holds exactly the serialised notes |
| FileRepository.FileNoteRepository.Save | apps/api/src/infrastructure/FileNoteRepository.ts:68-77 | fails, with the read error, exactly when the file is unreadable; the file afterwards is the state after save |
| FileRepository.FileNoteRepository.FindAll | apps/api/src/infrastructure/FileNoteRepository.ts:79-82 | the loaded notes sorted oldest first, or the read error exactly when the file is unreadable |
| FileRepository.FileNoteRepository.FindById | apps/api/src/infrastructure/FileNoteRepository.ts:84-87 | the first loaded note with the id, or none, or the read error |
| FileRepository.FileNoteRepository.Search | apps/api/src/infrastructure/FileNoteRepository.ts:89-106 | blank terms give [] without reading the file; otherwise the text-and-tag search over the loaded notes, or the read error |
| NoteServices.NoteService.constructor | shared/domain/NoteService.ts:9 | the service keeps the repository it was given |
| NoteServices.NoteService.RepoSave | shared/domain/NoteRepository.ts:8 | a save through the interface logs the call and stores the note replaced or appended, or passes on a storage failure |
| NoteServices.NoteService.RepoFindAll | shared/domain/NoteRepository.ts:9 | a list through the interface is the stored notes in the backend's order |
| NoteServices.NoteService.RepoSearch | apps/api/src/infrastructure/InMemoryNoteRepository.ts:32 | a search through the interface logs the query once and returns the search over the stored notes |
| NoteServices.NoteService.Create | shared/domain/NoteService.ts:11-15 | an invalid input fails with its rule and leaves the repository untouched; a valid note is saved exactly once (replaced or appended) and returned; a storage failure is passed on |
| NoteServices.NoteService.List | shared/domain/NoteService.ts:17-19 | exactly the list `findAll` returns; nothing is stored or logged |
| NoteServices.NoteService.SearchText | shared/domain/NoteService.ts:21-25 | a blank query gives [] and leaves the repository untouched; otherwise `searchByText` is called once with the trimmed query and the result is the newest-first text search of the stored notes for the raw query |
| NoteServices.NoteService.Search | shared/domain/__test__/search.test.ts:19-68 | an invalid query gives [] and leaves the repository untouched; a valid one is passed, normalised, to `search` exactly once and the result is the search for the original query |
| JsonValues.Field | app/api/notes/route.ts:85-93 | a property read is the member of an object and absent on anything else |
| JsonValues.Truthy | apps/api/src/notes/notes.controller.ts:76 | everything but absent, `null`, `false`, `0` and `""` is truthy |
| JsonValues.StringsOf | app/api/notes/route.ts:118-128 | an all-string array gives its strings, element by element |
| JsonValues.JStrings | app/api/notes/route.ts:118-128 | the JSON array of a list of strings: same length, element `i` is string `i` |
| JsonValues.StringsOfJStrings | app/api/notes/route.ts:118-128 | reading the strings out of their JSON array gives them back |
| NotesRoute.ParamOrEmpty | app/api/notes/route.ts:32-33 | an absent parameter reads as "" |
| NotesRoute.NormalizeTarget | app/api/notes/route.ts:35-39 | `title` and `body` are kept exactly when given; anything else means all |
| NotesRoute.RouteQuery | app/api/notes/route.ts:41-47 | `text` is present exactly when `q` is non-blank and `tag` exactly when `tag` is, each with its raw value; the query is empty exactly when both are blank |
| NotesRoute.TargetFilterSpec | app/api/notes/route.ts:56-66 | the narrowing keeps order and removes only notes; with a non-blank `q` and target title (body) it keeps exactly the notes whose lowercased title (body) includes the trimmed, lowercased `q`, each as often as before; otherwise it keeps all |
| NotesRoute.TargetFilter | app/api/notes/route.ts:56-66 | the narrowing never lengthens the result |
| NotesRoute.SearchAndNarrow | app/api/notes/route.ts:54-66 | the service search for the query, failure passed on, with the result narrowed to the target; nothing is stored |
| NotesRoute.Get | app/api/notes/route.ts:30-69 | both parameters blank gives the list and no search, over any repository; otherwise the service search for the assembled query, narrowed to the target; nothing is stored |
| NotesRoute.CreateInput | app/api/notes/route.ts:74-129 | a non-object body is rejected first, then non-string title or body, then non-array tags, then non-string elements; on success the fields are the body's, with tags defaulting to [] |
| NotesRoute.Post | app/api/notes/route.ts:71-150 | an unparsable or rejected body gives 400 with its message and touches nothing; otherwise 201 with the created note, saved once and put or replaced in the store, or 400 with the rule's message |
| NotesController.ListRequested | apps/api/src/notes/notes.controller.ts:56 | lists exactly when `q` and `tag` are both absent or "" |
| NotesController.Filled | apps/api/src/notes/notes.controller.ts:62 | a value counts exactly when it is present and not all whitespace |
| NotesController.ControllerQuery | apps/api/src/notes/notes.controller.ts:61-67 | `text` is present exactly when `q` is non-blank and `tag` exactly when `tag` is, each with its raw value |
| NotesController.BlankQueryIsEmptySearch | apps/api/src/notes/notes.controller.ts:56-69 | a whitespace-only `q` skips the list and sends an empty, invalid query to `search` |
| NotesController.GetNotes | apps/api/src/notes/notes.controller.ts:52-71 | absent-or-empty `q` and `tag` give the list and no search; otherwise the service search for the assembled query; nothing is stored |
| NotesController.NonBlankString | apps/api/src/notes/notes.controller.ts:80 | a field counts exactly when it is a string that is not all whitespace |
| NotesController.CreateNoteInputAsWritten | apps/api/src/notes/notes.controller.ts:76-96 | as written: an absent body, then a blank or non-string title, then a blank or non-string body, then non-array tags are rejected in order; success exactly when none applies, forwarding the body's title, body and tag array (or []) |
| NotesController.NonStringTagAccepted | apps/api/src/notes/notes.controller.ts:88-95 | as written, a body with `tags: [1]` passes every check and a non-string is forwarded as a tag |
| NotesController.CheckedTags | apps/api/src/notes/notes.controller.ts:88-95 | corrected: absent tags give [], a non-array is rejected with the array message, a non-string element with the element message; otherwise the strings of the array, in order |
| NotesController.CreateNoteInput | apps/api/src/notes/notes.controller.ts:76-96 | corrected: absent body, then title, then body, then non-array tags, then non-string elements are rejected in order; success exactly when none applies, with the body's title, body and string tags ([] when absent) |
| NotesController.CorrectedChecksAgreeOnStringTags | apps/api/src/notes/notes.controller.ts:76-96 | the corrected checks accept exactly the bodies the checks as written accept with all-string tags, forward the same fields, and fail with the same message on every other rejected body |
| NotesController.CheckedInputPassesBlankRules | apps/api/src/notes/notes.controller.ts:80-98 | an accepted body can only still fail `create` on the title length |
| NotesController.CreateNote | apps/api/src/notes/notes.controller.ts:73-100 | corrected guard: a rejected body fails with its message and touches nothing; otherwise the service's create outcome is returned and a created note is saved once and put or replaced in the store |

## Left out

- `defaultIdFactory` (`Date.now()` and `Math.random()`) and `new Date()` are parameters: the default id and the clock are passed in.
- JSON text, `JSON.parse`/`JSON.stringify`, `fs` and paths are abstracted. The file is a disk state: missing, unreadable (with an error) or holding records.
- ISO-8601 timestamps are kept as integer milliseconds, so `toISOString` and `new Date(...)` round-trip by construction.
- `mkdir` and `writeFile` failures are not modelled; only read failures other than ENOENT are.
- `toDto`, `NextResponse`, status codes other than the 201/400 split, NestJS decorators and dependency injection are left out. The HTTP layer is reduced to its decision logic.
- `notes.service.ts` is a pass-through wrapper and is not modelled separately.
- The UI pages (`app/page.tsx`, `app/new/page.tsx`) are not part of this model.
- `async`/`await` and concurrent requests are left out. Each call runs to completion, so the file repository's read-modify-write race is not captured.
- Text.IsWs: its contract names only the ASCII cases; the full ECMAScript set (NBSP, the Zs separators, LS, PS, the BOM) is its definition.
- `Text.Lower`: only ASCII letters are lowercased. Unicode case mapping is not modelled.
- String length is counted in characters, not UTF-16 code units, so a title with astral characters can count differently from JavaScript.
- JSON numbers are integers; only their truthiness matters to the handlers.
- NotesRoute.Get: the search branch needs a backend with `search(query)`. `route.ts` wires the shared repository, which has only `searchByText`; there the service's `search` would receive an object, not a string. The list branch is modelled over every backend.
- NotesController.CreateNote: runs the corrected checks (`CreateNoteInput`), not the ones as written: the model's `Note` holds string tags only, so the non-string tag the code forwards cannot be represented. `CreateNoteInputAsWritten` and `CorrectedChecksAgreeOnStringTags` state exactly where the two differ.
- NoteArrays.SearchNotes: its own contract only bounds the length; `SearchNotesSpec` states which notes, in which order and how often.
- NoteArrays.SearchByText: its own contract only bounds the length; `SearchByTextSpec` states the rest.
- NotesRoute.TargetFilter: its own contract only bounds the length; `TargetFilterSpec` states the rest.
- `shared/domain/NoteRepository.ts` declares an older interface. The three implementations, not that file, define the calls modelled.
- Thrown exceptions are `Result` failures; `create` failures carry the rule, whose `Message` is the thrown text.

## Findings

| source | as written | input that shows it | evidently intended | confidence | as-written member | corrected member |
|---|---|---|---|---|---|---|
| apps/api/src/notes/notes.controller.ts:88-95 | `createNote` checks only that `tags` is an array and forwards its elements unchecked | `{"title":"a","body":"b","tags":[1]}` is accepted and forwarded to `create` with `tags: [1]`; with a `Note` that keeps its tags, as the repositories assume, the number is stored and a later tag search calls `toLowerCase` on it | the declared `tags?: string[]`: reject non-string elements, as `route.ts` does | medium, not executed | NotesController.NonStringTagAccepted | NotesController.CreateNoteInput |
