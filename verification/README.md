# Todo API core, modelled in Dafny

This project models the in-memory todo service of `basic-todoapi`: a list
of `Todo` records (title, description, completion flag) in which an item's
identifier is its position, and the eight request handlers that read and
change it. Each handler is a pure function from the current list and the
request input to a `Reply`: the list afterwards and an `Outcome`
(`Created(id)`, `Ok(body)`, `NotFound`, `BadRequest`). The shared,
lock-protected store is reduced to the list it protects, and each handler is
one atomic step.

Files:

- `types.dfy` (module `Types`): `Todo`, `TodoPatch` (the source's
  `UpdateTodo` body, renamed because the handler of the same name lives
  beside it), `Search` with its three optional fields, `TodoList`,
  Rust's `usize` as `Usize`, and the empty list a new store holds.
- `text.dfy` (module `Text`): ASCII lower-casing and substring containment,
  the two string operations search uses.
- `seqs.dfy` (module `Seqs`): subsequences and `Take`, the shapes that the
  `filter` and `take` iterator adapters produce.
- `handlers.dfy` (module `Handlers`): the outcome types, the shared
  selection function `Select` that both filter routes use, and one function
  per handler.
- `laws.dfy` (module `Laws`): lemmas relating the handlers to one another.

Details of the search and filter semantics that the model keeps:

- Search lower-cases the title, the description and the filter, but not the
  query (src/handlers.rs:130-131,138-139). So a query that holds an
  upper-case ASCII letter matches nothing at all
  (`Laws.SearchUppercaseQueryFindsNothing`), while a query with no
  upper-case ASCII letter matches regardless of the ASCII case of the text
  (`Laws.SearchFindsLowercaseQuery` for verbatim occurrences,
  `Laws.KeepsIgnoresTextCase` for text that differs only in case, and
  `Laws.SearchMatchesAcrossCase` for the query "milk" against "Buy MILK").
- The filter route compares its word exactly (`"Completed"` is NotFound),
  while search lower-cases its filter and treats any unknown word as no
  filter (`Laws.FilterRouteIsCaseSensitive`, `Laws.SearchFilterIgnoresCase`,
  `Laws.SearchUnknownFilterIgnored`).
- Delete checks the id and removes the item in two separate lock scopes, and
  add reads the length back after its write. Both are modelled as single
  atomic steps.

## Model

| member | source | states |
|---|---|---|
| Types.NewStore | src/types.rs:33-37 | a new store holds no todos |
| Text.LowerChar | src/handlers.rs:131 | lower-casing a character leaves no upper-case ASCII letter, keeps other characters, and maps each capital to its own small letter |
| Text.Lower | src/handlers.rs:138-139 | lower-casing keeps the length and lower-cases each character in place, leaving no upper-case ASCII letter |
| Text.LowerKeepsLowercase | src/handlers.rs:131 | lower-casing text that has no upper-case ASCII letter changes nothing |
| Text.LowerIdempotent | src/handlers.rs:131 | lower-casing twice is the same as lower-casing once |
| Text.ContainsLower | src/handlers.rs:138-139 | if the text contains a string, the lower-cased text contains the lower-cased string |
| Text.LowerNeverContainsUpper | src/handlers.rs:138-139 | lower-cased text never contains a string with an upper-case ASCII letter |
| Text.LowerContainsFacts | src/handlers.rs:138-139 | in lower-cased text the empty needle is always found, a needle with an upper-case ASCII letter never is, and a needle with none is found wherever it occurs verbatim |
| Types.Option.UnwrapOr | src/handlers.rs:131 | the carried value when there is one, the default otherwise |
| Text.Contains | src/handlers.rs:138-139 | the needle occurs at some position of the text; the empty needle occurs in every text, and a found needle is no longer than the text |
| Seqs.Take | src/handlers.rs:146 | take yields the first min(n, length) elements, a prefix of its input |
| Seqs.PrefixOfSubsequence | src/handlers.rs:135-147 | every prefix of an order-preserving selection is again order-preserving |
| Handlers.StatusWanted | src/handlers.rs:102-115 | only the exact words "completed" and "incomplete" name a status, true for "completed" |
| Handlers.Select | src/handlers.rs:104 | the selection keeps only items the criterion accepts, keeps each accepted item exactly as often as the list holds it, and keeps stored order |
| Handlers.SelectAppend | src/handlers.rs:135-145 | selecting from two joined lists is joining the two selections |
| Handlers.SelectAgrees | src/handlers.rs:140-144 | criteria that accept the same todos select the same items |
| Handlers.TextMatches | src/handlers.rs:138-139 | the query is matched as given against the lower-cased title or description: the empty query matches every todo, a query with an upper-case ASCII letter matches none, and a query with no upper-case ASCII letter matches every todo whose title or description holds it verbatim |
| Handlers.Keeps | src/handlers.rs:104-144 | a status criterion accepts exactly the todos with that status; a search criterion accepts exactly the text matches whose status the filter word admits, all text matches when the word is not a status word |
| Handlers.SearchCriterion | src/handlers.rs:130-131 | the search criterion carries the query unchanged and the filter lower-cased, with an absent filter meaning no status restriction |
| Handlers.AddTodo | src/handlers.rs:4-11 | add appends the todo at the end, grows the list by one, keeps the old items, and reports the new item's index |
| Handlers.GetTodos | src/handlers.rs:13-15 | list-all returns the whole list in stored order and changes nothing |
| Handlers.GetTodo | src/handlers.rs:17-29 | get returns the todo at the id when it is in range and NotFound otherwise, and changes nothing |
| Handlers.UpdateTodo | src/handlers.rs:31-52 | update out of range is NotFound with the list unchanged; in range it sets title and description from the payload, keeps the status, returns the updated todo and leaves every other item alone |
| Handlers.DeleteTodo | src/handlers.rs:54-73 | delete out of range is NotFound with the list unchanged; in range the list shrinks by one, earlier items stay, later items shift down one place, and the reply names the id |
| Handlers.ToggleComplete | src/handlers.rs:75-94 | toggle out of range is NotFound; in range only the status at the id flips, and the updated todo is returned |
| Handlers.FilterTodos | src/handlers.rs:96-117 | an exact "completed"/"incomplete" returns exactly the todos with that status, each as often as stored, in order; any other word is NotFound; the list is unchanged |
| Handlers.SearchTodos | src/handlers.rs:119-150 | no query is BadRequest; otherwise the result is a prefix of the matching todos in stored order, of length min(limit, matches), every result matching; without a limit it is all the matches |
| Laws.FreshStore | src/types.rs:33-37 | on a fresh store every get is NotFound, list-all is empty and the first add gets id 0 |
| Laws.AddThenGet | src/handlers.rs:4-29 | after an add the reported id reads back the new todo and older ids read back what they did before |
| Laws.AddThenDelete | src/handlers.rs:4-73 | deleting the id an add reported restores the previous list |
| Laws.AddThenSelect | src/handlers.rs:4-11 | after an add a selection gains the new todo at its end exactly when the criterion accepts it |
| Laws.UpdateThenGet | src/handlers.rs:31-52 | a read after an update sees the payload's title and description with the old status |
| Laws.UpdateIdempotent | src/handlers.rs:31-52 | repeating the same update changes nothing further |
| Laws.SelectReplace | src/handlers.rs:100-115 | replacing one item changes the size of a selection only through the removed and the inserted item |
| Laws.UpdateKeepsStatusCounts | src/types.rs:14-18 | an update never moves a todo between the completed and incomplete filters |
| Laws.ToggleTwice | src/handlers.rs:75-94 | toggling the same id twice restores the list and the second toggle returns the original todo |
| Laws.ToggleMovesOne | src/handlers.rs:91 | a toggle moves exactly one todo into or out of the completed filter |
| Laws.DeleteShiftsIds | src/handlers.rs:67 | after a delete, ids below it read the same todo and each later id reads the todo that was one place further on |
| Laws.DeleteLast | src/handlers.rs:54-73 | after deleting the last todo its old id is NotFound |
| Laws.DeleteRemovesOne | src/handlers.rs:67 | a delete removes exactly one copy of the todo at the id and nothing else |
| Laws.StatusFiltersPartition | src/handlers.rs:102-108 | the completed and incomplete filters together hold every todo exactly as often as the list does, and their lengths sum to the list's |
| Laws.FilterRouteIsCaseSensitive | src/handlers.rs:102-114 | the filter route treats "Completed" and "INCOMPLETE" as unknown words |
| Laws.SearchFilterIgnoresCase | src/handlers.rs:131 | the ASCII case of the search filter does not change the search result |
| Laws.SearchUnknownFilterIgnored | src/handlers.rs:140-144 | a search filter that is not a status word after lower-casing gives the same result as no filter |
| Laws.SearchResultsInOrder | src/handlers.rs:135-147 | search results appear in stored order |
| Laws.KeepsIgnoresTextCase | src/handlers.rs:137-144 | every criterion keeps or drops two todos together when their titles and descriptions agree after lower-casing and their statuses agree |
| Laws.SearchMatchesAcrossCase | src/handlers.rs:138-139 | the query "milk" finds a todo titled "Buy MILK" |
| Laws.SearchFindsLowercaseQuery | src/handlers.rs:137-139 | a query with no upper-case ASCII letter finds every todo whose title or description contains it verbatim, in the selection with no filter and before any limit |
| Laws.SearchUppercaseQueryFindsNothing | src/handlers.rs:130-139 | a query with an upper-case ASCII letter returns an empty result, since the query is not lower-cased |
| Laws.SearchRespectsLimit | src/handlers.rs:146 | a search never returns more todos than its limit |
| Laws.SingleTodoScenario | src/handlers.rs:4-94 | create, read, toggle, delete and re-read of one todo give Created 0, the todo, the toggled todo, Deleted 0 and NotFound |
| Laws.TwoTodoScenario | src/handlers.rs:96-117 | with one done and one open todo, "completed" returns only the done one and an unknown word is NotFound |

## Left out

- The `Arc<RwLock<..>>` store and concurrent access (src/types.rs:27-30): each handler is one atomic step, so the race between delete's check and its removal, and between add's push and its read of the length, is not modelled.
- All of src/main.rs: route composition and order, the 16 KiB body limit, JSON body parsing, static files, logging and the listening port.
- JSON serialisation, HTTP status codes and reply message texts: outcomes are constructors carrying the id or the todos.
- Text.Lower: lower-cases ASCII letters only; Rust's `to_lowercase` follows full Unicode case mapping, which can also change the length of a string.
- The async runtime.
- The list length is unbounded in the model; a Rust `Vec` cannot exceed `isize::MAX` bytes. Ids and limits are `usize` values (at most 2^64-1), as on a 64-bit target.
