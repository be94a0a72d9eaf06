/** The request handlers of the todo service (src/handlers.rs), each a pure
    step from the current list to a new list and an outcome. The HTTP reply
    (status code, JSON text, message strings) is reduced to the `Outcome`
    constructor and the data it carries. */
module Handlers {
  import opened Types
  import opened Text
  import opened Seqs

  /** What a successful reply carries. */
  datatype Body =
    | Item(todo: Todo)            // one todo, as JSON
    | Items(todos: seq<Todo>)     // a JSON array of todos
    | Deleted(id: nat)            // the confirmation naming a deleted id

  /** The outcome of a request. */
  datatype Outcome =
    | Created(id: nat)            // 201 with the new todo's id
    | Ok(body: Body)              // 200
    | NotFound                    // 404
    | BadRequest                  // 400

  /** The list after the request, and the outcome reported to the client. */
  datatype Reply = Reply(state: TodoList, outcome: Outcome)

  /** The completion status a filter word selects: `Some(true)` for
      "completed", `Some(false)` for "incomplete", `None` for any other word.
      The comparison is exact, so case matters. */
  function StatusWanted(filter: string): (r: Option<bool>)
    ensures r.Some? <==> filter == "completed" || filter == "incomplete"
    ensures r.Some? ==> (r.value <==> filter == "completed")
  {
    if filter == "completed" then Some(true)
    else if filter == "incomplete" then Some(false)
    else None
  }

  /** Which items a scan keeps: those with one completion status, or those
      a search query (and an already lower-cased status filter) admits. */
  datatype Criterion =
    | WithStatus(complete: bool)
    | Matching(query: string, filter: string)

  /** Whether the search text occurs in the lower-cased title or the
      lower-cased description. The query itself is used as given. */
  predicate TextMatches(t: Todo, query: string): (b: bool)
    ensures |query| == 0 ==> b
    ensures !NoUpper(query) ==> !b
    ensures NoUpper(query) && (Contains(t.title, query) || Contains(t.description, query)) ==> b
  {
    LowerContainsFacts(t.title, query);
    LowerContainsFacts(t.description, query);
    Contains(Lower(t.title), query) || Contains(Lower(t.description), query)
  }

  /** Whether a scan with criterion `c` keeps the todo `t`. */
  predicate Keeps(c: Criterion, t: Todo): (b: bool)
    ensures c.WithStatus? ==> (b <==> t.complete == c.complete)
    ensures c.Matching? && StatusWanted(c.filter).None? ==> (b <==> TextMatches(t, c.query))
    ensures c.Matching? && StatusWanted(c.filter).Some? ==>
      (b <==> TextMatches(t, c.query) && t.complete == (c.filter == "completed"))
  {
    match c
    case WithStatus(b) => t.complete == b
    case Matching(q, f) =>
      && TextMatches(t, q)
      && match StatusWanted(f)
         case Some(b) => t.complete == b
         case None => true
  }

  /** The items of `s` that `c` keeps, in their original order, each kept
      item as often as it occurs in `s`. */
  function Select(s: TodoList, c: Criterion): (r: TodoList)
    ensures |r| <= |s|
    ensures forall i :: 0 <= i < |r| ==> Keeps(c, r[i])
    ensures forall t :: Keeps(c, t) ==> multiset(r)[t] == multiset(s)[t]
    ensures IsSubsequence(r, s)
  {
    if |s| == 0 then []
    else
      assert s == [s[0]] + s[1..];
      if Keeps(c, s[0]) then [s[0]] + Select(s[1..], c) else Select(s[1..], c)
  }

  /** Selecting from a concatenation selects from each part. */
  lemma {:induction false} SelectAppend(a: TodoList, b: TodoList, c: Criterion)
    ensures Select(a + b, c) == Select(a, c) + Select(b, c)
    decreases |a|
  {
    if |a| > 0 {
      assert (a + b)[1..] == a[1..] + b;
      SelectAppend(a[1..], b, c);
    } else {
      assert a + b == b;
    }
  }

  /** Two criteria that keep the same todos select the same items. */
  lemma {:induction false} SelectAgrees(s: TodoList, c: Criterion, d: Criterion)
    requires forall t :: Keeps(c, t) == Keeps(d, t)
    ensures Select(s, c) == Select(s, d)
    decreases |s|
  {
    if |s| > 0 {
      SelectAgrees(s[1..], c, d);
    }
  }

  // ---------------------------------------------------------------------
  // The handlers

  /** add_todo: appends the todo and reports its id, the old length. */
  function AddTodo(s: TodoList, todo: Todo): (r: Reply)
    ensures |r.state| == |s| + 1
    ensures r.state[..|s|] == s && r.state[|s|] == todo
    ensures r.outcome.Created? && r.outcome.id == |r.state| - 1
  {
    Reply(s + [todo], Created(|s|))
  }

  /** get_todos: the whole list, in stored order. */
  function GetTodos(s: TodoList): (r: Reply)
    ensures r.state == s
    ensures r.outcome == Ok(Items(s))
  {
    Reply(s, Ok(Items(s)))
  }

  /** get_todo: the todo at `id`, or NotFound past the end. */
  function GetTodo(s: TodoList, id: Usize): (r: Reply)
    ensures r.state == s
    ensures r.outcome.Ok? <==> id < |s|
    ensures id < |s| ==> r.outcome == Ok(Item(s[id]))
    ensures |s| <= id ==> r.outcome == NotFound
  {
    if id < |s| then Reply(s, Ok(Item(s[id]))) else Reply(s, NotFound)
  }

  /** update_todo: overwrites title and description at `id`. */
  function UpdateTodo(s: TodoList, id: Usize, payload: TodoPatch): (r: Reply)
    ensures |r.state| == |s|
    ensures |s| <= id ==> r == Reply(s, NotFound)
    ensures id < |s| ==>
      && r.state[id].title == payload.title
      && r.state[id].description == payload.description
      && r.state[id].complete == s[id].complete
      && r.outcome == Ok(Item(r.state[id]))
    ensures forall i :: 0 <= i < |s| && i != id ==> r.state[i] == s[i]
  {
    if id < |s| then
      var updated := s[id].(title := payload.title, description := payload.description);
      Reply(s[id := updated], Ok(Item(updated)))
    else
      Reply(s, NotFound)
  }

  /** delete_todo: removes the todo at `id`; every later todo moves down one
      place, so its id drops by one. */
  function DeleteTodo(s: TodoList, id: Usize): (r: Reply)
    ensures |s| <= id ==> r == Reply(s, NotFound)
    ensures id < |s| ==>
      && |r.state| == |s| - 1
      && r.state[..id] == s[..id]
      && (forall i :: id <= i < |r.state| ==> r.state[i] == s[i + 1])
      && r.outcome == Ok(Deleted(id))
  {
    if id < |s| then Reply(s[..id] + s[id + 1..], Ok(Deleted(id)))
    else Reply(s, NotFound)
  }

  /** toggle_complete: flips the completion status at `id`. */
  function ToggleComplete(s: TodoList, id: Usize): (r: Reply)
    ensures |r.state| == |s|
    ensures |s| <= id ==> r == Reply(s, NotFound)
    ensures id < |s| ==>
      && r.state[id].title == s[id].title
      && r.state[id].description == s[id].description
      && r.state[id].complete == !s[id].complete
      && r.outcome == Ok(Item(r.state[id]))
    ensures forall i :: 0 <= i < |s| && i != id ==> r.state[i] == s[i]
  {
    if id < |s| then
      var toggled := s[id].(complete := !s[id].complete);
      Reply(s[id := toggled], Ok(Item(toggled)))
    else
      Reply(s, NotFound)
  }

  /** filter_todos: the todos with the status an exact "completed" or
      "incomplete" names; any other word is NotFound. */
  function FilterTodos(s: TodoList, filter: string): (r: Reply)
    ensures r.state == s
    ensures r.outcome.Ok? <==> filter == "completed" || filter == "incomplete"
    ensures r.outcome.Ok? ==>
      var want := filter == "completed";
      && r.outcome.body.Items?
      && (forall i :: 0 <= i < |r.outcome.body.todos| ==> r.outcome.body.todos[i].complete == want)
      && (forall t: Todo :: t.complete == want ==> multiset(r.outcome.body.todos)[t] == multiset(s)[t])
      && IsSubsequence(r.outcome.body.todos, s)
    ensures !r.outcome.Ok? ==> r.outcome == NotFound
  {
    match StatusWanted(filter)
    case Some(b) => Reply(s, Ok(Items(Select(s, WithStatus(b)))))
    case None => Reply(s, NotFound)
  }

  /** The criterion a search with query `q` applies: the filter defaults to
      the empty word and is lower-cased, the query is not. */
  function SearchCriterion(q: string, filter: Option<string>): (c: Criterion)
    ensures c.Matching? && c.query == q
    ensures NoUpper(c.filter)
    ensures filter.None? ==> StatusWanted(c.filter).None?
    ensures filter.Some? ==> c.filter == Lower(filter.value)
  {
    assert StatusWanted(Lower("")).None?;
    Matching(q, Lower(filter.UnwrapOr("")))
  }

  /** search_todos: without a query the request is rejected; otherwise the
      first `limit` todos the criterion keeps, in stored order. With no
      limit the cap is the largest `usize`. */
  function SearchTodos(s: TodoList, search: Search): (r: Reply)
    ensures r.state == s
    ensures search.query.None? <==> r.outcome == BadRequest
    ensures search.query.Some? ==>
      var c := SearchCriterion(search.query.value, search.filter);
      var hits := Select(s, c);
      && r.outcome.Ok? && r.outcome.body.Items?
      && var found := r.outcome.body.todos;
      && |found| <= |hits|
      && (forall i :: 0 <= i < |found| ==> found[i] == hits[i] && Keeps(c, found[i]))
      && (search.limit.Some? ==> |found| == if search.limit.value < |hits| then search.limit.value else |hits|)
      && (search.limit.None? && |s| <= USIZE_MAX ==> found == hits)
  {
    match search.query
    case None => Reply(s, BadRequest)
    case Some(q) =>
      var hits := Select(s, SearchCriterion(q, search.filter));
      var found := Take(hits, search.limit.UnwrapOr(USIZE_MAX));
      assert forall i :: 0 <= i < |found| ==> found[i] == hits[i];
      Reply(s, Ok(Items(found)))
  }
}
