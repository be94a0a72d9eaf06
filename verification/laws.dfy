/** Laws relating the handlers to one another: what a later request sees
    after an earlier one, inverses, and the partition and search facts. */
module Laws {
  import opened Types
  import opened Text
  import opened Seqs
  import opened Handlers

  /** A fresh service has nothing to show: every lookup misses, the list is
      empty, and the first todo added gets id 0. */
  lemma FreshStore(id: Usize, t: Todo)
    ensures GetTodo(NewStore(), id).outcome == NotFound
    ensures GetTodos(NewStore()).outcome == Ok(Items([]))
    ensures AddTodo(NewStore(), t).outcome == Created(0)
  {
  }

  /** After adding `t`, the new id reads back `t` and every older id reads
      back what it read before. */
  lemma AddThenGet(s: TodoList, t: Todo, id: Usize)
    ensures GetTodo(AddTodo(s, t).state, id).outcome ==
      if id == |s| then Ok(Item(t)) else GetTodo(s, id).outcome
  {
  }

  /** Deleting the id that add just reported restores the previous list. */
  lemma AddThenDelete(s: TodoList, t: Todo)
    requires |s| <= USIZE_MAX
    ensures DeleteTodo(AddTodo(s, t).state, |s|) == Reply(s, Ok(Deleted(|s|)))
  {
  }

  /** Adding a todo extends every status filter by that todo alone, when it
      has the status, and otherwise leaves the filter as it was. */
  lemma AddThenSelect(s: TodoList, t: Todo, c: Criterion)
    ensures Select(AddTodo(s, t).state, c) == Select(s, c) + (if Keeps(c, t) then [t] else [])
  {
    SelectAppend(s, [t], c);
    assert Select([t], c) == if Keeps(c, t) then [t] else [];
  }

  /** A later read of an updated id sees exactly the payload's text and the
      old completion status. */
  lemma UpdateThenGet(s: TodoList, id: Usize, p: TodoPatch)
    requires id < |s|
    ensures GetTodo(UpdateTodo(s, id, p).state, id).outcome ==
      Ok(Item(Todo(p.title, p.description, s[id].complete)))
  {
  }

  /** Repeating an update changes nothing more. */
  lemma UpdateIdempotent(s: TodoList, id: Usize, p: TodoPatch)
    ensures UpdateTodo(UpdateTodo(s, id, p).state, id, p) == UpdateTodo(s, id, p)
  {
  }

  /** The list as the concatenation of the part before `id`, the item at
      `id`, and the part after it. */
  lemma Split(s: TodoList, id: nat)
    requires id < |s|
    ensures s == s[..id] + [s[id]] + s[id + 1..]
  {
  }

  /** Replacing one item changes a selection only through that item. */
  lemma SelectReplace(s: TodoList, id: nat, t: Todo, c: Criterion)
    requires id < |s|
    ensures |Select(s[id := t], c)| + (if Keeps(c, s[id]) then 1 else 0)
         == |Select(s, c)| + (if Keeps(c, t) then 1 else 0)
  {
    var s' := s[id := t];
    Split(s, id);
    Split(s', id);
    assert s'[..id] == s[..id] && s'[id + 1..] == s[id + 1..];
    SelectAppend(s[..id] + [s[id]], s[id + 1..], c);
    SelectAppend(s[..id], [s[id]], c);
    SelectAppend(s[..id] + [t], s[id + 1..], c);
    SelectAppend(s[..id], [t], c);
  }

  /** An update cannot move a todo between "completed" and "incomplete":
      both status filters keep their sizes. */
  lemma UpdateKeepsStatusCounts(s: TodoList, id: Usize, p: TodoPatch, b: bool)
    ensures |Select(UpdateTodo(s, id, p).state, WithStatus(b))| == |Select(s, WithStatus(b))|
  {
    if id < |s| {
      SelectReplace(s, id, UpdateTodo(s, id, p).state[id], WithStatus(b));
    }
  }

  /** Toggling the same id twice restores the list, and the second toggle
      reports the original todo. */
  lemma ToggleTwice(s: TodoList, id: Usize)
    ensures ToggleComplete(ToggleComplete(s, id).state, id).state == s
    ensures id < |s| ==> ToggleComplete(ToggleComplete(s, id).state, id).outcome == Ok(Item(s[id]))
  {
  }

  /** A toggle moves exactly one todo from one status filter to the other. */
  lemma ToggleMovesOne(s: TodoList, id: Usize)
    requires id < |s|
    ensures var done := |Select(ToggleComplete(s, id).state, WithStatus(true))|;
      if s[id].complete then done + 1 == |Select(s, WithStatus(true))|
      else done == |Select(s, WithStatus(true))| + 1
  {
    SelectReplace(s, id, ToggleComplete(s, id).state[id], WithStatus(true));
  }

  /** After a delete, each later id names the todo that was one place
      further on, and the ids before it are untouched. */
  lemma DeleteShiftsIds(s: TodoList, id: Usize, j: Usize)
    requires id < |s|
    ensures j < id ==> GetTodo(DeleteTodo(s, id).state, j).outcome == GetTodo(s, j).outcome
    ensures id <= j && j + 1 <= USIZE_MAX ==>
      GetTodo(DeleteTodo(s, id).state, j).outcome == GetTodo(s, j + 1).outcome
  {
  }

  /** Deleting the last todo leaves its old id unknown. */
  lemma DeleteLast(s: TodoList)
    requires 0 < |s| <= USIZE_MAX
    ensures GetTodo(DeleteTodo(s, |s| - 1).state, |s| - 1).outcome == NotFound
  {
  }

  /** A delete removes exactly the one todo at `id`. */
  lemma DeleteRemovesOne(s: TodoList, id: Usize)
    requires id < |s|
    ensures multiset(DeleteTodo(s, id).state) + multiset{s[id]} == multiset(s)
  {
    Split(s, id);
  }

  /** The "completed" and "incomplete" filters split the list between them:
      every todo lands in exactly one of them, as often as it occurs. */
  lemma StatusFiltersPartition(s: TodoList)
    ensures FilterTodos(s, "completed").outcome.Ok?
    ensures FilterTodos(s, "incomplete").outcome.Ok?
    ensures var done := FilterTodos(s, "completed").outcome.body.todos;
            var open := FilterTodos(s, "incomplete").outcome.body.todos;
            && multiset(done) + multiset(open) == multiset(s)
            && |done| + |open| == |s|
  {
  }

  /** The status filter of the filter route is case-sensitive: a
      capitalised word is an unknown route. */
  lemma FilterRouteIsCaseSensitive(s: TodoList)
    ensures FilterTodos(s, "Completed").outcome == NotFound
    ensures FilterTodos(s, "INCOMPLETE").outcome == NotFound
  {
  }

  /** Search lower-cases its filter, so the filter's case does not matter. */
  lemma SearchFilterIgnoresCase(s: TodoList, q: Option<string>, limit: Option<Usize>, f: string)
    ensures SearchTodos(s, Search(q, limit, Some(f))) == SearchTodos(s, Search(q, limit, Some(Lower(f))))
  {
    LowerIdempotent(f);
  }

  /** A search filter other than "completed" or "incomplete" (after
      lower-casing) filters nothing: the search behaves as if it had no
      filter. */
  lemma SearchUnknownFilterIgnored(s: TodoList, q: Option<string>, limit: Option<Usize>, f: string)
    requires StatusWanted(Lower(f)).None?
    ensures SearchTodos(s, Search(q, limit, Some(f))) == SearchTodos(s, Search(q, limit, None))
  {
    if q.Some? {
      assert StatusWanted(Lower("")).None?;
      SelectAgrees(s, SearchCriterion(q.value, Some(f)), SearchCriterion(q.value, None));
    }
  }

  /** Matching ignores the case of the stored text: two todos whose title
      and description agree after lower-casing, and whose status agrees, are
      kept or dropped together by every criterion. */
  lemma KeepsIgnoresTextCase(c: Criterion, t: Todo, u: Todo)
    requires Lower(t.title) == Lower(u.title)
    requires Lower(t.description) == Lower(u.description)
    requires t.complete == u.complete
    ensures Keeps(c, t) == Keeps(c, u)
  {
  }

  /** The text "Buy MILK" is found by the query "milk". */
  lemma SearchMatchesAcrossCase()
    ensures Keeps(SearchCriterion("milk", None), Todo("Buy MILK", "", false))
  {
    var t := Todo("Buy MILK", "", false);
    assert Lower(t.title) == "buy milk";
    assert OccursAt(Lower(t.title), "milk", 4);
  }

  /** Search results come in stored order: they are a subsequence of the
      list. */
  lemma SearchResultsInOrder(s: TodoList, search: Search)
    requires search.query.Some?
    ensures IsSubsequence(SearchTodos(s, search).outcome.body.todos, s)
  {
    var hits := Select(s, SearchCriterion(search.query.value, search.filter));
    var found := SearchTodos(s, search).outcome.body.todos;
    PrefixOfSubsequence(hits, s, |found|);
    assert found == hits[..|found|];
  }

  /** A lower-case query finds every todo whose title or description holds
      it verbatim, whatever the case of the surrounding text. */
  lemma SearchFindsLowercaseQuery(s: TodoList, q: string, t: Todo)
    requires NoUpper(q)
    requires t in s
    requires Contains(t.title, q) || Contains(t.description, q)
    ensures t in Select(s, SearchCriterion(q, None))
  {
    LowerKeepsLowercase(q);
    if Contains(t.title, q) {
      ContainsLower(t.title, q);
    } else {
      ContainsLower(t.description, q);
    }
    assert StatusWanted(Lower("")).None?;
    assert Keeps(SearchCriterion(q, None), t);
    assert multiset(s)[t] > 0;
  }

  /** The query is not lower-cased, so a query holding an upper-case ASCII
      letter matches nothing: it can never occur in a lower-cased title or
      description. */
  lemma SearchUppercaseQueryFindsNothing(s: TodoList, search: Search, k: nat)
    requires search.query.Some?
    requires k < |search.query.value| && IsUpper(search.query.value[k])
    ensures SearchTodos(s, search).outcome == Ok(Items([]))
  {
  }

  /** Search never returns more than its limit. */
  lemma SearchRespectsLimit(s: TodoList, search: Search)
    requires search.query.Some? && search.limit.Some?
    ensures |SearchTodos(s, search).outcome.body.todos| <= search.limit.value
  {
  }

  /** The life of one todo: created as #0, read back, toggled, deleted, and
      then gone. */
  lemma SingleTodoScenario()
    ensures var a := Todo("A", "B", false);
      var s1 := AddTodo(NewStore(), a);
      var s2 := ToggleComplete(s1.state, 0);
      var s3 := DeleteTodo(s2.state, 0);
      && s1.outcome == Created(0)
      && GetTodo(s1.state, 0).outcome == Ok(Item(a))
      && s2.outcome == Ok(Item(Todo("A", "B", true)))
      && s3.outcome == Ok(Deleted(0))
      && GetTodo(s3.state, 0).outcome == NotFound
  {
  }

  /** Two todos, one done: the "completed" route shows only that one, and
      an unknown word is NotFound. */
  lemma TwoTodoScenario()
    ensures var milk := Todo("Buy milk", "", true);
      var dog := Todo("Walk dog", "", false);
      var s := AddTodo(AddTodo(NewStore(), milk).state, dog).state;
      && FilterTodos(s, "completed").outcome == Ok(Items([milk]))
      && FilterTodos(s, "bogus").outcome == NotFound
  {
  }
}
