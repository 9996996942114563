/** The to-do synchronisation hook (src/hooks/useTodos.ts): the client's copy
    of the list and its loading flag, changed only after a remote call has
    answered. The hosted store is not modelled: each operation receives the
    outcome of its one remote call as a parameter. The requests the hook
    sends and the notifications it raises are kept in ghost logs. */
module TodoSync {
  import opened Seqs
  import opened TodoModel

  /** The remote request each operation sends. */
  datatype Request =
    | SelectAll
    | Insert(title: string, description: Option<string>, owner: string)
    | UpdateRow(id: string, updates: Patch)
    | DeleteRow(id: string)

  datatype Operation = Fetch | Create | Update | Delete

  /** A toast: `Success`, or the destructive `Error` variant. */
  datatype Notice = Succeeded(op: Operation) | Failed(op: Operation)

  class TodoStore {
    var todos: seq<Todo>
    var loading: bool
    ghost var requests: seq<Request>
    ghost var notices: seq<Notice>

    /** The hook's initial state: no todos, and loading. */
    constructor ()
      ensures todos == [] && loading
      ensures requests == [] && notices == []
    {
      todos := [];
      loading := true;
      requests := [];
      notices := [];
    }

    /** `fetchTodos`: without a signed-in user nothing happens. Otherwise the
        list becomes the returned rows (none when the payload is null), or
        stays as it was on error with an error notice; loading is cleared
        either way. A successful fetch raises no notice. */
    method FetchTodos(user: Option<string>, outcome: Remote<Option<seq<Todo>>>)
      modifies this
      ensures user.None? ==>
        todos == old(todos) && loading == old(loading) &&
        requests == old(requests) && notices == old(notices)
      ensures user.Some? ==>
        !loading && requests == old(requests) + [SelectAll]
      ensures user.Some? && outcome.Ok? ==>
        todos == outcome.payload.GetOr([]) && notices == old(notices)
      ensures user.Some? && outcome.Err? ==>
        todos == old(todos) && notices == old(notices) + [Failed(Fetch)]
    {
      if user.None? {
        return;
      }
      loading := true;
      requests := requests + [SelectAll];
      match outcome {
        case Ok(rows) =>
          todos := rows.GetOr([]);
        case Err =>
          notices := notices + [Failed(Fetch)];
      }
      loading := false;
    }

    /** `createTodo`: without a user nothing happens. On success the returned
        row goes to the front of the list and the old list is its tail. */
    method CreateTodo(user: Option<string>, title: string, description: Option<string>,
                      outcome: Remote<Todo>)
      modifies this`todos, this`requests, this`notices
      ensures user.None? ==>
        todos == old(todos) && requests == old(requests) && notices == old(notices)
      ensures user.Some? ==>
        requests == old(requests) + [Insert(title, description, user.value)]
      ensures user.Some? && outcome.Ok? ==>
        todos == [outcome.payload] + old(todos) && notices == old(notices) + [Succeeded(Create)]
      ensures user.Some? && outcome.Err? ==>
        todos == old(todos) && notices == old(notices) + [Failed(Create)]
    {
      if user.None? {
        return;
      }
      requests := requests + [Insert(title, description, user.value)];
      match outcome
      case Ok(row) =>
        todos := [row] + todos;
        notices := notices + [Succeeded(Create)];
      case Err =>
        notices := notices + [Failed(Create)];
    }

    /** `updateTodo`: there is no user guard. On success every entry with the
        id is replaced by the returned row; on error the list is kept. */
    method UpdateTodo(id: string, updates: Patch, outcome: Remote<Todo>)
      modifies this`todos, this`requests, this`notices
      ensures requests == old(requests) + [UpdateRow(id, updates)]
      ensures outcome.Ok? ==>
        todos == ReplaceById(old(todos), id, outcome.payload) &&
        notices == old(notices) + [Succeeded(Update)]
      ensures outcome.Err? ==>
        todos == old(todos) && notices == old(notices) + [Failed(Update)]
    {
      requests := requests + [UpdateRow(id, updates)];
      match outcome
      case Ok(row) =>
        todos := ReplaceById(todos, id, row);
        notices := notices + [Succeeded(Update)];
      case Err =>
        notices := notices + [Failed(Update)];
    }

    /** `deleteTodo`: there is no user guard. On success the entries with the
        id are filtered out; on error the list is kept. */
    method DeleteTodo(id: string, outcome: Remote<()>)
      modifies this`todos, this`requests, this`notices
      ensures requests == old(requests) + [DeleteRow(id)]
      ensures outcome.Ok? ==>
        todos == RemoveById(old(todos), id) &&
        notices == old(notices) + [Succeeded(Delete)]
      ensures outcome.Err? ==>
        todos == old(todos) && notices == old(notices) + [Failed(Delete)]
    {
      requests := requests + [DeleteRow(id)];
      match outcome
      case Ok(_) =>
        todos := RemoveById(todos, id);
        notices := notices + [Succeeded(Delete)];
      case Err =>
        notices := notices + [Failed(Delete)];
    }
  }

  /** A signed-in user creates the rows one after another, one insert each,
      and every insert succeeds: the store ends up with the rows newest first ahead of the list
      it started from, which is `AfterCreates` of that list. */
  method CreateInTurn(store: TodoStore, user: string, rows: seq<Todo>)
    modifies store
    ensures store.todos == Reversed(rows) + old(store.todos)
    ensures store.todos == AfterCreates(old(store.todos), rows)
    ensures store.notices == old(store.notices) + seq(|rows|, _ => Succeeded(Create))
    ensures store.requests == old(store.requests) +
      seq(|rows|, k requires 0 <= k < |rows| => Insert(rows[k].title, rows[k].description, user))
    ensures store.loading == old(store.loading)
  {
    CreatesNewestFirst(store.todos, rows);
    var i := 0;
    while i < |rows|
      invariant 0 <= i <= |rows|
      invariant store.todos == Reversed(rows[..i]) + old(store.todos)
      invariant store.notices == old(store.notices) + seq(i, _ => Succeeded(Create))
      invariant store.requests == old(store.requests) +
        seq(i, k requires 0 <= k < i => Insert(rows[k].title, rows[k].description, user))
      invariant store.loading == old(store.loading)
    {
      store.CreateTodo(Some(user), rows[i].title, rows[i].description, Ok(rows[i]));
      ReversedSnoc(rows[..i], rows[i]);
      assert rows[..i + 1] == rows[..i] + [rows[i]];
      i := i + 1;
    }
    assert rows[..i] == rows;
  }

  /** The list after a series of successful creates, `rows[0]` first. */
  function AfterCreates(todos: seq<Todo>, rows: seq<Todo>): seq<Todo>
    decreases |rows|
  {
    if rows == [] then todos else AfterCreates([rows[0]] + todos, rows[1..])
  }

  /** Successive creates leave the list newest first: the created rows in
      reverse call order, ahead of the list they started from. */
  lemma {:induction false} CreatesNewestFirst(todos: seq<Todo>, rows: seq<Todo>)
    ensures AfterCreates(todos, rows) == Reversed(rows) + todos
    decreases |rows|
  {
    if rows != [] {
      CreatesNewestFirst([rows[0]] + todos, rows[1..]);
      assert Reversed(rows) == Reversed(rows[1..]) + [rows[0]];
    }
  }
}
