/** The to-do record as the hosted table returns it, the partial update the
    item component sends, the outcome of one remote call, and the two pure
    list updaters the synchronisation hook applies after a successful call
    (src/hooks/useTodos.ts). */
module TodoModel {
  import opened Seqs

  datatype Option<T> = None | Some(value: T) {
    /** The value, or `default` when absent (JavaScript's `x || default`
        for the null payload and the absent description). */
    function GetOr(default: T): T {
      match this
      case Some(v) => v
      case None => default
    }
  }

  /** One row of the `todos` table. Timestamps are the store's opaque strings. */
  datatype Todo = Todo(
    id: string,
    title: string,
    description: Option<string>,
    completed: bool,
    createdAt: string,
    updatedAt: string,
    userId: string)

  /** `Partial<Pick<Todo, 'title' | 'description' | 'completed'>>`: an absent
      field is one the update does not mention. */
  datatype Patch = Patch(title: Option<string>, description: Option<string>, completed: Option<bool>)

  /** What one remote call came back with: a payload, or an error. */
  datatype Remote<T> = Ok(payload: T) | Err

  /** The ids present in a list. */
  function Ids(todos: seq<Todo>): set<string> {
    set t | t in todos :: t.id
  }

  /** No two entries share an id. Nothing in the client enforces this. */
  ghost predicate UniqueIds(todos: seq<Todo>) {
    forall i, j :: 0 <= i < j < |todos| ==> todos[i].id != todos[j].id
  }

  /** The update reconciliation `prev.map(todo => todo.id === id ? data : todo)`:
      every entry carrying `id` is replaced by the returned row, every other
      entry stays where and what it was. */
  function ReplaceById(todos: seq<Todo>, id: string, row: Todo): (r: seq<Todo>)
    ensures |r| == |todos|
    ensures forall i :: 0 <= i < |todos| && todos[i].id == id ==> r[i] == row
    ensures forall i :: 0 <= i < |todos| && todos[i].id != id ==> r[i] == todos[i]
  {
    Map((t: Todo) => if t.id == id then row else t, todos)
  }

  /** The delete reconciliation `prev.filter(todo => todo.id !== id)`. */
  function RemoveById(todos: seq<Todo>, id: string): (r: seq<Todo>)
    ensures |r| <= |todos|
    ensures forall i :: 0 <= i < |r| ==> r[i] in todos && r[i].id != id
    ensures forall i :: 0 <= i < |todos| && todos[i].id != id ==> todos[i] in r
  {
    Filter((t: Todo) => t.id != id, todos)
  }

  /** Updating an id that no entry carries leaves the list as it was. */
  lemma ReplaceAbsentId(todos: seq<Todo>, id: string, row: Todo)
    requires id !in Ids(todos)
    ensures ReplaceById(todos, id, row) == todos
  {
  }

  /** When the returned row keeps the id it was asked for, the set of ids is
      unchanged, and every entry that still carries `id` is the returned row. */
  lemma ReplaceKeepsIds(todos: seq<Todo>, id: string, row: Todo)
    requires row.id == id
    ensures Ids(ReplaceById(todos, id, row)) == Ids(todos)
    ensures forall t :: t in ReplaceById(todos, id, row) && t.id == id ==> t == row
  {
  }

  /** Deleting keeps the surviving entries in their original order. */
  lemma RemoveKeepsOrder(todos: seq<Todo>, id: string)
    ensures IsSubsequence(RemoveById(todos, id), todos)
  {
    FilterIsSubsequence((t: Todo) => t.id != id, todos);
  }

  /** Deleting keeps every surviving entry as many times as it occurred: the
      survivors and the entries carrying `id` together are the old list. */
  lemma RemoveCounts(todos: seq<Todo>, id: string)
    ensures multiset(RemoveById(todos, id)) + multiset(Filter((t: Todo) => t.id == id, todos)) == multiset(todos)
  {
    FilterPartition((t: Todo) => t.id != id, (t: Todo) => t.id == id, todos);
  }

  /** After a delete the id is gone, and every other id is still there. */
  lemma RemoveIds(todos: seq<Todo>, id: string)
    ensures Ids(RemoveById(todos, id)) == Ids(todos) - {id}
  {
  }

  /** Deleting an id that no entry carries leaves the list as it was. */
  lemma RemoveAbsentId(todos: seq<Todo>, id: string)
    requires id !in Ids(todos)
    ensures RemoveById(todos, id) == todos
  {
    forall i | 0 <= i < |todos| ensures todos[i].id != id {
      assert todos[i] in todos;
    }
    FilterKeepsAll((t: Todo) => t.id != id, todos);
  }

  /** Deleting the same id twice is deleting it once. */
  lemma RemoveIdempotent(todos: seq<Todo>, id: string)
    ensures RemoveById(RemoveById(todos, id), id) == RemoveById(todos, id)
  {
    FilterIdempotent((t: Todo) => t.id != id, todos);
  }

  /** With unique ids, deleting an id that is present removes exactly one
      entry, and the list is otherwise what it was. */
  lemma {:induction false} RemovePresentUnique(todos: seq<Todo>, id: string)
    requires UniqueIds(todos)
    requires id in Ids(todos)
    ensures |RemoveById(todos, id)| == |todos| - 1
    ensures exists k :: 0 <= k < |todos| && todos[k].id == id &&
                        RemoveById(todos, id) == todos[..k] + todos[k + 1..]
  {
    var t :| t in todos && t.id == id;
    var k :| 0 <= k < |todos| && todos[k] == t;
    RemoveAt(todos, id, k);
  }

  /** The entry at `k` is the only one carrying `id`, so the delete cuts out
      exactly position `k`. */
  lemma {:induction false} RemoveAt(todos: seq<Todo>, id: string, k: nat)
    requires UniqueIds(todos)
    requires k < |todos| && todos[k].id == id
    ensures RemoveById(todos, id) == todos[..k] + todos[k + 1..]
  {
    var keep := (t: Todo) => t.id != id;
    assert todos == [todos[0]] + todos[1..];
    if k == 0 {
      forall i | 0 <= i < |todos[1..]| ensures keep(todos[1..][i]) {
        assert todos[1..][i] == todos[i + 1];
      }
      FilterKeepsAll(keep, todos[1..]);
    } else {
      RemoveAt(todos[1..], id, k - 1);
      assert todos[..k] == [todos[0]] + todos[1..][..k - 1];
      assert todos[k + 1..] == todos[1..][k..];
    }
  }
}
