/** The list component (src/components/TodoList.tsx): which of the three
    views it shows, and the split of the list into active and completed
    sections. */
module TodoListView {
  import opened Seqs
  import opened TodoModel

  predicate IsCompleted(t: Todo) { t.completed }
  predicate IsActive(t: Todo) { !t.completed }

  /** `todos.filter(todo => todo.completed)`. */
  function CompletedTodos(todos: seq<Todo>): (r: seq<Todo>)
    ensures forall i :: 0 <= i < |r| ==> r[i] in todos && r[i].completed
    ensures forall i :: 0 <= i < |todos| && todos[i].completed ==> todos[i] in r
  {
    Filter(IsCompleted, todos)
  }

  /** `todos.filter(todo => !todo.completed)`. */
  function ActiveTodos(todos: seq<Todo>): (r: seq<Todo>)
    ensures forall i :: 0 <= i < |r| ==> r[i] in todos && !r[i].completed
    ensures forall i :: 0 <= i < |todos| && !todos[i].completed ==> todos[i] in r
  {
    Filter(IsActive, todos)
  }

  /** A rendered section: the count in its heading and the items under it. */
  datatype Section = Section(count: nat, items: seq<Todo>)

  /** The loading card, the empty-state card, or the two optional sections,
      active first. */
  datatype View =
    | LoadingView
    | EmptyView
    | Sections(active: Option<Section>, completed: Option<Section>)

  /** A section is rendered only when it has something in it. */
  function SectionOf(items: seq<Todo>): (s: Option<Section>)
    ensures s.Some? <==> |items| > 0
    ensures s.Some? ==> s.value.count == |items| && s.value.items == items
  {
    if |items| > 0 then Some(Section(|items|, items)) else None
  }

  /** The component's choice of view. */
  function Render(todos: seq<Todo>, loading: bool): (v: View)
    ensures loading ==> v == LoadingView
    ensures !loading && |todos| == 0 ==> v == EmptyView
    ensures !loading && |todos| > 0 ==>
      v == Sections(SectionOf(ActiveTodos(todos)), SectionOf(CompletedTodos(todos)))
  {
    if loading then LoadingView
    else if |todos| == 0 then EmptyView
    else Sections(SectionOf(ActiveTodos(todos)), SectionOf(CompletedTodos(todos)))
  }

  /** The two sections split the list: every occurrence is in exactly one of
      them, so no entry is in both and the counts add up to the list length. */
  lemma PartitionCovers(todos: seq<Todo>)
    ensures multiset(ActiveTodos(todos)) + multiset(CompletedTodos(todos)) == multiset(todos)
    ensures |ActiveTodos(todos)| + |CompletedTodos(todos)| == |todos|
    ensures forall t :: !(t in ActiveTodos(todos) && t in CompletedTodos(todos))
  {
    FilterPartition(IsActive, IsCompleted, todos);
    forall t | t in ActiveTodos(todos) ensures t !in CompletedTodos(todos) {
      var a := ActiveTodos(todos);
      var i :| 0 <= i < |a| && a[i] == t;
    }
  }

  /** Each section lists its items in the order the list has them. */
  lemma PartitionKeepsOrder(todos: seq<Todo>)
    ensures IsSubsequence(ActiveTodos(todos), todos)
    ensures IsSubsequence(CompletedTodos(todos), todos)
  {
    FilterIsSubsequence(IsActive, todos);
    FilterIsSubsequence(IsCompleted, todos);
  }

  /** Once loaded, a non-empty list shows at least one section, and the two
      heading counts add up to the number of todos. */
  lemma NonEmptyListShowsSections(todos: seq<Todo>)
    requires |todos| > 0
    ensures Render(todos, false).Sections?
    ensures Render(todos, false).active.Some? || Render(todos, false).completed.Some?
    ensures Render(todos, false).active.GetOr(Section(0, [])).count +
            Render(todos, false).completed.GetOr(Section(0, [])).count == |todos|
  {
    PartitionCovers(todos);
  }

  /** After a successful update whose returned row is completed, that row is
      listed under the completed section, and no entry carrying the id is
      left in the active one. */
  lemma CompletedUpdateLandsInCompleted(todos: seq<Todo>, id: string, row: Todo)
    requires row.id == id && row.completed
    requires id in Ids(todos)
    ensures row in CompletedTodos(ReplaceById(todos, id, row))
    ensures forall t :: t in ActiveTodos(ReplaceById(todos, id, row)) ==> t.id != id
  {
  }
}
