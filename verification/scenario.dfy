/** A client of the hook and the two components, wired the way the page
    wires them (`onUpdate={updateTodo}`, `onDelete={deleteTodo}`): the store
    calls made are the events the item emits. One todo is created, completed
    through its checkbox, and deleted. */
module Scenario {
  import opened TodoModel
  import opened TodoSync
  import opened TodoListView
  import opened TodoItemEditor

  /** With an empty store answering every call successfully, the list shows
      one active todo, then one completed todo under a section counting 1,
      then the empty state. */
  method BuyMilk() returns (afterCreate: View, afterToggle: View, afterDelete: View)
    ensures afterCreate.Sections? && afterCreate.completed == None &&
            afterCreate.active.Some? && afterCreate.active.value.count == 1 &&
            |afterCreate.active.value.items| == 1 &&
            afterCreate.active.value.items[0].title == "Buy milk"
    ensures afterToggle.Sections? && afterToggle.active == None &&
            afterToggle.completed.Some? && afterToggle.completed.value.count == 1 &&
            |afterToggle.completed.value.items| == 1 &&
            afterToggle.completed.value.items[0].completed &&
            afterToggle.completed.value.items[0].title == "Buy milk"
    ensures afterDelete == EmptyView
  {
    var user := "u1";
    var row := Todo("t1", "Buy milk", None, false, "c", "c", user);
    var store := new TodoStore();
    store.FetchTodos(Some(user), Ok(Some([])));
    store.CreateTodo(Some(user), "Buy milk", None, Ok(row));
    afterCreate := Render(store.todos, store.loading);

    var item := new TodoItemController(store.todos[0]);
    item.ToggleComplete();
    var toggle := Patch(None, None, Some(true));
    assert item.events == [UpdateRequested(row.id, toggle)];
    var done := row.(completed := true, updatedAt := "u");
    store.UpdateTodo(row.id, toggle, Ok(done));
    afterToggle := Render(store.todos, store.loading);

    item.Delete();
    assert item.events[1] == DeleteRequested(row.id);
    store.DeleteTodo(row.id, Ok(()));
    afterDelete := Render(store.todos, store.loading);
  }
}
