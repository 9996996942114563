/** The item component (src/components/TodoItem.tsx): the per-item edit
    state and its handlers. The two callbacks it is given, `onUpdate` and
    `onDelete`, are recorded as emitted events in a ghost log. */
module TodoItemEditor {
  import opened TodoModel
  import opened TextTrim

  /** A call of one of the item's callbacks. */
  datatype Event = UpdateRequested(id: string, updates: Patch) | DeleteRequested(id: string)

  /** What saving the edit fields sends: nothing when the title is blank;
      otherwise the trimmed title, the trimmed description (absent when
      blank), and never a `completed` field. */
  function SavePayload(editTitle: string, editDescription: string): (p: Option<Patch>)
    ensures p.None? <==> AllWhitespace(editTitle)
    ensures p.Some? ==>
      p.value.title == Some(Trim(editTitle)) && Trim(editTitle) != [] &&
      p.value.completed == None
    ensures p.Some? ==> (p.value.description == None <==> AllWhitespace(editDescription))
    ensures p.Some? && p.value.description.Some? ==>
      p.value.description.value == Trim(editDescription) && p.value.description.value != []
  {
    TrimEmpty(editTitle);
    TrimEmpty(editDescription);
    var title := Trim(editTitle);
    var description := Trim(editDescription);
    if title == [] then None
    else Some(Patch(Some(title), if description == [] then None else Some(description), None))
  }

  /** The payload is already normal: saving it again sends the same thing. */
  lemma SavePayloadStable(editTitle: string, editDescription: string)
    requires SavePayload(editTitle, editDescription).Some?
    ensures var p := SavePayload(editTitle, editDescription).value;
            SavePayload(p.title.value, p.description.GetOr("")) == Some(p)
  {
    TrimIdempotent(editTitle);
    TrimIdempotent(editDescription);
    TrimEmpty(Trim(editTitle));
    TrimEmpty(Trim(editDescription));
  }

  class TodoItemController {
    const todo: Todo
    var isEditing: bool
    var editTitle: string
    var editDescription: string
    ghost var events: seq<Event>

    /** Not editing; the fields start from the todo, an absent description
        as the empty string. */
    constructor (todo: Todo)
      ensures this.todo == todo
      ensures !isEditing && editTitle == todo.title && editDescription == todo.description.GetOr("")
      ensures events == []
    {
      this.todo := todo;
      isEditing := false;
      editTitle := todo.title;
      editDescription := todo.description.GetOr("");
      events := [];
    }

    /** The edit button. */
    method StartEditing()
      modifies this`isEditing
      ensures isEditing
    {
      isEditing := true;
    }

    /** Typing into the title input. */
    method SetEditTitle(value: string)
      modifies this`editTitle
      ensures editTitle == value
    {
      editTitle := value;
    }

    /** Typing into the description textarea. */
    method SetEditDescription(value: string)
      modifies this`editDescription
      ensures editDescription == value
    {
      editDescription := value;
    }

    /** `handleSave`: a blank title is refused and nothing changes; otherwise
        one update for this todo's id is emitted with the normalised payload
        and editing ends. The edit fields are kept as typed. */
    method Save() returns (saved: bool)
      modifies this`isEditing, this`events
      ensures saved <==> !AllWhitespace(editTitle)
      ensures !saved ==> isEditing == old(isEditing) && events == old(events)
      ensures saved ==>
        !isEditing &&
        events == old(events) + [UpdateRequested(todo.id, SavePayload(editTitle, editDescription).value)]
    {
      var payload := SavePayload(editTitle, editDescription);
      match payload {
        case None =>
          saved := false;
        case Some(updates) =>
          events := events + [UpdateRequested(todo.id, updates)];
          isEditing := false;
          saved := true;
      }
    }

    /** `handleCancel`: the fields go back to the todo's values, editing ends,
        and nothing is emitted. */
    method Cancel()
      modifies this`isEditing, this`editTitle, this`editDescription
      ensures !isEditing && editTitle == todo.title && editDescription == todo.description.GetOr("")
    {
      editTitle := todo.title;
      editDescription := todo.description.GetOr("");
      isEditing := false;
    }

    /** `handleToggleComplete`: emits an update that only flips `completed`;
        the edit state is untouched. */
    method ToggleComplete()
      modifies this`events
      ensures events == old(events) + [UpdateRequested(todo.id, Patch(None, None, Some(!todo.completed)))]
    {
      events := events + [UpdateRequested(todo.id, Patch(None, None, Some(!todo.completed)))];
    }

    /** The delete button: emits a delete for this todo's id and nothing else. */
    method Delete()
      modifies this`events
      ensures events == old(events) + [DeleteRequested(todo.id)]
    {
      events := events + [DeleteRequested(todo.id)];
    }
  }
}
