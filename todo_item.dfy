/**
 * frontend/src/components/TodoItem.tsx: the edit state of one rendered todo.
 * `onUpdate` is the page's `handleUpdateTodo`; each call made is recorded in
 * `updates`.
 */
module TodoItem {
  import opened Records
  import opened Text

  /** One `onUpdate(id, title, description)` call. */
  datatype UpdateCall = UpdateCall(id: int, title: string, description: Option<string>)

  /** `todo.description || ""`: what the description box starts from. */
  function DescriptionText(description: Option<string>): (s: string)
    ensures description.Some? ==> s == description.value
    ensures description.None? ==> s == ""
  {
    if description.Some? then description.value else ""
  }

  /** What Save sends for the text in the boxes; nothing when the trimmed title is blank. */
  function SaveCall(id: int, editTitle: string, editDescription: string): (c: Option<UpdateCall>)
    ensures c.None? <==> IsBlank(editTitle)
    ensures c.Some? ==> c.value.id == id && c.value.title == Trim(editTitle) && !IsBlank(c.value.title)
    ensures c.Some? ==> c.value.description == TrimmedOrUndefined(editDescription)
  {
    if IsBlank(editTitle) then None
    else
      TrimIdempotent(editTitle);
      Some(UpdateCall(id, Trim(editTitle), TrimmedOrUndefined(editDescription)))
  }

  /**
   * Opening the editor on what Save sent and saving again sends the same call:
   * the values an update writes are already in the form Save produces.
   */
  lemma {:induction false} SaveAgainSendsSame(id: int, editTitle: string, editDescription: string)
    requires SaveCall(id, editTitle, editDescription).Some?
    ensures var c := SaveCall(id, editTitle, editDescription).value;
      SaveCall(id, c.title, DescriptionText(c.description)) == Some(c)
  {
    var c := SaveCall(id, editTitle, editDescription).value;
    TrimIdempotent(editTitle);
    if c.description.Some? {
      TrimIdempotent(editDescription);
    }
  }

  class Editor {
    const todo: Todo
    var isEditing: bool
    var editTitle: string
    var editDescription: string
    /** The `onUpdate` calls made so far, oldest first. */
    var updates: seq<UpdateCall>

    constructor (todo: Todo)
      ensures this.todo == todo && !isEditing && updates == []
      ensures editTitle == todo.title && editDescription == DescriptionText(todo.description)
    {
      this.todo := todo;
      isEditing := false;
      editTitle := todo.title;
      editDescription := DescriptionText(todo.description);
      updates := [];
    }

    /** `handleStartEdit` */
    method StartEdit()
      modifies this
      ensures isEditing && updates == old(updates)
      ensures editTitle == todo.title && editDescription == DescriptionText(todo.description)
    {
      isEditing := true;
      editTitle := todo.title;
      editDescription := DescriptionText(todo.description);
    }

    /** `handleCancelEdit`: leaves editing with both boxes restored and no call made. */
    method CancelEdit()
      modifies this
      ensures !isEditing && updates == old(updates)
      ensures editTitle == todo.title && editDescription == DescriptionText(todo.description)
    {
      isEditing := false;
      editTitle := todo.title;
      editDescription := DescriptionText(todo.description);
    }

    /** `handleSaveEdit`: a blank title keeps editing; otherwise one call is made and editing ends. */
    method SaveEdit() returns (call: Option<UpdateCall>)
      modifies this
      ensures call == SaveCall(todo.id, old(editTitle), old(editDescription))
      ensures call.None? ==> isEditing == old(isEditing) && updates == old(updates)
      ensures call.Some? ==> !isEditing && updates == old(updates) + [call.value]
      ensures editTitle == old(editTitle) && editDescription == old(editDescription)
    {
      call := SaveCall(todo.id, editTitle, editDescription);
      if call.Some? {
        updates := updates + [call.value];
        isEditing := false;
      }
    }
  }
}
