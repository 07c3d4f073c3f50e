/**
 * frontend/src/components/CreateTodoForm.tsx: the collapsible form that adds a
 * todo. `handleSubmit` awaits `onCreate`; the model splits it at the await:
 * `Submit` runs up to the call and `Settle` runs the rest, given whether the
 * call resolved.
 */
module CreateTodoForm {
  import opened Records
  import opened Text

  /** The arguments of `onCreate`, or nothing when the trimmed title is blank. */
  function SubmitCall(title: string, description: string): (c: Option<CreateTodoData>)
    ensures c.None? <==> IsBlank(title)
    ensures c.Some? ==> c.value.title == Trim(title) && !IsBlank(c.value.title)
    ensures c.Some? ==> c.value.description == TrimmedOrUndefined(description)
  {
    if IsBlank(title) then None
    else
      TrimIdempotent(title);
      Some(CreateTodoData(Trim(title), TrimmedOrUndefined(description)))
  }

  /** `disabled={isCreating || !title.trim()}` */
  predicate SubmitDisabled(isCreating: bool, title: string) {
    isCreating || IsBlank(title)
  }

  /** The button is enabled exactly when no call is pending and a submit would make one. */
  lemma EnabledIffSubmits(isCreating: bool, title: string, description: string)
    ensures !SubmitDisabled(isCreating, title) <==> !isCreating && SubmitCall(title, description).Some?
  {
  }

  class Form {
    var isOpen: bool
    var title: string
    var description: string
    var isCreating: bool
    /** The `onCreate` calls made so far, oldest first. */
    var created: seq<CreateTodoData>

    constructor ()
      ensures !isOpen && title == "" && description == "" && !isCreating && created == []
    {
      isOpen, title, description, isCreating := false, "", "", false;
      created := [];
    }

    /** The collapsed form's button. */
    method Open()
      modifies this
      ensures isOpen
      ensures title == old(title) && description == old(description) && isCreating == old(isCreating) && created == old(created)
    {
      isOpen := true;
    }

    /** `handleSubmit` up to the awaited `onCreate`. */
    method Submit() returns (call: Option<CreateTodoData>)
      modifies this
      ensures call == SubmitCall(old(title), old(description))
      ensures call.None? ==> isCreating == old(isCreating) && created == old(created)
      ensures call.Some? ==> isCreating && created == old(created) + [call.value]
      ensures isOpen == old(isOpen) && title == old(title) && description == old(description)
    {
      call := SubmitCall(title, description);
      match call
      case Some(data) =>
        isCreating, created := true, created + [data];
      case None =>
    }

    /**
     * The rest of `handleSubmit`: on success the fields are cleared and the
     * form closes; on failure they stay; `isCreating` ends false either way.
     */
    method Settle(succeeded: bool)
      requires isCreating
      modifies this
      ensures !isCreating && created == old(created)
      ensures succeeded ==> title == "" && description == "" && !isOpen
      ensures !succeeded ==> title == old(title) && description == old(description) && isOpen == old(isOpen)
    {
      if succeeded {
        title := "";
        description := "";
        isOpen := false;
      }
      isCreating := false;
    }

    /** `handleCancel` */
    method Cancel()
      modifies this
      ensures !isOpen && title == "" && description == ""
      ensures isCreating == old(isCreating) && created == old(created)
    {
      isOpen := false;
      title := "";
      description := "";
    }
  }
}
