/**
 * What a todo edit made on the client does on the server. The page updates
 * its local collection at once and sends the same change through
 * `todosApi.update` without waiting; the server applies it with `update`.
 * These lemmas compare the row each side ends up with.
 */
module TodoSync {
  import opened Records
  import opened Text
  import opened Validation
  import TodoController
  import TodosPage
  import TodoItem

  /**
   * The flag a toggle sends passes the `boolean` rule, and the server stores
   * that flag, the one the local draft sets; title and description stay as
   * the server had them.
   */
  lemma ToggleStoredAsSent(local: Todo, server: Todo, now: string)
    ensures TodoUpdateErrors(UpdateTodoJson(TodosPage.ToggleChanges(local))) == {}
    ensures TodoController.ApplyUpdate(server, UpdateTodoJson(TodosPage.ToggleChanges(local)), now).completed
      == TodosPage.SetCompleted(!local.completed)(local).completed
    ensures TodoController.ApplyUpdate(server, UpdateTodoJson(TodosPage.ToggleChanges(local)), now).title == server.title
    ensures TodoController.ApplyUpdate(server, UpdateTodoJson(TodosPage.ToggleChanges(local)), now).description == server.description
  {
    var body := UpdateTodoJson(TodosPage.ToggleChanges(local));
    assert body["completed"] == JBool(!local.completed);
    assert IsBooleanLike(body["completed"]) && BooleanValue(body["completed"]) == !local.completed;
  }

  /**
   * A non-empty description reaches both sides the same: the server keeps the
   * string (`?? null` leaves strings alone), and `description || null` keeps it
   * locally. The title agrees as well.
   */
  lemma EditAgreesOnDescription(local: Todo, server: Todo, title: string, d: string, now: string)
    requires d != ""
    requires TodoUpdateErrors(UpdateTodoJson(TodosPage.EditChanges(title, Some(d)))) == {}
    ensures TodoController.ApplyUpdate(server, UpdateTodoJson(TodosPage.EditChanges(title, Some(d))), now).description
      == TodosPage.SetTitleAndDescription(title, Some(d))(local).description == Some(d)
    ensures TodoController.ApplyUpdate(server, UpdateTodoJson(TodosPage.EditChanges(title, Some(d))), now).title
      == TodosPage.SetTitleAndDescription(title, Some(d))(local).title == title
  {
    var body := UpdateTodoJson(TodosPage.EditChanges(title, Some(d)));
    assert body["description"] == JStr(d);
    assert TodoController.DescriptionValue(Some(body["description"])) == Some(d);
    assert TodosPage.DescriptionOrNull(Some(d)) == Some(d);
  }

  /**
   * A description cleared in the editor diverges. Save sends `undefined`, so
   * the body carries no `description` key and the server keeps the old
   * description, while `description || null` stores null locally.
   */
  lemma ClearedDescriptionDiverges(local: Todo, server: Todo, editTitle: string, editDescription: string, now: string)
    requires !IsBlank(editTitle) && IsBlank(editDescription)
    ensures TodoItem.SaveCall(server.id, editTitle, editDescription)
      == Some(TodoItem.UpdateCall(server.id, Trim(editTitle), None))
    ensures "description" !in UpdateTodoJson(TodosPage.EditChanges(Trim(editTitle), None))
    ensures TodosPage.SetTitleAndDescription(Trim(editTitle), None)(local).description == None
    ensures TodoUpdateErrors(UpdateTodoJson(TodosPage.EditChanges(Trim(editTitle), None))) == {} ==>
      TodoController.ApplyUpdate(server, UpdateTodoJson(TodosPage.EditChanges(Trim(editTitle), None)), now).description
        == server.description
  {
  }

  /** So a todo that had a description on the server keeps it there and loses it locally. */
  lemma ClearedDescriptionWitness(local: Todo, server: Todo, now: string)
    requires server.description == Some("notes")
    ensures TodoUpdateErrors(UpdateTodoJson(TodosPage.EditChanges("a", None))) == {}
    ensures TodoController.ApplyUpdate(server, UpdateTodoJson(TodosPage.EditChanges("a", None)), now).description == Some("notes")
    ensures TodosPage.SetTitleAndDescription("a", None)(local).description == None
  {
    var body := UpdateTodoJson(TodosPage.EditChanges("a", None));
    assert body["title"] == JStr("a");
    assert !IsPhpTrimChar("a"[0]);
  }
}
