/**
 * TodoController: the `/api/todos` resource of the acting user `uid`. Same
 * binding-then-ownership order as the label controller, but every write is a
 * single autocommit statement and no reply carries a transaction id.
 */
module TodoController {
  import opened Records
  import opened Sorting
  import opened Seqs
  import opened Validation
  import opened Tables

  const NotFoundMessage: string := "Not found"
  const DeletedMessage: string := "Todo deleted successfully"

  datatype TodoReply =
    | Listed(rows: seq<Todo>)
    | Shown(todo: Todo)
    | Created(todo: Todo)
    | Saved(todo: Todo)
    | Removed(message: string)
    | NotFound(message: string)
    | Missing
    | Invalid(fields: set<string>)
  {
    function Status(): int {
      match this
      case Created(_) => 201
      case NotFound(_) => 404
      case Missing => 404
      case Invalid(_) => 422
      case _ => 200
    }
  }

  function TodoId(t: Todo): int { t.id }
  function TodoOwner(t: Todo): int { t.userId }
  function TodoCreatedAt(t: Todo): string { t.createdAt }

  /** `$request->user()->todos()->orderBy('created_at', 'desc')->get()` */
  function Index(db: Database, uid: int): (r: seq<Todo>)
    reads db
    requires db.Valid()
    ensures SortedBy(r, TodoCreatedAt, Desc)
    ensures forall x :: x in r <==> x.id in db.todos && db.todos[x.id] == x && x.userId == uid
    ensures Distinct(r)
  {
    var owned := OwnedRows(db.todos, TodoId, TodoOwner, uid, db.nextTodoId);
    assert Distinct(owned);
    SortSameElements(owned, TodoCreatedAt, Desc);
    PermutationKeepsDistinct(owned, Sort(owned, TodoCreatedAt, Desc));
    Sort(owned, TodoCreatedAt, Desc)
  }

  /** `show`: the todo when the acting user owns it. */
  function Show(db: Database, uid: int, id: int): (reply: TodoReply)
    reads db
    ensures reply.Status() == 404 <==> id !in db.todos || db.todos[id].userId != uid
    ensures id in db.todos && db.todos[id].userId != uid ==> reply == NotFound("Not found")
    ensures reply.Status() != 404 ==> reply == Shown(db.todos[id])
  {
    if id !in db.todos then Missing
    else if db.todos[id].userId != uid then NotFound(NotFoundMessage)
    else Shown(db.todos[id])
  }

  /** A todo is shown to exactly the user whose listing contains it. */
  lemma ShowAgreesWithIndex(db: Database, uid: int, id: int)
    requires db.Valid()
    ensures Show(db, uid, id).Shown? <==> exists x :: x in Index(db, uid) && x.id == id
  {
    if Show(db, uid, id).Shown? {
      assert db.todos[id] in Index(db, uid);
    }
  }

  /** `$validated['description'] ?? null`: a string is kept, null or absence becomes null. */
  function DescriptionValue(v: Option<Json>): (d: Option<string>)
    ensures d.Some? <==> v.Some? && v.value.JStr?
    ensures d.Some? ==> d.value == v.value.s
  {
    if v.Some? && v.value.JStr? then Some(v.value.s) else None
  }

  /**
   * `$todo->update($validated)`: fill the present fields (`completed` read as a
   * boolean), then save; when nothing differs nothing is written and
   * `updated_at` keeps its value.
   */
  function ApplyUpdate(todo: Todo, body: JsonObject, now: string): (r: Todo)
    requires TodoUpdateErrors(body) == {}
    ensures r.id == todo.id && r.userId == todo.userId && r.createdAt == todo.createdAt
    ensures "title" in body ==> body["title"].JStr? && r.title == body["title"].s
    ensures "title" !in body ==> r.title == todo.title
    ensures "description" in body ==> r.description == DescriptionValue(Some(body["description"]))
    ensures "description" !in body ==> r.description == todo.description
    ensures "completed" in body ==> IsBooleanLike(body["completed"]) && r.completed == BooleanValue(body["completed"])
    ensures "completed" !in body ==> r.completed == todo.completed
    ensures r.updatedAt ==
      (if r.title == todo.title && r.description == todo.description && r.completed == todo.completed
       then todo.updatedAt else now)
  {
    var title := if "title" in body then body["title"].s else todo.title;
    var description := if "description" in body then DescriptionValue(Some(body["description"])) else todo.description;
    var completed := if "completed" in body then BooleanValue(body["completed"]) else todo.completed;
    if title == todo.title && description == todo.description && completed == todo.completed then todo
    else todo.(title := title, description := description, completed := completed, updatedAt := now)
  }

  /** Sending the same update again changes nothing. */
  lemma ApplyUpdateIdempotent(todo: Todo, body: JsonObject, now: string, later: string)
    requires TodoUpdateErrors(body) == {}
    ensures ApplyUpdate(ApplyUpdate(todo, body, now), body, later) == ApplyUpdate(todo, body, now)
  {
  }

  /** Keys outside the three validated ones (a `user_id`, say) neither fail validation nor reach the row. */
  lemma ExtraKeysIgnored(todo: Todo, body: JsonObject, key: string, v: Json, now: string)
    requires key != "title" && key != "description" && key != "completed"
    ensures TodoUpdateErrors(body[key := v]) == TodoUpdateErrors(body)
    ensures TodoUpdateErrors(body) == {} ==> ApplyUpdate(todo, body[key := v], now) == ApplyUpdate(todo, body, now)
  {
    assert Field(body[key := v], "title") == Field(body, "title");
    assert Field(body[key := v], "description") == Field(body, "description");
    assert Field(body[key := v], "completed") == Field(body, "completed");
  }

  /** `store`: validate, then create an open todo owned by the acting user. */
  method Store(db: Database, uid: int, body: JsonObject, now: string) returns (reply: TodoReply)
    requires db.Valid() && !db.inTransaction
    modifies db
    ensures db.Valid() && !db.inTransaction
    ensures TodoStoreErrors(body) != {} ==> reply == Invalid(TodoStoreErrors(body)) && db.Snapshot() == old(db.Snapshot())
    ensures TodoStoreErrors(body) == {} ==>
      && body["title"].JStr?
      && reply == Created(Todo(old(db.nextTodoId), uid, body["title"].s, DescriptionValue(Field(body, "description")), false, now, now))
      && reply.Status() == 201
      && reply.todo.id !in old(db.todos)
      && db.todos == old(db.todos)[reply.todo.id := reply.todo]
      && db.log == old(db.log) + [Commit(old(db.lastTxid) + 1, [TodoInserted(reply.todo)])]
      && db.labels == old(db.labels) && db.labelTodo == old(db.labelTodo) && db.junctionExists == old(db.junctionExists)
      && db.nextTodoId == old(db.nextTodoId) + 1 && db.nextLabelId == old(db.nextLabelId)
  {
    var errors := TodoStoreErrors(body);
    if errors != {} {
      return Invalid(errors);
    }
    var todo := db.InsertTodo(uid, body["title"].s, DescriptionValue(Field(body, "description")), false, now);
    reply := Created(todo);
  }

  /** `update`: binding, then ownership, then validation, then a partial autocommit update. */
  method Update(db: Database, uid: int, id: int, body: JsonObject, now: string) returns (reply: TodoReply)
    requires db.Valid() && !db.inTransaction
    modifies db
    ensures db.Valid() && !db.inTransaction
    ensures id !in old(db.todos) ==> reply == Missing && db.Snapshot() == old(db.Snapshot())
    ensures id in old(db.todos) && old(db.todos)[id].userId != uid ==>
      reply == NotFound("Not found") && db.Snapshot() == old(db.Snapshot())
    ensures id in old(db.todos) && old(db.todos)[id].userId == uid && TodoUpdateErrors(body) != {} ==>
      reply == Invalid(TodoUpdateErrors(body)) && db.Snapshot() == old(db.Snapshot())
    ensures id in old(db.todos) && old(db.todos)[id].userId == uid && TodoUpdateErrors(body) == {} ==>
      var todo := ApplyUpdate(old(db.todos)[id], body, now);
      && reply == Saved(todo)
      && db.todos == old(db.todos)[id := todo]
      && db.log == old(db.log) + (if todo == old(db.todos)[id] then [] else [Commit(old(db.lastTxid) + 1, [TodoUpdated(todo)])])
      && db.labels == old(db.labels) && db.labelTodo == old(db.labelTodo) && db.junctionExists == old(db.junctionExists)
      && db.nextLabelId == old(db.nextLabelId) && db.nextTodoId == old(db.nextTodoId)
  {
    if id !in db.todos {
      return Missing;
    }
    var current := db.todos[id];
    if current.userId != uid {
      return NotFound(NotFoundMessage);
    }
    var errors := TodoUpdateErrors(body);
    if errors != {} {
      return Invalid(errors);
    }
    var todo := ApplyUpdate(current, body, now);
    if todo != current {
      db.UpdateTodoRow(todo);
    } else {
      assert db.todos == db.todos[id := todo];
    }
    reply := Saved(todo);
  }

  /** `destroy`: binding, then ownership, then the delete (cascading to label_todo). */
  method Destroy(db: Database, uid: int, id: int) returns (reply: TodoReply)
    requires db.Valid() && !db.inTransaction
    modifies db
    ensures db.Valid() && !db.inTransaction
    ensures id !in old(db.todos) ==> reply == Missing && db.Snapshot() == old(db.Snapshot())
    ensures id in old(db.todos) && old(db.todos)[id].userId != uid ==>
      reply == NotFound("Not found") && db.Snapshot() == old(db.Snapshot())
    ensures id in old(db.todos) && old(db.todos)[id].userId == uid ==>
      && reply == Removed("Todo deleted successfully")
      && db.todos == old(db.todos) - {id}
      && db.labelTodo == WithoutTodo(old(db.labelTodo), id)
      && db.log == old(db.log) + [Commit(old(db.lastTxid) + 1, [TodoDeleted(id)])]
      && db.labels == old(db.labels) && db.junctionExists == old(db.junctionExists)
      && db.nextLabelId == old(db.nextLabelId) && db.nextTodoId == old(db.nextTodoId)
  {
    if id !in db.todos {
      return Missing;
    }
    if db.todos[id].userId != uid {
      return NotFound(NotFoundMessage);
    }
    db.DeleteTodoRow(id);
    reply := Removed(DeletedMessage);
  }
}
