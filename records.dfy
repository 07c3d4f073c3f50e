/**
 * The records exchanged between the Laravel back end and the React front end,
 * shaped like the interfaces of frontend/src/api/types.ts. Ids are JavaScript
 * numbers on the client and bigserial keys on the server; both are `int` here.
 * Timestamps are the ISO-8601 strings the JSON carries.
 */
module Records {

  datatype Option<T> = None | Some(value: T)

  datatype User = User(
    id: int,
    name: string,
    email: string,
    emailVerifiedAt: Option<string>,
    createdAt: string,
    updatedAt: string)

  datatype Todo = Todo(
    id: int,
    userId: int,
    title: string,
    description: Option<string>,
    completed: bool,
    createdAt: string,
    updatedAt: string)

  datatype Label = Label(
    id: int,
    userId: int,
    name: string,
    color: string,
    createdAt: string,
    updatedAt: string)

  /** A row of the label_todo junction: the pair and nothing else. */
  datatype TodoLabel = TodoLabel(labelId: int, todoId: int)

  /** Scalar JSON values, as they arrive in a request body or a response field. */
  datatype Json = JNull | JBool(b: bool) | JNum(n: int) | JStr(s: string)

  /** A flat JSON object: absent keys are keys not in the map. */
  type JsonObject = map<string, Json>

  datatype CreateLabelData = CreateLabelData(name: string, color: string)
  datatype UpdateLabelData = UpdateLabelData(name: Option<string>, color: Option<string>)

  datatype CreateTodoData = CreateTodoData(title: string, description: Option<string>)
  datatype UpdateTodoData = UpdateTodoData(
    title: Option<string>,
    description: Option<string>,
    completed: Option<bool>)

  datatype AuthResponse = AuthResponse(user: User, token: string)

  /** The settled value of an awaited call: it resolved with a value or it threw. */
  datatype Outcome<T> = Resolved(value: T) | Rejected

  /** A JSON body as the server's validator sees it. */
  function CreateLabelJson(d: CreateLabelData): (o: JsonObject)
    ensures o.Keys == {"name", "color"}
    ensures o["name"] == JStr(d.name) && o["color"] == JStr(d.color)
  {
    map["name" := JStr(d.name), "color" := JStr(d.color)]
  }

  /** JSON.stringify drops keys whose value is undefined. */
  function UpdateLabelJson(d: UpdateLabelData): (o: JsonObject)
    ensures "name" in o <==> d.name.Some?
    ensures "color" in o <==> d.color.Some?
    ensures o.Keys <= {"name", "color"}
    ensures d.name.Some? ==> o["name"] == JStr(d.name.value)
    ensures d.color.Some? ==> o["color"] == JStr(d.color.value)
  {
    var withName: JsonObject := if d.name.Some? then map["name" := JStr(d.name.value)] else map[];
    if d.color.Some? then withName["color" := JStr(d.color.value)] else withName
  }

  /** The body of `todosApi.update`: keys whose value is undefined are dropped. */
  function UpdateTodoJson(d: UpdateTodoData): (o: JsonObject)
    ensures "title" in o <==> d.title.Some?
    ensures "description" in o <==> d.description.Some?
    ensures "completed" in o <==> d.completed.Some?
    ensures o.Keys <= {"title", "description", "completed"}
    ensures d.title.Some? ==> o["title"] == JStr(d.title.value)
    ensures d.description.Some? ==> o["description"] == JStr(d.description.value)
    ensures d.completed.Some? ==> o["completed"] == JBool(d.completed.value)
  {
    var withTitle: JsonObject := if d.title.Some? then map["title" := JStr(d.title.value)] else map[];
    var withDescription := if d.description.Some? then withTitle["description" := JStr(d.description.value)] else withTitle;
    if d.completed.Some? then withDescription["completed" := JBool(d.completed.value)] else withDescription
  }
}
