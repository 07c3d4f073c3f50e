/**
 * frontend/src/pages/TodosPage.tsx: the derived counts, the live query that
 * filters the todos, what the page renders, and the handlers that write to
 * the local todos collection. The `ilike` title match is the parameter
 * `matches`; an API call is recorded in `sent` and its settled outcome is an
 * input. A handler that does not await its call updates the collection at once.
 */
module TodosPage {
  import opened Records
  import opened Text
  import opened Seqs
  import opened LocalCollection

  /** `todos.filter((t) => t.completed === completed).length` */
  function CountWhere(todos: seq<Todo>, completed: bool): (n: nat)
    ensures n <= |todos|
  {
    if todos == [] then 0
    else (if todos[0].completed == completed then 1 else 0) + CountWhere(todos[1..], completed)
  }

  function CompletedCount(todos: seq<Todo>): nat { CountWhere(todos, true) }
  function PendingCount(todos: seq<Todo>): nat { CountWhere(todos, false) }

  /** Every todo is counted once: as completed or as pending. */
  lemma {:induction false} CountsAddUp(todos: seq<Todo>)
    ensures CompletedCount(todos) + PendingCount(todos) == |todos|
  {
    if todos != [] {
      CountsAddUp(todos[1..]);
    }
  }

  function TitleMatches(searchQuery: string, matches: (string, string) -> bool): Todo -> bool {
    (t: Todo) => matches(t.title, searchQuery)
  }

  function IsOpen(t: Todo): bool { !t.completed }

  /**
   * The filtered live query: `ilike(title, %query%)` only when the trimmed query
   * is non-empty, then `completed = false` only when completed todos are hidden.
   */
  function FilteredTodos(todos: seq<Todo>, searchQuery: string, hideCompleted: bool, matches: (string, string) -> bool)
    : (r: seq<Todo>)
    ensures |r| <= |todos|
    ensures forall t :: t in r <==>
      t in todos && (IsBlank(searchQuery) || matches(t.title, searchQuery)) && (!hideCompleted || !t.completed)
    ensures IsBlank(searchQuery) && !hideCompleted ==> r == todos
  {
    var searched := if IsBlank(searchQuery) then todos else Filter(todos, TitleMatches(searchQuery, matches));
    FilterMembers(todos, TitleMatches(searchQuery, matches));
    FilterMembers(searched, IsOpen);
    if hideCompleted then Filter(searched, IsOpen) else searched
  }

  /** With completed todos hidden, nothing completed is shown. */
  lemma HiddenCompletedStayHidden(todos: seq<Todo>, searchQuery: string, matches: (string, string) -> bool)
    ensures forall t :: t in FilteredTodos(todos, searchQuery, true, matches) ==> t in todos && !t.completed
  {
  }

  /** What `renderContent` shows. */
  datatype View = Spinner | NoTasks | NoResults | TodoList(todos: seq<Todo>)

  /** Loading first, then an empty collection, then an empty filter result, then the list. */
  function RenderContent(isLoading: bool, todos: seq<Todo>, filtered: seq<Todo>): (v: View)
    ensures v == Spinner <==> isLoading
    ensures v == NoTasks <==> !isLoading && todos == []
    ensures v == NoResults <==> !isLoading && todos != [] && filtered == []
    ensures v.TodoList? <==> !isLoading && todos != [] && filtered != []
    ensures v.TodoList? ==> v.todos == filtered
  {
    if isLoading then Spinner
    else if todos == [] then NoTasks
    else if filtered == [] then NoResults
    else TodoList(filtered)
  }

  /** After the filters are cleared a loaded, non-empty collection is always listed in full. */
  lemma ClearedFiltersListEverything(todos: seq<Todo>, matches: (string, string) -> bool)
    requires todos != []
    ensures RenderContent(false, todos, FilteredTodos(todos, "", false, matches)) == TodoList(todos)
  {
  }

  /** The draft mutation of `handleToggleComplete`: the flag from the todo the row showed. */
  function SetCompleted(completed: bool): Todo -> Todo {
    (d: Todo) => d.(completed := completed)
  }

  /** `description || null`: an absent or empty description is stored as null. */
  function DescriptionOrNull(description: Option<string>): (d: Option<string>)
    ensures d.None? <==> description.None? || description.value == ""
    ensures d.Some? ==> d == description
  {
    if description.Some? && description.value != "" then description else None
  }

  /** The draft mutation of `handleUpdateTodo`. */
  function SetTitleAndDescription(title: string, description: Option<string>): Todo -> Todo {
    (d: Todo) => d.(title := title, description := DescriptionOrNull(description))
  }

  /** The changes `handleToggleComplete` sends: only the flipped flag. */
  function ToggleChanges(todo: Todo): UpdateTodoData {
    UpdateTodoData(None, None, Some(!todo.completed))
  }

  /** The changes `handleUpdateTodo` sends: the title and the description as given. */
  function EditChanges(title: string, description: Option<string>): UpdateTodoData {
    UpdateTodoData(Some(title), description, None)
  }

  datatype TodoApiCall =
    | CreateTodo(data: CreateTodoData)
    | UpdateTodo(id: int, changes: UpdateTodoData)
    | DeleteTodo(id: int)

  class Page {
    const todos: Collection<Todo>
    var searchQuery: string
    var hideCompleted: bool
    var isLoading: bool
    /** API calls made so far, oldest first. */
    var sent: seq<TodoApiCall>

    ghost predicate Valid()
      reads this, todos
    {
      todos.Valid() && forall t: Todo :: todos.key(t) == t.id
    }

    /** The filtered live query over the current collection. */
    function Filtered(matches: (string, string) -> bool): (r: seq<Todo>)
      reads this, todos
      ensures |r| <= |todos.rows|
    {
      FilteredTodos(todos.rows, searchQuery, hideCompleted, matches)
    }

    function Render(matches: (string, string) -> bool): View
      reads this, todos
    {
      RenderContent(isLoading, todos.rows, Filtered(matches))
    }

    constructor (todos: Collection<Todo>)
      requires todos.Valid() && forall t: Todo :: todos.key(t) == t.id
      ensures Valid() && this.todos == todos
      ensures searchQuery == "" && !hideCompleted && isLoading && sent == []
    {
      this.todos := todos;
      searchQuery, hideCompleted, isLoading := "", false, true;
      sent := [];
    }

    /** `handleCreateTodo`: await the API, then insert the todo the server returned. */
    method HandleCreateTodo(title: string, description: Option<string>, response: Outcome<Todo>)
      returns (inserted: bool)
      requires Valid()
      modifies this, todos
      ensures Valid()
      ensures sent == old(sent) + [CreateTodo(CreateTodoData(title, description))]
      ensures inserted <==> response.Resolved? && response.value.id !in old(todos.Keys())
      ensures inserted ==> todos.rows == old(todos.rows) + [response.value]
      ensures !inserted ==> todos.rows == old(todos.rows)
      ensures searchQuery == old(searchQuery) && hideCompleted == old(hideCompleted) && isLoading == old(isLoading)
    {
      sent := sent + [CreateTodo(CreateTodoData(title, description))];
      if response.Rejected? {
        return false;
      }
      inserted := todos.Insert(response.value);
    }

    /** `handleToggleComplete`: send the flipped flag without waiting, and flip it locally. */
    method HandleToggleComplete(todo: Todo) returns (updated: bool)
      requires Valid()
      modifies this, todos
      ensures Valid()
      ensures sent == old(sent) + [UpdateTodo(todo.id, ToggleChanges(todo))]
      ensures updated <==> todo.id in old(todos.Keys())
      ensures updated ==> todos.rows == UpdatedRows(old(todos.rows), todos.key, todo.id, SetCompleted(!todo.completed))
      ensures !updated ==> todos.rows == old(todos.rows)
      ensures searchQuery == old(searchQuery) && hideCompleted == old(hideCompleted) && isLoading == old(isLoading)
    {
      sent := sent + [UpdateTodo(todo.id, ToggleChanges(todo))];
      updated := todos.Update(todo.id, SetCompleted(!todo.completed));
    }

    /** `handleUpdateTodo`: send title and description without waiting, and set them locally. */
    method HandleUpdateTodo(id: int, title: string, description: Option<string>) returns (updated: bool)
      requires Valid()
      modifies this, todos
      ensures Valid()
      ensures sent == old(sent) + [UpdateTodo(id, EditChanges(title, description))]
      ensures updated <==> id in old(todos.Keys())
      ensures updated ==> todos.rows == UpdatedRows(old(todos.rows), todos.key, id, SetTitleAndDescription(title, description))
      ensures !updated ==> todos.rows == old(todos.rows)
      ensures searchQuery == old(searchQuery) && hideCompleted == old(hideCompleted) && isLoading == old(isLoading)
    {
      sent := sent + [UpdateTodo(id, EditChanges(title, description))];
      updated := todos.Update(id, SetTitleAndDescription(title, description));
    }

    /** `handleDeleteTodo`: await the API, then delete locally; a rejected call deletes nothing. */
    method HandleDeleteTodo(id: int, response: Outcome<()>) returns (deleted: bool)
      requires Valid()
      modifies this, todos
      ensures Valid()
      ensures sent == old(sent) + [DeleteTodo(id)]
      ensures deleted <==> response.Resolved? && id in old(todos.Keys())
      ensures deleted ==> todos.rows == RemovedRows(old(todos.rows), todos.key, id)
      ensures !deleted ==> todos.rows == old(todos.rows)
      ensures searchQuery == old(searchQuery) && hideCompleted == old(hideCompleted) && isLoading == old(isLoading)
    {
      sent := sent + [DeleteTodo(id)];
      if response.Rejected? {
        return false;
      }
      deleted := todos.Delete(id);
    }

    /** `handleClearFilters` */
    method HandleClearFilters()
      requires Valid()
      modifies this
      ensures Valid()
      ensures searchQuery == "" && !hideCompleted
      ensures isLoading == old(isLoading) && sent == old(sent)
    {
      searchQuery := "";
      hideCompleted := false;
    }
  }
}
