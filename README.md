# electric-laravel: a Dafny model of the todo/label sync core

electric-laravel is a todo application. A Laravel API owns the data. ElectricSQL
streams table "shapes" to a React client. The client keeps local collections
and writes them back through the API. This project models three layers of it
and proves properties of each.

1. **Server tenancy and write rules.**
   - The shape proxy (`ShapeController::todos`) pins the shape to the acting user's rows.
   - The label and todo controllers do binding, then the ownership check (404), then
     validation (422), then the write.
   - Label writes return the id of their own transaction.
   - The `label_todo` junction is a set of unique pairs whose rows are deleted with
     their label or todo.
   - The database is the class `Tables.Database`. It holds maps from id to row, the
     junction set, a transaction counter and a ghost commit log.
2. **Client collection glue.**
   - `labels.ts`: the mutation handlers with their payloads and `Number(txid)`, the
     collection keys, and the row schema.
   - `LabelSelector`: toggling ids in a selection and picking the selected labels.
   - `TodosPage`: the counts, the filtered live query, the render order, and the handlers
     that write the local collection.
   - The local collections are the class `LocalCollection.Collection`. It holds rows in
     insertion order with unique keys.
3. **Client state machines.**
   - The labels sidebar, the todo item editor and the create-todo form.
   - The auth context and the axios client's interceptors. `localStorage` is the class
     `ApiClient.Storage` and `window.location` is `ApiClient.Location`.

The model follows the form of the source:
- Code that changes state in place is a class with `modifies` clauses: the React
  components' state, the collections, storage and the database.
- Query and mapping code is made of functions and lemmas.
- The `foreach` that builds the upstream query is a loop proved equal to the
  function `ShapeProxy.ForwardedQuery`.

Outside calls are inputs:
- An HTTP call is an `Outcome` (resolved with a value, or rejected) or a function-typed
  parameter.
- `Math.random()` ids and `new Date()` timestamps are parameters.
- The `ilike` title match is an abstract predicate `matches`.

Three facts are proved across layers:
- Every preset colour passes the server's colour rule. The pattern accepts a trailing
  newline, but `max:7` refuses it.
- A label name that the sidebar accepts but Laravel's `required` refuses must begin and
  end with NUL once trimmed. The reason: every other character PHP's `trim()` strips is
  also JavaScript white space. `"\0"` is such a name.
- Clearing a todo's description in the editor clears it only locally. The page sends
  `undefined`, so the JSON body has no `description` key and the server keeps the old
  value. The local row stores null.

## Model

| member | source | states |
|---|---|---|
| ShapeProxy.Todos | backend/app/Http/Controllers/Api/ShapeController.php:26-67 | No user: reply 401 "Unauthorized" and no upstream request. Otherwise: exactly one request to `ELECTRIC_URL/v1/shape` with the rewritten query, and the reply is the relayed upstream response. |
| ShapeProxy.UpstreamUrl | backend/app/Http/Controllers/Api/ShapeController.php:35-36 | The URL is `ELECTRIC_URL` followed by `/v1/shape`. An unset `ELECTRIC_URL` defaults to `http://localhost:3000`. |
| ShapeProxy.ForwardedQuery | backend/app/Http/Controllers/Api/ShapeController.php:14-21 | Keys: the client's whitelisted keys, plus `table` and `where`, and nothing else. Every other forwarded key keeps the client's value. `table` is `todos` and `where` is the user's filter. |
| ShapeProxy.BuildQuery | backend/app/Http/Controllers/Api/ShapeController.php:39-52 | The `foreach` over the whitelist, followed by the two forced entries, yields exactly `ForwardedQuery`. |
| ShapeProxy.ClientWhereIgnored | backend/app/Http/Controllers/Api/ShapeController.php:42-52 | A client `where`, whatever it is or even absent, leaves the forwarded query unchanged. It is overwritten, not combined with the server filter. |
| ShapeProxy.ClientTableIgnored | backend/app/Http/Controllers/Api/ShapeController.php:49 | A client `table` never changes the forwarded query. |
| ShapeProxy.ScopeFiltersDistinct | backend/app/Http/Controllers/Api/ShapeController.php:52 | Different user ids get different `where` filters. |
| ShapeProxy.TenantIsolation | backend/app/Http/Controllers/Api/ShapeController.php:42-57 | For any two requests from two different users, the forwarded `where` values differ. |
| ShapeProxy.RelayHeaders | backend/app/Http/Controllers/Api/ShapeController.php:61-63 | The upstream headers minus exactly the six listed names. Every other header is kept with its value. |
| ShapeProxy.OtherSpellingsRelayed | backend/app/Http/Controllers/Api/ShapeController.php:62 | The exclusion is by exact name: `CONTENT-LENGTH` is relayed and `content-length` is not. |
| ShapeProxy.Relay | backend/app/Http/Controllers/Api/ShapeController.php:61-66 | The relayed status and body equal the upstream ones. The headers are the upstream names minus the six excluded ones, and each keeps its upstream value. |
| Validation.LabelStoreErrors | backend/app/Http/Controllers/Api/LabelController.php:28-31 | `name` fails unless it is required, a string and at most 255 characters. `color` fails unless it passes its four rules. Nothing else can fail. |
| Validation.LabelUpdateErrors | backend/app/Http/Controllers/Api/LabelController.php:70-73 | As in `store`, but a field fails only when it is present (`sometimes`). |
| Validation.TodoStoreErrors | backend/app/Http/Controllers/Api/TodoController.php:27-30 | `title` as a label name. `description` fails only when present, not null and not a string. |
| Validation.TodoUpdateErrors | backend/app/Http/Controllers/Api/TodoController.php:64-68 | `title` only when present. `description` as in `store`. `completed` only when present and not boolean-like. |
| Validation.ColorValidExactly | backend/app/Http/Controllers/Api/LabelController.php:30 | The colour rules accept exactly `#` followed by six hex digits. |
| Validation.PatternAloneAdmitsTrailingNewline | backend/app/Http/Controllers/Api/LabelController.php:30 | The regex alone accepts `"#aabbcc\n"`, and `max:7` makes the rule refuse it. |
| Validation.TextValidExactly | backend/app/Http/Controllers/Api/LabelController.php:29 | A name or title passes exactly when it is a string of at most 255 characters with a character PHP's `trim()` keeps. |
| TodoSync.ToggleStoredAsSent | frontend/src/pages/TodosPage.tsx:51-56 | The flag a toggle sends passes `update`'s `boolean` rule, and the server stores exactly the flag the local draft sets. The server keeps its title and description. |
| LabelController.Index | backend/app/Http/Controllers/Api/LabelController.php:16-21 | Exactly the acting user's labels, each once, sorted by name ascending. |
| LabelController.Show | backend/app/Http/Controllers/Api/LabelController.php:50-58 | 404 exactly when the label is missing or owned by someone else; another user's label gets "Not found"; otherwise the label. |
| LabelController.ShowAgreesWithIndex | backend/app/Http/Controllers/Api/LabelController.php:53-57 | `show` succeeds exactly for the ids in the user's `index`. |
| LabelController.ApplyUpdate | backend/app/Http/Controllers/Api/LabelController.php:70-76 | Only the supplied `name`/`color` change. The id, the owner and `created_at` are kept. `updated_at` becomes `now` only when something changed. |
| LabelController.ApplyUpdateIdempotent | backend/app/Http/Controllers/Api/LabelController.php:76 | Applying the same update twice equals applying it once. |
| LabelController.ExtraKeysIgnored | backend/app/Http/Controllers/Api/LabelController.php:70-76 | A key other than `name`/`color`, such as `user_id`, changes neither the validation errors nor the updated row. |
| LabelController.Store | backend/app/Http/Controllers/Api/LabelController.php:26-45 | Invalid input: 422 naming the failing fields, and nothing changes. Otherwise: one new label owned by the acting user, a 201 reply, and exactly one commit holding the insert. The returned txid is that commit's id, greater than every earlier txid. |
| LabelController.Update | backend/app/Http/Controllers/Api/LabelController.php:63-84 | Unknown id: 404 `Missing`. Another user's label: "Not found", before validation. Invalid input: 422. In each of these nothing changes. Otherwise: the row becomes `ApplyUpdate`, nothing else changes, and the returned txid is the id of the one new commit. |
| LabelController.Destroy | backend/app/Http/Controllers/Api/LabelController.php:89-104 | The same 404 rules. Otherwise: exactly that label and its junction rows are removed, and the reply carries only the txid of the new commit. |
| TodoController.Index | backend/app/Http/Controllers/Api/TodoController.php:15-20 | Exactly the acting user's todos, each once, newest `created_at` first. |
| TodoController.Show | backend/app/Http/Controllers/Api/TodoController.php:44-52 | 404 exactly when the todo is missing or someone else's; "Not found" for another user's todo; otherwise the todo. |
| TodoController.ShowAgreesWithIndex | backend/app/Http/Controllers/Api/TodoController.php:47-51 | `show` succeeds exactly for the ids in the user's `index`. |
| TodoSync.EditAgreesOnDescription | frontend/src/pages/TodosPage.tsx:58-67 | For a non-empty description that passes validation, the server and the local draft store the same description and the same title. |
| TodoController.ApplyUpdate | backend/app/Http/Controllers/Api/TodoController.php:64-70 | Only the supplied title, description and completed change. `completed` is read as a boolean. The id, the owner and `created_at` are kept. `updated_at` moves only when something changed. |
| TodoController.ApplyUpdateIdempotent | backend/app/Http/Controllers/Api/TodoController.php:70 | Applying the same update twice equals applying it once. |
| TodoController.ExtraKeysIgnored | backend/app/Http/Controllers/Api/TodoController.php:64-70 | A key outside the three validated ones changes neither the validation errors nor the row. |
| TodoController.Store | backend/app/Http/Controllers/Api/TodoController.php:25-39 | Invalid input: 422, and nothing changes. Otherwise: one new todo owned by the acting user, with `completed = false` and the description or null; reply 201; one autocommit commit. |
| TodoController.Update | backend/app/Http/Controllers/Api/TodoController.php:57-73 | Binding, then ownership, then validation, each leaving the state unchanged. Then the row becomes `ApplyUpdate`. A commit is logged only when something changed. |
| TodoController.Destroy | backend/app/Http/Controllers/Api/TodoController.php:78-88 | The same 404 rules. Otherwise: exactly that todo and its junction rows are removed, and the reply is "Todo deleted successfully" with no txid. |
| Tables.Database.InsertPair | backend/database/migrations/2025_12_01_000002_create_label_todo_table.php:14-18 | A pair is added only when the table exists, both ends exist and the pair is new (primary key). Otherwise nothing changes. |
| Tables.Database.DeleteLabelRow | backend/database/migrations/2025_12_01_000002_create_label_todo_table.php:15 | Deleting a label removes exactly the junction rows with that `label_id`. |
| Tables.Database.DeleteTodoRow | backend/database/migrations/2025_12_01_000002_create_label_todo_table.php:16 | Deleting a todo removes exactly the junction rows with that `todo_id`. |
| Tables.LabelCascadeKeepsIntegrity | backend/database/migrations/2025_12_01_000002_create_label_todo_table.php:15 | After a label delete with its cascade, every junction row still references an existing label and todo. |
| Tables.TodoCascadeKeepsIntegrity | backend/database/migrations/2025_12_01_000002_create_label_todo_table.php:16 | The same for a todo delete. |
| Tables.Database.MigrateUp | backend/database/migrations/2025_12_01_000002_create_label_todo_table.php:12-19 | Afterwards the junction exists, and `created` reports whether it was new. The junction rows, the other tables and the log are unchanged. |
| Tables.Database.MigrateDown | backend/database/migrations/2025_12_01_000002_create_label_todo_table.php:24-27 | `dropIfExists`: the junction is gone with all its rows, whether or not it existed. |
| Tables.Database.TxidCurrent | backend/app/Http/Controllers/Api/LabelController.php:38 | Inside a transaction, `txid_current()` is that transaction's id, greater than every committed txid. |
| Tables.AppendKeepsOrder | backend/app/Http/Controllers/Api/LabelController.php:33-39 | Committing a transaction numbered above the log keeps txids strictly increasing. |
| LabelsApi.StringToNumber | frontend/src/api/labels.ts:59 | `Number(s)`: a blank string is 0. A decimal digit string is its value when that is at most 2^53; above that the result is `Unmodelled`, because the double rounds. A string with a character outside the numeric-literal alphabet is NaN. |
| LabelsApi.TxidRoundTrip | frontend/src/api/labels.ts:59 | A txid of at most 2^53, sent as a number or as its decimal text, is returned as that same number. |
| LabelsApi.LargeTxidNotExact | frontend/src/api/labels.ts:59 | A txid above 2^53 is not returned as an exact integer, whether it is sent as a number or as text. |
| LabelsApi.InsertRequest | frontend/src/api/labels.ts:53-58 | `onInsert` sends only the first mutation's `name` and `color`. |
| LabelsApi.UpdateRequest | frontend/src/api/labels.ts:61-66 | `onUpdate` targets `modified.id` and sends exactly its name and colour. |
| LabelsApi.DeleteSendsRemovedKey | frontend/src/api/labels.ts:69-73 | `onDelete` sends the key of the row as it was before the delete, whatever the modified copy holds. That is the key whose row the local delete removed, and every row with another key stays. |
| LabelsApi.HandlerResult | frontend/src/api/labels.ts:53-73 | Each handler rejects exactly when the API call does. Otherwise it resolves with `Number(txid)`. |
| LabelsApi.HandlersReadFirstMutation | frontend/src/api/labels.ts:53-73 | All three handlers depend only on `mutations[0]`. |
| LabelsApi.HandlerReturnsServerTxid | frontend/src/api/labels.ts:53-73 | When the server answers with a txid `t` of at most 2^53, as a number or as its decimal text, each of `onInsert`, `onUpdate` and `onDelete` resolves with exactly `t`. |
| LabelsApi.InsertPassesStoreRules | frontend/src/api/labels.ts:55-58 | A local label with a non-blank name of at most 255 characters and a hex colour produces a payload that the server's `store` rules accept. |
| LabelsApi.TodoLabelKeyInjective | frontend/src/api/labels.ts:93 | Distinct junction rows with non-negative ids get distinct `label_id-todo_id` keys. |
| LabelsApi.LabelToJson | frontend/src/api/labels.ts:34-41 | A label row has exactly the six schema columns. |
| LabelsApi.ParseLabel | frontend/src/api/labels.ts:34-41 | A row parses exactly when `id` and `user_id` are numbers and the other four columns are strings. |
| LabelsApi.ParseLabelRoundTrip | frontend/src/api/labels.ts:34-41 | Every label row parses back to itself. |
| LabelsApi.ParseIgnoresExtraKeys | frontend/src/api/labels.ts:34-41 | Columns outside the schema do not change the parsed row. |
| LabelSelector.Toggle | frontend/src/components/LabelSelector.tsx:37-43 | A selected id is filtered out. An unselected id is appended at the end. |
| LabelSelector.ToggleFlipsMembership | frontend/src/components/LabelSelector.tsx:37-43 | The toggled id's membership flips. Every other id's membership is unchanged. |
| LabelSelector.ToggleTwiceRestores | frontend/src/components/LabelSelector.tsx:37-43 | Toggling an absent id twice returns exactly the original list. |
| LabelSelector.ToggleOffKeepsOrder | frontend/src/components/LabelSelector.tsx:38-39 | Removing an id removes every occurrence of it, and the rest keep their order on both sides. |
| LabelSelector.ToggleKeepsDistinct | frontend/src/components/LabelSelector.tsx:37-43 | A selection without duplicates stays without duplicates. |
| LabelSelector.SelectedLabels | frontend/src/components/LabelSelector.tsx:45-47 | Exactly the labels of `allLabels` whose id is selected. |
| LabelSelector.SelectedLabelsKeepOrder | frontend/src/components/LabelSelector.tsx:45-47 | The selection is taken in `allLabels` order: it distributes over concatenation. |
| LabelSelector.UnknownIdsIgnored | frontend/src/components/LabelSelector.tsx:45-47 | A selected id that matches no label changes nothing. |
| LabelSelector.ButtonTextLabels | frontend/src/components/LabelSelector.tsx:71-75 | The button reads "Labels" exactly when no label is selected. |
| LabelSelector.ButtonTextCount | frontend/src/components/LabelSelector.tsx:71-75 | With n > 0 known labels selected, the button reads the decimal text of n followed by " selected", and that number reads back as n. |
| Seqs.FilterMembers | frontend/src/components/LabelSelector.tsx:39 | `filter` keeps exactly the elements that satisfy the callback. |
| Seqs.FilterKeepsDistinct | frontend/src/components/LabelSelector.tsx:39 | `filter` keeps a list without repetitions without repetitions. |
| LocalCollection.Collection.Insert | frontend/src/components/LabelsSidebar.tsx:34-41 | The insert succeeds exactly when the key is new, and then appends the item. Otherwise nothing changes. |
| LocalCollection.Collection.Update | frontend/src/components/LabelsSidebar.tsx:56-59 | The update succeeds exactly when the key exists and the draft keeps it. Then only that row becomes the draft's result. |
| LocalCollection.Collection.Delete | frontend/src/components/LabelsSidebar.tsx:71-73 | The delete succeeds exactly when the key exists. Then only that row is removed. |
| LocalCollection.RemovedRowsKeepsKeysUnique | frontend/src/components/LabelsSidebar.tsx:71-73 | Removing a row keeps keys unique. |
| LocalCollection.RemovedRows | frontend/src/pages/TodosPage.tsx:71 | The other rows are kept and the removed key's row is gone. |
| TodosPage.CountsAddUp | frontend/src/pages/TodosPage.tsx:40-41 | `completedCount + pendingCount` is the number of todos. |
| TodosPage.FilteredTodos | frontend/src/pages/TodosPage.tsx:24-38 | A todo is in the result exactly when it is in `todos`, matches the query (a blank query matches everything) and is not hidden as completed. With a blank query and `hideCompleted` false, the result is all todos. |
| TodosPage.HiddenCompletedStayHidden | frontend/src/pages/TodosPage.tsx:32-34 | With `hideCompleted`, no filtered todo is completed. |
| TodosPage.RenderContent | frontend/src/pages/TodosPage.tsx:79-106 | The page shows the spinner while loading, then "no tasks" for an empty collection, then "no results" for an empty filter result, and otherwise the filtered list. |
| TodosPage.ClearedFiltersListEverything | frontend/src/pages/TodosPage.tsx:74-77 | After the filters are cleared, a loaded non-empty collection is listed in full. |
| TodoSync.ClearedDescriptionDiverges | frontend/src/pages/TodosPage.tsx:58-67 | A description cleared in the editor is sent as `undefined`, so the body has no `description` key. The server keeps its old description, while the local row gets null. |
| TodoSync.ClearedDescriptionWitness | frontend/src/components/TodoItem.tsx:35-39 | A todo whose server description is "notes", edited with the description cleared, keeps "notes" on the server and has null locally. |
| TodosPage.Page.HandleCreateTodo | frontend/src/pages/TodosPage.tsx:43-49 | One create call is sent. The server's todo is inserted only after the call resolves. A rejected call inserts nothing. |
| TodosPage.Page.HandleToggleComplete | frontend/src/pages/TodosPage.tsx:51-56 | Sends `completed: !todo.completed` and sets exactly that row's flag locally, without waiting. |
| TodosPage.Page.HandleUpdateTodo | frontend/src/pages/TodosPage.tsx:58-67 | Sends title and description, and sets them on exactly that row, with the description or null. |
| TodosPage.Page.HandleDeleteTodo | frontend/src/pages/TodosPage.tsx:69-72 | The row is removed locally only after the delete call resolves. |
| TodosPage.Page.HandleClearFilters | frontend/src/pages/TodosPage.tsx:74-77 | Empties the query and shows completed todos again. |
| LabelsSidebar.PresetColorsPassServerRule | frontend/src/components/LabelsSidebar.tsx:7-16 | Every preset colour passes the server's colour rule. |
| LabelsSidebar.AcceptedButRequiredFailsOnlyAtNul | frontend/src/components/LabelsSidebar.tsx:32-37 | A name that the client accepts and the server's `required` refuses begins and ends with NUL after trimming. |
| LabelsSidebar.NulNameAcceptedByClientOnly | frontend/src/components/LabelsSidebar.tsx:32 | `"\0"` passes the client's blank check and fails the server's name rule. |
| LabelsSidebar.Sidebar.HandleCreateLabel | frontend/src/components/LabelsSidebar.tsx:31-45 | A blank name changes nothing. Otherwise one label is inserted with the trimmed name, the chosen colour and the user's id (or 0). `created_at` and `updated_at` are two separate clock readings. The form then resets to an empty name, the first preset and closed. A failed insert skips the reset. |
| LabelsSidebar.Sidebar.HandleStartEdit | frontend/src/components/LabelsSidebar.tsx:47-51 | `editingId`, the edit name and the edit colour come from the label. The create form is untouched. |
| LabelsSidebar.Sidebar.HandleSaveEdit | frontend/src/components/LabelsSidebar.tsx:53-63 | A blank name or no `editingId` changes nothing. Otherwise only that label gets the trimmed name and the colour, and the edit state clears. |
| LabelsSidebar.Sidebar.HandleCancelEdit | frontend/src/components/LabelsSidebar.tsx:65-69 | The edit state clears and the collection is untouched. |
| LabelsSidebar.Sidebar.HandleDeleteLabel | frontend/src/components/LabelsSidebar.tsx:71-73 | Removes exactly the given id. |
| LabelsSidebar.Sidebar.OpenCreateForm | frontend/src/components/LabelsSidebar.tsx:82 | Opens the create form and nothing else. |
| LabelsSidebar.Sidebar.CancelCreate | frontend/src/components/LabelsSidebar.tsx:140-143 | Closes the create form and clears the name. The colour is kept. |
| TodoItem.SaveCall | frontend/src/components/TodoItem.tsx:35-39 | Nothing is sent exactly when the trimmed title is blank. Otherwise the call carries the id, the trimmed title and the trimmed description, or undefined when that is empty. |
| TodoItem.SaveAgainSendsSame | frontend/src/components/TodoItem.tsx:23-39 | Reopening the editor on what Save sent and saving again sends the same call. |
| TodoItem.Editor.StartEdit | frontend/src/components/TodoItem.tsx:23-27 | Enters editing with the todo's title and description ("" when null). |
| TodoItem.Editor.CancelEdit | frontend/src/components/TodoItem.tsx:29-33 | Leaves editing with both boxes restored and no call made. |
| TodoItem.Editor.SaveEdit | frontend/src/components/TodoItem.tsx:35-39 | A blank title makes no call and keeps editing. Otherwise exactly one `onUpdate` call is recorded and editing ends. |
| CreateTodoForm.SubmitCall | frontend/src/components/CreateTodoForm.tsx:15-19 | No call exactly when the trimmed title is blank. Otherwise the trimmed title and the trimmed description, or undefined when that is empty. |
| CreateTodoForm.EnabledIffSubmits | frontend/src/components/CreateTodoForm.tsx:90 | The button is enabled exactly when no call is pending and a submit would call `onCreate`. |
| CreateTodoForm.Form.Submit | frontend/src/components/CreateTodoForm.tsx:13-19 | A blank title changes nothing. Otherwise `isCreating` is set and one `onCreate` call is recorded. |
| CreateTodoForm.Form.Settle | frontend/src/components/CreateTodoForm.tsx:20-27 | On success, the fields clear and the form closes. On failure, they are kept. `isCreating` ends false either way. |
| CreateTodoForm.Form.Cancel | frontend/src/components/CreateTodoForm.tsx:30-34 | Closes the form and clears both fields. |
| AuthContext.AuthProvider.constructor | frontend/src/contexts/AuthContext.tsx:18-20 | The token comes from storage, there is no user, and loading is true. |
| AuthContext.AuthProvider.InitAuth | frontend/src/contexts/AuthContext.tsx:23-36 | With a truthy stored token, fetch the user. A failed fetch removes both stored keys and nulls the token. Loading ends in every case. |
| AuthContext.AuthProvider.Login | frontend/src/contexts/AuthContext.tsx:41-47 | A resolved login leaves storage and state holding the response's token and user. A rejected one changes neither and is passed on. |
| AuthContext.AuthProvider.Register | frontend/src/contexts/AuthContext.tsx:49-55 | As `Login`, through the register call. |
| AuthContext.AuthProvider.Logout | frontend/src/contexts/AuthContext.tsx:57-66 | Storage and state are cleared even when the call fails, and the failure is passed on. The user is no longer authenticated. |
| AuthContext.AuthProvider.IsAuthenticated | frontend/src/contexts/AuthContext.tsx:74 | True exactly when the token is non-empty and a user is present. |
| AuthContext.LoginAuthenticatesIffToken | frontend/src/contexts/AuthContext.tsx:41-47 | After a login, the user is authenticated exactly when the server sent a non-empty token. |
| AuthContext.UseAuth | frontend/src/contexts/AuthContext.tsx:85-91 | Outside a provider the call throws. Inside one it returns the provider's value. |
| ApiClient.ApiUrl | frontend/src/api/client.ts:3 | `VITE_API_URL`, or `http://localhost:8000` when it is unset or empty. |
| ApiClient.BaseUrl | frontend/src/api/client.ts:12 | The API URL followed by `/api`. |
| ApiClient.AuthHeader | frontend/src/api/client.ts:6-9 | `""` exactly when no non-empty token is stored. Otherwise `Bearer ` followed by the token. |
| ApiClient.AuthHeaderInjective | frontend/src/api/client.ts:6-9 | Different tokens give different headers. |
| ApiClient.WithAuthorization | frontend/src/api/client.ts:20-26 | Authorization is added only for a truthy token. Every other header is unchanged. |
| ApiClient.InterceptorAgreesWithGetAuthToken | frontend/src/api/client.ts:6-26 | The request interceptor and `getAuthToken` send the same header text. |
| ApiClient.InterceptRequest | frontend/src/api/client.ts:20-26 | The config's headers become `WithAuthorization` of the stored token. |
| ApiClient.InterceptResponse | frontend/src/api/client.ts:29-39 | The response or error passes through unchanged. A 401 first removes both stored keys and sets the location to `/login`. Other outcomes change nothing. |
| ApiClient.Storage.Clear | frontend/src/api/client.ts:33-34 | After `removeItem` of `token` and `user`, both are absent and `getAuthToken` is `""`. |

## Left out

- The optimistic overlay and the txid matching that `@tanstack/react-db` and
  `@tanstack/electric-db-collection` do with the handlers' txids. These are library
  internals that are not shown. The model stops at the handlers' return value.
- `TodoController::syncLabels` and the `labels`/`todoLabels` shapes. The routes name them,
  but they are not among the modelled files. Payloads therefore carry no `label_ids`.
- The network:
  - the upstream HTTP call and the stream body (the body is an opaque string);
  - the `authApi`, `todosApi` and `labelsApi` wrappers, whose calls are inputs.
- `env()` and `import.meta.env`, which are parameters.
- Laravel's middleware (`TrimStrings`, `ConvertEmptyStringsToNull`) and Sanctum. Validation
  sees the raw request fields, except for the blank-`completed` case below.
- Database collation and `ilike`. Names are ordered by code point, and the search match is
  the abstract predicate `matches`.
- TodoController.Index: `created_at` is a timestamp column, but the model compares its
  ISO-8601 text by code point. That agrees with time order only while every timestamp has
  the same fixed-width format and zone.
- Validation.TodoUpdateErrors: a blank-string `completed` (`""`, `"  "`) is refused, as it
  is behind Laravel's default `TrimStrings` and `ConvertEmptyStringsToNull` middleware,
  which turn it into null and make `boolean` fail. On a raw body Laravel skips the
  non-implicit `boolean` rule for such a string and would accept it.
- Postgres assigns a txid on a transaction's first write. The model numbers each
  transaction when it begins. The order is the same, and so is the id that
  `txid_current()` returns inside the transaction.
- The PHP `!==` ownership test compares two integers. The model assumes `user_id` is read
  back as an integer, as it is with PostgreSQL.
- Route-model binding misses are a separate 404 reply (`Missing`), before the ownership check.
- LabelsApi.StringToNumber: fractions, exponents, hex, octal, binary and `Infinity`
  spellings give `Unmodelled` rather than their JavaScript value. So do integers above
  2^53 in magnitude: JavaScript rounds them to the nearest double, and the model does
  not compute that double. A string made only of characters from that alphabet but with
  no valid spelling (such as `"abc"` or `"e"`, which JavaScript reads as NaN) is also
  `Unmodelled`, not NaN.
- ShapeProxy.ForwardedQuery: the upstream query is a map, so the order of its
  parameters is not modelled. PHP overwrites a client-sent `where` in its slot, before
  `columns`. Otherwise `where` comes last.
- ShapeProxy.ForwardedQuery: array-valued query parameters (`where[]=...`, for which
  `$request->query()` returns an array) are not modelled. Every parameter is a string.
- Concurrency: the ordering of un-awaited API calls against local updates, component
  re-renders, and a second submit while one is pending.
- LocalCollection.Collection: a write the library would throw on (duplicate key, missing key,
  key-changing draft) reports failure and changes nothing. Syncing with the server is not
  modelled.
- The user is stored in `localStorage` as a value, not as its JSON text.
- Markup, styling, the login and register pages and the other presentational components.
