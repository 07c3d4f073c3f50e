/**
 * The relational store behind the controllers: the `labels` and `todos`
 * tables keyed by bigserial id, the `label_todo` junction created by the
 * migration 2025_12_01_000002 (a primary key on the pair, and a foreign key
 * on each column with ON DELETE CASCADE), and Postgres transaction ids.
 *
 * Every transaction is given the next transaction id when it begins, so ids
 * grow with commit order. A statement outside an explicit transaction runs
 * in a transaction of its own (autocommit). The ghost `log` is the sequence
 * of committed transactions with what each wrote: the change stream an
 * ElectricSQL subscriber replays.
 */
module Tables {
  import opened Records

  datatype Effect =
    | LabelInserted(row: Label)
    | LabelUpdated(row: Label)
    | LabelDeleted(id: int)
    | TodoInserted(todo: Todo)
    | TodoUpdated(todo: Todo)
    | TodoDeleted(id: int)
    | PairInserted(pair: TodoLabel)

  datatype Commit = Commit(txid: nat, effects: seq<Effect>)

  /** How an INSERT into label_todo ends. */
  datatype PairInsert = PairAdded | DuplicatePair | DanglingReference | NoSuchTable

  /** The junction rows left once a label is deleted (the cascade of label_id). */
  function WithoutLabel(pairs: set<TodoLabel>, labelId: int): (r: set<TodoLabel>)
    ensures r <= pairs
    ensures forall p :: p in r ==> p.labelId != labelId
    ensures forall p :: p in pairs && p.labelId != labelId ==> p in r
  {
    set p | p in pairs && p.labelId != labelId
  }

  /** The junction rows left once a todo is deleted (the cascade of todo_id). */
  function WithoutTodo(pairs: set<TodoLabel>, todoId: int): (r: set<TodoLabel>)
    ensures r <= pairs
    ensures forall p :: p in r ==> p.todoId != todoId
    ensures forall p :: p in pairs && p.todoId != todoId ==> p in r
  {
    set p | p in pairs && p.todoId != todoId
  }

  /** Commit ids strictly increase along the log (the commit marker's order). */
  ghost predicate TxidsIncrease(log: seq<Commit>) {
    forall i, j :: 0 <= i < j < |log| ==> log[i].txid < log[j].txid
  }

  /** Appending a commit with a larger id than every logged one keeps the order. */
  lemma AppendKeepsOrder(log: seq<Commit>, c: Commit)
    requires TxidsIncrease(log)
    requires forall i :: 0 <= i < |log| ==> log[i].txid < c.txid
    ensures TxidsIncrease(log + [c])
  {
  }

  /** Everything a request can change, as one value. */
  datatype DbState = DbState(
    labels: map<int, Label>,
    todos: map<int, Todo>,
    nextLabelId: int,
    nextTodoId: int,
    junctionExists: bool,
    labelTodo: set<TodoLabel>,
    lastTxid: nat,
    log: seq<Commit>)

  class Database {
    var labels: map<int, Label>
    var todos: map<int, Todo>
    var nextLabelId: int
    var nextTodoId: int
    var junctionExists: bool
    var labelTodo: set<TodoLabel>
    var lastTxid: nat
    var inTransaction: bool
    ghost var pending: seq<Effect>
    ghost var log: seq<Commit>

    ghost predicate Valid()
      reads this
    {
      && 1 <= nextLabelId && 1 <= nextTodoId
      && (forall id :: id in labels ==> labels[id].id == id && 1 <= id < nextLabelId)
      && (forall id :: id in todos ==> todos[id].id == id && 1 <= id < nextTodoId)
      && (!junctionExists ==> labelTodo == {})
      && (forall p :: p in labelTodo ==> p.labelId in labels && p.todoId in todos)
      && TxidsIncrease(log)
      && (forall i :: 0 <= i < |log| ==> log[i].txid < lastTxid || (!inTransaction && log[i].txid == lastTxid))
      && (!inTransaction ==> pending == [])
    }

    ghost function Snapshot(): DbState
      reads this
    {
      DbState(labels, todos, nextLabelId, nextTodoId, junctionExists, labelTodo, lastTxid, log)
    }

    /** A fresh database: both entity tables empty, the junction not yet migrated. */
    constructor ()
      ensures Valid() && !inTransaction
      ensures labels == map[] && todos == map[] && labelTodo == {} && !junctionExists
      ensures nextLabelId == 1 && nextTodoId == 1 && log == []
    {
      labels, todos := map[], map[];
      nextLabelId, nextTodoId := 1, 1;
      junctionExists, labelTodo := false, {};
      lastTxid, inTransaction := 0, false;
      pending, log := [], [];
    }

    /** `DB::beginTransaction()`: the new transaction's id is the next one. */
    method BeginTransaction()
      requires Valid() && !inTransaction
      modifies this
      ensures Valid() && inTransaction && lastTxid == old(lastTxid) + 1 && pending == []
      ensures labels == old(labels) && todos == old(todos) && labelTodo == old(labelTodo)
      ensures junctionExists == old(junctionExists) && log == old(log)
      ensures nextLabelId == old(nextLabelId) && nextTodoId == old(nextTodoId)
    {
      lastTxid := lastTxid + 1;
      inTransaction := true;
      pending := [];
    }

    /** `SELECT txid_current()` inside the open transaction. */
    method TxidCurrent() returns (txid: nat)
      requires Valid() && inTransaction
      ensures txid == lastTxid
      ensures forall i :: 0 <= i < |log| ==> log[i].txid < txid
    {
      txid := lastTxid;
    }

    /** `DB::commit()`: what the transaction wrote enters the log under its id. */
    method CommitTransaction()
      requires Valid() && inTransaction
      modifies this
      ensures Valid() && !inTransaction
      ensures log == old(log) + [Commit(lastTxid, old(pending))]
      ensures lastTxid == old(lastTxid)
      ensures labels == old(labels) && todos == old(todos) && labelTodo == old(labelTodo)
      ensures junctionExists == old(junctionExists)
      ensures nextLabelId == old(nextLabelId) && nextTodoId == old(nextTodoId)
    {
      AppendKeepsOrder(log, Commit(lastTxid, pending));
      log := log + [Commit(lastTxid, pending)];
      inTransaction := false;
      pending := [];
    }

    /** Records a write: into the open transaction, or as a transaction of its own. */
    method Record(e: Effect)
      requires Valid()
      modifies this`lastTxid, this`pending, this`log
      ensures inTransaction ==> pending == old(pending) + [e] && log == old(log) && lastTxid == old(lastTxid)
      ensures !inTransaction ==> pending == [] && lastTxid == old(lastTxid) + 1
      ensures !inTransaction ==> log == old(log) + [Commit(lastTxid, [e])]
      ensures TxidsIncrease(log)
      ensures forall i :: 0 <= i < |log| ==> log[i].txid < lastTxid || (!inTransaction && log[i].txid == lastTxid)
    {
      if inTransaction {
        pending := pending + [e];
      } else {
        lastTxid := lastTxid + 1;
        AppendKeepsOrder(log, Commit(lastTxid, [e]));
        log := log + [Commit(lastTxid, [e])];
      }
    }

    /** INSERT INTO labels: the row gets the next id and the current time in both timestamps. */
    method InsertLabel(userId: int, name: string, color: string, now: string) returns (row: Label)
      requires Valid()
      modifies this
      ensures Valid() && inTransaction == old(inTransaction)
      ensures row == Label(old(nextLabelId), userId, name, color, now, now)
      ensures row.id !in old(labels) && labels == old(labels)[row.id := row]
      ensures nextLabelId == old(nextLabelId) + 1
      ensures todos == old(todos) && labelTodo == old(labelTodo) && junctionExists == old(junctionExists)
      ensures nextTodoId == old(nextTodoId)
      ensures inTransaction ==> pending == old(pending) + [LabelInserted(row)] && log == old(log) && lastTxid == old(lastTxid)
      ensures !inTransaction ==> log == old(log) + [Commit(lastTxid, [LabelInserted(row)])] && lastTxid == old(lastTxid) + 1
    {
      row := Label(nextLabelId, userId, name, color, now, now);
      labels := labels[row.id := row];
      nextLabelId := nextLabelId + 1;
      Record(LabelInserted(row));
    }

    /** UPDATE labels SET ... WHERE id = row.id */
    method UpdateLabelRow(row: Label)
      requires Valid() && row.id in labels
      modifies this
      ensures Valid() && inTransaction == old(inTransaction)
      ensures labels == old(labels)[row.id := row]
      ensures todos == old(todos) && labelTodo == old(labelTodo) && junctionExists == old(junctionExists)
      ensures nextLabelId == old(nextLabelId) && nextTodoId == old(nextTodoId)
      ensures inTransaction ==> pending == old(pending) + [LabelUpdated(row)] && log == old(log) && lastTxid == old(lastTxid)
      ensures !inTransaction ==> log == old(log) + [Commit(lastTxid, [LabelUpdated(row)])] && lastTxid == old(lastTxid) + 1
    {
      labels := labels[row.id := row];
      Record(LabelUpdated(row));
    }

    /** DELETE FROM labels WHERE id = id; the junction rows naming it go with it. */
    method DeleteLabelRow(id: int)
      requires Valid() && id in labels
      modifies this
      ensures Valid() && inTransaction == old(inTransaction)
      ensures labels == old(labels) - {id}
      ensures labelTodo == WithoutLabel(old(labelTodo), id)
      ensures todos == old(todos) && junctionExists == old(junctionExists)
      ensures nextLabelId == old(nextLabelId) && nextTodoId == old(nextTodoId)
      ensures inTransaction ==> pending == old(pending) + [LabelDeleted(id)] && log == old(log) && lastTxid == old(lastTxid)
      ensures !inTransaction ==> log == old(log) + [Commit(lastTxid, [LabelDeleted(id)])] && lastTxid == old(lastTxid) + 1
    {
      labels := labels - {id};
      labelTodo := WithoutLabel(labelTodo, id);
      Record(LabelDeleted(id));
    }

    /** INSERT INTO todos */
    method InsertTodo(userId: int, title: string, description: Option<string>, completed: bool, now: string)
      returns (todo: Todo)
      requires Valid()
      modifies this
      ensures Valid() && inTransaction == old(inTransaction)
      ensures todo == Todo(old(nextTodoId), userId, title, description, completed, now, now)
      ensures todo.id !in old(todos) && todos == old(todos)[todo.id := todo]
      ensures nextTodoId == old(nextTodoId) + 1
      ensures labels == old(labels) && labelTodo == old(labelTodo) && junctionExists == old(junctionExists)
      ensures nextLabelId == old(nextLabelId)
      ensures inTransaction ==> pending == old(pending) + [TodoInserted(todo)] && log == old(log) && lastTxid == old(lastTxid)
      ensures !inTransaction ==> log == old(log) + [Commit(lastTxid, [TodoInserted(todo)])] && lastTxid == old(lastTxid) + 1
    {
      todo := Todo(nextTodoId, userId, title, description, completed, now, now);
      todos := todos[todo.id := todo];
      nextTodoId := nextTodoId + 1;
      Record(TodoInserted(todo));
    }

    /** UPDATE todos SET ... WHERE id = todo.id */
    method UpdateTodoRow(todo: Todo)
      requires Valid() && todo.id in todos
      modifies this
      ensures Valid() && inTransaction == old(inTransaction)
      ensures todos == old(todos)[todo.id := todo]
      ensures labels == old(labels) && labelTodo == old(labelTodo) && junctionExists == old(junctionExists)
      ensures nextLabelId == old(nextLabelId) && nextTodoId == old(nextTodoId)
      ensures inTransaction ==> pending == old(pending) + [TodoUpdated(todo)] && log == old(log) && lastTxid == old(lastTxid)
      ensures !inTransaction ==> log == old(log) + [Commit(lastTxid, [TodoUpdated(todo)])] && lastTxid == old(lastTxid) + 1
    {
      todos := todos[todo.id := todo];
      Record(TodoUpdated(todo));
    }

    /** DELETE FROM todos WHERE id = id; the junction rows naming it go with it. */
    method DeleteTodoRow(id: int)
      requires Valid() && id in todos
      modifies this
      ensures Valid() && inTransaction == old(inTransaction)
      ensures todos == old(todos) - {id}
      ensures labelTodo == WithoutTodo(old(labelTodo), id)
      ensures labels == old(labels) && junctionExists == old(junctionExists)
      ensures nextLabelId == old(nextLabelId) && nextTodoId == old(nextTodoId)
      ensures inTransaction ==> pending == old(pending) + [TodoDeleted(id)] && log == old(log) && lastTxid == old(lastTxid)
      ensures !inTransaction ==> log == old(log) + [Commit(lastTxid, [TodoDeleted(id)])] && lastTxid == old(lastTxid) + 1
    {
      todos := todos - {id};
      labelTodo := WithoutTodo(labelTodo, id);
      Record(TodoDeleted(id));
    }

    /** INSERT INTO label_todo: refused by the primary key or a foreign key, or accepted. */
    method InsertPair(pair: TodoLabel) returns (result: PairInsert)
      requires Valid()
      modifies this
      ensures Valid() && inTransaction == old(inTransaction)
      ensures result == (if !old(junctionExists) then NoSuchTable
                         else if pair in old(labelTodo) then DuplicatePair
                         else if pair.labelId !in labels || pair.todoId !in todos then DanglingReference
                         else PairAdded)
      ensures labelTodo == if result == PairAdded then old(labelTodo) + {pair} else old(labelTodo)
      ensures labels == old(labels) && todos == old(todos) && junctionExists == old(junctionExists)
      ensures nextLabelId == old(nextLabelId) && nextTodoId == old(nextTodoId)
      ensures result != PairAdded ==> log == old(log) && lastTxid == old(lastTxid) && pending == old(pending)
      ensures result == PairAdded && !inTransaction ==> log == old(log) + [Commit(lastTxid, [PairInserted(pair)])] && lastTxid == old(lastTxid) + 1
      ensures result == PairAdded && inTransaction ==> pending == old(pending) + [PairInserted(pair)] && log == old(log)
    {
      if !junctionExists {
        return NoSuchTable;
      }
      if pair in labelTodo {
        return DuplicatePair;
      }
      if pair.labelId !in labels || pair.todoId !in todos {
        return DanglingReference;
      }
      labelTodo := labelTodo + {pair};
      Record(PairInserted(pair));
      result := PairAdded;
    }

    /** The migration's `up`: Schema::create fails when the table is already there. */
    method MigrateUp() returns (created: bool)
      requires Valid()
      modifies this
      ensures Valid() && inTransaction == old(inTransaction)
      ensures created <==> !old(junctionExists)
      ensures junctionExists
      ensures labelTodo == old(labelTodo)
      ensures labels == old(labels) && todos == old(todos) && log == old(log) && lastTxid == old(lastTxid)
      ensures nextLabelId == old(nextLabelId) && nextTodoId == old(nextTodoId) && pending == old(pending)
    {
      created := !junctionExists;
      junctionExists := true;
    }

    /** The migration's `down`: `dropIfExists` removes the junction and all its rows. */
    method MigrateDown()
      requires Valid()
      modifies this
      ensures Valid() && inTransaction == old(inTransaction)
      ensures !junctionExists && labelTodo == {}
      ensures labels == old(labels) && todos == old(todos) && log == old(log) && lastTxid == old(lastTxid)
      ensures nextLabelId == old(nextLabelId) && nextTodoId == old(nextTodoId) && pending == old(pending)
    {
      junctionExists := false;
      labelTodo := {};
    }
  }

  /** Every junction row names a live label and a live todo; each pair is there at most once (a set). */
  ghost predicate JunctionIntegrity(labels: map<int, Label>, todos: map<int, Todo>, pairs: set<TodoLabel>) {
    forall p :: p in pairs ==> p.labelId in labels && p.todoId in todos
  }

  /** Deleting a label keeps the junction's references intact. */
  lemma LabelCascadeKeepsIntegrity(labels: map<int, Label>, todos: map<int, Todo>, pairs: set<TodoLabel>, id: int)
    requires JunctionIntegrity(labels, todos, pairs)
    ensures JunctionIntegrity(labels - {id}, todos, WithoutLabel(pairs, id))
  {
  }

  /** Deleting a todo keeps the junction's references intact. */
  lemma TodoCascadeKeepsIntegrity(labels: map<int, Label>, todos: map<int, Todo>, pairs: set<TodoLabel>, id: int)
    requires JunctionIntegrity(labels, todos, pairs)
    ensures JunctionIntegrity(labels, todos - {id}, WithoutTodo(pairs, id))
  {
  }

  /**
   * The rows of `table` owned by `uid`, in increasing id order, for the ids below
   * `n`: the `WHERE user_id = ?` part of a per-user listing.
   */
  function OwnedRows<T(!new)>(table: map<int, T>, key: T -> int, owner: T -> int, uid: int, n: int): (r: seq<T>)
    requires forall id :: id in table ==> key(table[id]) == id && 1 <= id
    ensures forall x :: x in r <==> key(x) < n && key(x) in table && table[key(x)] == x && owner(x) == uid
    ensures forall i, j :: 0 <= i < j < |r| ==> key(r[i]) < key(r[j])
    decreases n
  {
    if n <= 0 then []
    else
      var prefix := OwnedRows(table, key, owner, uid, n - 1);
      if n - 1 in table && owner(table[n - 1]) == uid then prefix + [table[n - 1]] else prefix
  }
}
