/**
 * LabelController: the `/api/labels` resource of the acting user `uid`.
 * Route-model binding resolves `{label}` first (an unknown id is a 404 before
 * the controller runs); the controller then refuses another user's label with
 * 404 "Not found" before it looks at the request body. Every write runs in an
 * explicit transaction and returns that transaction's id.
 */
module LabelController {
  import opened Records
  import opened Sorting
  import opened Seqs
  import opened Validation
  import opened Tables

  const NotFoundMessage: string := "Not found"

  datatype LabelReply =
    | Listed(rows: seq<Label>)
    | Shown(row: Label)
    | Created(row: Label, txid: nat)
    | Updated(row: Label, txid: nat)
    | Deleted(txid: nat)
    | NotFound(message: string)
    | Missing
    | Invalid(fields: set<string>)
  {
    function Status(): int {
      match this
      case Created(_, _) => 201
      case NotFound(_) => 404
      case Missing => 404
      case Invalid(_) => 422
      case _ => 200
    }
  }

  function LabelId(l: Label): int { l.id }
  function LabelOwner(l: Label): int { l.userId }
  function LabelName(l: Label): string { l.name }

  /** `$request->user()->labels()->orderBy('name', 'asc')->get()` */
  function Index(db: Database, uid: int): (r: seq<Label>)
    reads db
    requires db.Valid()
    ensures SortedBy(r, LabelName, Asc)
    ensures forall x :: x in r <==> x.id in db.labels && db.labels[x.id] == x && x.userId == uid
    ensures Distinct(r)
  {
    var owned := OwnedRows(db.labels, LabelId, LabelOwner, uid, db.nextLabelId);
    assert Distinct(owned);
    SortSameElements(owned, LabelName, Asc);
    PermutationKeepsDistinct(owned, Sort(owned, LabelName, Asc));
    Sort(owned, LabelName, Asc)
  }

  /** `show`: the label when the acting user owns it. */
  function Show(db: Database, uid: int, id: int): (reply: LabelReply)
    reads db
    ensures reply.Status() == 404 <==> id !in db.labels || db.labels[id].userId != uid
    ensures id in db.labels && db.labels[id].userId != uid ==> reply == NotFound("Not found")
    ensures reply.Status() != 404 ==> reply == Shown(db.labels[id])
  {
    if id !in db.labels then Missing
    else if db.labels[id].userId != uid then NotFound(NotFoundMessage)
    else Shown(db.labels[id])
  }

  /** A label is shown to exactly the user whose listing contains it. */
  lemma ShowAgreesWithIndex(db: Database, uid: int, id: int)
    requires db.Valid()
    ensures Show(db, uid, id).Shown? <==> exists x :: x in Index(db, uid) && x.id == id
  {
    if Show(db, uid, id).Shown? {
      assert db.labels[id] in Index(db, uid);
    }
  }

  /**
   * `$label->update($validated)`: fill the validated fields, then save. When no
   * attribute differs from the stored one the model is not dirty, nothing is
   * written and `updated_at` keeps its value.
   */
  function ApplyUpdate(row: Label, body: JsonObject, now: string): (r: Label)
    requires LabelUpdateErrors(body) == {}
    ensures r.id == row.id && r.userId == row.userId && r.createdAt == row.createdAt
    ensures "name" in body ==> body["name"].JStr? && r.name == body["name"].s
    ensures "name" !in body ==> r.name == row.name
    ensures "color" in body ==> body["color"].JStr? && r.color == body["color"].s
    ensures "color" !in body ==> r.color == row.color
    ensures r.updatedAt == (if r.name == row.name && r.color == row.color then row.updatedAt else now)
  {
    var name := if "name" in body then body["name"].s else row.name;
    var color := if "color" in body then body["color"].s else row.color;
    if name == row.name && color == row.color then row
    else row.(name := name, color := color, updatedAt := now)
  }

  /** Sending the same update again changes nothing: the second save finds nothing dirty. */
  lemma ApplyUpdateIdempotent(row: Label, body: JsonObject, now: string, later: string)
    requires LabelUpdateErrors(body) == {}
    ensures ApplyUpdate(ApplyUpdate(row, body, now), body, later) == ApplyUpdate(row, body, now)
  {
  }

  /** Keys outside `name` and `color` (a `user_id`, say) neither fail validation nor reach the row. */
  lemma ExtraKeysIgnored(row: Label, body: JsonObject, key: string, v: Json, now: string)
    requires key != "name" && key != "color"
    ensures LabelUpdateErrors(body[key := v]) == LabelUpdateErrors(body)
    ensures LabelUpdateErrors(body) == {} ==> ApplyUpdate(row, body[key := v], now) == ApplyUpdate(row, body, now)
  {
    assert Field(body[key := v], "name") == Field(body, "name");
    assert Field(body[key := v], "color") == Field(body, "color");
  }

  /** `store`: validate, then create the label and read the txid inside one transaction. */
  method Store(db: Database, uid: int, body: JsonObject, now: string) returns (reply: LabelReply)
    requires db.Valid() && !db.inTransaction
    modifies db
    ensures db.Valid() && !db.inTransaction
    ensures LabelStoreErrors(body) != {} ==> reply == Invalid(LabelStoreErrors(body)) && db.Snapshot() == old(db.Snapshot())
    ensures LabelStoreErrors(body) == {} ==>
      && body["name"].JStr? && body["color"].JStr?
      && reply == Created(Label(old(db.nextLabelId), uid, body["name"].s, body["color"].s, now, now), old(db.lastTxid) + 1)
      && reply.Status() == 201
      && reply.row.id !in old(db.labels)
      && db.labels == old(db.labels)[reply.row.id := reply.row]
      && db.log == old(db.log) + [Commit(reply.txid, [LabelInserted(reply.row)])]
      && (forall i :: 0 <= i < |old(db.log)| ==> old(db.log)[i].txid < reply.txid)
      && db.todos == old(db.todos) && db.labelTodo == old(db.labelTodo) && db.junctionExists == old(db.junctionExists)
      && db.nextLabelId == old(db.nextLabelId) + 1 && db.nextTodoId == old(db.nextTodoId)
      && db.lastTxid == reply.txid
  {
    var errors := LabelStoreErrors(body);
    if errors != {} {
      return Invalid(errors);
    }
    db.BeginTransaction();
    var row := db.InsertLabel(uid, body["name"].s, body["color"].s, now);
    assert db.pending == [LabelInserted(row)];
    var txid := db.TxidCurrent();
    db.CommitTransaction();
    reply := Created(row, txid);
  }

  /** `update`: binding, then ownership, then validation, then a partial update in one transaction. */
  method Update(db: Database, uid: int, id: int, body: JsonObject, now: string) returns (reply: LabelReply)
    requires db.Valid() && !db.inTransaction
    modifies db
    ensures db.Valid() && !db.inTransaction
    ensures id !in old(db.labels) ==> reply == Missing && db.Snapshot() == old(db.Snapshot())
    ensures id in old(db.labels) && old(db.labels)[id].userId != uid ==>
      reply == NotFound("Not found") && db.Snapshot() == old(db.Snapshot())
    ensures id in old(db.labels) && old(db.labels)[id].userId == uid && LabelUpdateErrors(body) != {} ==>
      reply == Invalid(LabelUpdateErrors(body)) && db.Snapshot() == old(db.Snapshot())
    ensures id in old(db.labels) && old(db.labels)[id].userId == uid && LabelUpdateErrors(body) == {} ==>
      var row := ApplyUpdate(old(db.labels)[id], body, now);
      && reply == Updated(row, old(db.lastTxid) + 1)
      && db.labels == old(db.labels)[id := row]
      && db.log == old(db.log) + [Commit(reply.txid, if row == old(db.labels)[id] then [] else [LabelUpdated(row)])]
      && (forall i :: 0 <= i < |old(db.log)| ==> old(db.log)[i].txid < reply.txid)
      && db.todos == old(db.todos) && db.labelTodo == old(db.labelTodo) && db.junctionExists == old(db.junctionExists)
      && db.nextLabelId == old(db.nextLabelId) && db.nextTodoId == old(db.nextTodoId)
      && db.lastTxid == reply.txid
  {
    if id !in db.labels {
      return Missing;
    }
    var current := db.labels[id];
    if current.userId != uid {
      return NotFound(NotFoundMessage);
    }
    var errors := LabelUpdateErrors(body);
    if errors != {} {
      return Invalid(errors);
    }
    db.BeginTransaction();
    var row := ApplyUpdate(current, body, now);
    if row != current {
      db.UpdateLabelRow(row);
      assert db.pending == [LabelUpdated(row)];
    }
    var txid := db.TxidCurrent();
    db.CommitTransaction();
    reply := Updated(row, txid);
  }

  /** `destroy`: binding, then ownership, then the delete (cascading to label_todo) in one transaction. */
  method Destroy(db: Database, uid: int, id: int) returns (reply: LabelReply)
    requires db.Valid() && !db.inTransaction
    modifies db
    ensures db.Valid() && !db.inTransaction
    ensures id !in old(db.labels) ==> reply == Missing && db.Snapshot() == old(db.Snapshot())
    ensures id in old(db.labels) && old(db.labels)[id].userId != uid ==>
      reply == NotFound("Not found") && db.Snapshot() == old(db.Snapshot())
    ensures id in old(db.labels) && old(db.labels)[id].userId == uid ==>
      && reply == Deleted(old(db.lastTxid) + 1)
      && db.labels == old(db.labels) - {id}
      && db.labelTodo == WithoutLabel(old(db.labelTodo), id)
      && db.log == old(db.log) + [Commit(reply.txid, [LabelDeleted(id)])]
      && (forall i :: 0 <= i < |old(db.log)| ==> old(db.log)[i].txid < reply.txid)
      && db.todos == old(db.todos) && db.junctionExists == old(db.junctionExists)
      && db.nextLabelId == old(db.nextLabelId) && db.nextTodoId == old(db.nextTodoId)
      && db.lastTxid == reply.txid
  {
    if id !in db.labels {
      return Missing;
    }
    if db.labels[id].userId != uid {
      return NotFound(NotFoundMessage);
    }
    db.BeginTransaction();
    db.DeleteLabelRow(id);
    assert db.pending == [LabelDeleted(id)];
    var txid := db.TxidCurrent();
    db.CommitTransaction();
    reply := Deleted(txid);
  }
}
