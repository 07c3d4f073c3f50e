/**
 * frontend/src/api/labels.ts: the labels collection's row schema and keys,
 * and the three mutation handlers that turn the first pending local mutation
 * into an API call and hand back `Number(response.txid)`. The HTTP call is the
 * parameter `api`; what react-db does with the returned txid is not part of
 * this model.
 */
module LabelsApi {
  import opened Records
  import opened Text
  import opened Validation
  import opened LocalCollection

  /** The outcome of JavaScript's `Number(v)`. `Unmodelled` stands for the numeric
   *  spellings this model does not evaluate (fractions, exponents, hex, Infinity)
   *  and for integers too large for a double to hold exactly. */
  datatype NumberValue = Num(n: int) | NaN | Unmodelled

  /** 2^53: every integer of at most this magnitude is exactly a double; above it doubles round. */
  const ExactIntegerLimit: nat := 9007199254740992

  /** An integer the double `Number` produces stands for exactly, or `Unmodelled` where it would round. */
  function ExactNumber(n: int): (r: NumberValue)
    ensures r.Num? <==> -(ExactIntegerLimit as int) <= n <= ExactIntegerLimit
    ensures r.Num? ==> r.n == n
    ensures !r.Num? ==> r == Unmodelled
  {
    if -(ExactIntegerLimit as int) <= n <= ExactIntegerLimit then Num(n) else Unmodelled
  }

  /** Characters that can occur in a StringNumericLiteral once outer white space is trimmed. */
  predicate IsNumericLiteralChar(c: char) {
    IsHexDigit(c) || c == '+' || c == '-' || c == '.' || c == 'x' || c == 'X'
    || c == 'o' || c == 'O' || c == 'I' || c == 'n' || c == 'i' || c == 't' || c == 'y'
  }

  /** `Number(s)` on a string: blank is 0, an optionally signed run of decimal digits is its value. */
  function StringToNumber(s: string): (r: NumberValue)
    ensures IsBlank(s) ==> r == Num(0)
    ensures !IsBlank(s) && AllDigits(Trim(s)) && DecimalValue(Trim(s)) <= ExactIntegerLimit ==> r == Num(DecimalValue(Trim(s)))
    ensures !IsBlank(s) && AllDigits(Trim(s)) && DecimalValue(Trim(s)) > ExactIntegerLimit ==> r == Unmodelled
    ensures (exists i :: 0 <= i < |Trim(s)| && !IsNumericLiteralChar(Trim(s)[i])) ==> r == NaN
    ensures r.Num? && r.n < 0 ==> Trim(s)[0] == '-'
  {
    var t := Trim(s);
    if t == [] then Num(0)
    else if AllDigits(t) then
      assert forall i :: 0 <= i < |t| ==> IsNumericLiteralChar(t[i]);
      ExactNumber(DecimalValue(t))
    else if |t| > 1 && (t[0] == '-' || t[0] == '+') && AllDigits(t[1..]) then
      assert forall i :: 1 <= i < |t| ==> t[i] == t[1..][i - 1];
      var magnitude: int := DecimalValue(t[1..]);
      ExactNumber(if t[0] == '-' then -magnitude else magnitude)
    else if forall i :: 0 <= i < |t| ==> IsNumericLiteralChar(t[i]) then Unmodelled
    else NaN
  }

  /** `Number(v)` on a JSON scalar. */
  function Number(v: Json): (r: NumberValue)
    ensures v == JNull ==> r == Num(0)
    ensures v.JBool? ==> r == Num(if v.b then 1 else 0)
    ensures v.JNum? ==> r == ExactNumber(v.n)
    ensures v.JStr? ==> r == StringToNumber(v.s)
  {
    match v
    case JNull => Num(0)
    case JBool(b) => Num(if b then 1 else 0)
    case JNum(n) => ExactNumber(n)
    case JStr(s) => StringToNumber(s)
  }

  /** A string without white space is its own trim. */
  lemma TrimWithoutSpace(s: string)
    requires forall i :: 0 <= i < |s| ==> !IsJsSpace(s[i])
    ensures Trim(s) == s
  {
    if s != [] {
      assert TrimStart(s) == s;
      assert TrimEnd(s) == s;
    }
  }

  /**
   * A txid up to 2^53 comes back unchanged whether the server sends it as a
   * number or as its decimal text. Above 2^53 `Number` rounds to a double.
   */
  lemma TxidRoundTrip(t: nat)
    requires t <= ExactIntegerLimit
    ensures Number(JNum(t)) == Num(t)
    ensures Number(JStr(NatToDecimal(t))) == Num(t)
  {
    var s := NatToDecimal(t);
    TrimWithoutSpace(s);
    DecimalRoundTrip(t);
    assert !IsBlank(s);
  }

  /** The client-side row of a locally mutated label. */
  datatype LabelMutation = LabelMutation(original: Label, modified: Label)

  datatype LabelApiCall =
    | CreateLabel(data: CreateLabelData)
    | UpdateLabel(id: int, changes: UpdateLabelData)
    | DeleteLabel(id: int)

  /** `onInsert`: POST /labels with the first mutation's name and colour, nothing else. */
  function InsertRequest(mutations: seq<LabelMutation>): (call: LabelApiCall)
    requires |mutations| > 0
    ensures call.CreateLabel?
    ensures CreateLabelJson(call.data).Keys == {"name", "color"}
    ensures call.data.name == mutations[0].modified.name && call.data.color == mutations[0].modified.color
  {
    CreateLabel(CreateLabelData(mutations[0].modified.name, mutations[0].modified.color))
  }

  /** `onUpdate`: PUT /labels/{modified.id} with both the name and the colour. */
  function UpdateRequest(mutations: seq<LabelMutation>): (call: LabelApiCall)
    requires |mutations| > 0
    ensures call.UpdateLabel? && call.id == mutations[0].modified.id
    ensures UpdateLabelJson(call.changes).Keys == {"name", "color"}
    ensures UpdateLabelJson(call.changes)["name"] == JStr(mutations[0].modified.name)
    ensures UpdateLabelJson(call.changes)["color"] == JStr(mutations[0].modified.color)
  {
    UpdateLabel(mutations[0].modified.id, UpdateLabelData(Some(mutations[0].modified.name), Some(mutations[0].modified.color)))
  }

  /** `onDelete`: DELETE /labels/{original.id}, the row as it was before the local delete. */
  function DeleteRequest(mutations: seq<LabelMutation>): (call: LabelApiCall)
    requires |mutations| > 0
    ensures call == DeleteLabel(mutations[0].original.id)
  {
    DeleteLabel(mutations[0].original.id)
  }

  /** `return { txid: Number(response.txid) }`; a rejected call rejects the handler. */
  function HandlerResult(txid: Outcome<Json>): (r: Outcome<NumberValue>)
    ensures r.Rejected? <==> txid.Rejected?
    ensures txid.Resolved? ==> r.value == Number(txid.value)
  {
    match txid
    case Rejected => Rejected
    case Resolved(v) => Resolved(Number(v))
  }

  function OnInsert(mutations: seq<LabelMutation>, api: LabelApiCall -> Outcome<Json>): Outcome<NumberValue>
    requires |mutations| > 0
  {
    HandlerResult(api(InsertRequest(mutations)))
  }

  function OnUpdate(mutations: seq<LabelMutation>, api: LabelApiCall -> Outcome<Json>): Outcome<NumberValue>
    requires |mutations| > 0
  {
    HandlerResult(api(UpdateRequest(mutations)))
  }

  function OnDelete(mutations: seq<LabelMutation>, api: LabelApiCall -> Outcome<Json>): Outcome<NumberValue>
    requires |mutations| > 0
  {
    HandlerResult(api(DeleteRequest(mutations)))
  }

  /** Only `mutations[0]` is read: later mutations of the same transaction never reach the server. */
  lemma HandlersReadFirstMutation(mutations: seq<LabelMutation>, api: LabelApiCall -> Outcome<Json>)
    requires |mutations| > 0
    ensures OnInsert(mutations, api) == OnInsert(mutations[..1], api)
    ensures OnUpdate(mutations, api) == OnUpdate(mutations[..1], api)
    ensures OnDelete(mutations, api) == OnDelete(mutations[..1], api)
  {
  }

  /**
   * Whatever txid up to 2^53 the server answers with, as a number or as its
   * decimal text, each of the three handlers resolves with exactly that number.
   */
  lemma HandlerReturnsServerTxid(mutations: seq<LabelMutation>, api: LabelApiCall -> Outcome<Json>, t: nat, sent: Json)
    requires |mutations| > 0 && t <= ExactIntegerLimit
    requires sent == JNum(t) || sent == JStr(NatToDecimal(t))
    ensures api(InsertRequest(mutations)) == Resolved(sent) ==> OnInsert(mutations, api) == Resolved(Num(t))
    ensures api(UpdateRequest(mutations)) == Resolved(sent) ==> OnUpdate(mutations, api) == Resolved(Num(t))
    ensures api(DeleteRequest(mutations)) == Resolved(sent) ==> OnDelete(mutations, api) == Resolved(Num(t))
  {
    TxidRoundTrip(t);
  }

  /** Above 2^53 the handler does not hand back the server's txid as an exact integer. */
  lemma LargeTxidNotExact(t: nat)
    requires t > ExactIntegerLimit
    ensures Number(JNum(t)) == Unmodelled
    ensures Number(JStr(NatToDecimal(t))) == Unmodelled
  {
    var s := NatToDecimal(t);
    TrimWithoutSpace(s);
    DecimalRoundTrip(t);
    assert !IsBlank(s);
  }

  /**
   * `onDelete` sends the key of the row as it was before the local delete,
   * whatever the modified copy holds; that key's row is the one
   * `collection.delete` took out, and every row with another key stays.
   */
  lemma DeleteSendsRemovedKey(mutations: seq<LabelMutation>, rows: seq<Label>, modified: Label)
    requires |mutations| > 0
    ensures DeleteRequest(mutations) == DeleteRequest([LabelMutation(mutations[0].original, modified)])
    ensures DeleteRequest(mutations).id == LabelKey(mutations[0].original)
    ensures mutations[0].original !in RemovedRows(rows, LabelKey, DeleteRequest(mutations).id)
    ensures forall l :: l in rows && LabelKey(l) != LabelKey(mutations[0].original) ==>
      l in RemovedRows(rows, LabelKey, DeleteRequest(mutations).id)
  {
  }

  /** A locally created label whose name and colour are acceptable passes the server's `store` rules. */
  lemma InsertPassesStoreRules(mutations: seq<LabelMutation>)
    requires |mutations| > 0
    requires !PhpTrimsToEmpty(mutations[0].modified.name) && |mutations[0].modified.name| <= 255
    requires IsHexColor(mutations[0].modified.color)
    ensures LabelStoreErrors(CreateLabelJson(InsertRequest(mutations).data)) == {}
  {
    ColorValidExactly(Some(JStr(mutations[0].modified.color)));
  }

  /** `getKey: (item) => item.id` */
  function LabelKey(l: Label): int {
    l.id
  }

  /** `` `${item.label_id}-${item.todo_id}` `` */
  function TodoLabelKey(p: TodoLabel): string {
    IntToDecimal(p.labelId) + "-" + IntToDecimal(p.todoId)
  }

  /** In digits + "-" + anything, the first '-' sits right after the digits. */
  lemma FirstDash(a: string, b: string)
    requires AllDigits(a)
    ensures forall i :: 0 <= i < |a| ==> (a + "-" + b)[i] != '-'
    ensures (a + "-" + b)[|a|] == '-'
  {
  }

  /** Two digit strings joined by '-' split back apart at the only '-'. */
  lemma SplitAtDash(a: string, b: string, c: string, d: string)
    requires AllDigits(a) && AllDigits(c)
    requires a + "-" + b == c + "-" + d
    ensures a == c && b == d
  {
    var k := a + "-" + b;
    FirstDash(a, b);
    FirstDash(c, d);
    assert |a| == |c|;
    assert a == k[..|a|] == c;
    assert b == k[|a| + 1..] == d;
  }

  /** Different junction rows get different keys, as the junction's primary key requires. */
  lemma TodoLabelKeyInjective(p: TodoLabel, q: TodoLabel)
    requires p.labelId >= 0 && p.todoId >= 0 && q.labelId >= 0 && q.todoId >= 0
    requires TodoLabelKey(p) == TodoLabelKey(q)
    ensures p == q
  {
    SplitAtDash(NatToDecimal(p.labelId), NatToDecimal(p.todoId), NatToDecimal(q.labelId), NatToDecimal(q.todoId));
    DecimalInjective(p.labelId, q.labelId);
    DecimalInjective(p.todoId, q.todoId);
  }

  /** A label row as it arrives from the shape stream, keyed by column name. */
  function LabelToJson(l: Label): (o: JsonObject)
    ensures o.Keys == {"id", "user_id", "name", "color", "created_at", "updated_at"}
  {
    map["id" := JNum(l.id), "user_id" := JNum(l.userId), "name" := JStr(l.name),
        "color" := JStr(l.color), "created_at" := JStr(l.createdAt), "updated_at" := JStr(l.updatedAt)]
  }

  /** `labelShape.parse`: two numbers and four strings, unknown keys stripped. */
  function ParseLabel(o: JsonObject): (r: Option<Label>)
    ensures r.Some? <==>
      && "id" in o && o["id"].JNum? && "user_id" in o && o["user_id"].JNum?
      && "name" in o && o["name"].JStr? && "color" in o && o["color"].JStr?
      && "created_at" in o && o["created_at"].JStr? && "updated_at" in o && o["updated_at"].JStr?
  {
    if && "id" in o && o["id"].JNum? && "user_id" in o && o["user_id"].JNum?
       && "name" in o && o["name"].JStr? && "color" in o && o["color"].JStr?
       && "created_at" in o && o["created_at"].JStr? && "updated_at" in o && o["updated_at"].JStr?
    then Some(Label(o["id"].n, o["user_id"].n, o["name"].s, o["color"].s, o["created_at"].s, o["updated_at"].s))
    else None
  }

  /** Every label row parses back to itself. */
  lemma ParseLabelRoundTrip(l: Label)
    ensures ParseLabel(LabelToJson(l)) == Some(l)
  {
  }

  /** Extra columns in a row do not change what is parsed. */
  lemma ParseIgnoresExtraKeys(o: JsonObject, key: string, v: Json)
    requires key !in {"id", "user_id", "name", "color", "created_at", "updated_at"}
    ensures ParseLabel(o[key := v]) == ParseLabel(o)
  {
  }
}
