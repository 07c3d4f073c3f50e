/**
 * frontend/src/components/LabelsSidebar.tsx: the preset colours and the
 * create / edit / delete handlers over the local labels collection. The random
 * id and the timestamp of a new label are inputs. A collection write that
 * throws ends the handler before its state resets, so the form keeps its
 * fields.
 */
module LabelsSidebar {
  import opened Records
  import opened Text
  import opened Validation
  import opened LocalCollection

  const PresetColors: seq<string> := [
    "#6366f1", "#10b981", "#ef4444", "#f59e0b",
    "#8b5cf6", "#ec4899", "#14b8a6", "#f97316"
  ]

  /** Every preset colour passes the server's colour rules. */
  lemma PresetColorsPassServerRule()
    ensures forall c :: c in PresetColors ==> ColorValid(Some(JStr(c)))
  {
    forall c | c in PresetColors ensures ColorValid(Some(JStr(c))) {
      assert IsHexColor(c);
      ColorValidExactly(Some(JStr(c)));
    }
  }

  /**
   * A name the sidebar accepts (non-blank after JavaScript's trim) and the
   * server's `required` refuses (blank after PHP's trim()) begins and ends with
   * NUL once trimmed: every other character PHP's trim() strips is also
   * JavaScript white space, which the client's trim has already removed.
   */
  lemma AcceptedButRequiredFailsOnlyAtNul(name: string)
    requires !IsBlank(name) && !Required(Some(JStr(Trim(name))))
    ensures |Trim(name)| > 0 && Trim(name)[0] == '\0' && Trim(name)[|Trim(name)| - 1] == '\0'
  {
    var t := Trim(name);
    TrimKeepsFirst(name);
    assert !IsJsSpace(t[0]) && !IsJsSpace(t[|t| - 1]);
    assert IsPhpTrimChar(t[0]) && IsPhpTrimChar(t[|t| - 1]);
  }

  /** The name "\0" shows that the NUL exception is real. */
  lemma NulNameAcceptedByClientOnly()
    ensures !IsBlank("\0")
    ensures !TextValid(Some(JStr(Trim("\0"))))
  {
    assert TrimStart("\0") == "\0";
    assert TrimEnd("\0") == "\0";
  }

  /** The draft mutation of `handleSaveEdit`. */
  function Rename(name: string, color: string): Label -> Label {
    (d: Label) => d.(name := name, color := color)
  }

  class Sidebar {
    const labels: Collection<Label>
    var isCreating: bool
    var editingId: Option<int>
    var newLabelName: string
    var newLabelColor: string
    var editName: string
    var editColor: string

    ghost predicate Valid()
      reads this, labels
    {
      labels.Valid() && forall l: Label :: labels.key(l) == l.id
    }

    constructor (labels: Collection<Label>)
      requires labels.Valid() && forall l: Label :: labels.key(l) == l.id
      ensures Valid() && this.labels == labels
      ensures !isCreating && editingId.None? && newLabelName == "" && newLabelColor == PresetColors[0]
      ensures editName == "" && editColor == ""
    {
      this.labels := labels;
      isCreating, editingId := false, None;
      newLabelName, newLabelColor := "", PresetColors[0];
      editName, editColor := "", "";
    }

    /** The "Add label" button. */
    method OpenCreateForm()
      modifies this
      ensures isCreating
      ensures editingId == old(editingId) && newLabelName == old(newLabelName) && newLabelColor == old(newLabelColor)
      ensures editName == old(editName) && editColor == old(editColor)
    {
      isCreating := true;
    }

    /** The create form's Cancel button: closes the form and clears the name, keeping the colour. */
    method CancelCreate()
      modifies this
      ensures !isCreating && newLabelName == ""
      ensures editingId == old(editingId) && newLabelColor == old(newLabelColor)
      ensures editName == old(editName) && editColor == old(editColor)
    {
      isCreating := false;
      newLabelName := "";
    }

    /**
     * `handleCreateLabel`. `randomId` is `Math.floor(Math.random() * 1000000)`;
     * `createdAt` and `updatedAt` are the two separate `new Date().toISOString()`
     * readings, which may differ.
     */
    method HandleCreateLabel(user: Option<User>, randomId: int, createdAt: string, updatedAt: string) returns (inserted: bool)
      requires Valid() && 0 <= randomId < 1000000
      modifies this, labels
      ensures Valid()
      ensures inserted <==> !IsBlank(old(newLabelName)) && randomId !in old(labels.Keys())
      ensures inserted ==> labels.rows == old(labels.rows) + [Label(randomId,
        if user.Some? then user.value.id else 0, Trim(old(newLabelName)), old(newLabelColor), createdAt, updatedAt)]
      ensures inserted ==> newLabelName == "" && newLabelColor == PresetColors[0] && !isCreating
      ensures !inserted ==> labels.rows == old(labels.rows)
      ensures !inserted ==> newLabelName == old(newLabelName) && newLabelColor == old(newLabelColor) && isCreating == old(isCreating)
      ensures editingId == old(editingId) && editName == old(editName) && editColor == old(editColor)
    {
      inserted := false;
      if !IsBlank(newLabelName) {
        var row := Label(randomId, if user.Some? then user.value.id else 0, Trim(newLabelName), newLabelColor, createdAt, updatedAt);
        assert labels.key(row) == randomId;
        inserted := labels.Insert(row);
        if inserted {
          newLabelName, newLabelColor, isCreating := "", PresetColors[0], false;
        }
      }
    }

    /** `handleStartEdit` */
    method HandleStartEdit(row: Label)
      modifies this
      ensures editingId == Some(row.id) && editName == row.name && editColor == row.color
      ensures isCreating == old(isCreating) && newLabelName == old(newLabelName) && newLabelColor == old(newLabelColor)
    {
      editingId := Some(row.id);
      editName := row.name;
      editColor := row.color;
    }

    /** `handleSaveEdit`: nothing happens for a blank name or when no label is being edited. */
    method HandleSaveEdit() returns (updated: bool)
      requires Valid()
      modifies this, labels
      ensures Valid()
      ensures updated <==> !IsBlank(old(editName)) && old(editingId).Some? && old(editingId).value in old(labels.Keys())
      ensures updated ==> labels.rows == UpdatedRows(old(labels.rows), labels.key, old(editingId).value, Rename(Trim(old(editName)), old(editColor)))
      ensures updated ==> editingId.None? && editName == "" && editColor == ""
      ensures !updated ==> labels.rows == old(labels.rows)
      ensures !updated ==> editingId == old(editingId) && editName == old(editName) && editColor == old(editColor)
      ensures isCreating == old(isCreating) && newLabelName == old(newLabelName) && newLabelColor == old(newLabelColor)
    {
      if IsBlank(editName) || editingId.None? {
        return false;
      }
      updated := labels.Update(editingId.value, Rename(Trim(editName), editColor));
      if updated {
        editingId := None;
        editName := "";
        editColor := "";
      }
    }

    /** `handleCancelEdit`: clears the edit state and leaves the collection alone. */
    method HandleCancelEdit()
      modifies this
      ensures editingId.None? && editName == "" && editColor == ""
      ensures isCreating == old(isCreating) && newLabelName == old(newLabelName) && newLabelColor == old(newLabelColor)
    {
      editingId := None;
      editName := "";
      editColor := "";
    }

    /** `handleDeleteLabel`: removes exactly the row with that id. */
    method HandleDeleteLabel(id: int) returns (deleted: bool)
      requires Valid()
      modifies labels
      ensures Valid()
      ensures deleted <==> id in old(labels.Keys())
      ensures deleted ==> labels.rows == RemovedRows(old(labels.rows), labels.key, id)
      ensures !deleted ==> labels.rows == old(labels.rows)
    {
      deleted := labels.Delete(id);
    }
  }
}
