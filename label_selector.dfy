/**
 * frontend/src/components/LabelSelector.tsx: toggling a label id in the
 * selection, the labels the selection picks out of all labels, and the text
 * of the dropdown button. All three are pure list expressions in the source.
 */
module LabelSelector {
  import opened Records
  import opened Text
  import opened Seqs

  /** The filter callback `(id) => id !== x`. */
  function IsNot(x: int): int -> bool {
    (y: int) => y != x
  }

  /** `ids.filter((id) => id !== x)` */
  function Without(ids: seq<int>, x: int): (r: seq<int>)
    ensures forall y :: y in r <==> y in ids && y != x
  {
    FilterMembers(ids, IsNot(x));
    Filter(ids, IsNot(x))
  }

  /** `toggleLabel`: remove the id when selected, else append it. */
  function Toggle(selected: seq<int>, id: int): (r: seq<int>)
    ensures id in selected ==> r == Without(selected, id)
    ensures id !in selected ==> r == selected + [id]
  {
    if id in selected then Without(selected, id) else selected + [id]
  }

  /** A toggle flips the toggled id's membership and leaves every other id's alone. */
  lemma ToggleFlipsMembership(selected: seq<int>, id: int)
    ensures id in Toggle(selected, id) <==> id !in selected
    ensures forall y :: y != id ==> (y in Toggle(selected, id) <==> y in selected)
  {
  }

  /** Toggling an absent id on and off again gives back exactly the original list. */
  lemma ToggleTwiceRestores(selected: seq<int>, id: int)
    requires id !in selected
    ensures Toggle(Toggle(selected, id), id) == selected
  {
    FilterAppend(selected, [id], IsNot(id));
    FilterAll(selected, IsNot(id));
    assert Without([id], id) == [];
  }

  /** Removing a selected id removes all of its occurrences and keeps the others in order. */
  lemma ToggleOffKeepsOrder(selected: seq<int>, id: int, k: int)
    requires 0 <= k < |selected| && selected[k] == id
    ensures Toggle(selected, id) == Without(selected[..k], id) + Without(selected[k + 1..], id)
    ensures id !in Toggle(selected, id)
  {
    var a, b, p := selected[..k], selected[k + 1..], IsNot(id);
    assert selected == (a + [id]) + b;
    FilterAppend(a + [id], b, p);
    FilterAppend(a, [id], p);
    FilterNone([id], p);
    assert Filter(selected, p) == Filter(a, p) + Filter(b, p);
  }

  /** A selection without repetitions stays without repetitions. */
  lemma ToggleKeepsDistinct(selected: seq<int>, id: int)
    requires Distinct(selected)
    ensures Distinct(Toggle(selected, id))
  {
    if id in selected {
      FilterKeepsDistinct(selected, IsNot(id));
    }
  }

  /** The filter callback `(label) => selectedLabelIds.includes(label.id)`. */
  function IsSelected(selected: seq<int>): Label -> bool {
    (l: Label) => l.id in selected
  }

  /** `allLabels.filter(...)`: the selected labels, in `allLabels` order. */
  function SelectedLabels(allLabels: seq<Label>, selected: seq<int>): (r: seq<Label>)
    ensures forall l :: l in r <==> l in allLabels && l.id in selected
    ensures |r| <= |allLabels|
  {
    FilterMembers(allLabels, IsSelected(selected));
    Filter(allLabels, IsSelected(selected))
  }

  /** Labels listed in `allLabels` order: splitting the list splits the selection the same way. */
  lemma SelectedLabelsKeepOrder(a: seq<Label>, b: seq<Label>, selected: seq<int>)
    ensures SelectedLabels(a + b, selected) == SelectedLabels(a, selected) + SelectedLabels(b, selected)
  {
    FilterAppend(a, b, IsSelected(selected));
  }

  /** A selected id that names no known label does not show up. */
  lemma {:induction false} UnknownIdsIgnored(allLabels: seq<Label>, selected: seq<int>, x: int)
    requires forall l :: l in allLabels ==> l.id != x
    ensures SelectedLabels(allLabels, selected + [x]) == SelectedLabels(allLabels, selected)
  {
    if allLabels != [] {
      UnknownIdsIgnored(allLabels[1..], selected, x);
    }
  }

  /** The dropdown button's text: "Labels", or the number of selected known labels and " selected". */
  function ButtonText(allLabels: seq<Label>, selected: seq<int>): string {
    var n := |SelectedLabels(allLabels, selected)|;
    if n == 0 then "Labels" else NatToDecimal(n) + " selected"
  }

  /** The button reads "Labels" exactly when no known label is selected. */
  lemma ButtonTextLabels(allLabels: seq<Label>, selected: seq<int>)
    ensures ButtonText(allLabels, selected) == "Labels" <==> forall l :: l in allLabels ==> l.id !in selected
  {
    var r := SelectedLabels(allLabels, selected);
    if |r| != 0 {
      assert r[0] in r;
      var t := NatToDecimal(|r|) + " selected";
      assert t[|t| - 1] == 'd';
    }
  }

  /**
   * With n > 0 known labels selected the button reads the decimal text of n
   * followed by " selected", and that text reads back as n.
   */
  lemma ButtonTextCount(allLabels: seq<Label>, selected: seq<int>)
    requires |SelectedLabels(allLabels, selected)| > 0
    ensures ButtonText(allLabels, selected) == NatToDecimal(|SelectedLabels(allLabels, selected)|) + " selected"
    ensures var t := ButtonText(allLabels, selected);
      |t| > 9 && AllDigits(t[..|t| - 9]) && DecimalValue(t[..|t| - 9]) == |SelectedLabels(allLabels, selected)|
  {
    var n := |SelectedLabels(allLabels, selected)|;
    var t := ButtonText(allLabels, selected);
    assert t[..|t| - 9] == NatToDecimal(n);
    DecimalRoundTrip(n);
  }
}
