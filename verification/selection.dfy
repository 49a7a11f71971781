/**
 * The selection of search results in public/app.js: `app.selectedTranscripts`
 * is a `Set` of result ids that the checkboxes and the select-all button
 * change in place, the download button's label follows its size, and a
 * click dispatches on how many ids are selected.
 *
 * The `Set` is a sequence in insertion order without repetitions, which is
 * how a JavaScript `Set` iterates. The DOM is left out: a checkbox is its
 * value, the boxes on the page are the sequence of their values.
 */
module Selection {
  import opened JsStrings
  import opened JsSets

  /** `app.currentResults.every(result => app.selectedTranscripts.has(result.id.toString()))`. */
  predicate AllSelected(results: seq<string>, selected: seq<string>) {
    forall k :: 0 <= k < |results| ==> results[k] in selected
  }

  /** What a click on the download button does. */
  datatype Action = ShowError(message: string) | DownloadSingle(id: string) | DownloadJourney(ids: seq<string>)

  const NothingSelectedText: string := "Please select at least one transcript to download"

  /**
   * `handleDownloadClick` on `Array.from(app.selectedTranscripts)`. The three
   * if-and-only-if clauses are the whole promise of the handler (none selected
   * is an error, one is a single download, more are a journey), so this
   * contract is the specification itself rather than a summary of one.
   */
  function Dispatch(selectedIds: seq<string>): (a: Action)
    ensures |selectedIds| == 0 <==> a.ShowError?
    ensures |selectedIds| == 1 <==> a.DownloadSingle?
    ensures |selectedIds| > 1 <==> a.DownloadJourney?
    ensures a.DownloadSingle? ==> a.id == selectedIds[0]
    ensures a.DownloadJourney? ==> a.ids == selectedIds
  {
    if |selectedIds| == 0 then ShowError(NothingSelectedText)
    else if |selectedIds| == 1 then DownloadSingle(selectedIds[0])
    else DownloadJourney(selectedIds)
  }

  datatype ButtonState = ButtonState(caption: string, disabled: bool)

  /**
   * The download button for `count` selected ids. That the button is disabled
   * exactly when nothing is selected is what the page promises of it; the
   * captions are the literal texts the page shows.
   */
  function DownloadButton(count: nat): (b: ButtonState)
    ensures b.disabled <==> count == 0
  {
    if count == 0 then ButtonState("Download Selected (0)", true)
    else if count == 1 then ButtonState("Download Selected (1)", false)
    else ButtonState("Download Journey (" + NatToString(count) + ")", false)
  }

  /** The select-all button's label, which is only updated while there are results. */
  function SelectAllLabel(results: seq<string>, selected: seq<string>): (r: string)
    requires |results| > 0
    ensures r == "Deselect All" <==> AllSelected(results, selected)
  {
    if AllSelected(results, selected) then "Deselect All" else "Select All"
  }

  class SelectionState {
    var selected: seq<string>
    var currentResults: seq<string>

    predicate Valid()
      reads this
    {
      NoDup(selected)
    }

    constructor(results: seq<string>)
      ensures Valid() && selected == [] && currentResults == results
    {
      selected := [];
      currentResults := results;
    }

    /** The checkbox `change` handler: add the box's value when checked, delete it otherwise. */
    method Toggle(value: string, checked: bool)
      requires Valid()
      modifies this
      ensures Valid()
      ensures selected == if checked then Add(old(selected), value) else Remove(old(selected), value)
      ensures currentResults == old(currentResults)
    {
      AddSpec(selected, value);
      RemoveSpec(selected, value);
      if checked {
        selected := Add(selected, value);
      } else {
        selected := Remove(selected, value);
      }
    }

    /** The select-all `click` handler over the values of the boxes on the page. */
    method SelectAll(boxes: seq<string>)
      requires Valid()
      modifies this
      ensures Valid()
      ensures AllSelected(old(currentResults), old(selected)) ==> selected == RemoveAll(old(selected), boxes)
      ensures !AllSelected(old(currentResults), old(selected)) ==> selected == AddAll(old(selected), boxes)
      ensures currentResults == old(currentResults)
    {
      var allChecked := forall k :: 0 <= k < |currentResults| ==> currentResults[k] in selected;
      ghost var before := selected;
      var i := 0;
      while i < |boxes|
        invariant 0 <= i <= |boxes|
        invariant selected == if allChecked then RemoveAll(before, boxes[..i]) else AddAll(before, boxes[..i])
        invariant NoDup(selected)
        invariant currentResults == old(currentResults)
      {
        assert boxes[..i + 1][..i] == boxes[..i];
        if !allChecked {
          AddSpec(selected, boxes[i]);
          selected := Add(selected, boxes[i]);
        } else {
          RemoveSpec(selected, boxes[i]);
          selected := Remove(selected, boxes[i]);
        }
        i := i + 1;
      }
      assert boxes[..i] == boxes;
    }

    /** `updateSelectedCount`: the size of the set is the number of ids. */
    function Button(): ButtonState
      reads this
    {
      DownloadButton(|selected|)
    }

    function Click(): Action
      reads this
    {
      Dispatch(selected)
    }
  }

  /** Select-all with some result unselected selects every box, so every result shown as a box. */
  lemma SelectAllSelectsEveryBox(selected: seq<string>, boxes: seq<string>)
    requires NoDup(selected)
    ensures forall x :: x in AddAll(selected, boxes) <==> x in selected || x in boxes
    ensures forall k :: 0 <= k < |boxes| ==> boxes[k] in AddAll(selected, boxes)
  {
    AddAllSpec(selected, boxes);
  }

  /** Select-all with every result selected deselects every box and keeps ids of other pages. */
  lemma SelectAllClearsEveryBox(selected: seq<string>, boxes: seq<string>)
    requires NoDup(selected)
    ensures forall x :: x in RemoveAll(selected, boxes) <==> x in selected && x !in boxes
  {
    RemoveAllSpec(selected, boxes);
  }

  /** With one box per result, pressing select-all twice on an empty selection ends empty again. */
  lemma SelectAllTwice(results: seq<string>)
    requires |results| > 0
    ensures !AllSelected(results, [])
    ensures AllSelected(results, AddAll([], results))
    ensures RemoveAll(AddAll([], results), results) == []
  {
    var added := AddAll([], results);
    AddAllSpec([], results);
    assert forall k :: 0 <= k < |results| ==> results[k] in added;
    ClearedAfterAdding(added, results);
  }

  /** Removing every id from a selection that holds only those ids empties it. */
  lemma ClearedAfterAdding(added: seq<string>, results: seq<string>)
    requires NoDup(added) && forall x :: x in added ==> x in results
    ensures RemoveAll(added, results) == []
  {
    RemoveAllSpec(added, results);
    var r := RemoveAll(added, results);
    HeadIsMember(r);
  }

  /** Checking then unchecking the same box leaves the selection as it was. */
  lemma ToggleUndo(selected: seq<string>, v: string)
    requires NoDup(selected) && v !in selected
    ensures Remove(Add(selected, v), v) == selected
  {
    RemoveUntouched(selected, v);
    assert (selected + [v])[..|selected|] == selected;
  }
}
