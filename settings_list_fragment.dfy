/**
 * The list-visibility settings screen: each task list shows a checkbox for the list's compare
 * column (VISIBLE or SYNC_ENABLED); changes are kept in a map of list ids until they are saved
 * as one batch of updates.
 */
module SettingsListFragment {
  import opened Wrappers
  import Text
  import opened Lists

  /** `savedPositions`: the recorded checkbox value per list id. */
  type State = map<int, bool>

  /** `addToState` on the map's contents: a recorded id is forgotten, an unrecorded one recorded with `val`. */
  function Toggle(m: State, id: int, val: bool): (r: State)
    ensures id in m ==> r == m - {id}
    ensures id !in m ==> r == m[id := val]
  {
    if id in m then m - {id} else m[id := val]
  }

  /** A change made twice reverts to the original state, as the adapter's documentation says. */
  lemma ToggleTwice(m: State, id: int, first: bool, second: bool)
    requires id !in m
    ensures Toggle(Toggle(m, id, first), id, second) == m
  {
    assert Toggle(m, id, first) - {id} == m;
  }

  /** Changes of different ids do not interfere. */
  lemma ToggleCommutes(m: State, id1: int, v1: bool, id2: int, v2: bool)
    requires id1 != id2
    ensures Toggle(Toggle(m, id1, v1), id2, v2) == Toggle(Toggle(m, id2, v2), id1, v1)
  {
  }

  /**
   * The checkbox `bindView` shows for a list: unchanged (None) when the compare column is null,
   * otherwise the recorded value, or else whether the stored value is 1.
   */
  function BoundCheck(m: State, id: int, compare: Option<int>): (r: Option<bool>)
    ensures compare.None? ==> r.None?
    ensures compare.Some? && id in m ==> r == Some(m[id])
    ensures compare.Some? && id !in m ==> r == Some(compare.value == 1)
  {
    if compare.None? then None
    else if id in m then Some(m[id])
    else Some(compare.value == 1)
  }

  /** One update of the batch: the list row `_id=?` with the compare column set to "1" or "0". */
  datatype Update = Update(selection: string, selectionArgs: seq<string>, column: string, value: string)

  function UpdateFor(column: string, id: int, val: bool): (u: Update)
    ensures u.selectionArgs == [Text.IntToString(id)]
    ensures u.value == "1" <==> val
    ensures u.value == "0" <==> !val
  {
    Update("_id=?", [Text.IntToString(id)], column, if val then "1" else "0")
  }

  /** The list id an update is for, read back from its selection argument. */
  function UpdatedId(u: Update): Option<int>
  {
    if |u.selectionArgs| == 1 then Text.ParseLong(u.selectionArgs[0]) else None
  }

  /** The list id is recovered from the update made for it. */
  lemma UpdateForId(column: string, id: int, val: bool)
    requires Text.MIN_LONG <= id <= Text.MAX_LONG
    ensures UpdatedId(UpdateFor(column, id, val)) == Some(id)
  {
    Text.ParseLongOfString(id);
  }

  /** `ops` holds exactly one update per recorded id, in some order, each with the recorded value. */
  ghost predicate OnePerId(ops: seq<Update>, ids: seq<int>, m: State, column: string)
  {
    |ops| == |ids| == |m.Keys| &&
    (forall k, l :: 0 <= k < l < |ids| ==> ids[k] != ids[l]) &&
    (forall id :: id in m <==> id in ids) &&
    forall k :: 0 <= k < |ids| ==> ids[k] in m && ops[k] == UpdateFor(column, ids[k], m[ids[k]])
  }

  lemma {:induction false} DistinctCard(s: seq<int>)
    requires Distinct(s)
    ensures |set x | x in s| == |s|
  {
    if |s| > 0 {
      var t := s[..|s| - 1];
      DistinctCard(t);
      assert (set x | x in s) == (set x | x in t) + {s[|s| - 1]};
      assert s[|s| - 1] !in t;
    }
  }

  /** A map keyed by exactly the ids of a duplicate-free sequence has as many keys as it has ids. */
  lemma KeysCard(ids: seq<int>, m: State)
    requires Distinct(ids) && forall x :: x in ids <==> x in m
    ensures |m.Keys| == |ids|
  {
    DistinctCard(ids);
    assert (set x | x in ids) == m.Keys;
  }

  class VisibleListAdapter {
    var savedPositions: State

    constructor ()
      ensures savedPositions == map[]
    {
      savedPositions := map[];
    }

    /** `addToState`: true exactly when the id is recorded afterwards. */
    method AddToState(id: int, val: bool) returns (r: bool)
      modifies this
      ensures savedPositions == Toggle(old(savedPositions), id, val)
      ensures r <==> id in savedPositions
      ensures r <==> id !in old(savedPositions)
    {
      if id in savedPositions {
        savedPositions := savedPositions - {id};
        return false;
      } else {
        savedPositions := savedPositions[id := val];
        return true;
      }
    }

    /** `clearHashMap`. */
    method ClearHashMap()
      modifies this
      ensures savedPositions == map[]
    {
      savedPositions := map[];
    }

    /** `getState`. */
    function GetState(): State
      reads this
    {
      savedPositions
    }
  }

  class SettingsListFragment {
    const adapter: VisibleListAdapter
    /** `mListCompareColumnName`: the column the checkboxes edit. */
    const compareColumn: string

    constructor (compareColumn: string)
      ensures this.compareColumn == compareColumn && fresh(adapter) && adapter.savedPositions == map[]
    {
      this.compareColumn := compareColumn;
      adapter := new VisibleListAdapter();
    }

    /** `onItemClick`: the checkbox flips and the new value is recorded for the row's list id. */
    method OnItemClick(checked: bool, rowId: int) returns (nowChecked: bool)
      modifies adapter
      ensures nowChecked == !checked
      ensures adapter.savedPositions == Toggle(old(adapter.savedPositions), rowId, !checked)
    {
      nowChecked := !checked;
      var _ := adapter.AddToState(rowId, !checked);
    }

    /**
     * `saveListState` without the content resolver: the batch it hands to `applyBatch`, one update per
     * id of `order`, the order in which the map's key set yields them. The result is `applied`, the
     * resolver's outcome.
     */
    method SaveListState(applied: bool, order: seq<int>) returns (r: bool, ops: seq<Update>)
      requires Distinct(order) && forall x :: x in order <==> x in adapter.savedPositions
      ensures r == applied
      ensures OnePerId(ops, order, adapter.savedPositions, compareColumn)
    {
      var m := adapter.GetState();
      ops := [];
      for i := 0 to |order|
        invariant |ops| == i
        invariant forall k :: 0 <= k < i ==> ops[k] == UpdateFor(compareColumn, order[k], m[order[k]])
      {
        ops := ops + [UpdateFor(compareColumn, order[i], m[order[i]])];
      }
      KeysCard(order, m);
      r := applied;
    }

    /** `doneSaveListState`: the recorded changes are dropped. */
    method DoneSaveListState()
      modifies adapter
      ensures adapter.savedPositions == map[]
    {
      adapter.ClearHashMap();
    }
  }

  /** A click on a list whose value was not recorded makes the bound checkbox show the flipped value. */
  lemma ClickThenBind(m: State, rowId: int, compare: int)
    requires rowId !in m
    ensures var checked := BoundCheck(m, rowId, Some(compare)).value;
      BoundCheck(Toggle(m, rowId, !checked), rowId, Some(compare)) == Some(!checked)
  {
  }

  /** Two clicks on the same list show the original value again and leave no recorded change. */
  lemma ClickTwice(m: State, rowId: int, compare: int)
    requires rowId !in m
    ensures var checked := BoundCheck(m, rowId, Some(compare)).value;
      var m2 := Toggle(Toggle(m, rowId, !checked), rowId, checked);
      m2 == m && BoundCheck(m2, rowId, Some(compare)) == Some(checked)
  {
    var checked := BoundCheck(m, rowId, Some(compare)).value;
    ToggleTwice(m, rowId, !checked, checked);
  }
}
