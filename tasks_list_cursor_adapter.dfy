/**
 * The task-list spinner adapter of the quick-add dialog: it keeps the ids of the selected lists,
 * starts with every list of a new cursor selected, toggles an id on each click, and tells its
 * listener when the selection becomes non-empty or empty.
 */
module TasksListCursorAdapter {
  import opened Wrappers
  import opened Lists

  /** `onSelectionEnabled` and `onSelectionDisabled` of the SelectionEnabledListener. */
  datatype SelectionEvent = SelectionEnabled | SelectionDisabled

  /** The rows of a cursor, reduced to what the adapter reads: the `_id` column of each row. */
  type CursorIds = seq<int>

  class TasksListCursorAdapter {
    /** `mSelectedLists`. */
    var selected: seq<int>
    /** Whether a SelectionEnabledListener is set. */
    var hasListener: bool
    /** The listener calls made so far. */
    var events: seq<SelectionEvent>

    constructor ()
      ensures selected == [] && !hasListener && events == []
    {
      selected := [];
      hasListener := false;
      events := [];
    }

    /** `setSelectionEnabledListener`, with a null listener given as false. */
    method SetSelectionEnabledListener(listener: bool)
      modifies this
      ensures hasListener == listener && selected == old(selected) && events == old(events)
    {
      hasListener := listener;
    }

    /** `swapCursor`: a new cursor selects all of its lists, in row order; a null cursor keeps the selection. */
    method SwapCursor(c: Option<CursorIds>)
      modifies this
      ensures c.Some? ==> selected == c.value
      ensures c.None? ==> selected == old(selected)
      ensures hasListener == old(hasListener) && events == old(events)
    {
      if c.Some? {
        var rows := c.value;
        var lists: seq<int> := [];
        var position := 0;
        while position < |rows|
          invariant 0 <= position <= |rows|
          invariant lists == rows[..position]
        {
          lists := lists + [rows[position]];
          position := position + 1;
        }
        assert rows[..|rows|] == rows;
        selected := lists;
      }
    }

    /**
     * The click handler of a list row whose checkbox shows `checked`: the box flips; a newly checked
     * id is added unless present, an unchecked one removed; the listener hears of a change from
     * an empty to a non-empty selection and back.
     */
    method Click(id: int, checked: bool) returns (nowChecked: bool)
      modifies this
      ensures nowChecked == !checked
      ensures nowChecked ==> selected == (if id in old(selected) then old(selected) else old(selected) + [id])
      ensures !nowChecked ==> selected == RemoveFirst(old(selected), id)
      ensures hasListener == old(hasListener)
      ensures events == old(events)
        + (if hasListener && |old(selected)| == 0 && |selected| > 0 then [SelectionEnabled] else [])
        + (if hasListener && |old(selected)| > 0 && |selected| == 0 then [SelectionDisabled] else [])
    {
      nowChecked := !checked;
      var oldSize := |selected|;
      if nowChecked {
        if id !in selected {
          selected := selected + [id];
        }
      } else {
        selected := RemoveFirst(selected, id);
      }
      if hasListener {
        if oldSize == 0 && |selected| > 0 {
          events := events + [SelectionEnabled];
        }
        if oldSize > 0 && |selected| == 0 {
          events := events + [SelectionDisabled];
        }
      }
    }

    /** `getSelectedLists`. */
    function GetSelectedLists(): seq<int>
      reads this
    {
      selected
    }
  }

  /** The selection after a click, as a function of the selection before it. */
  function Clicked(s: seq<int>, id: int, nowChecked: bool): seq<int>
  {
    if nowChecked then (if id in s then s else s + [id]) else RemoveFirst(s, id)
  }

  /** A click never introduces a duplicate, and afterwards the id is selected exactly when its box is checked. */
  lemma ClickKeepsDistinct(s: seq<int>, id: int, nowChecked: bool)
    requires Distinct(s)
    ensures Distinct(Clicked(s, id, nowChecked))
    ensures id in Clicked(s, id, nowChecked) <==> nowChecked
    ensures forall y :: y != id ==> (y in Clicked(s, id, nowChecked) <==> y in s)
  {
    if !nowChecked {
      RemoveFirstDistinct(s, id);
    }
  }

  /** Checking and then unchecking a list that was not selected restores the selection. */
  lemma CheckThenUncheck(s: seq<int>, id: int)
    requires id !in s
    ensures Clicked(Clicked(s, id, true), id, false) == s
  {
    RemoveLast(s, id);
  }

  lemma {:induction false} RemoveLast(s: seq<int>, id: int)
    requires id !in s
    ensures RemoveFirst(s + [id], id) == s
  {
    if |s| > 0 {
      assert (s + [id])[1..] == s[1..] + [id];
      RemoveLast(s[1..], id);
    }
  }
}
