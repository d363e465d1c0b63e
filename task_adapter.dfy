/**
 * The provider's view of one task while a write passes through the processors: the stored row
 * it was built on (none for a task being inserted), the change set the caller supplied and the
 * processors extend, and typed readings of single columns.
 */
module TaskAdapter {
  import opened Wrappers
  import opened ContentValues

  // Column names of the tasks table and of the joined list columns.
  const ID := "_id"
  const LIST_ID := "list_id"
  const ACCOUNT_NAME := "account_name"
  const ACCOUNT_TYPE := "account_type"
  const LIST_COLOR := "list_color"
  const LIST_NAME := "list_name"
  const LIST_ACCESS_LEVEL := "list_access_level"
  const LIST_OWNER := "list_owner"
  const LIST_VISIBLE := "visible"
  const DELETED := "_deleted"
  const UID := "_uid"
  const DIRTY := "_dirty"
  const CREATED := "created"
  const LAST_MODIFIED := "last_modified"
  const IS_NEW := "is_new"
  const IS_CLOSED := "is_closed"
  const HAS_PROPERTIES := "has_properties"
  const HAS_ALARMS := "has_alarms"
  const ORIGINAL_INSTANCE_SYNC_ID := "original_instance_sync_id"
  const ORIGINAL_INSTANCE_ID := "original_instance_id"
  const ORIGINAL_INSTANCE_TIME := "original_instance_time"
  const ORIGINAL_INSTANCE_ALLDAY := "original_instance_allday"
  const CLASSIFICATION := "class"
  const PRIORITY := "priority"
  const PERCENT_COMPLETE := "percent_complete"
  const STATUS := "status"
  const COMPLETED := "completed"
  const DTSTART := "dtstart"
  const DUE := "due"
  const DURATION := "duration"
  const IS_ALLDAY := "is_allday"
  const TZ := "tz"
  const SYNC_ID := "_sync_id"
  const SYNC_VERSION := "sync_version"
  const SYNC1 := "sync1"
  const SYNC2 := "sync2"
  const SYNC3 := "sync3"
  const SYNC4 := "sync4"
  const SYNC5 := "sync5"
  const SYNC6 := "sync6"
  const SYNC7 := "sync7"
  const SYNC8 := "sync8"
  const VERSION := "version"
  const PARENT_ID := "parent_id"
  const RRULE := "rrule"
  const RDATE := "rdate"
  const EXDATE := "exdate"

  // Task status values.
  const STATUS_NEEDS_ACTION := 0
  const STATUS_IN_PROCESS := 1
  const STATUS_COMPLETED := 2
  const STATUS_CANCELLED := 3
  const STATUS_DEFAULT := STATUS_NEEDS_ACTION

  /** The value a field has: the change set's when it holds the key, otherwise the stored row's. */
  function FieldValue(row: Option<Values>, values: Values, key: string): (v: Option<Value>)
    ensures key in values ==> v == values[key]
    ensures key !in values && row.Some? ==> v == Get(row.value, key)
    ensures key !in values && row.None? ==> v == None
  {
    if key in values then values[key] else if row.Some? then Get(row.value, key) else None
  }

  /**
   * `isUpdated`: the change set holds the key and, when there is a stored row, its value differs
   * from the stored one (a null and a value differ, two nulls do not).
   */
  predicate Updated(row: Option<Values>, values: Values, key: string)
  {
    key in values && (row.None? || values[key] != Get(row.value, key))
  }

  /** The row a new task would have: the stored row overlaid with the change set. */
  function Effective(row: Option<Values>, values: Values): (m: Values)
    ensures forall key :: key in m ==> m[key] == FieldValue(row, values, key)
  {
    (if row.Some? then row.value else map[]) + values
  }

  /** The boolean reading of a column: an integer value above 0, a null or anything else is false. */
  predicate IsTrue(v: Option<Value>)
  {
    var i := AsInteger(v);
    i.Some? && i.value > 0
  }

  /** What a boolean field stores: 1 or 0. */
  function BoolValue(b: bool): (v: Option<Value>)
    ensures IsTrue(v) <==> b
  {
    Some(IntV(if b then 1 else 0))
  }

  /** A datetime field holds its timestamp in milliseconds. */
  function TimeValue(millis: int): Option<Value>
  {
    Some(IntV(millis))
  }

  /** The dates of a date-list column: a null or missing list reads as the empty list. */
  function Dates(v: Option<Value>): seq<int>
  {
    if v.Some? && v.value.DatesV? then v.value.dates else []
  }

  /** What a date-list field stores: an empty list is stored as null. */
  function DatesValue(dates: seq<int>): (v: Option<Value>)
    ensures Dates(v) == dates
    ensures v.None? <==> dates == []
  {
    if dates == [] then None else Some(DatesV(dates))
  }

  class TaskAdapter {
    /** `id()`: the row id, negative for a task that is not stored yet. */
    var id: int
    /** The cursor row the adapter was built on, none for a task being inserted. */
    var row: Option<Values>
    /** The change set. */
    var values: Values
    /** `isRecurring`, whose implementation is not part of this model. */
    var recurring: bool

    constructor (id: int, row: Option<Values>, values: Values, recurring: bool)
      ensures this.id == id && this.row == row && this.values == values && this.recurring == recurring
    {
      this.id := id;
      this.row := row;
      this.values := values;
      this.recurring := recurring;
    }

    /** `valueOf`. */
    function ValueOf(key: string): Option<Value>
      reads this
    {
      FieldValue(row, values, key)
    }

    /** `oldValueOf`: the stored value, null for a task being inserted. */
    function OldValueOf(key: string): (v: Option<Value>)
      reads this
      ensures row.None? ==> v == None
    {
      if row.Some? then Get(row.value, key) else None
    }

    /** `isUpdated`. */
    predicate IsUpdated(key: string)
      reads this
    {
      Updated(row, values, key)
    }

    /** `set`: the change set maps the key to the value; nothing else changes. */
    method Set(key: string, v: Option<Value>)
      modifies this
      ensures values == old(values)[key := v]
      ensures id == old(id) && row == old(row) && recurring == old(recurring)
    {
      values := values[key := v];
    }

    /** `unset`: the key leaves the change set, so the field keeps its stored value. */
    method Unset(key: string)
      modifies this
      ensures values == old(values) - {key}
      ensures id == old(id) && row == old(row) && recurring == old(recurring)
    {
      values := values - {key};
    }

    /** `duplicate`: a new, unstored task holding this task's values except `_id`. */
    method Duplicate() returns (t: TaskAdapter)
      ensures fresh(t)
      ensures t.id == -1 && t.row == None && t.recurring == recurring
      ensures t.values == Effective(row, values) - {ID}
    {
      t := new TaskAdapter(-1, None, Effective(row, values) - {ID}, recurring);
    }
  }

  /** After `set`, the field reads as the value just set and counts as updated unless it equals the stored one. */
  lemma SetReadsBack(row: Option<Values>, values: Values, key: string, v: Option<Value>)
    ensures FieldValue(row, values[key := v], key) == v
    ensures Updated(row, values[key := v], key) <==> row.None? || v != Get(row.value, key)
    ensures forall other :: other != key ==>
      FieldValue(row, values[key := v], other) == FieldValue(row, values, other) &&
      (Updated(row, values[key := v], other) <==> Updated(row, values, other))
  {
  }

  /** After `unset`, the field reads as stored and is not updated. */
  lemma UnsetReadsStored(row: Option<Values>, values: Values, key: string)
    ensures FieldValue(row, values - {key}, key) == (if row.Some? then Get(row.value, key) else None)
    ensures !Updated(row, values - {key}, key)
  {
  }

  /** A field that is not updated reads as its stored value whenever it is in the change set at all. */
  lemma NotUpdatedReadsStored(row: Option<Values>, values: Values, key: string)
    requires row.Some? && !Updated(row, values, key)
    ensures FieldValue(row, values, key) == Get(row.value, key)
  {
  }
}
