/**
 * The task processor that derives dependent fields before a task is written: the dirty flag and
 * the modification and creation times of local writes, the default priority, the partner of an
 * original-instance reference, and STATUS, IS_NEW, IS_CLOSED, PERCENT_COMPLETE and COMPLETED from
 * one another.
 */
module AutoUpdateProcessor {
  import opened Wrappers
  import opened ContentValues
  import opened TaskAdapter
  import Text

  /** A row of the tasks table as the original-instance lookups see it: its `_id` and `_sync_id`. */
  datatype TaskRow = TaskRow(id: int, syncId: Option<string>)

  /** The first row of the query `_sync_id=?`. */
  function FirstWithSyncId(tasks: seq<TaskRow>, syncId: string): (r: Option<TaskRow>)
    ensures r.Some? ==> r.value in tasks && r.value.syncId == Some(syncId)
    ensures r.None? ==> forall t :: t in tasks ==> t.syncId != Some(syncId)
  {
    if |tasks| == 0 then None
    else if tasks[0].syncId == Some(syncId) then Some(tasks[0])
    else FirstWithSyncId(tasks[1..], syncId)
  }

  /** The first row of the query `_id=?`. */
  function FirstWithId(tasks: seq<TaskRow>, id: int): (r: Option<TaskRow>)
    ensures r.Some? ==> r.value in tasks && r.value.id == id
    ensures r.None? ==> forall t :: t in tasks ==> t.id != id
  {
    if |tasks| == 0 then None
    else if tasks[0].id == id then Some(tasks[0])
    else FirstWithId(tasks[1..], id)
  }

  function StatusValue(status: int): Option<Value>
  {
    Some(IntV(status))
  }

  // The steps of `updateFields`, each a function of the change set the previous one left.

  /** A local write is dirty and modified now; a completion time without a status update sets STATUS to COMPLETED. */
  function Touched(row: Option<Values>, values: Values, isSyncAdapter: bool, now: int): Values
  {
    if isSyncAdapter then values
    else
      var v := values[DIRTY := BoolValue(true)][LAST_MODIFIED := TimeValue(now)];
      if FieldValue(row, v, COMPLETED).Some? && !Updated(row, v, STATUS) then v[STATUS := StatusValue(STATUS_COMPLETED)] else v
  }

  /** An updated priority of 0 becomes null. */
  function PriorityNormalized(row: Option<Values>, v: Values): Values
  {
    if Updated(row, v, PRIORITY) && AsInteger(FieldValue(row, v, PRIORITY)) == Some(0) then v[PRIORITY := None] else v
  }

  /**
   * An updated original-instance sync id fills in the id of the task with that sync id; otherwise an
   * updated original-instance id fills in that task's sync id. A null sync id cannot be bound as a
   * query argument, and a null id cannot be turned into a string.
   */
  function OriginalResolved(row: Option<Values>, v: Values, tasks: seq<TaskRow>): Result<Values>
  {
    if Updated(row, v, ORIGINAL_INSTANCE_SYNC_ID) then
      var syncId := AsString(FieldValue(row, v, ORIGINAL_INSTANCE_SYNC_ID));
      if syncId.None? then Failure("IllegalArgumentException: the bind value at index 1 is null")
      else
        var found := FirstWithSyncId(tasks, syncId.value);
        if found.Some? then Success(v[ORIGINAL_INSTANCE_ID := Some(IntV(found.value.id))]) else Success(v)
    else if Updated(row, v, ORIGINAL_INSTANCE_ID) then
      var id := AsLong(FieldValue(row, v, ORIGINAL_INSTANCE_ID));
      if id.None? then Failure("NullPointerException")
      else
        var found := FirstWithId(tasks, id.value);
        if found.Some? then
          Success(v[ORIGINAL_INSTANCE_SYNC_ID := if found.value.syncId.Some? then Some(StrV(found.value.syncId.value)) else None])
        else Success(v)
    else Success(v)
  }

  /** A local update of PERCENT_COMPLETE: 100 completes the task unless told otherwise, anything else clears COMPLETED. */
  function PercentApplied(row: Option<Values>, v: Values, isSyncAdapter: bool, now: int): Values
  {
    if Updated(row, v, PERCENT_COMPLETE) then
      var percent := AsInteger(FieldValue(row, v, PERCENT_COMPLETE));
      if !isSyncAdapter && percent == Some(100) then
        var v1 := if !Updated(row, v, STATUS) then v[STATUS := StatusValue(STATUS_COMPLETED)] else v;
        if !Updated(row, v1, COMPLETED) then v1[COMPLETED := TimeValue(now)] else v1
      else if !isSyncAdapter && percent.Some? then
        if !Updated(row, v, COMPLETED) then v[COMPLETED := None] else v
      else v
    else v
  }

  /** Whether the status step runs: the status was updated, or the task is new. */
  predicate StatusStepRuns(row: Option<Values>, v: Values, id: int)
  {
    Updated(row, v, STATUS) || id < 0
  }

  /** The status the status step works with: the stored or updated one, or the default for null. */
  function EffectiveStatus(row: Option<Values>, v: Values): int
  {
    var s := AsInteger(FieldValue(row, v, STATUS));
    if s.None? then STATUS_DEFAULT else s.value
  }

  /**
   * The status step: a null status becomes the default, IS_NEW and IS_CLOSED follow the status,
   * and for a local write a completed task is 100% complete while any other status clears COMPLETED.
   */
  function StatusApplied(row: Option<Values>, v: Values, id: int, isSyncAdapter: bool, now: int): Values
  {
    if StatusStepRuns(row, v, id) then
      var status := EffectiveStatus(row, v);
      var v1 := if AsInteger(FieldValue(row, v, STATUS)).None? then v[STATUS := StatusValue(status)] else v;
      var v2 := v1[IS_NEW := BoolValue(status == STATUS_NEEDS_ACTION)]
        [IS_CLOSED := BoolValue(status == STATUS_COMPLETED || status == STATUS_CANCELLED)];
      if status == STATUS_COMPLETED && !isSyncAdapter then
        var v3 := v2[PERCENT_COMPLETE := Some(IntV(100))];
        if !Updated(row, v3, COMPLETED) then v3[COMPLETED := TimeValue(now)] else v3
      else if !isSyncAdapter then v2[COMPLETED := None]
      else v2
    else v
  }

  /** The change set `updateFields` leaves behind, or the exception it throws. */
  function UpdatedFields(row: Option<Values>, values: Values, id: int, isSyncAdapter: bool, now: int, tasks: seq<TaskRow>): Result<Values>
  {
    var v2 := PriorityNormalized(row, Touched(row, values, isSyncAdapter, now));
    var v3 := OriginalResolved(row, v2, tasks);
    if v3.Failure? then v3
    else Success(StatusApplied(row, PercentApplied(row, v3.value, isSyncAdapter, now), id, isSyncAdapter, now))
  }

  /** A database update the processor issues after a write: new values for the rows a selection picks. */
  datatype RowUpdate = RowUpdate(values: Values, selection: string, selectionArgs: seq<Option<string>>)

  class AutoUpdateProcessor {
    constructor ()
    {
    }

    /**
     * `updateFields`, with the clock reading `now` and the tasks table reduced to ids and sync ids.
     * On an exception the change set keeps the steps made before it.
     */
    method UpdateFields(task: TaskAdapter, isSyncAdapter: bool, now: int, tasks: seq<TaskRow>) returns (r: Outcome)
      modifies task
      ensures task.id == old(task.id) && task.row == old(task.row) && task.recurring == old(task.recurring)
      ensures var u := UpdatedFields(task.row, old(task.values), task.id, isSyncAdapter, now, tasks);
        (r.Pass? <==> u.Success?) && (u.Success? ==> task.values == u.value)
    {
      Touch(task, isSyncAdapter, now);
      NormalizePriority(task);
      r := ResolveOriginal(task, tasks);
      if r.Fail? {
        return;
      }
      ApplyPercent(task, isSyncAdapter, now);
      ApplyStatus(task, isSyncAdapter, now);
    }

    method Touch(task: TaskAdapter, isSyncAdapter: bool, now: int)
      modifies task
      ensures task.id == old(task.id) && task.row == old(task.row) && task.recurring == old(task.recurring)
      ensures task.values == Touched(task.row, old(task.values), isSyncAdapter, now)
    {
      if !isSyncAdapter {
        task.Set(DIRTY, BoolValue(true));
        task.Set(LAST_MODIFIED, TimeValue(now));
        if task.ValueOf(COMPLETED).Some? && !task.IsUpdated(STATUS) {
          task.Set(STATUS, StatusValue(STATUS_COMPLETED));
        }
      }
    }

    method NormalizePriority(task: TaskAdapter)
      modifies task
      ensures task.id == old(task.id) && task.row == old(task.row) && task.recurring == old(task.recurring)
      ensures task.values == PriorityNormalized(task.row, old(task.values))
    {
      if task.IsUpdated(PRIORITY) {
        var priority := AsInteger(task.ValueOf(PRIORITY));
        if priority == Some(0) {
          task.Set(PRIORITY, None);
        }
      }
    }

    method ResolveOriginal(task: TaskAdapter, tasks: seq<TaskRow>) returns (r: Outcome)
      modifies task
      ensures task.id == old(task.id) && task.row == old(task.row) && task.recurring == old(task.recurring)
      ensures var u := OriginalResolved(task.row, old(task.values), tasks);
        (r.Pass? <==> u.Success?) && (u.Success? ==> task.values == u.value)
    {
      if task.IsUpdated(ORIGINAL_INSTANCE_SYNC_ID) {
        var syncId := AsString(task.ValueOf(ORIGINAL_INSTANCE_SYNC_ID));
        if syncId.None? {
          return Fail("IllegalArgumentException: the bind value at index 1 is null");
        }
        var found := FirstWithSyncId(tasks, syncId.value);
        if found.Some? {
          task.Set(ORIGINAL_INSTANCE_ID, Some(IntV(found.value.id)));
        }
      } else if task.IsUpdated(ORIGINAL_INSTANCE_ID) {
        var id := AsLong(task.ValueOf(ORIGINAL_INSTANCE_ID));
        if id.None? {
          return Fail("NullPointerException");
        }
        var found := FirstWithId(tasks, id.value);
        if found.Some? {
          task.Set(ORIGINAL_INSTANCE_SYNC_ID, if found.value.syncId.Some? then Some(StrV(found.value.syncId.value)) else None);
        }
      }
      return Pass;
    }

    method ApplyPercent(task: TaskAdapter, isSyncAdapter: bool, now: int)
      modifies task
      ensures task.id == old(task.id) && task.row == old(task.row) && task.recurring == old(task.recurring)
      ensures task.values == PercentApplied(task.row, old(task.values), isSyncAdapter, now)
    {
      if task.IsUpdated(PERCENT_COMPLETE) {
        var percent := AsInteger(task.ValueOf(PERCENT_COMPLETE));
        if !isSyncAdapter && percent == Some(100) {
          if !task.IsUpdated(STATUS) {
            task.Set(STATUS, StatusValue(STATUS_COMPLETED));
          }
          if !task.IsUpdated(COMPLETED) {
            task.Set(COMPLETED, TimeValue(now));
          }
        } else if !isSyncAdapter && percent.Some? {
          if !task.IsUpdated(COMPLETED) {
            task.Set(COMPLETED, None);
          }
        }
      }
    }

    method ApplyStatus(task: TaskAdapter, isSyncAdapter: bool, now: int)
      modifies task
      ensures task.id == old(task.id) && task.row == old(task.row) && task.recurring == old(task.recurring)
      ensures task.values == StatusApplied(task.row, old(task.values), task.id, isSyncAdapter, now)
    {
      if task.IsUpdated(STATUS) || task.id < 0 {
        var given := AsInteger(task.ValueOf(STATUS));
        var status := if given.None? then STATUS_DEFAULT else given.value;
        if given.None? {
          task.Set(STATUS, StatusValue(status));
        }
        task.Set(IS_NEW, BoolValue(status == STATUS_NEEDS_ACTION));
        task.Set(IS_CLOSED, BoolValue(status == STATUS_COMPLETED || status == STATUS_CANCELLED));
        if status == STATUS_COMPLETED && !isSyncAdapter {
          task.Set(PERCENT_COMPLETE, Some(IntV(100)));
          if !task.IsUpdated(COMPLETED) {
            task.Set(COMPLETED, TimeValue(now));
          }
        } else if !isSyncAdapter {
          task.Set(COMPLETED, None);
        }
      }
    }

    /** `beforeInsert`: the derived fields, then for a local insert the creation time. */
    method BeforeInsert(task: TaskAdapter, isSyncAdapter: bool, now: int, tasks: seq<TaskRow>) returns (r: Outcome)
      modifies task
      ensures task.id == old(task.id) && task.row == old(task.row) && task.recurring == old(task.recurring)
      ensures var u := UpdatedFields(task.row, old(task.values), task.id, isSyncAdapter, now, tasks);
        (r.Pass? <==> u.Success?) &&
        (u.Success? ==> task.values == if isSyncAdapter then u.value else u.value[CREATED := TimeValue(now)])
    {
      r := UpdateFields(task, isSyncAdapter, now, tasks);
      if r.Fail? {
        return;
      }
      if !isSyncAdapter {
        task.Set(CREATED, TimeValue(now));
      }
    }

    /** `beforeUpdate`: the derived fields. */
    method BeforeUpdate(task: TaskAdapter, isSyncAdapter: bool, now: int, tasks: seq<TaskRow>) returns (r: Outcome)
      modifies task
      ensures task.id == old(task.id) && task.row == old(task.row) && task.recurring == old(task.recurring)
      ensures var u := UpdatedFields(task.row, old(task.values), task.id, isSyncAdapter, now, tasks);
        (r.Pass? <==> u.Success?) && (u.Success? ==> task.values == u.value)
    {
      r := UpdateFields(task, isSyncAdapter, now, tasks);
    }
  }

  /**
   * `afterInsert`: a recurring task inserted by a sync adapter adopts the overrides already stored
   * with its sync id that have no original-instance id yet.
   */
  function AfterInsert(task: TaskAdapter, isSyncAdapter: bool): (u: Option<RowUpdate>)
    reads task
    ensures u.Some? <==> isSyncAdapter && task.recurring
    ensures u.Some? ==> u.value.values == map[ORIGINAL_INSTANCE_ID := Some(IntV(task.id))]
    ensures u.Some? ==> u.value.selectionArgs == [AsString(task.ValueOf(SYNC_ID))]
  {
    if isSyncAdapter && task.recurring then
      Some(RowUpdate(map[ORIGINAL_INSTANCE_ID := Some(IntV(task.id))],
        "original_instance_sync_id=? and original_instance_id is null", [AsString(task.ValueOf(SYNC_ID))]))
    else None
  }

  /** `afterUpdate`: a sync adapter changing the sync id of a recurring task hands the new one to its overrides. */
  function AfterUpdate(task: TaskAdapter, isSyncAdapter: bool): (u: Option<RowUpdate>)
    reads task
    ensures u.Some? <==> isSyncAdapter && task.recurring && task.IsUpdated(SYNC_ID)
    ensures u.Some? ==> u.value.values == map[ORIGINAL_INSTANCE_SYNC_ID := task.ValueOf(SYNC_ID)]
  {
    if isSyncAdapter && task.recurring && task.IsUpdated(SYNC_ID) then
      Some(RowUpdate(map[ORIGINAL_INSTANCE_SYNC_ID := task.ValueOf(SYNC_ID)],
        "original_instance_id=" + Text.IntToString(task.id), []))
    else None
  }

  // What `updateFields` guarantees about the change set it leaves.

  /** The column reads and counts as updated the same in both change sets. */
  predicate Same(row: Option<Values>, v: Values, w: Values, key: string)
  {
    FieldValue(row, w, key) == FieldValue(row, v, key) && (Updated(row, w, key) <==> Updated(row, v, key))
  }

  lemma TouchedFrame(row: Option<Values>, v: Values, isSyncAdapter: bool, now: int, key: string)
    requires isSyncAdapter || (key != DIRTY && key != LAST_MODIFIED && key != STATUS)
    ensures Same(row, v, Touched(row, v, isSyncAdapter, now), key)
  {
  }

  lemma PriorityFrame(row: Option<Values>, v: Values, key: string)
    requires key != PRIORITY
    ensures Same(row, v, PriorityNormalized(row, v), key)
  {
  }

  lemma OriginalFrame(row: Option<Values>, v: Values, tasks: seq<TaskRow>, key: string)
    requires OriginalResolved(row, v, tasks).Success?
    requires key != ORIGINAL_INSTANCE_ID && key != ORIGINAL_INSTANCE_SYNC_ID
    ensures Same(row, v, OriginalResolved(row, v, tasks).value, key)
  {
  }

  lemma PercentFrame(row: Option<Values>, v: Values, isSyncAdapter: bool, now: int, key: string)
    requires key != STATUS && key != COMPLETED
    ensures Same(row, v, PercentApplied(row, v, isSyncAdapter, now), key)
  {
  }

  lemma StatusFrame(row: Option<Values>, v: Values, id: int, isSyncAdapter: bool, now: int, key: string)
    requires key != STATUS && key != IS_NEW && key != IS_CLOSED && key != PERCENT_COMPLETE && key != COMPLETED
    ensures Same(row, v, StatusApplied(row, v, id, isSyncAdapter, now), key)
  {
  }


  /** The only exceptions: a null original-instance sync id, or else a null original-instance id, written by the caller. */
  lemma FailsOnNullReference(row: Option<Values>, values: Values, id: int, isSyncAdapter: bool, now: int, tasks: seq<TaskRow>)
    ensures UpdatedFields(row, values, id, isSyncAdapter, now, tasks).Failure? <==>
      if Updated(row, values, ORIGINAL_INSTANCE_SYNC_ID) then AsString(FieldValue(row, values, ORIGINAL_INSTANCE_SYNC_ID)).None?
      else Updated(row, values, ORIGINAL_INSTANCE_ID) && AsLong(FieldValue(row, values, ORIGINAL_INSTANCE_ID)).None?
  {
    var v1 := Touched(row, values, isSyncAdapter, now);
    TouchedFrame(row, values, isSyncAdapter, now, ORIGINAL_INSTANCE_SYNC_ID);
    TouchedFrame(row, values, isSyncAdapter, now, ORIGINAL_INSTANCE_ID);
    PriorityFrame(row, v1, ORIGINAL_INSTANCE_SYNC_ID);
    PriorityFrame(row, v1, ORIGINAL_INSTANCE_ID);
  }

  /** A local write always leaves the task dirty and modified now; a sync adapter's write leaves both as given. */
  lemma DirtyOnLocalWrite(row: Option<Values>, values: Values, id: int, isSyncAdapter: bool, now: int, tasks: seq<TaskRow>)
    requires UpdatedFields(row, values, id, isSyncAdapter, now, tasks).Success?
    ensures var u := UpdatedFields(row, values, id, isSyncAdapter, now, tasks).value;
      if isSyncAdapter then
        FieldValue(row, u, DIRTY) == FieldValue(row, values, DIRTY) &&
        FieldValue(row, u, LAST_MODIFIED) == FieldValue(row, values, LAST_MODIFIED)
      else IsTrue(FieldValue(row, u, DIRTY)) && FieldValue(row, u, LAST_MODIFIED) == TimeValue(now)
  {
    var v1 := Touched(row, values, isSyncAdapter, now);
    var v2 := PriorityNormalized(row, v1);
    var v3 := OriginalResolved(row, v2, tasks).value;
    var v4 := PercentApplied(row, v3, isSyncAdapter, now);
    var u := StatusApplied(row, v4, id, isSyncAdapter, now);
    if isSyncAdapter {
      TouchedFrame(row, values, true, now, DIRTY);
      TouchedFrame(row, values, true, now, LAST_MODIFIED);
    }
    PriorityFrame(row, v1, DIRTY);
    PriorityFrame(row, v1, LAST_MODIFIED);
    OriginalFrame(row, v2, tasks, DIRTY);
    OriginalFrame(row, v2, tasks, LAST_MODIFIED);
    PercentFrame(row, v3, isSyncAdapter, now, DIRTY);
    PercentFrame(row, v3, isSyncAdapter, now, LAST_MODIFIED);
    StatusFrame(row, v4, id, isSyncAdapter, now, DIRTY);
    StatusFrame(row, v4, id, isSyncAdapter, now, LAST_MODIFIED);
  }

  /** An updated priority of 0 is never written: it becomes null. */
  lemma ZeroPriorityBecomesNull(row: Option<Values>, values: Values, id: int, isSyncAdapter: bool, now: int, tasks: seq<TaskRow>)
    requires UpdatedFields(row, values, id, isSyncAdapter, now, tasks).Success?
    requires Updated(row, values, PRIORITY) && AsInteger(FieldValue(row, values, PRIORITY)) == Some(0)
    ensures FieldValue(row, UpdatedFields(row, values, id, isSyncAdapter, now, tasks).value, PRIORITY) == None
  {
    var v1 := Touched(row, values, isSyncAdapter, now);
    TouchedFrame(row, values, isSyncAdapter, now, PRIORITY);
    var v2 := PriorityNormalized(row, v1);
    var v3 := OriginalResolved(row, v2, tasks).value;
    OriginalFrame(row, v2, tasks, PRIORITY);
    var v4 := PercentApplied(row, v3, isSyncAdapter, now);
    PercentFrame(row, v3, isSyncAdapter, now, PRIORITY);
    StatusFrame(row, v4, id, isSyncAdapter, now, PRIORITY);
  }

  /** The status step, on its own: it leaves a non-null status with the flags and completion fields that follow from it. */
  lemma StatusStepFlags(row: Option<Values>, v: Values, id: int, isSyncAdapter: bool, now: int)
    requires StatusStepRuns(row, v, id)
    ensures var u := StatusApplied(row, v, id, isSyncAdapter, now);
      var status := AsInteger(FieldValue(row, u, STATUS));
      status == Some(EffectiveStatus(row, v)) &&
      (IsTrue(FieldValue(row, u, IS_NEW)) <==> status.value == STATUS_NEEDS_ACTION) &&
      (IsTrue(FieldValue(row, u, IS_CLOSED)) <==> status.value == STATUS_COMPLETED || status.value == STATUS_CANCELLED) &&
      (!isSyncAdapter && status.value == STATUS_COMPLETED ==> AsInteger(FieldValue(row, u, PERCENT_COMPLETE)) == Some(100)) &&
      (!isSyncAdapter && status.value != STATUS_COMPLETED ==> FieldValue(row, u, COMPLETED) == None)
  {
    StatusStepStatus(row, v, id, isSyncAdapter, now);
    StatusStepCompletion(row, v, id, isSyncAdapter, now);
  }

  lemma StatusStepStatus(row: Option<Values>, v: Values, id: int, isSyncAdapter: bool, now: int)
    requires StatusStepRuns(row, v, id)
    ensures var u := StatusApplied(row, v, id, isSyncAdapter, now);
      var status := EffectiveStatus(row, v);
      AsInteger(FieldValue(row, u, STATUS)) == Some(status) &&
      (IsTrue(FieldValue(row, u, IS_NEW)) <==> status == STATUS_NEEDS_ACTION) &&
      (IsTrue(FieldValue(row, u, IS_CLOSED)) <==> status == STATUS_COMPLETED || status == STATUS_CANCELLED)
  {
    AsIntegerReadsBack(STATUS_DEFAULT);
  }

  lemma StatusStepCompletion(row: Option<Values>, v: Values, id: int, isSyncAdapter: bool, now: int)
    requires StatusStepRuns(row, v, id)
    ensures var u := StatusApplied(row, v, id, isSyncAdapter, now);
      var status := EffectiveStatus(row, v);
      (!isSyncAdapter && status == STATUS_COMPLETED ==> AsInteger(FieldValue(row, u, PERCENT_COMPLETE)) == Some(100)) &&
      (!isSyncAdapter && status != STATUS_COMPLETED ==> FieldValue(row, u, COMPLETED) == None)
  {
    AsIntegerReadsBack(100);
  }

  /** A non-null status survives the status step. */
  lemma StatusStepKeepsStatus(row: Option<Values>, v: Values, id: int, isSyncAdapter: bool, now: int)
    requires AsInteger(FieldValue(row, v, STATUS)).Some?
    ensures AsInteger(FieldValue(row, StatusApplied(row, v, id, isSyncAdapter, now), STATUS)) == AsInteger(FieldValue(row, v, STATUS))
  {
  }

  /** A written status stays written through the steps before the status step. */
  lemma StatusStaysUpdated(row: Option<Values>, values: Values, isSyncAdapter: bool, now: int, tasks: seq<TaskRow>)
    requires OriginalResolved(row, PriorityNormalized(row, Touched(row, values, isSyncAdapter, now)), tasks).Success?
    requires Updated(row, values, STATUS)
    ensures var v3 := OriginalResolved(row, PriorityNormalized(row, Touched(row, values, isSyncAdapter, now)), tasks).value;
      Updated(row, PercentApplied(row, v3, isSyncAdapter, now), STATUS)
  {
    var v1 := Touched(row, values, isSyncAdapter, now);
    assert Updated(row, v1, STATUS);
    var v2 := PriorityNormalized(row, v1);
    PriorityFrame(row, v1, STATUS);
    OriginalFrame(row, v2, tasks, STATUS);
  }

  /**
   * When the status was written or the task is new, the written status is never null, IS_NEW and
   * IS_CLOSED follow it, and for a local write a completed task is 100% complete while a task in
   * any other status has no completion time.
   */
  lemma FlagsFollowStatus(row: Option<Values>, values: Values, id: int, isSyncAdapter: bool, now: int, tasks: seq<TaskRow>)
    requires UpdatedFields(row, values, id, isSyncAdapter, now, tasks).Success?
    requires Updated(row, values, STATUS) || id < 0
    ensures var u := UpdatedFields(row, values, id, isSyncAdapter, now, tasks).value;
      var status := AsInteger(FieldValue(row, u, STATUS));
      status.Some? &&
      (IsTrue(FieldValue(row, u, IS_NEW)) <==> status.value == STATUS_NEEDS_ACTION) &&
      (IsTrue(FieldValue(row, u, IS_CLOSED)) <==> status.value == STATUS_COMPLETED || status.value == STATUS_CANCELLED) &&
      (!isSyncAdapter && status.value == STATUS_COMPLETED ==> AsInteger(FieldValue(row, u, PERCENT_COMPLETE)) == Some(100)) &&
      (!isSyncAdapter && status.value != STATUS_COMPLETED ==> FieldValue(row, u, COMPLETED) == None)
  {
    var v2 := PriorityNormalized(row, Touched(row, values, isSyncAdapter, now));
    var v3 := OriginalResolved(row, v2, tasks).value;
    var v4 := PercentApplied(row, v3, isSyncAdapter, now);
    if Updated(row, values, STATUS) {
      StatusStaysUpdated(row, values, isSyncAdapter, now, tasks);
    }
    StatusStepFlags(row, v4, id, isSyncAdapter, now);
  }

  /** The first step of a local write completes a task given a completion time but no status. */
  lemma TouchedCompletes(row: Option<Values>, values: Values, now: int)
    requires !Updated(row, values, STATUS) && FieldValue(row, values, COMPLETED).Some?
    ensures AsInteger(FieldValue(row, Touched(row, values, false, now), STATUS)) == Some(STATUS_COMPLETED)
  {
    AsIntegerReadsBack(STATUS_COMPLETED);
  }

  /** The percent step of a local write setting 100% completes a task whose status is not written. */
  lemma PercentCompletes(row: Option<Values>, v: Values, now: int)
    requires !Updated(row, v, STATUS)
    requires Updated(row, v, PERCENT_COMPLETE) && AsInteger(FieldValue(row, v, PERCENT_COMPLETE)) == Some(100)
    ensures AsInteger(FieldValue(row, PercentApplied(row, v, false, now), STATUS)) == Some(STATUS_COMPLETED)
  {
    AsIntegerReadsBack(STATUS_COMPLETED);
  }

  /** The percent step leaves a COMPLETED status COMPLETED. */
  lemma PercentKeepsCompleted(row: Option<Values>, v: Values, isSyncAdapter: bool, now: int)
    requires AsInteger(FieldValue(row, v, STATUS)) == Some(STATUS_COMPLETED)
    ensures AsInteger(FieldValue(row, PercentApplied(row, v, isSyncAdapter, now), STATUS)) == Some(STATUS_COMPLETED)
  {
    AsIntegerReadsBack(STATUS_COMPLETED);
  }

  /**
   * A local write that gives a completion time or sets PERCENT_COMPLETE to 100, and does not write
   * the status itself, leaves the task COMPLETED.
   */
  lemma CompletionCompletesTask(row: Option<Values>, values: Values, id: int, now: int, tasks: seq<TaskRow>)
    requires UpdatedFields(row, values, id, false, now, tasks).Success?
    requires !Updated(row, values, STATUS)
    requires FieldValue(row, values, COMPLETED).Some? ||
      (Updated(row, values, PERCENT_COMPLETE) && AsInteger(FieldValue(row, values, PERCENT_COMPLETE)) == Some(100))
    ensures AsInteger(FieldValue(row, UpdatedFields(row, values, id, false, now, tasks).value, STATUS)) == Some(STATUS_COMPLETED)
  {
    var v1 := Touched(row, values, false, now);
    var v2 := PriorityNormalized(row, v1);
    var v3 := OriginalResolved(row, v2, tasks).value;
    var v4 := PercentApplied(row, v3, false, now);
    PriorityFrame(row, v1, STATUS);
    OriginalFrame(row, v2, tasks, STATUS);
    if FieldValue(row, values, COMPLETED).Some? {
      TouchedCompletes(row, values, now);
      PercentKeepsCompleted(row, v3, false, now);
    } else {
      TouchedFrame(row, values, false, now, PERCENT_COMPLETE);
      assert Same(row, values, v1, STATUS);
      PriorityFrame(row, v1, PERCENT_COMPLETE);
      OriginalFrame(row, v2, tasks, PERCENT_COMPLETE);
      PercentCompletes(row, v3, now);
    }
    StatusStepKeepsStatus(row, v4, id, false, now);
  }

  /** A written original-instance sync id that names a stored task leaves that task's id as the original-instance id. */
  lemma SyncIdResolvesId(row: Option<Values>, values: Values, id: int, isSyncAdapter: bool, now: int, tasks: seq<TaskRow>, t: TaskRow)
    requires UpdatedFields(row, values, id, isSyncAdapter, now, tasks).Success?
    requires Updated(row, values, ORIGINAL_INSTANCE_SYNC_ID)
    requires FirstWithSyncId(tasks, AsString(FieldValue(row, values, ORIGINAL_INSTANCE_SYNC_ID)).value) == Some(t)
    ensures FieldValue(row, UpdatedFields(row, values, id, isSyncAdapter, now, tasks).value, ORIGINAL_INSTANCE_ID) == Some(IntV(t.id))
  {
    var v1 := Touched(row, values, isSyncAdapter, now);
    var v2 := PriorityNormalized(row, v1);
    TouchedFrame(row, values, isSyncAdapter, now, ORIGINAL_INSTANCE_SYNC_ID);
    PriorityFrame(row, v1, ORIGINAL_INSTANCE_SYNC_ID);
    var v3 := OriginalResolved(row, v2, tasks).value;
    assert FieldValue(row, v3, ORIGINAL_INSTANCE_ID) == Some(IntV(t.id));
    var v4 := PercentApplied(row, v3, isSyncAdapter, now);
    PercentFrame(row, v3, isSyncAdapter, now, ORIGINAL_INSTANCE_ID);
    StatusFrame(row, v4, id, isSyncAdapter, now, ORIGINAL_INSTANCE_ID);
  }
}
