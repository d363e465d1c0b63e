/**
 * The task processor that rejects invalid task writes before they reach the database: fields
 * that are read-only or reserved for sync adapters, values out of range, inconsistent start,
 * due and duration, and an insert without an existing task list.
 */
module TaskValidatorProcessor {
  import opened Wrappers
  import opened ContentValues
  import opened TaskAdapter

  /** Fields nobody may set: row id, list and account columns, the deleted flag and the derived flags. */
  const READ_ONLY: seq<string> := [ID, ACCOUNT_NAME, ACCOUNT_TYPE, LIST_COLOR, DELETED, IS_NEW, IS_CLOSED, HAS_PROPERTIES, HAS_ALARMS]

  /** Fields only a sync adapter may set. */
  const SYNC_ONLY: seq<string> := [UID, DIRTY, CREATED, LAST_MODIFIED]

  /** `DurationFieldAdapter`'s reading, reduced to a signed length in seconds; other values read as null. */
  function DurationOf(v: Option<Value>): Option<int>
  {
    if v.Some? && v.value.IntV? then Some(v.value.i) else None
  }

  /** A range check as `verifyCommon` makes it: only an updated, non-null integer value is checked. */
  ghost predicate InRange(task: TaskAdapter, key: string, lo: int, hi: int)
    reads task
  {
    task.IsUpdated(key) ==> var v := AsInteger(task.ValueOf(key)); v.None? || lo <= v.value <= hi
  }

  /** With a start, at most one of due and duration, a due not before it and a duration not negative; no duration without a start. */
  ghost predicate TimesConsistent(task: TaskAdapter)
    reads task
  {
    var start := AsLong(task.ValueOf(DTSTART));
    var due := AsLong(task.ValueOf(DUE));
    var duration := DurationOf(task.ValueOf(DURATION));
    (start.Some? ==> !(due.Some? && duration.Some?)) &&
    (start.Some? && due.Some? ==> due.value >= start.value) &&
    (start.Some? && duration.Some? ==> duration.value >= 0) &&
    (start.None? ==> duration.None?)
  }

  /** A task with a start or a due has a time zone unless it is all-day. */
  ghost predicate HasZoneIfTimed(task: TaskAdapter)
    reads task
  {
    var timed := AsLong(task.ValueOf(DTSTART)).Some? || AsLong(task.ValueOf(DUE)).Some?;
    timed && !IsTrue(task.ValueOf(IS_ALLDAY)) ==> AsString(task.ValueOf(TZ)).Some?
  }

  /** No read-only field is updated. */
  ghost predicate ReadOnlyUntouched(task: TaskAdapter)
    reads task
  {
    !task.IsUpdated(ID) && !task.IsUpdated(ACCOUNT_NAME) && !task.IsUpdated(ACCOUNT_TYPE) &&
    !task.IsUpdated(LIST_COLOR) && !task.IsUpdated(DELETED) && !task.IsUpdated(IS_NEW) &&
    !task.IsUpdated(IS_CLOSED) && !task.IsUpdated(HAS_PROPERTIES) && !task.IsUpdated(HAS_ALARMS)
  }

  /** No field reserved for sync adapters is updated. */
  ghost predicate SyncOnlyUntouched(task: TaskAdapter)
    reads task
  {
    !task.IsUpdated(UID) && !task.IsUpdated(DIRTY) && !task.IsUpdated(CREATED) && !task.IsUpdated(LAST_MODIFIED)
  }

  lemma ReadOnlyMembers(task: TaskAdapter)
    ensures ReadOnlyUntouched(task) <==> forall k :: k in READ_ONLY ==> !task.IsUpdated(k)
    ensures SyncOnlyUntouched(task) <==> forall k :: k in SYNC_ONLY ==> !task.IsUpdated(k)
  {
  }

  /** Everything `verifyCommon` demands of a task write. */
  ghost predicate Acceptable(task: TaskAdapter, isSyncAdapter: bool)
    reads task
  {
    ReadOnlyUntouched(task) &&
    (!isSyncAdapter ==> SyncOnlyUntouched(task)) &&
    !(task.IsUpdated(ORIGINAL_INSTANCE_SYNC_ID) && task.IsUpdated(ORIGINAL_INSTANCE_ID)) &&
    InRange(task, CLASSIFICATION, 0, 2) &&
    InRange(task, PRIORITY, 0, 9) &&
    InRange(task, PERCENT_COMPLETE, 0, 100) &&
    InRange(task, STATUS, STATUS_NEEDS_ACTION, STATUS_CANCELLED) &&
    TimesConsistent(task) &&
    HasZoneIfTimed(task)
  }

  /** `verifyCommon`: the checks in the source's order, the first failing one giving the error. */
  function VerifyCommon(task: TaskAdapter, isSyncAdapter: bool): (r: Outcome)
    reads task
    ensures r.Pass? <==> Acceptable(task, isSyncAdapter)
    ensures forall k :: k in READ_ONLY && task.IsUpdated(k) ==> r.Fail?
    ensures !isSyncAdapter ==> forall k :: k in SYNC_ONLY && task.IsUpdated(k) ==> r.Fail?
    ensures r.Pass? ==> InRange(task, CLASSIFICATION, 0, 2) && InRange(task, PRIORITY, 0, 9)
    ensures r.Pass? ==> InRange(task, PERCENT_COMPLETE, 0, 100) && InRange(task, STATUS, 0, 3)
    ensures r.Pass? ==> TimesConsistent(task) && HasZoneIfTimed(task)
  {
    ReadOnlyMembers(task);
    var fields := FieldChecks(task, isSyncAdapter);
    if fields.Fail? then fields
    else
      var ranges := RangeChecks(task);
      if ranges.Fail? then ranges else TimeChecks(task)
  }

  /** The checks of single fields: read-only ones, sync-adapter-only ones and the two original-instance fields. */
  function FieldChecks(task: TaskAdapter, isSyncAdapter: bool): (r: Outcome)
    reads task
    ensures r.Pass? <==>
      ReadOnlyUntouched(task) && (!isSyncAdapter ==> SyncOnlyUntouched(task)) &&
      !(task.IsUpdated(ORIGINAL_INSTANCE_SYNC_ID) && task.IsUpdated(ORIGINAL_INSTANCE_ID))
  {
    if task.IsUpdated(ID) then Fail("_ID can not be set manually")
    else if task.IsUpdated(ACCOUNT_NAME) then Fail("ACCOUNT_NAME can not be set on a tasks")
    else if task.IsUpdated(ACCOUNT_TYPE) then Fail("ACCOUNT_TYPE can not be set on a tasks")
    else if task.IsUpdated(LIST_COLOR) then Fail("LIST_COLOR can not be set on a tasks")
    else if task.IsUpdated(DELETED) then Fail("modification of _DELETE is not allowed")
    else if !isSyncAdapter && task.IsUpdated(UID) then Fail("modification of _UID is not allowed")
    else if !isSyncAdapter && task.IsUpdated(DIRTY) then Fail("modification of _DIRTY is not allowed")
    else if !isSyncAdapter && task.IsUpdated(CREATED) then Fail("modification of CREATED is not allowed")
    else if task.IsUpdated(IS_NEW) then Fail("modification of IS_NEW is not allowed")
    else if task.IsUpdated(IS_CLOSED) then Fail("modification of IS_CLOSED is not allowed")
    else if task.IsUpdated(HAS_PROPERTIES) then Fail("modification of HAS_PROPERTIES is not allowed")
    else if task.IsUpdated(HAS_ALARMS) then Fail("modification of HAS_ALARMS is not allowed")
    else if !isSyncAdapter && task.IsUpdated(LAST_MODIFIED) then Fail("modification of MODIFICATION_TIME is not allowed")
    else if task.IsUpdated(ORIGINAL_INSTANCE_SYNC_ID) && task.IsUpdated(ORIGINAL_INSTANCE_ID) then
      Fail("ORIGINAL_INSTANCE_SYNC_ID and ORIGINAL_INSTANCE_ID must not be specified at the same time")
    else Pass
  }

  /** The range checks of CLASSIFICATION, PRIORITY, PERCENT_COMPLETE and STATUS. */
  function RangeChecks(task: TaskAdapter): (r: Outcome)
    reads task
    ensures r.Pass? <==>
      InRange(task, CLASSIFICATION, 0, 2) && InRange(task, PRIORITY, 0, 9) &&
      InRange(task, PERCENT_COMPLETE, 0, 100) && InRange(task, STATUS, STATUS_NEEDS_ACTION, STATUS_CANCELLED)
  {
    if !CheckRange(task, CLASSIFICATION, 0, 2) then Fail("CLASSIFICATION must be an integer between 0 and 2")
    else if !CheckRange(task, PRIORITY, 0, 9) then Fail("PRIORITY must be an integer between 0 and 9")
    else if !CheckRange(task, PERCENT_COMPLETE, 0, 100) then Fail("PERCENT_COMPLETE must be null or an integer between 0 and 100")
    else if !CheckRange(task, STATUS, STATUS_NEEDS_ACTION, STATUS_CANCELLED) then Fail("invalid STATUS")
    else Pass
  }

  /** The checks of start, due, duration and time zone. */
  function TimeChecks(task: TaskAdapter): (r: Outcome)
    reads task
    ensures r.Pass? <==> TimesConsistent(task) && HasZoneIfTimed(task)
  {
    TimeRules(AsLong(task.ValueOf(DTSTART)), AsLong(task.ValueOf(DUE)), DurationOf(task.ValueOf(DURATION)),
      IsTrue(task.ValueOf(IS_ALLDAY)), AsString(task.ValueOf(TZ)).Some?)
  }

  /** The time checks on the values they read: start, due, duration, the all-day flag and whether a zone is given. */
  function TimeRules(start: Option<int>, due: Option<int>, duration: Option<int>, allDay: bool, hasZone: bool): (r: Outcome)
    ensures r.Pass? <==>
      (start.Some? ==> !(due.Some? && duration.Some?)) &&
      (start.Some? && due.Some? ==> due.value >= start.value) &&
      (start.Some? && duration.Some? ==> duration.value >= 0) &&
      (start.None? ==> duration.None?) &&
      ((start.Some? || due.Some?) && !allDay ==> hasZone)
  {
    if start.Some? && due.Some? && duration.Some? then Fail("Only one of DUE or DURATION must be supplied.")
    else if start.Some? && due.Some? && due.value < start.value then Fail("DUE must not be < DTSTART")
    else if start.Some? && due.None? && duration.Some? && duration.value < 0 then Fail("DURATION must not be negative")
    else if start.None? && duration.Some? then Fail("DURATION must not be supplied without DTSTART")
    else if (start.Some? || due.Some?) && !allDay && !hasZone then
      Fail("TIMEZONE must be supplied if one of DTSTART or DUE is not null and not all-day")
    else Pass
  }

  function CheckRange(task: TaskAdapter, key: string, lo: int, hi: int): (ok: bool)
    reads task
    ensures ok <==> InRange(task, key, lo, hi)
  {
    !task.IsUpdated(key) || var v := AsInteger(task.ValueOf(key)); v.None? || lo <= v.value <= hi
  }

  /** The number of rows of the lists table with the given `_id`. */
  function CountRows(listIds: seq<int>, id: int): (n: nat)
    ensures n == 0 <==> id !in listIds
  {
    if |listIds| == 0 then 0 else (if listIds[0] == id then 1 else 0) + CountRows(listIds[1..], id)
  }

  /**
   * `beforeInsert`: the common checks, then LIST_ID must be given and match exactly one row of
   * the lists table, whose row ids are `listIds`.
   */
  function BeforeInsert(task: TaskAdapter, isSyncAdapter: bool, listIds: seq<int>): (r: Outcome)
    reads task
    ensures r.Pass? <==>
      Acceptable(task, isSyncAdapter) && AsLong(task.ValueOf(LIST_ID)).Some? &&
      CountRows(listIds, AsLong(task.ValueOf(LIST_ID)).value) == 1
    ensures r.Pass? ==> AsLong(task.ValueOf(LIST_ID)).value in listIds
  {
    var common := VerifyCommon(task, isSyncAdapter);
    if common.Fail? then common
    else
      var listId := AsLong(task.ValueOf(LIST_ID));
      if listId.None? then Fail("LIST_ID is required on INSERT")
      else if CountRows(listIds, listId.value) != 1 then Fail("LIST_ID must refer to an existing TaskList")
      else Pass
  }

  /** `beforeUpdate`: the common checks, then only a sync adapter may change either original-instance field. */
  function BeforeUpdate(task: TaskAdapter, isSyncAdapter: bool): (r: Outcome)
    reads task
    ensures r.Pass? <==>
      Acceptable(task, isSyncAdapter) &&
      (isSyncAdapter || !(task.IsUpdated(ORIGINAL_INSTANCE_ID) || task.IsUpdated(ORIGINAL_INSTANCE_SYNC_ID)))
  {
    var common := VerifyCommon(task, isSyncAdapter);
    if common.Fail? then common
    else if !isSyncAdapter && (task.IsUpdated(ORIGINAL_INSTANCE_ID) || task.IsUpdated(ORIGINAL_INSTANCE_SYNC_ID)) then
      Fail("ORIGINAL_INSTANCE_SYNC_ID and ORIGINAL_INSTANCE_ID can be modified by sync adapters only")
    else Pass
  }

  /** An insert without a LIST_ID is rejected whatever else it holds. */
  lemma InsertWithoutListRejected(task: TaskAdapter, isSyncAdapter: bool, listIds: seq<int>)
    requires AsLong(task.ValueOf(LIST_ID)).None?
    ensures BeforeInsert(task, isSyncAdapter, listIds).Fail?
  {
  }

  /** Changing the stored value of a read-only field fails both on insert and on update, even for a sync adapter. */
  lemma ReadOnlyRejected(task: TaskAdapter, key: string, listIds: seq<int>)
    requires key in READ_ONLY && task.IsUpdated(key)
    ensures BeforeInsert(task, true, listIds).Fail? && BeforeUpdate(task, true).Fail?
  {
  }

  /** The sync-only fields pass the common checks for a sync adapter when nothing else is wrong. */
  lemma SyncAdapterMaySetSyncFields(task: TaskAdapter)
    requires Acceptable(task, false)
    ensures VerifyCommon(task, true).Pass?
  {
  }
}
