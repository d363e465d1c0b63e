/**
 * The instance processor that turns writes to instances into writes to tasks: inserting an
 * instance adds an RDATE to its master, updating an instance of a recurring task creates an
 * override, deleting one adds an EXDATE; everything else goes to the task processor it wraps.
 */
module TaskValueDelegate {
  import opened Wrappers
  import opened ContentValues
  import opened TaskAdapter
  import Text

  /** The fields an override must not inherit from its master. */
  const SPECIAL_FIELDS: seq<string> := [
    SYNC1, SYNC2, SYNC3, SYNC4, SYNC5, SYNC6, SYNC7, SYNC8, SYNC_ID, SYNC_VERSION,
    VERSION, ACCOUNT_NAME, ACCOUNT_TYPE, LIST_VISIBLE, LIST_COLOR, LIST_NAME, LIST_ACCESS_LEVEL, LIST_OWNER,
    DELETED, DIRTY, IS_NEW, IS_CLOSED, HAS_PROPERTIES, HAS_ALARMS, ORIGINAL_INSTANCE_SYNC_ID,
    RRULE, RDATE, EXDATE, CREATED, LAST_MODIFIED]

  /** A date list without any occurrence of `dt`, in the original order. */
  function Without(dates: seq<int>, dt: int): (r: seq<int>)
    ensures |r| <= |dates|
  {
    if |dates| == 0 then []
    else if dates[0] == dt then Without(dates[1..], dt)
    else [dates[0]] + Without(dates[1..], dt)
  }

  /** A date list with `dt` moved (or added) to the end. */
  function Appended(dates: seq<int>, dt: int): seq<int>
  {
    Without(dates, dt) + [dt]
  }

  /** `Without` removes `dt` entirely and keeps every other date as often as it was there. */
  lemma {:induction false} WithoutCounts(dates: seq<int>, dt: int)
    ensures dt !in Without(dates, dt)
    ensures multiset(Without(dates, dt))[dt] == 0
    ensures forall x :: x != dt ==> multiset(Without(dates, dt))[x] == multiset(dates)[x]
  {
    if |dates| > 0 {
      WithoutCounts(dates[1..], dt);
      assert dates == [dates[0]] + dates[1..];
    }
  }

  /** `Without` distributes over concatenation. */
  lemma {:induction false} WithoutConcat(a: seq<int>, b: seq<int>, dt: int)
    ensures Without(a + b, dt) == Without(a, dt) + Without(b, dt)
  {
    if |a| > 0 {
      assert (a + b)[1..] == a[1..] + b;
      WithoutConcat(a[1..], b, dt);
    } else {
      assert a + b == b;
    }
  }

  /** A list without `dt` is left alone by `Without`. */
  lemma {:induction false} WithoutAbsent(dates: seq<int>, dt: int)
    requires dt !in dates
    ensures Without(dates, dt) == dates
  {
    if |dates| > 0 {
      WithoutAbsent(dates[1..], dt);
    }
  }

  /** After `Appended`, `dt` is the last date and occurs exactly once; the other dates keep their counts. */
  lemma AppendedFacts(dates: seq<int>, dt: int)
    ensures var r := Appended(dates, dt);
      |r| > 0 && r[|r| - 1] == dt && multiset(r)[dt] == 1 &&
      forall x :: x != dt ==> multiset(r)[x] == multiset(dates)[x]
  {
    WithoutCounts(dates, dt);
  }

  /** Appending the same date twice is appending it once. */
  lemma AppendedIdempotent(dates: seq<int>, dt: int)
    ensures Appended(Appended(dates, dt), dt) == Appended(dates, dt)
  {
    WithoutCounts(dates, dt);
    WithoutConcat(Without(dates, dt), [dt], dt);
    WithoutAbsent(Without(dates, dt), dt);
  }

  /** The lists `appendDate(add, remove, dt)` leaves: first the added-to list, then the removed-from one read afterwards. */
  function AppendDateValues(row: Option<Values>, values: Values, add: string, remove: string, dt: int): Values
  {
    var v1 := values[add := DatesValue(Appended(Dates(FieldValue(row, values, add)), dt))];
    v1[remove := DatesValue(Without(Dates(FieldValue(row, v1, remove)), dt))]
  }

  /**
   * `appendDate` on two different lists: `dt` becomes the last date of one and leaves the other,
   * which keeps everything else in order.
   */
  lemma AppendDateMoves(row: Option<Values>, values: Values, add: string, remove: string, dt: int)
    requires add != remove
    ensures var v := AppendDateValues(row, values, add, remove, dt);
      Dates(FieldValue(row, v, add)) == Appended(Dates(FieldValue(row, values, add)), dt) &&
      Dates(FieldValue(row, v, remove)) == Without(Dates(FieldValue(row, values, remove)), dt) &&
      dt !in Dates(FieldValue(row, v, remove)) &&
      forall key :: key != add && key != remove ==> FieldValue(row, v, key) == FieldValue(row, values, key)
  {
    WithoutCounts(Dates(FieldValue(row, values, remove)), dt);
  }

  /** Taking `dt` out again undoes both `Without` and `Appended`. */
  lemma WithoutAgain(dates: seq<int>, dt: int)
    ensures Without(Without(dates, dt), dt) == Without(dates, dt)
    ensures Without(Appended(dates, dt), dt) == Without(dates, dt)
  {
    WithoutCounts(dates, dt);
    WithoutAbsent(Without(dates, dt), dt);
    WithoutConcat(Without(dates, dt), [dt], dt);
    assert Without([dt], dt) == [];
  }

  /** Moving a date one way and then back gives the lists a single move back gives: the last move wins. */
  lemma AppendDateBack(row: Option<Values>, values: Values, add: string, remove: string, dt: int)
    requires add != remove
    ensures var there := AppendDateValues(row, values, add, remove, dt);
      var back := AppendDateValues(row, there, remove, add, dt);
      var direct := AppendDateValues(row, values, remove, add, dt);
      Dates(FieldValue(row, back, add)) == Dates(FieldValue(row, direct, add)) &&
      Dates(FieldValue(row, back, remove)) == Dates(FieldValue(row, direct, remove))
  {
    var there := AppendDateValues(row, values, add, remove, dt);
    AppendDateMoves(row, values, add, remove, dt);
    AppendDateMoves(row, there, remove, add, dt);
    AppendDateMoves(row, values, remove, add, dt);
    WithoutAgain(Dates(FieldValue(row, values, add)), dt);
    WithoutAgain(Dates(FieldValue(row, values, remove)), dt);
  }

  /** The instance columns the delegate reads: the task's id, the original time, the instance start and due. */
  datatype Instance = Instance(taskId: int, originalTime: Option<int>, start: Option<int>, due: Option<int>)

  /** The calls the delegate makes on the task processor it wraps, and the property copies. */
  datatype TaskCall =
    | InsertTask(values: Values)
    | UpdateTask(id: int, values: Values)
    | DeleteTask(id: int)
    | CopyProperties(fromId: int, toId: int)

  function TimeOrNull(t: Option<int>): Option<Value>
  {
    if t.Some? then TimeValue(t.value) else None
  }

  /** The keys of a list, as a set. */
  function KeySet(keys: seq<string>): set<string>
  {
    set k | k in keys
  }

  /** The special fields as a set. */
  function SpecialSet(): set<string>
  {
    KeySet(SPECIAL_FIELDS)
  }

  /** The fields the override sets after unsetting the special ones are not special. */
  lemma NotSpecial(k: string)
    requires k == DTSTART || k == DUE || k == DURATION || k == ORIGINAL_INSTANCE_ALLDAY ||
      k == ORIGINAL_INSTANCE_ID || k == ORIGINAL_INSTANCE_TIME || k == ID
    ensures k !in SpecialSet()
  {
  }

  /** A copy of the task pointing at its master and instance time. */
  function OverrideBase(row: Option<Values>, values: Values, instance: Instance): Values
  {
    (Effective(row, values) - {ID})[ORIGINAL_INSTANCE_ID := Some(IntV(instance.taskId))]
      [ORIGINAL_INSTANCE_TIME := TimeOrNull(instance.originalTime)]
  }

  /** The instance's start and due, unless the caller changed them, and the all-day flag of the original instance. */
  function OverrideTimes(row: Option<Values>, values: Values, instance: Instance, base: Values): Values
  {
    var v1 := if !Updated(row, values, DTSTART) then base[DTSTART := TimeOrNull(instance.start)] else base;
    var v2 := if !Updated(row, values, DUE) && !Updated(row, values, DURATION)
      then v1[DUE := TimeOrNull(instance.due)][DURATION := None] else v1;
    v2[ORIGINAL_INSTANCE_ALLDAY := FieldValue(row, values, IS_ALLDAY)]
  }

  /**
   * The change set of the override an update of an instance creates: the copy without the special
   * fields, then the times.
   */
  function OverrideValues(row: Option<Values>, values: Values, instance: Instance): Values
  {
    OverrideTimes(row, values, instance, OverrideBase(row, values, instance) - SpecialSet())
  }

  /** The time step sets only the four time fields, as the caller's change set says. */
  lemma OverrideTimesFacts(row: Option<Values>, values: Values, instance: Instance, base: Values, stripped: set<string>)
    requires forall k :: k in stripped ==> k !in base
    requires DTSTART !in stripped && DUE !in stripped && DURATION !in stripped && ORIGINAL_INSTANCE_ALLDAY !in stripped
    ensures var o := OverrideTimes(row, values, instance, base);
      (forall k :: k in stripped ==> k !in o) &&
      (forall k :: k != DTSTART && k != DUE && k != DURATION && k != ORIGINAL_INSTANCE_ALLDAY ==>
        FieldValue(None, o, k) == FieldValue(None, base, k) && (k in o <==> k in base)) &&
      FieldValue(None, o, DTSTART) ==
        (if Updated(row, values, DTSTART) then FieldValue(None, base, DTSTART) else TimeOrNull(instance.start)) &&
      (!Updated(row, values, DUE) && !Updated(row, values, DURATION) ==>
        FieldValue(None, o, DUE) == TimeOrNull(instance.due) && DURATION in o && o[DURATION] == None) &&
      FieldValue(None, o, ORIGINAL_INSTANCE_ALLDAY) == FieldValue(row, values, IS_ALLDAY)
  {
  }

  /** The override refers to its master and the instance time, keeps no special field, and has the instance's times unless given. */
  lemma OverrideFacts(row: Option<Values>, values: Values, instance: Instance)
    ensures var o := OverrideValues(row, values, instance);
      FieldValue(None, o, ORIGINAL_INSTANCE_ID) == Some(IntV(instance.taskId)) &&
      FieldValue(None, o, ORIGINAL_INSTANCE_TIME) == TimeOrNull(instance.originalTime) &&
      (forall k :: k in SpecialSet() ==> k !in o) &&
      ID !in o &&
      FieldValue(None, o, DTSTART) ==
        (if Updated(row, values, DTSTART) then FieldValue(row, values, DTSTART) else TimeOrNull(instance.start)) &&
      (!Updated(row, values, DUE) && !Updated(row, values, DURATION) ==>
        FieldValue(None, o, DUE) == TimeOrNull(instance.due) && DURATION in o && o[DURATION] == None) &&
      FieldValue(None, o, ORIGINAL_INSTANCE_ALLDAY) == FieldValue(row, values, IS_ALLDAY)
  {
    OverrideRefersToMaster(row, values, instance);
    OverrideStripsSpecial(row, values, instance);
    OverrideKeepsTimes(row, values, instance);
  }

  lemma OverrideRefersToMaster(row: Option<Values>, values: Values, instance: Instance)
    ensures var o := OverrideValues(row, values, instance);
      FieldValue(None, o, ORIGINAL_INSTANCE_ID) == Some(IntV(instance.taskId)) &&
      FieldValue(None, o, ORIGINAL_INSTANCE_TIME) == TimeOrNull(instance.originalTime)
  {
    var special := SpecialSet();
    NotSpecial(DTSTART);
    NotSpecial(DUE);
    NotSpecial(DURATION);
    NotSpecial(ORIGINAL_INSTANCE_ALLDAY);
    NotSpecial(ORIGINAL_INSTANCE_ID);
    NotSpecial(ORIGINAL_INSTANCE_TIME);
    var stripped := OverrideBase(row, values, instance) - special;
    OverrideTimesFacts(row, values, instance, stripped, special);
  }

  lemma OverrideStripsSpecial(row: Option<Values>, values: Values, instance: Instance)
    ensures var o := OverrideValues(row, values, instance);
      (forall k :: k in SpecialSet() ==> k !in o) && ID !in o
  {
    var special := SpecialSet();
    NotSpecial(DTSTART);
    NotSpecial(DUE);
    NotSpecial(DURATION);
    NotSpecial(ORIGINAL_INSTANCE_ALLDAY);
    var stripped := OverrideBase(row, values, instance) - special;
    OverrideTimesFacts(row, values, instance, stripped, special);
  }

  lemma OverrideKeepsTimes(row: Option<Values>, values: Values, instance: Instance)
    ensures var o := OverrideValues(row, values, instance);
      FieldValue(None, o, DTSTART) ==
        (if Updated(row, values, DTSTART) then FieldValue(row, values, DTSTART) else TimeOrNull(instance.start)) &&
      (!Updated(row, values, DUE) && !Updated(row, values, DURATION) ==>
        FieldValue(None, o, DUE) == TimeOrNull(instance.due) && DURATION in o && o[DURATION] == None) &&
      FieldValue(None, o, ORIGINAL_INSTANCE_ALLDAY) == FieldValue(row, values, IS_ALLDAY)
  {
    var special := SpecialSet();
    NotSpecial(DTSTART);
    NotSpecial(DUE);
    NotSpecial(DURATION);
    NotSpecial(ORIGINAL_INSTANCE_ALLDAY);
    var stripped := OverrideBase(row, values, instance) - special;
    OverrideTimesFacts(row, values, instance, stripped, special);
    if Updated(row, values, DTSTART) {
      NotSpecial(ID);
      assert FieldValue(None, stripped, DTSTART) == FieldValue(row, values, DTSTART);
    }
  }

  class TaskValueDelegate {
    /** The task processor calls made so far. */
    var calls: seq<TaskCall>

    constructor ()
      ensures calls == []
    {
      calls := [];
    }

    /**
     * `appendDate`: `dt` moves to the end of the `add` list and out of the `remove` list. A date
     * list is stored as null when it ends up empty.
     */
    method AppendDate(task: TaskAdapter, add: string, remove: string, dt: int)
      modifies task
      ensures task.values == AppendDateValues(task.row, old(task.values), add, remove, dt)
      ensures task.id == old(task.id) && task.row == old(task.row) && task.recurring == old(task.recurring)
    {
      task.Set(add, DatesValue(Appended(Dates(task.ValueOf(add)), dt)));
      task.Set(remove, DatesValue(Without(Dates(task.ValueOf(remove)), dt)));
    }

    /**
     * `insert`. An instance with an original-instance id is an override: its master, found by id
     * among `master` (the query result), must exist and not be an override itself; a master that is
     * not recurring yet gets its start (or due) as an RDATE, then the instance time is added as an
     * RDATE and the master is updated. The task row is inserted as `newTaskId` and the instance
     * found for it is `instanceId`.
     */
    method Insert(task: TaskAdapter, master: Option<TaskAdapter>, newTaskId: int, instanceId: int) returns (r: Result<int>)
      requires master.Some? ==> master.value != task
      modifies this, if master.Some? then {master.value} else {}
      ensures AsLong(task.ValueOf(ORIGINAL_INSTANCE_ID)).Some? && master.None? ==> r.Failure?
      ensures AsLong(task.ValueOf(ORIGINAL_INSTANCE_ID)).Some? && master.Some? &&
        AsLong(old(master.value.ValueOf(ORIGINAL_INSTANCE_ID))).Some?
        ==> r == Failure("Can't add an instance to an override instance")
      ensures AsLong(task.ValueOf(ORIGINAL_INSTANCE_ID)).None? ==>
        r == Success(instanceId) && calls == old(calls) + [InsertTask(task.values)]
      ensures r.Success? && AsLong(task.ValueOf(ORIGINAL_INSTANCE_ID)).Some? ==>
        master.Some? && AsLong(old(master.value.ValueOf(ORIGINAL_INSTANCE_ID))).None? &&
        AsLong(task.ValueOf(ORIGINAL_INSTANCE_TIME)).Some? &&
        master.value.values == MasterWithRdates(master.value.row, old(master.value.values), old(master.value.recurring),
          AsLong(task.ValueOf(ORIGINAL_INSTANCE_TIME)).value) &&
        calls == old(calls) + [UpdateTask(master.value.id, master.value.values), InsertTask(task.values),
          CopyProperties(AsLong(task.ValueOf(ORIGINAL_INSTANCE_ID)).value, newTaskId)]
    {
      var masterId := AsLong(task.ValueOf(ORIGINAL_INSTANCE_ID));
      if masterId.Some? {
        var originalTime := AsLong(task.ValueOf(ORIGINAL_INSTANCE_TIME));
        if master.None? {
          return Failure("No task with _ID " + Text.IntToString(masterId.value) + " found");
        }
        var m := master.value;
        if AsLong(m.ValueOf(ORIGINAL_INSTANCE_ID)).Some? {
          return Failure("Can't add an instance to an override instance");
        }
        var masterDate := FirstTime(m.ValueOf(DTSTART), m.ValueOf(DUE));
        if !m.recurring && masterDate.Some? {
          AppendDate(m, RDATE, EXDATE, masterDate.value);
        }
        if originalTime.None? {
          return Failure("NullPointerException");
        }
        AppendDate(m, RDATE, EXDATE, originalTime.value);
        calls := calls + [UpdateTask(m.id, m.values)];
      }
      calls := calls + [InsertTask(task.values)];
      if masterId.Some? {
        calls := calls + [CopyProperties(masterId.value, newTaskId)];
      }
      return Success(instanceId);
    }

    /** The loop over the special field adapters: each one is unset on the override. */
    method UnsetAll(override: TaskAdapter, keys: seq<string>)
      modifies override
      ensures override.values == old(override.values) - KeySet(keys)
      ensures override.id == old(override.id) && override.row == old(override.row) && override.recurring == old(override.recurring)
    {
      for i := 0 to |keys|
        invariant override.id == old(override.id) && override.row == old(override.row) && override.recurring == old(override.recurring)
        invariant override.values == old(override.values) - KeySet(keys[..i])
      {
        override.Unset(keys[i]);
        assert KeySet(keys[..i + 1]) == KeySet(keys[..i]) + {keys[i]} by {
          assert keys[..i + 1] == keys[..i] + [keys[i]];
        }
      }
      assert keys[..|keys|] == keys;
    }

    /**
     * `update`. On an instance of a recurring task it inserts an override, inserted as `newTaskId`,
     * and copies the task's properties to it; any other task is updated as it is.
     */
    method Update(task: TaskAdapter, instance: Instance, newTaskId: int)
      modifies this
      ensures task.recurring ==>
        calls == old(calls) + [InsertTask(OverrideValues(task.row, task.values, instance)), CopyProperties(task.id, newTaskId)]
      ensures !task.recurring ==> calls == old(calls) + [UpdateTask(task.id, task.values)]
    {
      if task.recurring {
        var override := task.Duplicate();
        override.Set(ORIGINAL_INSTANCE_ID, Some(IntV(instance.taskId)));
        override.Set(ORIGINAL_INSTANCE_TIME, TimeOrNull(instance.originalTime));
        assert override.values == OverrideBase(task.row, task.values, instance);
        UnsetAll(override, SPECIAL_FIELDS);
        if !task.IsUpdated(DTSTART) {
          override.Set(DTSTART, TimeOrNull(instance.start));
        }
        if !task.IsUpdated(DUE) && !task.IsUpdated(DURATION) {
          override.Set(DUE, TimeOrNull(instance.due));
          override.Set(DURATION, None);
        }
        override.Set(ORIGINAL_INSTANCE_ALLDAY, task.ValueOf(IS_ALLDAY));
        calls := calls + [InsertTask(override.values), CopyProperties(task.id, newTaskId)];
      } else {
        calls := calls + [UpdateTask(task.id, task.values)];
      }
    }

    /**
     * `delete`. An override is deleted and its instance time becomes an EXDATE of its master (when
     * the master is found); an instance of a recurring task becomes an EXDATE of the task; any other
     * task is deleted.
     */
    method Delete(task: TaskAdapter, instance: Instance, master: Option<TaskAdapter>) returns (r: Outcome)
      requires master.Some? ==> master.value != task
      modifies this, task, if master.Some? then {master.value} else {}
      ensures var isOverride := AsLong(old(task.ValueOf(ORIGINAL_INSTANCE_ID))).Some?;
        (r.Fail? <==> instance.originalTime.None? && (if isOverride then master.Some? else old(task.recurring))) &&
        (isOverride ==> task.values == old(task.values))
      ensures AsLong(old(task.ValueOf(ORIGINAL_INSTANCE_ID))).Some? && r.Pass? ==>
        if master.Some? then
          master.value.values == AppendDateValues(master.value.row, old(master.value.values), EXDATE, RDATE, instance.originalTime.value) &&
          calls == old(calls) + [DeleteTask(task.id), UpdateTask(master.value.id, master.value.values)]
        else calls == old(calls) + [DeleteTask(task.id)]
      ensures AsLong(old(task.ValueOf(ORIGINAL_INSTANCE_ID))).None? && old(task.recurring) && r.Pass? ==>
        task.values == AppendDateValues(task.row, old(task.values), EXDATE, RDATE, instance.originalTime.value) &&
        calls == old(calls) + [UpdateTask(task.id, task.values)]
      ensures AsLong(old(task.ValueOf(ORIGINAL_INSTANCE_ID))).None? && !old(task.recurring) ==>
        r.Pass? && task.values == old(task.values) && calls == old(calls) + [DeleteTask(task.id)]
    {
      if AsLong(task.ValueOf(ORIGINAL_INSTANCE_ID)).Some? {
        calls := calls + [DeleteTask(task.id)];
        if master.Some? {
          var m := master.value;
          if instance.originalTime.None? {
            return Fail("NullPointerException");
          }
          AppendDate(m, EXDATE, RDATE, instance.originalTime.value);
          calls := calls + [UpdateTask(m.id, m.values)];
        }
      } else if task.recurring {
        if instance.originalTime.None? {
          return Fail("NullPointerException");
        }
        AppendDate(task, EXDATE, RDATE, instance.originalTime.value);
        calls := calls + [UpdateTask(task.id, task.values)];
      } else {
        calls := calls + [DeleteTask(task.id)];
      }
      return Pass;
    }
  }

  /** The first present of the master's start and due. */
  function FirstTime(start: Option<Value>, due: Option<Value>): (r: Option<int>)
    ensures AsLong(start).Some? ==> r == AsLong(start)
    ensures AsLong(start).None? ==> r == AsLong(due)
  {
    if AsLong(start).Some? then AsLong(start) else AsLong(due)
  }

  /** The master after an override insert: its own first date as an RDATE if it was not recurring, then the instance time. */
  function MasterWithRdates(row: Option<Values>, values: Values, recurring: bool, originalTime: int): Values
  {
    var first := FirstTime(FieldValue(row, values, DTSTART), FieldValue(row, values, DUE));
    var v := if !recurring && first.Some? then AppendDateValues(row, values, RDATE, EXDATE, first.value) else values;
    AppendDateValues(row, v, RDATE, EXDATE, originalTime)
  }

  /** A master that was not recurring ends with its own first date and then the instance time as its last RDATEs. */
  lemma MasterRdates(row: Option<Values>, values: Values, originalTime: int)
    requires FirstTime(FieldValue(row, values, DTSTART), FieldValue(row, values, DUE)).Some?
    ensures var first := FirstTime(FieldValue(row, values, DTSTART), FieldValue(row, values, DUE)).value;
      var rdates := Dates(FieldValue(row, MasterWithRdates(row, values, false, originalTime), RDATE));
      originalTime in rdates && rdates[|rdates| - 1] == originalTime &&
      (first != originalTime ==> first in rdates)
  {
    var first := FirstTime(FieldValue(row, values, DTSTART), FieldValue(row, values, DUE)).value;
    var v := AppendDateValues(row, values, RDATE, EXDATE, first);
    AppendDateMoves(row, values, RDATE, EXDATE, first);
    AppendDateMoves(row, v, RDATE, EXDATE, originalTime);
    var d := Dates(FieldValue(row, v, RDATE));
    AppendedFacts(Dates(FieldValue(row, values, RDATE)), first);
    WithoutCounts(d, originalTime);
    AppendedFacts(d, originalTime);
    assert first in d;
    assert multiset(Appended(d, originalTime))[first] == multiset(d)[first] ==> first in Appended(d, originalTime);
  }
}
