/**
 * The tasks processor that keeps the instances table in step with the tasks table: which
 * writes to a task refresh its instances, `updatedOnly`, the two original-time comparators of
 * the instance merge, the single-instance update of an override and the distance counter of
 * the master refresh.
 */
module Instantiating {
  import opened Wrappers
  import opened ContentValues
  import opened TaskAdapter
  import Text

  /** The pseudo-column a caller sets to force an instance refresh; it never reaches the tasks table. */
  const UPDATE_REQUESTED := "org.dmfs.tasks.TaskInstanceProcessor.UPDATE_REQUESTED"
  /** How many upcoming (distance >= 0) instances are expanded. */
  const UPCOMING_INSTANCE_COUNT_LIMIT := 1
  /** The hard limit on expected instances of one series. */
  const EXPANSION_LIMIT := 10000

  // Columns of the instances table and view.
  const INSTANCE_ID := "_id"
  const TASK_ID := "task_id"
  const INSTANCE_ORIGINAL_TIME := "instance_original_time"
  const DISTANCE_FROM_CURRENT := "distance_from_current"

  // The messages of the exceptions `updateOverrideInstance` throws.
  const MORE_THAN_ONE_INSTANCE := "more than one instance returned for task instance which was supposed to have exactly one"
  const NO_INSTANCE := "no instance returned for task which was supposed to have exactly one"

  /** A call handed on to the delegate processor. */
  datatype DelegateCall = DelegateInsert(values: Values) | DelegateUpdate(values: Values) | DelegateDelete(id: int)

  /** A write to the instances table. */
  datatype InstanceWrite =
    | InsertInstance(values: Values)
    | UpdateInstance(id: int, values: Values)
    | UpdateByTask(taskId: int, values: Values)
    | DeleteInstance(id: int)

  /** The instance refresh a task write asks for. */
  datatype Refresh = NoRefresh | RefreshMaster(id: int) | RefreshOverride(id: int)

  // ---------------------------------------------------------------------------------------
  // updatedOnly

  /** A key `updatedOnly` drops: null before and after, or non-null on both sides with the same long reading. */
  predicate Unchanged(newValues: Values, oldRow: Values, key: string)
    requires key in newValues
  {
    var was := Get(oldRow, key);
    var now := newValues[key];
    (was.None? && now.None?) || (was.Some? && now.Some? && AsLong(now).Some? && CursorLong(was) == AsLong(now).value)
  }

  /**
   * A key `updatedOnly` throws on: the cursor has no such column, or both sides are non-null
   * and the new value has no long reading (the unboxing of a null `getAsLong`).
   */
  predicate Faulty(newValues: Values, oldRow: Values, key: string)
    requires key in newValues
  {
    key !in oldRow || (oldRow[key].Some? && newValues[key].Some? && AsLong(newValues[key]).None?)
  }

  /** The change set restricted to the keys whose value differs from the cursor row. */
  function Changes(newValues: Values, oldRow: Values): Values
  {
    map key | key in newValues && !Unchanged(newValues, oldRow, key) :: newValues[key]
  }

  /** `updatedOnly`: copies the change set and removes, key by key, those the cursor row already holds. */
  method UpdatedOnly(newValues: Values, oldRow: Values) returns (r: Result<Values>)
    ensures r.Failure? <==> exists key :: key in newValues && Faulty(newValues, oldRow, key)
    ensures r.Success? ==> r.value.Keys <= newValues.Keys
    ensures r.Success? ==> forall key :: key in newValues ==>
      (key in r.value <==> !Unchanged(newValues, oldRow, key)) && (key in r.value ==> r.value[key] == newValues[key])
  {
    var result := newValues;
    var keys := newValues.Keys;
    while keys != {}
      invariant keys <= newValues.Keys
      invariant result.Keys <= newValues.Keys
      invariant forall key :: key in newValues && key !in keys ==> !Faulty(newValues, oldRow, key)
      invariant forall key :: key in result ==> result[key] == newValues[key]
      invariant forall key :: key in newValues ==> (key in result <==> key in keys || !Unchanged(newValues, oldRow, key))
      decreases |keys|
    {
      var key :| key in keys;
      if key !in oldRow {
        return Failure("Missing column " + key + " in Cursor ");
      }
      if oldRow[key].None? && newValues[key].None? {
        result := result - {key};
      } else if oldRow[key].Some? && newValues[key].Some? {
        var now := AsLong(newValues[key]);
        if now.None? {
          return Failure("NullPointerException");
        }
        if CursorLong(oldRow[key]) == now.value {
          result := result - {key};
        }
      }
      keys := keys - {key};
    }
    r := Success(result);
  }

  /** The method's result is the `Changes` map. */
  lemma UpdatedOnlyIsChanges(newValues: Values, oldRow: Values, r: Values)
    requires r.Keys <= newValues.Keys
    requires forall key :: key in newValues ==>
      (key in r <==> !Unchanged(newValues, oldRow, key)) && (key in r ==> r[key] == newValues[key])
    ensures r == Changes(newValues, oldRow)
  {
  }

  /** Two optional column values with the same nullness and the same long reading. */
  predicate SameReading(a: Option<Value>, b: Option<Value>)
  {
    (a.None? <==> b.None?) && CursorLong(a) == CursorLong(b)
  }

  /** Writing only the changes leaves every column reading as if the whole change set had been written. */
  lemma ChangesSuffice(newValues: Values, oldRow: Values)
    requires forall key :: key in newValues ==> !Faulty(newValues, oldRow, key)
    ensures forall key :: key in newValues ==>
      SameReading(Get(oldRow + Changes(newValues, oldRow), key), Get(oldRow + newValues, key))
  {
    forall key | key in newValues
      ensures SameReading(Get(oldRow + Changes(newValues, oldRow), key), Get(oldRow + newValues, key))
    {
      if key !in Changes(newValues, oldRow) {
        assert Unchanged(newValues, oldRow, key);
      }
    }
  }

  /** Once a change set of numbers and nulls is written, `updatedOnly` finds nothing left to write. */
  lemma WrittenRowHasNoChanges(newValues: Values, oldRow: Values)
    requires forall key :: key in newValues ==> newValues[key].None? || AsLong(newValues[key]).Some?
    ensures forall key :: key in newValues ==> !Faulty(newValues, oldRow + newValues, key)
    ensures Changes(newValues, oldRow + newValues) == map[]
  {
    forall key | key in newValues
      ensures Unchanged(newValues, oldRow + newValues, key)
    {
    }
  }

  /** `updatedOnly` is idempotent: the changes of the changes are the changes. */
  lemma ChangesIdempotent(newValues: Values, oldRow: Values)
    ensures Changes(Changes(newValues, oldRow), oldRow) == Changes(newValues, oldRow)
  {
    var c := Changes(newValues, oldRow);
    forall key | key in c
      ensures !Unchanged(c, oldRow, key)
    {
      assert c[key] == newValues[key];
      assert !Unchanged(newValues, oldRow, key);
    }
  }

  // ---------------------------------------------------------------------------------------
  // The original-time comparators

  /** Java's 64-bit two's-complement result of an integer computation. */
  function Wrap64(x: int): (r: int)
    ensures Text.MIN_LONG <= r <= Text.MAX_LONG
    ensures Text.MIN_LONG <= x <= Text.MAX_LONG ==> r == x
  {
    (x - Text.MIN_LONG) % 0x1_0000_0000_0000_0000 + Text.MIN_LONG
  }

  /** `ldiff < 0 ? -1 : (ldiff > 0 ? 1 : 0)`. */
  function Sign(x: int): (s: int)
    ensures s == -1 <==> x < 0
    ensures s == 0 <==> x == 0
    ensures s == 1 <==> x > 0
  {
    if x < 0 then -1 else if x > 0 then 1 else 0
  }

  predicate IsLong(t: Option<int>)
  {
    t.Some? ==> Text.MIN_LONG <= t.value <= Text.MAX_LONG
  }

  /** `a` sorts before `b`: a null before every time, otherwise by time. */
  predicate Precedes(a: Option<int>, b: Option<int>)
  {
    (a.None? && b.Some?) || (a.Some? && b.Some? && a.value < b.value)
  }

  /** The override comparator as written: null first, otherwise the sign of the 64-bit difference. */
  function CompareOriginalTimesAsWritten(left: Option<int>, right: Option<int>): (c: int)
    ensures left.None? ==> c == (if right.None? then 0 else -1)
    ensures left.Some? && right.None? ==> c == 1
    ensures -1 <= c <= 1
  {
    if left.None? then (if right.None? then 0 else -1)
    else if right.None? then 1
    else Sign(Wrap64(left.value - right.value))
  }

  /** The override comparator as intended: null first, two nulls equal, otherwise by time. */
  function CompareOriginalTimes(left: Option<int>, right: Option<int>): (c: int)
    ensures -1 <= c <= 1
    ensures c == 0 <==> left == right
    ensures c == -1 <==> Precedes(left, right)
    ensures c == 1 <==> Precedes(right, left)
  {
    if left.None? then (if right.None? then 0 else -1)
    else if right.None? then 1
    else Sign(left.value - right.value)
  }

  /** The intended comparator is a total order: antisymmetric and transitive. */
  lemma CompareOriginalTimesOrders(a: Option<int>, b: Option<int>, c: Option<int>)
    ensures CompareOriginalTimes(a, b) == -CompareOriginalTimes(b, a)
    ensures CompareOriginalTimes(a, b) <= 0 && CompareOriginalTimes(b, c) <= 0 ==> CompareOriginalTimes(a, c) <= 0
  {
  }

  /** The two agree whenever the difference of the two times fits in a long. */
  lemma AsWrittenAgreesWithoutOverflow(left: Option<int>, right: Option<int>)
    requires left.Some? && right.Some? ==> Text.MIN_LONG <= left.value - right.value <= Text.MAX_LONG
    ensures CompareOriginalTimesAsWritten(left, right) == CompareOriginalTimes(left, right)
  {
  }

  /**
   * Two long times 2^63 apart overflow the subtraction: the comparator as written orders each
   * before the other.
   */
  lemma AsWrittenOverflows()
    ensures IsLong(Some(0x4000_0000_0000_0000)) && IsLong(Some(-0x4000_0000_0000_0000))
    ensures CompareOriginalTimesAsWritten(Some(0x4000_0000_0000_0000), Some(-0x4000_0000_0000_0000)) == -1
    ensures CompareOriginalTimesAsWritten(Some(-0x4000_0000_0000_0000), Some(0x4000_0000_0000_0000)) == -1
    ensures CompareOriginalTimes(Some(0x4000_0000_0000_0000), Some(-0x4000_0000_0000_0000)) == 1
  {
  }

  /** The comparator of an expected instance against an existing row as written: a null time counts as 0. */
  function CompareWithRowAsWritten(time: Option<int>, rowTime: int): (c: int)
    ensures -1 <= c <= 1
  {
    Sign(Wrap64((if time.Some? then time.value else 0) - rowTime))
  }

  /** The same comparator as intended: the sign of the true difference. */
  function CompareWithRow(time: Option<int>, rowTime: int): (c: int)
    ensures c == -1 <==> (if time.Some? then time.value else 0) < rowTime
    ensures c == 0 <==> (if time.Some? then time.value else 0) == rowTime
  {
    Sign((if time.Some? then time.value else 0) - rowTime)
  }

  /** A null time against the most negative long: as written it sorts before, as intended after. */
  lemma RowComparatorOverflows()
    ensures CompareWithRowAsWritten(None, Text.MIN_LONG) == -1
    ensures CompareWithRow(None, Text.MIN_LONG) == 1
  {
  }

  // ---------------------------------------------------------------------------------------
  // The distance counter of the master refresh

  /**
   * One element of the merge of the expected instances (capped at EXPANSION_LIMIT and ordered by
   * original time) with the existing instance rows: a new instance only, an existing row only, or both.
   */
  datatype DiffItem = NewOnly(values: Values) | ExistingOnly(row: Values) | Both(values: Values, row: Values)

  /** `Limited`: at most the first n elements. */
  function Limited<T>(n: nat, s: seq<T>): (r: seq<T>)
    ensures |r| <= n && |r| <= |s|
    ensures r == s[..|r|]
    ensures |s| <= n ==> r == s
  {
    if |s| <= n then s else s[..n]
  }

  /** The row id of an existing instance. */
  function RowId(row: Values): int
  {
    CursorLong(Get(row, INSTANCE_ID))
  }

  /** The original time of the last existing row, none when there is no row. */
  function LastOriginal(existing: seq<Values>): Option<int>
  {
    if existing == [] then None else Some(CursorLong(Get(existing[|existing| - 1], INSTANCE_ORIGINAL_TIME)))
  }

  /**
   * Whether the counter advances for a new instance: always once it is >= 0, otherwise when the
   * instance's own distance is >= 0; none when that own distance is null (the unboxing throws).
   */
  function Advances(distance: int, values: Values): Option<bool>
  {
    if distance >= 0 then Some(true)
    else
      var own := AsLong(Get(values, DISTANCE_FROM_CURRENT));
      if own.None? then None else Some(own.value >= 0)
  }

  /** The outcome of one element: stop, go on with writes and a new counter, or an exception. */
  datatype Step = Stop | Next(writes: seq<InstanceWrite>, distance: int) | Crash

  /** What the loop body does with one element at a given counter. */
  function StepOf(item: DiffItem, distance: int, lastOriginal: Option<int>): Step
  {
    if distance >= UPCOMING_INSTANCE_COUNT_LIMIT - 1 && item.NewOnly? then
      var original := AsLong(Get(item.values, INSTANCE_ORIGINAL_TIME));
      if original.Some? && lastOriginal.Some? && lastOriginal.value < original.value then Stop else Next([], distance)
    else if item.ExistingOnly? || distance >= UPCOMING_INSTANCE_COUNT_LIMIT - 1 then
      Next([DeleteInstance(RowId(item.row))], distance)
    else
      var adv := Advances(distance, item.values);
      if adv.None? then Crash
      else
        var d := if adv.value then distance + 1 else distance;
        if item.NewOnly? then
          Next([InsertInstance(item.values[DISTANCE_FROM_CURRENT := Some(IntV(d))])], d)
        else
          var values := if adv.value then item.values[DISTANCE_FROM_CURRENT := Some(IntV(d))] else item.values;
          if exists key :: key in values && Faulty(values, item.row, key) then Crash
          else
            var updates := Changes(values, item.row);
            Next(if |updates| > 0 then [UpdateInstance(RowId(item.row), updates)] else [], d)
  }

  /** The writes of the whole loop from a given counter, none when it throws. */
  function Run(items: seq<DiffItem>, distance: int, lastOriginal: Option<int>): Option<seq<InstanceWrite>>
    decreases |items|
  {
    if items == [] then Some([])
    else
      match StepOf(items[0], distance, lastOriginal)
      case Stop => Some([])
      case Crash => None
      case Next(ws, d) => Then(ws, Run(items[1..], d, lastOriginal))
  }

  /** Writes followed by the writes of a run that may throw. */
  function Then(ws: seq<InstanceWrite>, rest: Option<seq<InstanceWrite>>): (r: Option<seq<InstanceWrite>>)
    ensures r.Some? <==> rest.Some?
    ensures r.Some? ==> r.value == ws + rest.value
  {
    if rest.None? then None else Some(ws + rest.value)
  }

  lemma ThenNothing(rest: Option<seq<InstanceWrite>>)
    ensures Then([], rest) == rest
  {
    if rest.Some? {
      assert [] + rest.value == rest.value;
    }
  }

  lemma ThenThen(a: seq<InstanceWrite>, b: seq<InstanceWrite>, rest: Option<seq<InstanceWrite>>)
    ensures Then(a, Then(b, rest)) == Then(a + b, rest)
  {
    if rest.Some? {
      assert a + (b + rest.value) == (a + b) + rest.value;
    }
  }

  /** An insert of an upcoming instance: the one at distance 0. */
  predicate Upcoming(w: InstanceWrite)
  {
    w.InsertInstance? && Get(w.values, DISTANCE_FROM_CURRENT) == Some(IntV(0))
  }

  /**
   * The counter never passes UPCOMING_INSTANCE_COUNT_LIMIT - 1: every inserted instance gets
   * distance -1 or 0, once the counter is 0 only deletes follow, and so after the upcoming
   * instance is inserted nothing but deletes follows.
   */
  lemma RunDistances(items: seq<DiffItem>, distance: int, lastOriginal: Option<int>)
    requires -1 <= distance <= UPCOMING_INSTANCE_COUNT_LIMIT - 1
    requires Run(items, distance, lastOriginal).Some?
    ensures var ws := Run(items, distance, lastOriginal).value;
      forall w :: w in ws && w.InsertInstance? ==>
        Get(w.values, DISTANCE_FROM_CURRENT) == Some(IntV(-1)) || Get(w.values, DISTANCE_FROM_CURRENT) == Some(IntV(0))
    ensures distance == 0 ==> forall w :: w in Run(items, distance, lastOriginal).value ==> w.DeleteInstance?
    ensures var ws := Run(items, distance, lastOriginal).value;
      forall i, j :: 0 <= i < j < |ws| && Upcoming(ws[i]) ==> ws[j].DeleteInstance?
  {
    RunInserts(items, distance, lastOriginal);
    if distance == 0 {
      RunAtLimit(items, distance, lastOriginal);
    }
    RunUpcomingLast(items, distance, lastOriginal);
  }

  /** The one step Run takes on a non-empty list that goes on. */
  lemma RunNext(items: seq<DiffItem>, distance: int, lastOriginal: Option<int>)
    requires items != [] && StepOf(items[0], distance, lastOriginal).Next?
    requires Run(items, distance, lastOriginal).Some?
    ensures var step := StepOf(items[0], distance, lastOriginal);
      Run(items[1..], step.distance, lastOriginal).Some? &&
      Run(items, distance, lastOriginal).value == step.writes + Run(items[1..], step.distance, lastOriginal).value
  {
  }

  lemma {:induction false} RunInserts(items: seq<DiffItem>, distance: int, lastOriginal: Option<int>)
    requires -1 <= distance <= UPCOMING_INSTANCE_COUNT_LIMIT - 1
    requires Run(items, distance, lastOriginal).Some?
    ensures var ws := Run(items, distance, lastOriginal).value;
      forall w :: w in ws && w.InsertInstance? ==>
        Get(w.values, DISTANCE_FROM_CURRENT) == Some(IntV(-1)) || Get(w.values, DISTANCE_FROM_CURRENT) == Some(IntV(0))
  {
    if items != [] && StepOf(items[0], distance, lastOriginal).Next? {
      var step := StepOf(items[0], distance, lastOriginal);
      StepDistances(items[0], distance, lastOriginal);
      RunNext(items, distance, lastOriginal);
      RunInserts(items[1..], step.distance, lastOriginal);
    }
  }

  lemma {:induction false} RunAtLimit(items: seq<DiffItem>, distance: int, lastOriginal: Option<int>)
    requires distance == UPCOMING_INSTANCE_COUNT_LIMIT - 1
    requires Run(items, distance, lastOriginal).Some?
    ensures forall w :: w in Run(items, distance, lastOriginal).value ==> w.DeleteInstance?
  {
    if items != [] && StepOf(items[0], distance, lastOriginal).Next? {
      var step := StepOf(items[0], distance, lastOriginal);
      StepDistances(items[0], distance, lastOriginal);
      RunNext(items, distance, lastOriginal);
      RunAtLimit(items[1..], step.distance, lastOriginal);
    }
  }

  /** Nothing but deletes follows an insert of the upcoming instance. */
  predicate DeletesAfterUpcoming(ws: seq<InstanceWrite>)
  {
    forall i, j :: 0 <= i < j < |ws| && Upcoming(ws[i]) ==> ws[j].DeleteInstance?
  }

  lemma {:induction false} RunUpcomingLast(items: seq<DiffItem>, distance: int, lastOriginal: Option<int>)
    requires -1 <= distance <= UPCOMING_INSTANCE_COUNT_LIMIT - 1
    requires Run(items, distance, lastOriginal).Some?
    ensures DeletesAfterUpcoming(Run(items, distance, lastOriginal).value)
  {
    if items != [] && StepOf(items[0], distance, lastOriginal).Next? {
      var step := StepOf(items[0], distance, lastOriginal);
      StepDistances(items[0], distance, lastOriginal);
      RunNext(items, distance, lastOriginal);
      var rest := Run(items[1..], step.distance, lastOriginal).value;
      RunUpcomingLast(items[1..], step.distance, lastOriginal);
      if step.distance == UPCOMING_INSTANCE_COUNT_LIMIT - 1 {
        RunAtLimit(items[1..], step.distance, lastOriginal);
      }
      DeletesAfterConcat(step.writes, rest);
    }
  }

  lemma DeletesAfterConcat(a: seq<InstanceWrite>, b: seq<InstanceWrite>)
    requires |a| <= 1 && DeletesAfterUpcoming(b)
    requires |a| == 1 && Upcoming(a[0]) ==> forall w :: w in b ==> w.DeleteInstance?
    ensures DeletesAfterUpcoming(a + b)
  {
    var ws := a + b;
    forall i, j | 0 <= i < j < |ws| && Upcoming(ws[i])
      ensures ws[j].DeleteInstance?
    {
      if i < |a| {
        assert ws[j] == b[j - |a|];
      } else {
        assert ws[i] == b[i - |a|];
        assert ws[j] == b[j - |a|];
      }
    }
  }

  /**
   * One element moves the counter up by at most one and never past the limit, writes at most one
   * row, inserts with the new counter as distance, and only deletes once the counter is at the limit.
   */
  lemma StepDistances(item: DiffItem, distance: int, lastOriginal: Option<int>)
    requires -1 <= distance <= UPCOMING_INSTANCE_COUNT_LIMIT - 1
    requires StepOf(item, distance, lastOriginal).Next?
    ensures var step := StepOf(item, distance, lastOriginal);
      (step.distance == distance || step.distance == distance + 1) &&
      step.distance <= UPCOMING_INSTANCE_COUNT_LIMIT - 1 && |step.writes| <= 1 &&
      (forall w :: w in step.writes && w.InsertInstance? ==> Get(w.values, DISTANCE_FROM_CURRENT) == Some(IntV(step.distance))) &&
      (distance == UPCOMING_INSTANCE_COUNT_LIMIT - 1 ==> forall w :: w in step.writes ==> w.DeleteInstance?)
  {
  }

  // ---------------------------------------------------------------------------------------
  // The processor

  /** `if (count++ > 1)`: the override's instance loop as written throws only on a third row. */
  predicate CountAcceptedAsWritten(n: nat)
  {
    1 <= n <= 2
  }

  /** An override has exactly one instance. */
  predicate CountAccepted(n: nat)
  {
    n == 1
  }

  /** Two instance rows for one override pass the loop as written though the override must have exactly one. */
  lemma OverrideCountAsWritten()
    ensures CountAcceptedAsWritten(2) && !CountAccepted(2)
  {
  }

  /** The update the override loop makes for each instance row: by task id, without distance and task id. */
  function OverrideWrites(id: int, rows: seq<Values>): (ws: seq<InstanceWrite>)
    ensures |ws| == |rows|
    ensures forall k :: 0 <= k < |rows| ==> ws[k].UpdateByTask? && ws[k].taskId == id
  {
    if rows == [] then []
    else OverrideWrites(id, rows[..|rows| - 1]) + [UpdateByTask(id, rows[|rows| - 1] - {DISTANCE_FROM_CURRENT, TASK_ID})]
  }

  /** The fields whose update changes a task's instances. */
  predicate TimingUpdated(task: TaskAdapter)
    reads task
  {
    task.IsUpdated(DTSTART) || task.IsUpdated(DUE) || task.IsUpdated(DURATION) || task.IsUpdated(STATUS) ||
    task.IsUpdated(RDATE) || task.IsUpdated(RRULE) || task.IsUpdated(EXDATE) || task.IsUpdated(IS_CLOSED)
  }

  class Instantiating {
    /** The calls handed on to the delegate processor, oldest first. */
    var delegated: seq<DelegateCall>
    /** The writes to the instances table, oldest first. */
    var writes: seq<InstanceWrite>

    constructor ()
      ensures delegated == [] && writes == []
    {
      delegated := [];
      writes := [];
    }

    /**
     * `insert`: delegates, then refreshes the override's single instance when the task is an
     * override and the master's instances otherwise.
     */
    method Insert(task: TaskAdapter, newId: int) returns (r: Refresh)
      modifies this
      ensures delegated == old(delegated) + [DelegateInsert(task.values)] && writes == old(writes)
      ensures r.RefreshOverride? <==> AsLong(task.ValueOf(ORIGINAL_INSTANCE_ID)).Some?
      ensures !r.NoRefresh? && r.id == newId
    {
      delegated := delegated + [DelegateInsert(task.values)];
      if AsLong(task.ValueOf(ORIGINAL_INSTANCE_ID)).Some? {
        r := RefreshOverride(newId);
      } else {
        r := RefreshMaster(newId);
      }
    }

    /**
     * `update`: reads and removes UPDATE_REQUESTED, delegates, then refreshes nothing unless a
     * timing field was updated or a refresh was requested.
     */
    method Update(task: TaskAdapter) returns (r: Result<Refresh>)
      modifies this, task
      ensures task.id == old(task.id) && task.row == old(task.row) && task.recurring == old(task.recurring)
      ensures r.Failure? <==> old(task.IsUpdated(UPDATE_REQUESTED)) && old(task.ValueOf(UPDATE_REQUESTED)).None?
      ensures r.Failure? ==> task.values == old(task.values) && delegated == old(delegated)
      ensures r.Success? ==> task.values == old(task.values) - {UPDATE_REQUESTED}
      ensures r.Success? ==> delegated == old(delegated) + [DelegateUpdate(task.values)]
      ensures writes == old(writes)
      ensures r.Success? ==>
        (r.value.NoRefresh? <==>
          !TimingUpdated(task) && !(old(task.IsUpdated(UPDATE_REQUESTED)) && IsTrue(old(task.ValueOf(UPDATE_REQUESTED)))))
      ensures r.Success? && !r.value.NoRefresh? ==>
        r.value.id == task.id && (r.value.RefreshMaster? <==> AsLong(task.ValueOf(ORIGINAL_INSTANCE_ID)).None?)
    {
      var requested := false;
      if task.IsUpdated(UPDATE_REQUESTED) {
        var v := task.ValueOf(UPDATE_REQUESTED);
        if v.None? {
          return Failure("NullPointerException");
        }
        requested := IsTrue(v);
      }
      task.Unset(UPDATE_REQUESTED);
      delegated := delegated + [DelegateUpdate(task.values)];
      if !TimingUpdated(task) && !requested {
        return Success(NoRefresh);
      }
      if AsLong(task.ValueOf(ORIGINAL_INSTANCE_ID)).None? {
        r := Success(RefreshMaster(task.id));
      } else {
        r := Success(RefreshOverride(task.id));
      }
    }

    /** `delete`: delegates; a database trigger removes the instances. */
    method Delete(id: int)
      modifies this
      ensures delegated == old(delegated) + [DelegateDelete(id)] && writes == old(writes)
    {
      delegated := delegated + [DelegateDelete(id)];
    }

    /**
     * The instance loop of `updateOverrideInstance`: each row is written by task id without its
     * distance and task id, and the loop throws once `maxRows` rows have passed and another
     * comes, and after zero rows.
     */
    method WriteOverrideRows(id: int, rows: seq<Values>, maxRows: nat) returns (r: Outcome)
      modifies this
      ensures delegated == old(delegated)
      ensures r.Pass? <==> 1 <= |rows| <= maxRows
      ensures writes == old(writes) + OverrideWrites(id, rows[..if |rows| < maxRows then |rows| else maxRows])
    {
      var count := 0;
      var i := 0;
      ghost var passed := if |rows| < maxRows then |rows| else maxRows;
      while i < |rows|
        invariant 0 <= i <= passed && count == i
        invariant writes == old(writes) + OverrideWrites(id, rows[..i])
        invariant delegated == old(delegated)
      {
        if count > maxRows - 1 {
          return Fail(MORE_THAN_ONE_INSTANCE);
        }
        count := count + 1;
        writes := writes + [UpdateByTask(id, rows[i] - {DISTANCE_FROM_CURRENT, TASK_ID})];
        assert rows[..i + 1] == rows[..i] + [rows[i]];
        i := i + 1;
      }
      assert i == |rows| == passed;
      if count == 0 {
        return Fail(NO_INSTANCE);
      }
      r := Pass;
    }

    /**
     * `updateOverrideInstance` as written (`count++ > 1`). Without an IS_CLOSED update the
     * override's instance rows go through the loop, which lets up to two rows pass; with one,
     * the master, when it exists, is to be refreshed. A null ORIGINAL_INSTANCE_ID throws.
     */
    method UpdateOverrideInstanceAsWritten(task: TaskAdapter, id: int, rows: seq<Values>, masterFound: bool)
      returns (r: Result<Option<int>>)
      modifies this
      ensures delegated == old(delegated)
      ensures var origId := AsLong(task.ValueOf(ORIGINAL_INSTANCE_ID));
        if origId.None? then r.Failure? && writes == old(writes)
        else if task.IsUpdated(IS_CLOSED) then
          writes == old(writes) && r == Success(if masterFound then Some(origId.value) else None)
        else
          (r.Success? <==> CountAcceptedAsWritten(|rows|)) && (r.Success? ==> r.value == None) &&
          writes == old(writes) + OverrideWrites(id, rows[..if |rows| < 2 then |rows| else 2])
    {
      var origId := AsLong(task.ValueOf(ORIGINAL_INSTANCE_ID));
      if origId.None? {
        return Failure("NullPointerException");
      }
      if !task.IsUpdated(IS_CLOSED) {
        var outcome := WriteOverrideRows(id, rows, 2);
        r := if outcome.Pass? then Success(None) else Failure(outcome.error);
      } else if masterFound {
        r := Success(Some(origId.value));
      } else {
        r := Success(None);
      }
    }

    /** `updateOverrideInstance` as intended (`count++ > 0`): exactly one instance row passes the loop. */
    method UpdateOverrideInstance(task: TaskAdapter, id: int, rows: seq<Values>, masterFound: bool)
      returns (r: Result<Option<int>>)
      modifies this
      ensures delegated == old(delegated)
      ensures var origId := AsLong(task.ValueOf(ORIGINAL_INSTANCE_ID));
        if origId.None? then r.Failure? && writes == old(writes)
        else if task.IsUpdated(IS_CLOSED) then
          writes == old(writes) && r == Success(if masterFound then Some(origId.value) else None)
        else
          (r.Success? <==> CountAccepted(|rows|)) && (r.Success? ==> r.value == None) &&
          writes == old(writes) + OverrideWrites(id, rows[..if |rows| < 1 then 0 else 1])
    {
      var origId := AsLong(task.ValueOf(ORIGINAL_INSTANCE_ID));
      if origId.None? {
        return Failure("NullPointerException");
      }
      if !task.IsUpdated(IS_CLOSED) {
        var outcome := WriteOverrideRows(id, rows, 1);
        r := if outcome.Pass? then Success(None) else Failure(outcome.error);
      } else if masterFound {
        r := Success(Some(origId.value));
      } else {
        r := Success(None);
      }
    }

    /**
     * The body of the `updateMasterInstances` loop for one element: Success(None) for the
     * `break`, Success(Some(d)) to go on with counter d, Failure for an exception.
     */
    method ApplyItem(item: DiffItem, distance: int, lastOriginal: Option<int>) returns (r: Result<Option<int>>)
      modifies this
      ensures delegated == old(delegated)
      ensures var step := StepOf(item, distance, lastOriginal);
        (r.Failure? <==> step.Crash?) && (r == Success(None) <==> step.Stop?) &&
        (step.Next? ==> r == Success(Some(step.distance)) && writes == old(writes) + step.writes) &&
        (!step.Next? ==> writes == old(writes))
    {
      if distance >= UPCOMING_INSTANCE_COUNT_LIMIT - 1 && item.NewOnly? {
        var original := AsLong(Get(item.values, INSTANCE_ORIGINAL_TIME));
        if original.Some? && lastOriginal.Some? && lastOriginal.value < original.value {
          return Success(None);
        }
        return Success(Some(distance));
      }
      if item.ExistingOnly? || distance >= UPCOMING_INSTANCE_COUNT_LIMIT - 1 {
        writes := writes + [DeleteInstance(RowId(item.row))];
        return Success(Some(distance));
      }
      var adv := Advances(distance, item.values);
      if adv.None? {
        return Failure("NullPointerException");
      }
      var d := distance;
      if adv.value {
        d := d + 1;
      }
      if item.NewOnly? {
        writes := writes + [InsertInstance(item.values[DISTANCE_FROM_CURRENT := Some(IntV(d))])];
        return Success(Some(d));
      }
      var values := item.values;
      if adv.value {
        values := values[DISTANCE_FROM_CURRENT := Some(IntV(d))];
      }
      var updates := UpdatedOnly(values, item.row);
      if updates.Failure? {
        return Failure(updates.error);
      }
      UpdatedOnlyIsChanges(values, item.row, updates.value);
      if |updates.value| > 0 {
        writes := writes + [UpdateInstance(RowId(item.row), updates.value)];
      }
      r := Success(Some(d));
    }

    /**
     * The loop of `updateMasterInstances`: walks the merge of expected instances and existing
     * rows with a distance counter starting at -1, inserting, updating and deleting instance rows.
     */
    method UpdateMasterInstances(items: seq<DiffItem>, existing: seq<Values>) returns (r: Outcome)
      modifies this
      ensures delegated == old(delegated)
      ensures r.Pass? <==> Run(items, -1, LastOriginal(existing)).Some?
      ensures r.Pass? ==> writes == old(writes) + Run(items, -1, LastOriginal(existing)).value
    {
      var lastOriginal := LastOriginal(existing);
      var distance := -1;
      var i := 0;
      assert items[0..] == items;
      assert writes[|old(writes)|..] == [];
      ThenNothing(Run(items, -1, lastOriginal));
      while i < |items|
        invariant 0 <= i <= |items|
        invariant |old(writes)| <= |writes| && writes[..|old(writes)|] == old(writes)
        invariant Run(items, -1, lastOriginal) == Then(writes[|old(writes)|..], Run(items[i..], distance, lastOriginal))
        invariant delegated == old(delegated)
      {
        ghost var done := writes[|old(writes)|..];
        assert items[i..][0] == items[i] && items[i..][1..] == items[i + 1..];
        ghost var step := StepOf(items[i], distance, lastOriginal);
        var next := ApplyItem(items[i], distance, lastOriginal);
        if next.Failure? {
          return Fail(next.error);
        }
        if next.value.None? {
          assert writes == old(writes) + done;
          return Pass;
        }
        assert writes[|old(writes)|..] == done + step.writes;
        ThenThen(done, step.writes, Run(items[i + 1..], step.distance, lastOriginal));
        distance := next.value.value;
        i := i + 1;
      }
      assert writes == old(writes) + writes[|old(writes)|..];
      r := Pass;
    }
  }
}
