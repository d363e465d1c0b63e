/**
 * The provider's content operations: the lookup from URI-matcher codes to operations,
 * their registration, and the decision logic of the notification handlers
 * (which task instances get a start or due broadcast, and when the next alarm is due).
 */
module ContentOperation {
  import opened Wrappers

  /** The operations, in declaration order. */
  datatype Op = UpdateTimezone | PostNotifications | UpdateNotificationAlarm

  const OPERATIONS: seq<Op> := [UpdateTimezone, PostNotifications, UpdateNotificationAlarm]

  const BASE_PATH: string := "content_operation"

  function Ordinal(op: Op): (r: nat)
    ensures r < |OPERATIONS| && OPERATIONS[r] == op
  {
    match op
    case UpdateTimezone => 0
    case PostNotifications => 1
    case UpdateNotificationAlarm => 2
  }

  /** The enum constant's name, which is the last path segment of its URI. */
  function Name(op: Op): string
  {
    match op
    case UpdateTimezone => "UPDATE_TIMEZONE"
    case PostNotifications => "POST_NOTIFICATIONS"
    case UpdateNotificationAlarm => "UPDATE_NOTIFICATION_ALARM"
  }

  /** `ContentOperation.get`: the operation whose code is `id`, or null outside the range. */
  function Get(id: int, firstId: int): (r: Option<Op>)
    ensures r.Some? <==> firstId <= id < firstId + |OPERATIONS|
    ensures r.Some? ==> id == firstId + Ordinal(r.value)
  {
    if id < firstId then None
    else if id - firstId >= |OPERATIONS| then None
    else Some(OPERATIONS[id - firstId])
  }

  /** One `UriMatcher.addURI` call: the path (without leading slash) and the code it matches. */
  datatype Registration = Registration(path: string, code: int)

  /** `ContentOperation.register`: one registration per operation, code = firstId + ordinal. */
  method Register(firstId: int) returns (regs: seq<Registration>)
    ensures |regs| == |OPERATIONS|
    ensures forall i :: 0 <= i < |regs| ==>
      regs[i] == Registration(BASE_PATH + "/" + Name(OPERATIONS[i]), firstId + i)
  {
    regs := [];
    var i := 0;
    while i < |OPERATIONS|
      invariant 0 <= i <= |OPERATIONS| && |regs| == i
      invariant forall k :: 0 <= k < i ==>
        regs[k] == Registration(BASE_PATH + "/" + Name(OPERATIONS[k]), firstId + k)
    {
      var op := OPERATIONS[i];
      regs := regs + [Registration(BASE_PATH + "/" + Name(op), firstId + Ordinal(op))];
      i := i + 1;
    }
  }

  /** `get` inverts `register`: every registered code maps back to its own operation. */
  lemma GetInvertsRegister(firstId: int, regs: seq<Registration>, i: int)
    requires |regs| == |OPERATIONS| && 0 <= i < |regs|
    requires forall k :: 0 <= k < |regs| ==>
      regs[k] == Registration(BASE_PATH + "/" + Name(OPERATIONS[k]), firstId + k)
    ensures Get(regs[i].code, firstId) == Some(OPERATIONS[i])
    ensures forall j :: 0 <= j < |regs| && j != i ==> regs[j].code != regs[i].code
  {
  }

  /** The codes of two different operations never collide, and `get` finds each one. */
  lemma GetOrdinal(op: Op, firstId: int)
    ensures Get(firstId + Ordinal(op), firstId) == Some(op)
  {
  }

  // ------------------------------------------------------------------ notifications

  /** A row of the instance view as the notification handlers see it, times in local milliseconds. */
  datatype Instance = Instance(taskId: int, start: Option<int>, due: Option<int>, closed: bool, deleted: bool)

  datatype BroadcastKind = TaskDue | TaskStarting

  datatype Broadcast = Broadcast(kind: BroadcastKind, taskId: int)

  /** The time in (lastAlarm, now]. */
  predicate InWindow(t: Option<int>, lastAlarm: int, now: int)
  {
    t.Some? && lastAlarm < t.value <= now
  }

  /** The selection of the POST_NOTIFICATIONS query: open, not deleted, due or start in the window. */
  predicate Selected(inst: Instance, lastAlarm: int, now: int)
  {
    (InWindow(inst.due, lastAlarm, now) || InWindow(inst.start, lastAlarm, now))
    && !inst.closed && !inst.deleted
  }

  /** The broadcast sent for one selected instance: due wins over start. */
  function BroadcastFor(inst: Instance, lastAlarm: int, now: int): Option<BroadcastKind>
  {
    if InWindow(inst.due, lastAlarm, now) then Some(TaskDue)
    else if InWindow(inst.start, lastAlarm, now) then Some(TaskStarting)
    else None
  }

  /** The broadcasts of POST_NOTIFICATIONS for the instance rows, in row order. */
  function Broadcasts(rows: seq<Instance>, lastAlarm: int, now: int): seq<Broadcast>
  {
    if |rows| == 0 then []
    else
      var b := if Selected(rows[0], lastAlarm, now) && BroadcastFor(rows[0], lastAlarm, now).Some?
               then [Broadcast(BroadcastFor(rows[0], lastAlarm, now).value, rows[0].taskId)] else [];
      b + Broadcasts(rows[1..], lastAlarm, now)
  }

  /** A due broadcast is sent iff the due time is in the window; a start broadcast iff only the start is. */
  lemma BroadcastForCases(inst: Instance, lastAlarm: int, now: int)
    ensures BroadcastFor(inst, lastAlarm, now) == Some(TaskDue) <==> InWindow(inst.due, lastAlarm, now)
    ensures BroadcastFor(inst, lastAlarm, now) == Some(TaskStarting)
        <==> !InWindow(inst.due, lastAlarm, now) && InWindow(inst.start, lastAlarm, now)
    ensures Selected(inst, lastAlarm, now) ==> BroadcastFor(inst, lastAlarm, now).Some?
  {
  }

  /** Every broadcast names an open, undeleted instance whose due or start fell in the window. */
  lemma {:induction false} BroadcastsSound(rows: seq<Instance>, lastAlarm: int, now: int, b: Broadcast)
    requires b in Broadcasts(rows, lastAlarm, now)
    ensures exists i :: 0 <= i < |rows| && rows[i].taskId == b.taskId && Selected(rows[i], lastAlarm, now) &&
                        BroadcastFor(rows[i], lastAlarm, now) == Some(b.kind)
  {
    if |rows| > 0 {
      var head := if Selected(rows[0], lastAlarm, now) && BroadcastFor(rows[0], lastAlarm, now).Some?
               then [Broadcast(BroadcastFor(rows[0], lastAlarm, now).value, rows[0].taskId)] else [];
      if b in head {
        assert rows[0].taskId == b.taskId;
      } else {
        BroadcastsSound(rows[1..], lastAlarm, now, b);
        var i :| 0 <= i < |rows[1..]| && rows[1..][i].taskId == b.taskId && Selected(rows[1..][i], lastAlarm, now)
          && BroadcastFor(rows[1..][i], lastAlarm, now) == Some(b.kind);
        assert rows[i + 1] == rows[1..][i];
      }
    }
  }

  /** The persisted last-alarm preference and the alarm the provider has planned. */
  class AlarmState {
    /** The stored last-alarm time; absent means "use the current time". */
    var lastAlarm: Option<int>
    /** The most recent alarm planned with the AlarmManager, if any. */
    var planned: Option<int>

    constructor ()
      ensures lastAlarm == None && planned == None
    {
      lastAlarm := None;
      planned := None;
    }

    /** The last-alarm time as read back, defaulting to the current time. */
    function LastAlarmOr(now: int): int
      reads this
    {
      if lastAlarm.Some? then lastAlarm.value else now
    }

    /**
     * POST_NOTIFICATIONS: one broadcast per selected row (due before start), then the
     * last-alarm time becomes `now`, and UPDATE_NOTIFICATION_ALARM runs.
     */
    method PostNotifications(rows: seq<Instance>, now: int) returns (sent: seq<Broadcast>)
      modifies this
      ensures sent == Broadcasts(rows, old(LastAlarmOr(now)), now)
      ensures lastAlarm == Some(now)
      ensures planned == if NextAlarm(rows, now).Some? then NextAlarm(rows, now) else old(planned)
    {
      var last := LastAlarmOr(now);
      sent := [];
      var i := 0;
      while i < |rows|
        invariant 0 <= i <= |rows|
        invariant Broadcasts(rows, last, now) == sent + Broadcasts(rows[i..], last, now)
      {
        assert rows[i..][1..] == rows[i + 1..];
        var inst := rows[i];
        if Selected(inst, last, now) {
          if InWindow(inst.due, last, now) {
            sent := sent + [Broadcast(TaskDue, inst.taskId)];
          } else if InWindow(inst.start, last, now) {
            sent := sent + [Broadcast(TaskStarting, inst.taskId)];
          }
        }
        i := i + 1;
      }
      assert rows[|rows|..] == [];
      lastAlarm := Some(now);
      UpdateNotificationAlarm(rows, now);
    }

    /**
     * UPDATE_NOTIFICATION_ALARM: a clock that went backwards resets the last alarm to `now`;
     * then the earliest start after it and the earliest due after it are looked up, the
     * earlier of the two is planned, and when there is neither, `now` is saved.
     */
    method UpdateNotificationAlarm(rows: seq<Instance>, now: int)
      modifies this
      ensures planned == if NextAlarm(rows, Earlier(old(LastAlarmOr(now)), now)).Some?
                         then NextAlarm(rows, Earlier(old(LastAlarmOr(now)), now)) else old(planned)
      ensures lastAlarm == if NextAlarm(rows, Earlier(old(LastAlarmOr(now)), now)).None? || now < old(LastAlarmOr(now))
                           then Some(now) else old(lastAlarm)
    {
      var last := LastAlarmOr(now);
      if now < last {
        last := now;
        lastAlarm := Some(now);
      }
      var nextStart := FirstAfter(rows, last, true);
      var nextDue := FirstAfter(rows, last, false);
      var nextAlarm := nextStart;
      if nextDue.Some? && (nextAlarm.None? || nextAlarm.value > nextDue.value) {
        nextAlarm := nextDue;
      }
      if nextAlarm.Some? {
        planned := nextAlarm;
      } else {
        lastAlarm := Some(now);
      }
    }
  }

  function Earlier(a: int, b: int): int { if b < a then b else a }

  function TimeOf(inst: Instance, useStart: bool): Option<int>
  {
    if useStart then inst.start else inst.due
  }

  /** An open, undeleted row whose start (or due) time lies strictly after `last`. */
  predicate Candidate(inst: Instance, last: int, useStart: bool)
  {
    TimeOf(inst, useStart).Some? && TimeOf(inst, useStart).value > last && !inst.closed && !inst.deleted
  }

  /** The earliest candidate start (or due) time: the first row of the query sorted by that time. */
  function MinTime(rows: seq<Instance>, last: int, useStart: bool): Option<int>
  {
    if |rows| == 0 then None
    else
      var rest := MinTime(rows[1..], last, useStart);
      if Candidate(rows[0], last, useStart) && (rest.None? || TimeOf(rows[0], useStart).value <= rest.value)
      then TimeOf(rows[0], useStart) else rest
  }

  /** `MinTime` is the least candidate time, and is none exactly when there is no candidate. */
  lemma {:induction false} MinTimeIsLeast(rows: seq<Instance>, last: int, useStart: bool)
    ensures var m := MinTime(rows, last, useStart);
      (m.Some? ==> exists i :: 0 <= i < |rows| && Candidate(rows[i], last, useStart) && TimeOf(rows[i], useStart) == m)
      && (m.Some? ==> forall i :: 0 <= i < |rows| && Candidate(rows[i], last, useStart) ==> m.value <= TimeOf(rows[i], useStart).value)
      && (m.None? <==> forall i :: 0 <= i < |rows| ==> !Candidate(rows[i], last, useStart))
  {
    if |rows| > 0 {
      MinTimeIsLeast(rows[1..], last, useStart);
      var m := MinTime(rows, last, useStart);
      var rest := MinTime(rows[1..], last, useStart);
      forall i | 1 <= i < |rows| ensures rows[i] == rows[1..][i - 1] { }
      if m.Some? && m != rest {
        assert Candidate(rows[0], last, useStart) && TimeOf(rows[0], useStart) == m;
      } else if m.Some? {
        var j :| 0 <= j < |rows[1..]| && Candidate(rows[1..][j], last, useStart) && TimeOf(rows[1..][j], useStart) == m;
        assert rows[j + 1] == rows[1..][j];
      }
    }
  }

  /** Looking up the first start (or due) after `last`, one row at a time. */
  method FirstAfter(rows: seq<Instance>, last: int, useStart: bool) returns (r: Option<int>)
    ensures r == MinTime(rows, last, useStart)
  {
    r := None;
    var i := |rows|;
    while i > 0
      invariant 0 <= i <= |rows|
      invariant r == MinTime(rows[i..], last, useStart)
    {
      i := i - 1;
      assert rows[i..][1..] == rows[i + 1..];
      var t := TimeOf(rows[i], useStart);
      if Candidate(rows[i], last, useStart) && (r.None? || t.value <= r.value) {
        r := t;
      }
    }
  }

  /** The next alarm: the first start after `last`, replaced by the first due when that is earlier. */
  function NextAlarm(rows: seq<Instance>, last: int): Option<int>
  {
    var nextStart := MinTime(rows, last, true);
    var nextDue := MinTime(rows, last, false);
    if nextDue.Some? && (nextStart.None? || nextStart.value > nextDue.value) then nextDue else nextStart
  }

  /** The next alarm is the earliest start or due time after `last`; there is none iff no row has one. */
  lemma NextAlarmIsEarliest(rows: seq<Instance>, last: int)
    ensures var n := NextAlarm(rows, last);
      (n.Some? ==> exists i, s :: 0 <= i < |rows| && Candidate(rows[i], last, s) && TimeOf(rows[i], s) == n)
      && (n.Some? ==> forall i, s :: 0 <= i < |rows| && Candidate(rows[i], last, s) ==> n.value <= TimeOf(rows[i], s).value)
      && (n.None? <==> forall i, s :: 0 <= i < |rows| ==> !Candidate(rows[i], last, s))
  {
    MinTimeIsLeast(rows, last, true);
    MinTimeIsLeast(rows, last, false);
    var n := NextAlarm(rows, last);
    forall i, s | 0 <= i < |rows| && Candidate(rows[i], last, s) && n.Some?
      ensures n.value <= TimeOf(rows[i], s).value
    {
      if s { } else { }
    }
    if n.None? {
      forall i, s | 0 <= i < |rows| ensures !Candidate(rows[i], last, s) {
        if s { } else { }
      }
    }
  }
}
