/**
 * The property handler of relation properties: a relation names one related task by row id, by
 * UID or by URI, and a parent, child or sibling relation keeps the PARENT_ID column of the tasks
 * table in step with it.
 */
module RelationHandler {
  import opened Wrappers
  import opened ContentValues
  import Text

  // Columns of a relation property row.
  const RELATED_ID := "data1"
  const RELATED_TYPE := "data2"
  const RELATED_UID := "data3"
  const RELATED_URI := "data4"
  const RELATED_CONTENT_URI := "data5"

  // Relation types.
  const RELTYPE_PARENT := 0
  const RELTYPE_CHILD := 1
  const RELTYPE_SIBLING := 2

  /** A row of the tasks table as this handler sees it. */
  datatype TaskRecord = TaskRecord(id: int, uid: Option<string>, parentId: Option<int>)

  /** How many of the three references are non-null. */
  function References(values: Values): nat
  {
    (if AsLong(Get(values, RELATED_ID)).Some? then 1 else 0) +
    (if AsString(Get(values, RELATED_UID)).Some? then 1 else 0) +
    (if AsString(Get(values, RELATED_URI)).Some? then 1 else 0)
  }

  /**
   * `validateValues`: RELATED_CONTENT_URI may not be written, and exactly one of the three
   * references must be non-null; the other two are then written as explicit nulls.
   */
  function ValidateValues(values: Values): (r: Result<Values>)
    ensures r.Success? <==> RELATED_CONTENT_URI !in values && References(values) == 1
    ensures RELATED_CONTENT_URI in values ==> r == Failure("setting of RELATED_CONTENT_URI not allowed")
    ensures r.Success? ==> References(r.value) == 1 && RELATED_CONTENT_URI !in r.value
    ensures r.Success? && AsLong(Get(values, RELATED_ID)).Some? ==>
      Get(r.value, RELATED_ID) == Get(values, RELATED_ID) && RELATED_UID in r.value && r.value[RELATED_UID] == None && RELATED_URI in r.value && r.value[RELATED_URI] == None
    ensures r.Success? && AsString(Get(values, RELATED_UID)).Some? ==>
      Get(r.value, RELATED_UID) == Get(values, RELATED_UID) && RELATED_ID in r.value && r.value[RELATED_ID] == None && RELATED_URI in r.value && r.value[RELATED_URI] == None
    ensures r.Success? && AsString(Get(values, RELATED_URI)).Some? ==>
      Get(r.value, RELATED_URI) == Get(values, RELATED_URI) && RELATED_ID in r.value && r.value[RELATED_ID] == None && RELATED_UID in r.value && r.value[RELATED_UID] == None
    ensures r.Success? ==> forall key :: key != RELATED_ID && key != RELATED_UID && key != RELATED_URI ==>
      (key in r.value <==> key in values) && (key in values ==> r.value[key] == values[key])
  {
    if RELATED_CONTENT_URI in values then Failure("setting of RELATED_CONTENT_URI not allowed")
    else
      var id := AsLong(Get(values, RELATED_ID));
      var uid := AsString(Get(values, RELATED_UID));
      var uri := AsString(Get(values, RELATED_URI));
      if id.None? && uri.None? && uid.Some? then
        Success(values[RELATED_ID := None][RELATED_URI := None])
      else if id.None? && uid.None? && uri.Some? then
        Success(values[RELATED_ID := None][RELATED_UID := None])
      else if id.Some? && uid.None? && uri.None? then
        Success(values[RELATED_URI := None][RELATED_UID := None])
      else Failure("exactly one of RELATED_ID, RELATED_UID and RELATED_URI must be non-null")
  }

  /** The first task row whose `_id` is `id`. */
  function TaskWithId(tasks: seq<TaskRecord>, id: int): (r: Option<TaskRecord>)
    ensures r.Some? ==> r.value in tasks && r.value.id == id
    ensures r.None? ==> forall t :: t in tasks ==> t.id != id
  {
    if |tasks| == 0 then None
    else if tasks[0].id == id then Some(tasks[0])
    else TaskWithId(tasks[1..], id)
  }

  /** The first task row whose `_uid` is `uid`. */
  function TaskWithUid(tasks: seq<TaskRecord>, uid: string): (r: Option<TaskRecord>)
    ensures r.Some? ==> r.value in tasks && r.value.uid == Some(uid)
    ensures r.None? ==> forall t :: t in tasks ==> t.uid != Some(uid)
  {
    if |tasks| == 0 then None
    else if tasks[0].uid == Some(uid) then Some(tasks[0])
    else TaskWithUid(tasks[1..], uid)
  }

  /** `resolveTaskStringField(_ID, id, _UID)`: the UID of the task with that id, null when there is none. */
  function UidOf(tasks: seq<TaskRecord>, id: int): Option<string>
  {
    var t := TaskWithId(tasks, id);
    if t.Some? then t.value.uid else None
  }

  /** `resolveTaskLongField(_UID, uid, _ID)`: the id of the task with that UID, null when there is none. */
  function IdOf(tasks: seq<TaskRecord>, uid: string): Option<int>
  {
    var t := TaskWithUid(tasks, uid);
    if t.Some? then Some(t.value.id) else None
  }

  /** `resolveTaskLongField(_ID, id, PARENT_ID)`: the parent of the task with that id, null when there is none. */
  function ParentOf(tasks: seq<TaskRecord>, id: int): Option<int>
  {
    var t := TaskWithId(tasks, id);
    if t.Some? then t.value.parentId else None
  }

  function StringValue(s: Option<string>): Option<Value>
  {
    if s.Some? then Some(StrV(s.value)) else None
  }

  function LongValue(i: Option<int>): Option<Value>
  {
    if i.Some? then Some(IntV(i.value)) else None
  }

  /**
   * `resolveFields`: a given related id fills in the related UID, otherwise a given related UID
   * fills in the related id, each by looking the task up.
   */
  function ResolveFields(values: Values, tasks: seq<TaskRecord>): (r: Values)
    ensures AsLong(Get(values, RELATED_ID)).Some? ==>
      r == values[RELATED_UID := StringValue(UidOf(tasks, AsLong(Get(values, RELATED_ID)).value))]
    ensures AsLong(Get(values, RELATED_ID)).None? && AsString(Get(values, RELATED_UID)).Some? ==>
      r == values[RELATED_ID := LongValue(IdOf(tasks, AsString(Get(values, RELATED_UID)).value))]
    ensures AsLong(Get(values, RELATED_ID)).None? && AsString(Get(values, RELATED_UID)).None? ==> r == values
  {
    var id := AsLong(Get(values, RELATED_ID));
    var uid := AsString(Get(values, RELATED_UID));
    if id.Some? then values[RELATED_UID := StringValue(UidOf(tasks, id.value))]
    else if uid.Some? then values[RELATED_ID := LongValue(IdOf(tasks, uid.value))]
    else values
  }

  /** The tasks after `UPDATE tasks SET parent_id = parent WHERE _id = id`. */
  function WithParent(tasks: seq<TaskRecord>, id: int, parent: Option<int>): (r: seq<TaskRecord>)
    ensures |r| == |tasks|
    ensures forall k :: 0 <= k < |r| ==> r[k] == if tasks[k].id == id then tasks[k].(parentId := parent) else tasks[k]
  {
    seq(|tasks|, k requires 0 <= k < |tasks| => if tasks[k].id == id then tasks[k].(parentId := parent) else tasks[k])
  }

  /** The tasks table, as far as the relation handler reads and writes it. */
  class TaskTable {
    var tasks: seq<TaskRecord>

    constructor (tasks: seq<TaskRecord>)
      ensures this.tasks == tasks
    {
      this.tasks := tasks;
    }

    /** An update of PARENT_ID on the rows with the given id. */
    method SetParent(id: int, parent: Option<int>)
      modifies this
      ensures tasks == WithParent(old(tasks), id, parent)
    {
      tasks := WithParent(tasks, id, parent);
    }
  }

  /** The relation type `updateParentId` acts on: the written one, else the stored one; none stands for the exception. */
  function RelationType(values: Values, oldValues: Option<Values>): Option<int>
  {
    if RELATED_TYPE in values then AsInteger(values[RELATED_TYPE])
    else if oldValues.Some? then Some(CursorInt(Get(oldValues.value, RELATED_TYPE)))
    else None
  }

  /** What `updateParentId` leaves in the tasks table. */
  function ParentsAfterLink(tasks: seq<TaskRecord>, taskId: int, values: Values, relType: int): seq<TaskRecord>
  {
    var related := AsLong(Get(values, RELATED_ID));
    if relType == RELTYPE_PARENT then
      if RELATED_ID in values then WithParent(tasks, taskId, related) else tasks
    else if relType == RELTYPE_CHILD then
      if related.Some? then WithParent(tasks, related.value, Some(taskId)) else tasks
    else if relType == RELTYPE_SIBLING then
      if related.Some? then WithParent(tasks, taskId, ParentOf(tasks, related.value)) else tasks
    else tasks
  }

  /** What `clearParentId` leaves in the tasks table. */
  function ParentsAfterUnlink(tasks: seq<TaskRecord>, taskId: int, oldValues: Values): seq<TaskRecord>
  {
    var relType := CursorInt(Get(oldValues, RELATED_TYPE));
    if relType == RELTYPE_PARENT then WithParent(tasks, taskId, None)
    else if relType == RELTYPE_CHILD && Get(oldValues, RELATED_ID).Some? then
      WithParent(tasks, CursorLong(Get(oldValues, RELATED_ID)), None)
    else tasks
  }

  /**
   * `updateParentId`: a parent link sets this task's parent, a child link makes this task the
   * related task's parent, a sibling link copies the related task's parent to this task. Without a
   * relation type (a null written type, or an insert that gives none) Java unboxes a null.
   */
  method UpdateParentId(db: TaskTable, taskId: int, values: Values, oldValues: Option<Values>) returns (r: Outcome)
    modifies db
    ensures r.Pass? <==> RelationType(values, oldValues).Some?
    ensures r.Pass? ==> db.tasks == ParentsAfterLink(old(db.tasks), taskId, values, RelationType(values, oldValues).value)
    ensures r.Fail? ==> db.tasks == old(db.tasks)
  {
    var relType: int;
    if RELATED_TYPE in values {
      var given := AsInteger(values[RELATED_TYPE]);
      if given.None? {
        return Fail("NullPointerException");
      }
      relType := given.value;
    } else {
      if oldValues.None? {
        return Fail("NullPointerException");
      }
      relType := CursorInt(Get(oldValues.value, RELATED_TYPE));
    }

    var related := AsLong(Get(values, RELATED_ID));
    if relType == RELTYPE_PARENT {
      if RELATED_ID in values {
        db.SetParent(taskId, related);
      }
    } else if relType == RELTYPE_CHILD {
      if related.Some? {
        db.SetParent(related.value, Some(taskId));
      }
    } else if relType == RELTYPE_SIBLING {
      if related.Some? {
        var otherParent := ParentOf(db.tasks, related.value);
        db.SetParent(taskId, otherParent);
      }
    }
    return Pass;
  }

  /**
   * `clearParentId`: removing a parent link orphans this task, removing a child link orphans
   * the child; removing a sibling link changes nothing.
   */
  method ClearParentId(db: TaskTable, taskId: int, oldValues: Values)
    modifies db
    ensures db.tasks == ParentsAfterUnlink(old(db.tasks), taskId, oldValues)
  {
    var relType := CursorInt(Get(oldValues, RELATED_TYPE));
    if relType == RELTYPE_PARENT {
      db.SetParent(taskId, None);
    } else if relType == RELTYPE_CHILD {
      if Get(oldValues, RELATED_ID).Some? {
        db.SetParent(CursorLong(Get(oldValues, RELATED_ID)), None);
      }
    }
  }

  /** `insert` up to the generic property insert: validation, resolution, parent update; the result is the row to store. */
  method Insert(db: TaskTable, taskId: int, values: Values) returns (r: Result<Values>)
    modifies db
    ensures r.Success? <==> ValidateValues(values).Success? && RelationType(ValidateValues(values).value, None).Some?
    ensures r.Success? ==> r.value == ResolveFields(ValidateValues(values).value, old(db.tasks))
    ensures r.Success? ==>
      db.tasks == ParentsAfterLink(old(db.tasks), taskId, r.value, RelationType(ValidateValues(values).value, None).value)
  {
    var v := ValidateValues(values);
    if v.Failure? {
      return Failure(v.error);
    }
    var resolved := ResolveFields(v.value, db.tasks);
    var o := UpdateParentId(db, taskId, resolved, None);
    if o.Fail? {
      return Failure(o.error);
    }
    return Success(resolved);
  }

  /** `update` up to the generic property update, with the stored relation row. */
  method Update(db: TaskTable, taskId: int, values: Values, oldValues: Values) returns (r: Result<Values>)
    modifies db
    ensures r.Success? <==> ValidateValues(values).Success? && RelationType(ValidateValues(values).value, Some(oldValues)).Some?
    ensures r.Success? ==> r.value == ResolveFields(ValidateValues(values).value, old(db.tasks))
    ensures r.Success? ==>
      db.tasks == ParentsAfterLink(old(db.tasks), taskId, r.value, RelationType(ValidateValues(values).value, Some(oldValues)).value)
  {
    var v := ValidateValues(values);
    if v.Failure? {
      return Failure(v.error);
    }
    var resolved := ResolveFields(v.value, db.tasks);
    var o := UpdateParentId(db, taskId, resolved, Some(oldValues));
    if o.Fail? {
      return Failure(o.error);
    }
    return Success(resolved);
  }

  /** `delete` up to the generic property delete. */
  method Delete(db: TaskTable, taskId: int, oldValues: Values)
    modifies db
    ensures db.tasks == ParentsAfterUnlink(old(db.tasks), taskId, oldValues)
  {
    ClearParentId(db, taskId, oldValues);
  }

  // The parent column as the relation handler leaves it.

  predicate DistinctIds(tasks: seq<TaskRecord>)
  {
    forall j, k :: 0 <= j < k < |tasks| ==> tasks[j].id != tasks[k].id
  }

  predicate DistinctUids(tasks: seq<TaskRecord>)
  {
    forall j, k :: 0 <= j < k < |tasks| && tasks[j].uid.Some? ==> tasks[j].uid != tasks[k].uid
  }

  /** Setting the parent of `id` changes what `ParentOf` reads for `id` and for no other task. */
  lemma {:induction false} ParentOfWithParent(tasks: seq<TaskRecord>, id: int, parent: Option<int>, other: int)
    ensures ParentOf(WithParent(tasks, id, parent), other) ==
      if other == id && TaskWithId(tasks, id).Some? then parent else ParentOf(tasks, other)
    ensures TaskWithId(WithParent(tasks, id, parent), other).Some? <==> TaskWithId(tasks, other).Some?
  {
    if |tasks| > 0 {
      assert WithParent(tasks, id, parent)[1..] == WithParent(tasks[1..], id, parent);
      ParentOfWithParent(tasks[1..], id, parent, other);
    }
  }

  /** A PARENT link makes the related id this task's parent. */
  lemma ParentLink(tasks: seq<TaskRecord>, taskId: int, values: Values)
    requires RELATED_ID in values && TaskWithId(tasks, taskId).Some?
    ensures ParentOf(ParentsAfterLink(tasks, taskId, values, RELTYPE_PARENT), taskId) == AsLong(values[RELATED_ID])
  {
    ParentOfWithParent(tasks, taskId, AsLong(Get(values, RELATED_ID)), taskId);
  }

  /** A CHILD link makes this task the related task's parent and leaves every other task's parent. */
  lemma ChildLink(tasks: seq<TaskRecord>, taskId: int, values: Values, other: int)
    requires AsLong(Get(values, RELATED_ID)).Some?
    ensures var child := AsLong(Get(values, RELATED_ID)).value;
      ParentOf(ParentsAfterLink(tasks, taskId, values, RELTYPE_CHILD), other) ==
        if other == child && TaskWithId(tasks, child).Some? then Some(taskId) else ParentOf(tasks, other)
  {
    ParentOfWithParent(tasks, AsLong(Get(values, RELATED_ID)).value, Some(taskId), other);
  }

  /** A SIBLING link gives this task the related task's parent. */
  lemma SiblingLink(tasks: seq<TaskRecord>, taskId: int, values: Values)
    requires AsLong(Get(values, RELATED_ID)).Some? && TaskWithId(tasks, taskId).Some?
    ensures ParentOf(ParentsAfterLink(tasks, taskId, values, RELTYPE_SIBLING), taskId) ==
      ParentOf(tasks, AsLong(Get(values, RELATED_ID)).value)
  {
    var sibling := AsLong(Get(values, RELATED_ID)).value;
    ParentOfWithParent(tasks, taskId, ParentOf(tasks, sibling), taskId);
  }

  /** Removing a PARENT link orphans this task; removing a CHILD link orphans the child. */
  lemma UnlinkOrphans(tasks: seq<TaskRecord>, taskId: int, oldValues: Values)
    ensures CursorInt(Get(oldValues, RELATED_TYPE)) == RELTYPE_PARENT ==>
      ParentOf(ParentsAfterUnlink(tasks, taskId, oldValues), taskId) == None
    ensures CursorInt(Get(oldValues, RELATED_TYPE)) == RELTYPE_CHILD && AsLong(Get(oldValues, RELATED_ID)).Some? ==>
      ParentOf(ParentsAfterUnlink(tasks, taskId, oldValues), AsLong(Get(oldValues, RELATED_ID)).value) == None
  {
    ParentOfWithParent(tasks, taskId, None, taskId);
    if AsLong(Get(oldValues, RELATED_ID)).Some? {
      var child := AsLong(Get(oldValues, RELATED_ID)).value;
      ParentOfWithParent(tasks, child, None, child);
    }
  }

  /** Setting the same rows' parent twice keeps only the second. */
  lemma WithParentTwice(tasks: seq<TaskRecord>, id: int, p: Option<int>, q: Option<int>)
    ensures WithParent(WithParent(tasks, id, p), id, q) == WithParent(tasks, id, q)
  {
  }

  /** Setting a parent that the rows already hold changes nothing. */
  lemma WithParentUnchanged(tasks: seq<TaskRecord>, id: int, p: Option<int>)
    requires forall k :: 0 <= k < |tasks| && tasks[k].id == id ==> tasks[k].parentId == p
    ensures WithParent(tasks, id, p) == tasks
  {
  }

  /** Deleting a PARENT relation of an orphan task right after adding it restores the tasks table. */
  lemma ParentLinkThenUnlink(tasks: seq<TaskRecord>, taskId: int, values: Values)
    requires RELATED_ID in values && Get(values, RELATED_TYPE) == Some(IntV(RELTYPE_PARENT))
    requires forall k :: 0 <= k < |tasks| && tasks[k].id == taskId ==> tasks[k].parentId == None
    ensures ParentsAfterUnlink(ParentsAfterLink(tasks, taskId, values, RELTYPE_PARENT), taskId, values) == tasks
  {
    WithParentTwice(tasks, taskId, AsLong(Get(values, RELATED_ID)), None);
    WithParentUnchanged(tasks, taskId, None);
  }

  /** Deleting a CHILD relation to an orphan task right after adding it restores the tasks table. */
  lemma ChildLinkThenUnlink(tasks: seq<TaskRecord>, taskId: int, values: Values)
    requires AsLong(Get(values, RELATED_ID)).Some? && Get(values, RELATED_TYPE) == Some(IntV(RELTYPE_CHILD))
    requires forall k :: 0 <= k < |tasks| && tasks[k].id == AsLong(Get(values, RELATED_ID)).value ==> tasks[k].parentId == None
    ensures ParentsAfterUnlink(ParentsAfterLink(tasks, taskId, values, RELTYPE_CHILD), taskId, values) == tasks
  {
    var child := AsLong(Get(values, RELATED_ID)).value;
    WithParentTwice(tasks, child, Some(taskId), None);
    WithParentUnchanged(tasks, child, None);
  }

  /** With unique ids, the id resolved from a UID resolves back to that UID. */
  lemma UidResolvesBack(tasks: seq<TaskRecord>, uid: string)
    requires DistinctIds(tasks) && IdOf(tasks, uid).Some?
    ensures UidOf(tasks, IdOf(tasks, uid).value) == Some(uid)
  {
    var t := TaskWithUid(tasks, uid).value;
    var u := TaskWithId(tasks, t.id).value;
    var j :| 0 <= j < |tasks| && tasks[j] == t;
    var k :| 0 <= k < |tasks| && tasks[k] == u;
    assert j == k;
  }

  /** With unique UIDs, the UID resolved from an id resolves back to that id. */
  lemma IdResolvesBack(tasks: seq<TaskRecord>, id: int)
    requires DistinctUids(tasks) && UidOf(tasks, id).Some?
    ensures IdOf(tasks, UidOf(tasks, id).value) == Some(id)
  {
    var t := TaskWithId(tasks, id).value;
    var u := TaskWithUid(tasks, t.uid.value).value;
    var j :| 0 <= j < |tasks| && tasks[j] == t;
    var k :| 0 <= k < |tasks| && tasks[k] == u;
    assert j == k;
  }
}
