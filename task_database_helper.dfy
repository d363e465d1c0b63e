/**
 * The provider's database helper: the CREATE INDEX statement builder and the schema
 * migration of `onUpgrade`, whose numbered steps run in ascending order for every threshold
 * above the old version. Schema-only steps are recorded as events; the row-level data steps
 * act on the rows of the tasks and lists tables.
 */
module TaskDatabaseHelper {
  import opened Wrappers
  import opened ContentValues
  import opened TaskAdapter
  import Text
  import Instantiating

  /** The schema version this helper creates and upgrades to. */
  const DATABASE_VERSION := 23

  /** The account type local lists carry since version 12, and the one they had before. */
  const LOCAL_ACCOUNT_TYPE := "org.dmfs.account.LOCAL"
  const LEGACY_LOCAL_ACCOUNT_TYPE := "LOCAL"

  const NEED_FIELDS := "IllegalArgumentException: need at least one field to build an index!"

  // ---------------------------------------------------------------------------------------
  // createIndexString

  /** Everything of an index statement before its column list. */
  function IndexHeader(table: string, unique: bool, first: string): string
  {
    "CREATE " + (if unique then " UNIQUE " else "") + "INDEX IF NOT EXISTS " + table + "_" + first + "_idx ON " + table + " ("
  }

  /** The statement for a non-empty field list: named after the first field, listing every field in order. */
  function IndexStatement(table: string, unique: bool, fields: seq<string>): string
    requires |fields| > 0
  {
    IndexHeader(table, unique, fields[0]) + Text.Join(fields, ", ") + ");"
  }

  /** `createIndexString`: throws for a null or empty field list, otherwise builds the statement piece by piece. */
  method CreateIndexString(table: string, unique: bool, fields: Option<seq<string>>) returns (r: Result<string>)
    ensures r.Failure? <==> fields.None? || |fields.value| == 0
    ensures r.Success? ==> r.value == IndexStatement(table, unique, fields.value)
  {
    if fields.None? || |fields.value| < 1 {
      return Failure(NEED_FIELDS);
    }
    var fs := fields.value;
    var buffer := "CREATE ";
    if unique {
      buffer := buffer + " UNIQUE ";
    }
    buffer := buffer + "INDEX IF NOT EXISTS ";
    buffer := buffer + table + "_" + fs[0] + "_idx ON ";
    buffer := buffer + table + " (";
    assert buffer == IndexHeader(table, unique, fs[0]);
    ghost var head := buffer;
    buffer := buffer + fs[0];
    assert fs[..1] == [fs[0]];
    for i := 1 to |fs|
      invariant buffer == head + Text.Join(fs[..i], ", ")
    {
      assert fs[..i + 1] == fs[..i] + [fs[i]];
      Text.JoinSnoc(fs[..i], fs[i], ", ");
      buffer := buffer + ", " + fs[i];
    }
    assert fs[..|fs|] == fs;
    buffer := buffer + ");";
    r := Success(buffer);
  }

  /** A field that can be told apart in a column list: no comma or space, and not empty. */
  predicate PlainField(f: string)
  {
    f != "" && Text.Avoids(f, ", ")
  }

  /** The column list of a statement over plain fields splits back into the fields. */
  lemma IndexColumnsSplit(fields: seq<string>)
    requires |fields| > 0
    requires forall i :: 0 <= i < |fields| ==> PlainField(fields[i])
    ensures Text.JavaSplit(Text.Join(fields, ", "), ", ") == fields
  {
    Text.JavaSplitJoin(fields, ", ");
  }

  /** Equal strings with the same prefix and suffix have equal middles. */
  lemma Cancel(head: string, a: string, b: string, tail: string)
    requires head + a + tail == head + b + tail
    ensures a == b
  {
    assert |a| == |b|;
    assert forall i :: 0 <= i < |a| ==> a[i] == (head + a + tail)[|head| + i] && b[i] == (head + b + tail)[|head| + i];
  }

  /** Two statements over plain fields with the same first field are equal only for equal field lists. */
  lemma IndexStatementInjective(table: string, unique: bool, fields: seq<string>, others: seq<string>)
    requires |fields| > 0 && |others| > 0 && fields[0] == others[0]
    requires forall i :: 0 <= i < |fields| ==> PlainField(fields[i])
    requires forall i :: 0 <= i < |others| ==> PlainField(others[i])
    requires IndexStatement(table, unique, fields) == IndexStatement(table, unique, others)
    ensures fields == others
  {
    Cancel(IndexHeader(table, unique, fields[0]), Text.Join(fields, ", "), Text.Join(others, ", "), ");");
    IndexColumnsSplit(fields);
    IndexColumnsSplit(others);
  }

  /** The UNIQUE marker is there exactly for a unique index. */
  lemma UniqueMarker(table: string, fields: seq<string>)
    requires |fields| > 0
    ensures |IndexStatement(table, true, fields)| == |IndexStatement(table, false, fields)| + 8
    ensures IndexStatement(table, true, fields)[..15] == "CREATE  UNIQUE "
    ensures IndexStatement(table, false, fields)[..13] == "CREATE INDEX "
  {
  }

  // ---------------------------------------------------------------------------------------
  // Row-level SQL

  /** A WHERE condition on one column, compared against a constant. */
  datatype Cond = Is(n: int) | IsNot(n: int) | Above(n: int) | AtMost(n: int) | TextIs(s: string)

  /**
   * SQLite's ordering of a stored value against an integer: numbers numerically (a boolean as
   * 0 or 1), text after every number.
   */
  function Order(v: Value, n: int): int
  {
    match v
    case IntV(i) => if i < n then -1 else if i > n then 1 else 0
    case BoolV(b) => var i := if b then 1 else 0; if i < n then -1 else if i > n then 1 else 0
    case _ => 1
  }

  /** A row matches a WHERE condition on a column; a null column matches nothing. */
  predicate Matches(v: Option<Value>, c: Cond)
  {
    v.Some? &&
    match c
    case Is(n) => Order(v.value, n) == 0
    case IsNot(n) => Order(v.value, n) != 0
    case Above(n) => Order(v.value, n) > 0
    case AtMost(n) => Order(v.value, n) <= 0
    case TextIs(s) => v.value == StrV(s)
  }

  /** `UPDATE table SET column = value WHERE key <cond>`. */
  function UpdateWhere(rows: seq<Values>, column: string, value: Option<Value>, key: string, c: Cond): (r: seq<Values>)
    ensures |r| == |rows|
  {
    seq(|rows|, i requires 0 <= i < |rows| => if Matches(Get(rows[i], key), c) then rows[i][column := value] else rows[i])
  }

  /** `ALTER TABLE ADD COLUMN`: every row gets the column with its default. */
  function AddColumn(rows: seq<Values>, column: string, default: Option<Value>): (r: seq<Values>)
    ensures |r| == |rows|
  {
    seq(|rows|, i requires 0 <= i < |rows| => rows[i][column := default])
  }

  /** Step 2: adds IS_NEW and IS_CLOSED (null) and fills them from STATUS with four updates. */
  function StatusFlagsRows(rows: seq<Values>): seq<Values>
  {
    var added := AddColumn(AddColumn(rows, IS_NEW, None), IS_CLOSED, None);
    var isNew := UpdateWhere(added, IS_NEW, Some(IntV(1)), STATUS, Is(STATUS_NEEDS_ACTION));
    var notNew := UpdateWhere(isNew, IS_NEW, Some(IntV(0)), STATUS, IsNot(STATUS_NEEDS_ACTION));
    var closed := UpdateWhere(notNew, IS_CLOSED, Some(IntV(1)), STATUS, Above(STATUS_IN_PROCESS));
    UpdateWhere(closed, IS_CLOSED, Some(IntV(0)), STATUS, AtMost(STATUS_IN_PROCESS))
  }

  /** Step 8: a priority of 0 becomes null. */
  function PriorityToNullRows(rows: seq<Values>): seq<Values>
  {
    UpdateWhere(rows, PRIORITY, None, PRIORITY, Is(0))
  }

  /** Step 12: lists of the legacy local account type get the new one. */
  function LocalAccountRows(lists: seq<Values>): seq<Values>
  {
    UpdateWhere(lists, ACCOUNT_TYPE, Some(StrV(LOCAL_ACCOUNT_TYPE)), ACCOUNT_TYPE, TextIs(LEGACY_LOCAL_ACCOUNT_TYPE))
  }

  /**
   * Step 2 derives the flags: a row with an integer STATUS gets IS_NEW = 1 iff it needs action
   * and IS_CLOSED = 1 iff its status is past in-process (0 otherwise); a row with a null STATUS
   * keeps both null; no other column changes.
   */
  lemma StatusFlagsDerived(rows: seq<Values>)
    ensures |StatusFlagsRows(rows)| == |rows|
    ensures forall i :: 0 <= i < |rows| && Get(rows[i], STATUS).Some? && Get(rows[i], STATUS).value.IntV? ==>
      var s := Get(rows[i], STATUS).value.i;
      Get(StatusFlagsRows(rows)[i], IS_NEW) == BoolValue(s == STATUS_NEEDS_ACTION) &&
      Get(StatusFlagsRows(rows)[i], IS_CLOSED) == BoolValue(s > STATUS_IN_PROCESS)
    ensures forall i :: 0 <= i < |rows| && Get(rows[i], STATUS).None? ==>
      Get(StatusFlagsRows(rows)[i], IS_NEW) == None && Get(StatusFlagsRows(rows)[i], IS_CLOSED) == None
    ensures forall i, k :: 0 <= i < |rows| && k != IS_NEW && k != IS_CLOSED ==>
      Get(StatusFlagsRows(rows)[i], k) == Get(rows[i], k)
  {
    var added := AddColumn(AddColumn(rows, IS_NEW, None), IS_CLOSED, None);
    var isNew := UpdateWhere(added, IS_NEW, Some(IntV(1)), STATUS, Is(STATUS_NEEDS_ACTION));
    var notNew := UpdateWhere(isNew, IS_NEW, Some(IntV(0)), STATUS, IsNot(STATUS_NEEDS_ACTION));
    var closed := UpdateWhere(notNew, IS_CLOSED, Some(IntV(1)), STATUS, Above(STATUS_IN_PROCESS));
    var last := UpdateWhere(closed, IS_CLOSED, Some(IntV(0)), STATUS, AtMost(STATUS_IN_PROCESS));
    forall i | 0 <= i < |rows|
      ensures Get(last[i], STATUS) == Get(rows[i], STATUS)
      ensures Get(rows[i], STATUS).Some? && Get(rows[i], STATUS).value.IntV? ==>
        var s := Get(rows[i], STATUS).value.i;
        Get(last[i], IS_NEW) == BoolValue(s == STATUS_NEEDS_ACTION) &&
        Get(last[i], IS_CLOSED) == BoolValue(s > STATUS_IN_PROCESS)
      ensures Get(rows[i], STATUS).None? ==> Get(last[i], IS_NEW) == None && Get(last[i], IS_CLOSED) == None
      ensures forall k :: k != IS_NEW && k != IS_CLOSED ==> Get(last[i], k) == Get(rows[i], k)
    {
      assert Get(added[i], STATUS) == Get(rows[i], STATUS);
      assert Get(isNew[i], STATUS) == Get(rows[i], STATUS);
      assert Get(notNew[i], STATUS) == Get(rows[i], STATUS);
      assert Get(closed[i], STATUS) == Get(rows[i], STATUS);
    }
  }

  /** Step 8 leaves no priority 0, nulls exactly the rows that had one, and running it again changes nothing. */
  lemma PriorityToNullFacts(rows: seq<Values>)
    ensures |PriorityToNullRows(rows)| == |rows|
    ensures forall i :: 0 <= i < |rows| ==> !Matches(Get(PriorityToNullRows(rows)[i], PRIORITY), Is(0))
    ensures forall i :: 0 <= i < |rows| && !Matches(Get(rows[i], PRIORITY), Is(0)) ==> PriorityToNullRows(rows)[i] == rows[i]
    ensures forall i :: 0 <= i < |rows| && Matches(Get(rows[i], PRIORITY), Is(0)) ==>
      PriorityToNullRows(rows)[i] == rows[i][PRIORITY := None]
    ensures PriorityToNullRows(PriorityToNullRows(rows)) == PriorityToNullRows(rows)
  {
  }

  /** Step 12 rewrites only the lists of the legacy type, to the new type, and leaves none of the legacy type. */
  lemma LocalAccountFacts(lists: seq<Values>)
    ensures |LocalAccountRows(lists)| == |lists|
    ensures forall i :: 0 <= i < |lists| ==> Get(LocalAccountRows(lists)[i], ACCOUNT_TYPE) != Some(StrV(LEGACY_LOCAL_ACCOUNT_TYPE))
    ensures forall i :: 0 <= i < |lists| && Get(lists[i], ACCOUNT_TYPE) != Some(StrV(LEGACY_LOCAL_ACCOUNT_TYPE)) ==>
      LocalAccountRows(lists)[i] == lists[i]
    ensures forall i :: 0 <= i < |lists| && Get(lists[i], ACCOUNT_TYPE) == Some(StrV(LEGACY_LOCAL_ACCOUNT_TYPE)) ==>
      LocalAccountRows(lists)[i] == lists[i][ACCOUNT_TYPE := Some(StrV(LOCAL_ACCOUNT_TYPE))]
  {
  }

  // ---------------------------------------------------------------------------------------
  // onUpgrade

  /** What an upgrade step does: schema only, or one of the row-level data steps. */
  datatype StepKind = Schema | StatusFlags | PriorityToNull | LocalAccountType | VersionColumn | Reinstantiate

  /** A step guarded by `oldVersion < threshold`. */
  datatype UpgradeStep = UpgradeStep(threshold: int, kind: StepKind)

  /** The steps of `onUpgrade` in the order they appear. */
  const UPGRADE_STEPS: seq<UpgradeStep> := [
    UpgradeStep(2, StatusFlags), UpgradeStep(3, Schema), UpgradeStep(4, Schema), UpgradeStep(6, Schema),
    UpgradeStep(7, Schema), UpgradeStep(8, PriorityToNull), UpgradeStep(9, Schema), UpgradeStep(10, Schema),
    UpgradeStep(11, Schema), UpgradeStep(12, LocalAccountType), UpgradeStep(13, Schema), UpgradeStep(14, Schema),
    UpgradeStep(16, Schema), UpgradeStep(17, Schema), UpgradeStep(18, Schema), UpgradeStep(19, Schema),
    UpgradeStep(22, VersionColumn), UpgradeStep(22, Reinstantiate), UpgradeStep(23, Schema)]

  /** The steps whose guard holds for the old version, in their order. */
  function Selected(steps: seq<UpgradeStep>, oldVersion: int): (r: seq<UpgradeStep>)
    ensures |r| <= |steps|
  {
    if steps == [] then []
    else if oldVersion < steps[0].threshold then [steps[0]] + Selected(steps[1..], oldVersion)
    else Selected(steps[1..], oldVersion)
  }

  function StepsRun(oldVersion: int): seq<UpgradeStep>
  {
    Selected(UPGRADE_STEPS, oldVersion)
  }

  predicate Ascending(steps: seq<UpgradeStep>)
  {
    forall i, j :: 0 <= i < j < |steps| ==> steps[i].threshold <= steps[j].threshold
  }

  lemma {:induction false} SelectedMembers(steps: seq<UpgradeStep>, oldVersion: int)
    ensures forall s :: s in Selected(steps, oldVersion) <==> s in steps && oldVersion < s.threshold
  {
    if steps != [] {
      SelectedMembers(steps[1..], oldVersion);
      assert forall s :: s in steps <==> s == steps[0] || s in steps[1..];
    }
  }

  /** With every threshold above the old version, every step runs. */
  lemma {:induction false} SelectedAll(steps: seq<UpgradeStep>, oldVersion: int)
    requires forall i :: 0 <= i < |steps| ==> oldVersion < steps[i].threshold
    ensures Selected(steps, oldVersion) == steps
  {
    if steps != [] {
      SelectedAll(steps[1..], oldVersion);
    }
  }

  /** With no threshold above the old version, no step runs. */
  lemma {:induction false} SelectedNone(steps: seq<UpgradeStep>, oldVersion: int)
    requires forall i :: 0 <= i < |steps| ==> steps[i].threshold <= oldVersion
    ensures Selected(steps, oldVersion) == []
  {
    if steps != [] {
      SelectedNone(steps[1..], oldVersion);
    }
  }

  /** Over ascending thresholds the selected steps are a tail of the steps. */
  lemma {:induction false} SelectedTail(steps: seq<UpgradeStep>, oldVersion: int)
    requires Ascending(steps)
    ensures Selected(steps, oldVersion) == steps[|steps| - |Selected(steps, oldVersion)|..]
  {
    if steps != [] {
      if oldVersion < steps[0].threshold {
        SelectedAll(steps, oldVersion);
      } else {
        assert Ascending(steps[1..]);
        SelectedTail(steps[1..], oldVersion);
      }
    }
  }

  lemma {:induction false} AdjacentAscending(steps: seq<UpgradeStep>)
    requires forall i :: 0 < i < |steps| ==> steps[i - 1].threshold <= steps[i].threshold
    ensures Ascending(steps)
  {
    if |steps| > 1 {
      var rest := steps[1..];
      assert forall i :: 0 < i < |rest| ==> rest[i - 1] == steps[i] && rest[i] == steps[i + 1];
      AdjacentAscending(rest);
      forall i, j | 0 <= i < j < |steps|
        ensures steps[i].threshold <= steps[j].threshold
      {
        if i > 0 {
          assert steps[i] == rest[i - 1] && steps[j] == rest[j - 1];
        } else if j > 1 {
          assert steps[1] == rest[0] && steps[j] == rest[j - 1];
        }
      }
    }
  }

  /** The thresholds of UPGRADE_STEPS ascend and none exceeds the current version. */
  lemma UpgradeStepsOrdered()
    ensures Ascending(UPGRADE_STEPS)
    ensures forall i :: 0 <= i < |UPGRADE_STEPS| ==> UPGRADE_STEPS[i].threshold <= DATABASE_VERSION
  {
    AdjacentAscending(UPGRADE_STEPS);
  }

  /** Step k runs iff the old version is below k. */
  lemma StepsRunMembers(oldVersion: int)
    ensures forall s :: s in StepsRun(oldVersion) <==> s in UPGRADE_STEPS && oldVersion < s.threshold
  {
    SelectedMembers(UPGRADE_STEPS, oldVersion);
  }

  /** The steps run are a tail of UPGRADE_STEPS, and so come in ascending order of their thresholds. */
  lemma StepsRunTail(oldVersion: int)
    ensures StepsRun(oldVersion) == UPGRADE_STEPS[|UPGRADE_STEPS| - |StepsRun(oldVersion)|..]
    ensures Ascending(StepsRun(oldVersion))
  {
    UpgradeStepsOrdered();
    SelectedTail(UPGRADE_STEPS, oldVersion);
  }

  /** No threshold exceeds the current version, so an upgrade from it runs no step. */
  lemma NoStepsFromCurrent()
    ensures StepsRun(DATABASE_VERSION) == []
  {
    UpgradeStepsOrdered();
    SelectedNone(UPGRADE_STEPS, DATABASE_VERSION);
  }

  /** A step whose threshold is above the old version is among the steps run. */
  lemma {:induction false} SelectedContains(steps: seq<UpgradeStep>, oldVersion: int, k: int)
    requires 0 <= k < |steps| && oldVersion < steps[k].threshold
    ensures steps[k] in Selected(steps, oldVersion)
  {
    if k > 0 {
      SelectedContains(steps[1..], oldVersion, k - 1);
    }
  }

  /** What `onUpgrade` records besides table contents. */
  datatype Event =
    | StepRan(threshold: int)
    | VersionTriggerCreated
    | BeginTransaction
    | TransactionSuccessful
    | EndTransaction
    | FtsUpgraded(oldVersion: int, newVersion: int)
    | ListenerCalled(oldVersion: int, newVersion: int)

  /** The part of the database the upgrade works on. */
  datatype State = State(tasks: seq<Values>, lists: seq<Values>, taskColumns: set<string>, events: seq<Event>, refreshed: seq<int>)

  /** The columns the re-instantiation query reads. */
  const REINSTANTIATION_COLUMNS: set<string> := {ID, ORIGINAL_INSTANCE_ID, DTSTART, DUE, DURATION, IS_CLOSED, TZ,
    IS_ALLDAY, RRULE, RDATE, EXDATE, ORIGINAL_INSTANCE_TIME, ORIGINAL_INSTANCE_ALLDAY}

  /** A cursor row of that query. */
  function Projected(row: Values): Values
  {
    map k | k in row && k in REINSTANTIATION_COLUMNS :: row[k]
  }

  /** The projected row has the task's id and original instance id and no UPDATE_REQUESTED column. */
  lemma ProjectionExcludesRequest(row: Values)
    ensures Instantiating.UPDATE_REQUESTED !in Projected(row)
    ensures RowId(Projected(row)) == RowId(row)
    ensures Get(Projected(row), ORIGINAL_INSTANCE_ID) == Get(row, ORIGINAL_INSTANCE_ID)
  {
    assert |Instantiating.UPDATE_REQUESTED| > 30;
    assert forall k :: k in REINSTANTIATION_COLUMNS ==> |k| < 30;
  }

  /** The row id of a task row. */
  function RowId(row: Values): int
  {
    CursorLong(Get(row, ID))
  }

  /** The tasks the re-instantiation query selects: those with a null ORIGINAL_INSTANCE_ID, in row order. */
  function MasterRows(rows: seq<Values>): seq<Values>
  {
    if rows == [] then []
    else (if Get(rows[0], ORIGINAL_INSTANCE_ID).None? then [rows[0]] else []) + MasterRows(rows[1..])
  }

  /** The query selects exactly the rows without an ORIGINAL_INSTANCE_ID. */
  lemma {:induction false} MasterRowsMembers(rows: seq<Values>)
    ensures forall row :: row in MasterRows(rows) <==> row in rows && Get(row, ORIGINAL_INSTANCE_ID).None?
  {
    if rows != [] {
      MasterRowsMembers(rows[1..]);
      assert rows == [rows[0]] + rows[1..];
    }
  }

  function Ids(rows: seq<Values>): (r: seq<int>)
    ensures |r| == |rows|
    ensures forall k :: 0 <= k < |rows| ==> r[k] == RowId(rows[k])
  {
    if rows == [] then [] else Ids(rows[..|rows| - 1]) + [RowId(rows[|rows| - 1])]
  }

  lemma IdsSnoc(rows: seq<Values>, i: nat)
    requires i < |rows|
    ensures Ids(rows[..i + 1]) == Ids(rows[..i]) + [RowId(rows[i])]
  {
    assert rows[..i + 1][..i] == rows[..i];
  }

  /** The state after one step. */
  function Apply(s: State, step: UpgradeStep): State
  {
    var ran := s.(events := s.events + [StepRan(step.threshold)]);
    match step.kind
    case Schema => ran
    case StatusFlags => ran.(tasks := StatusFlagsRows(s.tasks), taskColumns := s.taskColumns + {IS_NEW, IS_CLOSED})
    case PriorityToNull => ran.(tasks := PriorityToNullRows(s.tasks))
    case LocalAccountType => ran.(lists := LocalAccountRows(s.lists))
    case VersionColumn =>
      if VERSION in s.taskColumns then ran
      else ran.(tasks := AddColumn(s.tasks, VERSION, Some(IntV(0))), taskColumns := s.taskColumns + {VERSION},
                events := ran.events + [VersionTriggerCreated])
    case Reinstantiate =>
      ran.(events := ran.events + [BeginTransaction, TransactionSuccessful, EndTransaction],
           refreshed := s.refreshed + Ids(MasterRows(s.tasks)))
  }

  /** The state after a sequence of steps. */
  function ApplyAll(s: State, steps: seq<UpgradeStep>): State
    decreases |steps|
  {
    if steps == [] then s else ApplyAll(Apply(s, steps[0]), steps[1..])
  }

  /** Step 22 only adds the VERSION column when it is missing, so running it twice is running it once, events aside. */
  lemma VersionColumnIdempotent(s: State)
    ensures var once := Apply(s, UpgradeStep(22, VersionColumn));
      var twice := Apply(once, UpgradeStep(22, VersionColumn));
      twice.tasks == once.tasks && twice.taskColumns == once.taskColumns && VERSION in once.taskColumns &&
      twice.events == once.events + [StepRan(22)]
  {
  }

  /** Facts about the upgraded state that one kind of step establishes and every step keeps. */
  datatype Guarantee = NoZeroPriority | NoLegacyLocalLists | HasVersionColumn

  predicate Holds(g: Guarantee, s: State)
  {
    match g
    case NoZeroPriority => forall i :: 0 <= i < |s.tasks| ==> !Matches(Get(s.tasks[i], PRIORITY), Is(0))
    case NoLegacyLocalLists => forall i :: 0 <= i < |s.lists| ==> Get(s.lists[i], ACCOUNT_TYPE) != Some(StrV(LEGACY_LOCAL_ACCOUNT_TYPE))
    case HasVersionColumn => VERSION in s.taskColumns
  }

  function Establisher(g: Guarantee): StepKind
  {
    match g
    case NoZeroPriority => PriorityToNull
    case NoLegacyLocalLists => LocalAccountType
    case HasVersionColumn => VersionColumn
  }

  lemma StepGuarantees(g: Guarantee, s: State, step: UpgradeStep)
    ensures step.kind == Establisher(g) ==> Holds(g, Apply(s, step))
    ensures Holds(g, s) ==> Holds(g, Apply(s, step))
  {
    match step.kind
    case StatusFlags =>
      StatusFlagsDerived(s.tasks);
    case PriorityToNull =>
      PriorityToNullFacts(s.tasks);
    case LocalAccountType =>
      LocalAccountFacts(s.lists);
    case _ =>
  }

  /** Once a step of the establishing kind has run, the guarantee holds at the end of the upgrade. */
  lemma {:induction false} ApplyAllGuarantees(g: Guarantee, s: State, steps: seq<UpgradeStep>)
    requires Holds(g, s) || exists k :: 0 <= k < |steps| && steps[k].kind == Establisher(g)
    ensures Holds(g, ApplyAll(s, steps))
    decreases |steps|
  {
    if steps != [] {
      StepGuarantees(g, s, steps[0]);
      if !Holds(g, Apply(s, steps[0])) {
        var k :| 0 <= k < |steps| && steps[k].kind == Establisher(g);
        assert k != 0;
        assert steps[1..][k - 1].kind == Establisher(g);
      }
      ApplyAllGuarantees(g, Apply(s, steps[0]), steps[1..]);
    }
  }

  /** An upgrade from below 8 leaves no task of priority 0. */
  lemma UpgradeNullsZeroPriority(s: State, oldVersion: int)
    requires oldVersion < 8
    ensures Holds(NoZeroPriority, ApplyAll(s, StepsRun(oldVersion)))
  {
    assert UPGRADE_STEPS[5] == UpgradeStep(8, PriorityToNull);
    SelectedContains(UPGRADE_STEPS, oldVersion, 5);
    var run := StepsRun(oldVersion);
    var k :| 0 <= k < |run| && run[k] == UpgradeStep(8, PriorityToNull);
    ApplyAllGuarantees(NoZeroPriority, s, run);
  }

  /** An upgrade from below 12 leaves no list of the legacy local account type. */
  lemma UpgradeRenamesLocalLists(s: State, oldVersion: int)
    requires oldVersion < 12
    ensures Holds(NoLegacyLocalLists, ApplyAll(s, StepsRun(oldVersion)))
  {
    assert UPGRADE_STEPS[9] == UpgradeStep(12, LocalAccountType);
    SelectedContains(UPGRADE_STEPS, oldVersion, 9);
    var run := StepsRun(oldVersion);
    var k :| 0 <= k < |run| && run[k] == UpgradeStep(12, LocalAccountType);
    ApplyAllGuarantees(NoLegacyLocalLists, s, run);
  }

  /** An upgrade from below 22 leaves the tasks table with a VERSION column. */
  lemma UpgradeAddsVersionColumn(s: State, oldVersion: int)
    requires oldVersion < 22
    ensures Holds(HasVersionColumn, ApplyAll(s, StepsRun(oldVersion)))
  {
    assert UPGRADE_STEPS[16] == UpgradeStep(22, VersionColumn);
    SelectedContains(UPGRADE_STEPS, oldVersion, 16);
    var run := StepsRun(oldVersion);
    var k :| 0 <= k < |run| && run[k] == UpgradeStep(22, VersionColumn);
    ApplyAllGuarantees(HasVersionColumn, s, run);
  }

  /** The events an upgrade adds after its steps: the full-text-search upgrade, then the listener if there is one. */
  function Finish(s: State, oldVersion: int, newVersion: int, hasListener: bool): State
  {
    s.(events := s.events + [FtsUpgraded(oldVersion, newVersion)] + (if hasListener then [ListenerCalled(oldVersion, newVersion)] else []))
  }

  class TaskDatabase {
    var tasks: seq<Values>
    var lists: seq<Values>
    var taskColumns: set<string>
    var events: seq<Event>
    /** The master tasks whose instances were refreshed, oldest first. */
    var refreshed: seq<int>

    constructor (tasks: seq<Values>, lists: seq<Values>, taskColumns: set<string>)
      ensures Snapshot() == State(tasks, lists, taskColumns, [], [])
    {
      this.tasks := tasks;
      this.lists := lists;
      this.taskColumns := taskColumns;
      events := [];
      refreshed := [];
    }

    function Snapshot(): State
      reads this
    {
      State(tasks, lists, taskColumns, events, refreshed)
    }

    /**
     * The second step 22: in one transaction, hands every master task (null
     * ORIGINAL_INSTANCE_ID) to the instantiating processor with an update request, which asks
     * for a refresh of the task's instances.
     */
    method Reinstantiate()
      modifies this
      ensures tasks == old(tasks) && lists == old(lists) && taskColumns == old(taskColumns)
      ensures events == old(events) + [BeginTransaction, TransactionSuccessful, EndTransaction]
      ensures refreshed == old(refreshed) + Ids(MasterRows(tasks))
    {
      events := events + [BeginTransaction];
      var processor := new Instantiating.Instantiating();
      var rows := MasterRows(tasks);
      MasterRowsMembers(tasks);
      var i := 0;
      while i < |rows|
        invariant 0 <= i <= |rows|
        invariant tasks == old(tasks) && lists == old(lists) && taskColumns == old(taskColumns)
        invariant events == old(events) + [BeginTransaction]
        invariant refreshed == old(refreshed) + Ids(rows[..i])
      {
        assert rows[i] in rows;
        var id := RequestRefresh(processor, rows[i]);
        IdsSnoc(rows, i);
        refreshed := refreshed + [id];
        i := i + 1;
      }
      assert rows[..i] == rows;
      events := events + [TransactionSuccessful, EndTransaction];
    }

    /**
     * One pass of the re-instantiation loop: a task adapter over the projected cursor row and a
     * change set holding only the update request, handed to the processor's `update`.
     */
    method RequestRefresh(processor: Instantiating.Instantiating, row: Values) returns (id: int)
      requires Get(row, ORIGINAL_INSTANCE_ID).None?
      modifies processor
      ensures id == RowId(row)
    {
      var projected := Projected(row);
      ProjectionExcludesRequest(row);
      var request := map[Instantiating.UPDATE_REQUESTED := BoolValue(true)];
      var adapter := new TaskAdapter(RowId(projected), Some(projected), request, false);
      assert adapter.IsUpdated(Instantiating.UPDATE_REQUESTED);
      assert IsTrue(adapter.ValueOf(Instantiating.UPDATE_REQUESTED));
      var r := processor.Update(adapter);
      assert adapter.ValueOf(ORIGINAL_INSTANCE_ID) == None;
      assert r.Success? && r.value.RefreshMaster?;
      id := r.value.id;
    }

    /** One upgrade step. */
    method RunStep(step: UpgradeStep)
      modifies this
      ensures Snapshot() == Apply(old(Snapshot()), step)
    {
      events := events + [StepRan(step.threshold)];
      match step.kind {
        case Schema =>
        case StatusFlags =>
          tasks := StatusFlagsRows(tasks);
          taskColumns := taskColumns + {IS_NEW, IS_CLOSED};
        case PriorityToNull =>
          tasks := PriorityToNullRows(tasks);
        case LocalAccountType =>
          lists := LocalAccountRows(lists);
        case VersionColumn =>
          if VERSION !in taskColumns {
            tasks := AddColumn(tasks, VERSION, Some(IntV(0)));
            taskColumns := taskColumns + {VERSION};
            events := events + [VersionTriggerCreated];
          }
        case Reinstantiate =>
          Reinstantiate();
      }
    }

    /** The guarded steps in order: each runs iff the old version is below its threshold. */
    method RunSteps(steps: seq<UpgradeStep>, oldVersion: int)
      modifies this
      ensures Snapshot() == ApplyAll(old(Snapshot()), Selected(steps, oldVersion))
    {
      var i := 0;
      ghost var done: seq<UpgradeStep> := [];
      assert steps[0..] == steps;
      while i < |steps|
        invariant 0 <= i <= |steps|
        invariant Selected(steps, oldVersion) == done + Selected(steps[i..], oldVersion)
        invariant Snapshot() == ApplyAll(old(Snapshot()), done)
      {
        SelectedFrom(steps, i, oldVersion);
        if oldVersion < steps[i].threshold {
          RunStep(steps[i]);
          ApplyAllSnoc(old(Snapshot()), done, steps[i]);
          assert done + ([steps[i]] + Selected(steps[i + 1..], oldVersion)) == (done + [steps[i]]) + Selected(steps[i + 1..], oldVersion);
          done := done + [steps[i]];
        }
        i := i + 1;
      }
      assert steps[i..] == [];
      assert Selected(steps, oldVersion) == done + [];
      assert done + [] == done;
    }

    /**
     * `onUpgrade`: every step whose threshold is above the old version, in the order of
     * UPGRADE_STEPS, then the full-text-search upgrade and the listener.
     */
    method OnUpgrade(oldVersion: int, newVersion: int, hasListener: bool)
      modifies this
      ensures Snapshot() == Finish(ApplyAll(old(Snapshot()), StepsRun(oldVersion)), oldVersion, newVersion, hasListener)
    {
      RunSteps(UPGRADE_STEPS, oldVersion);
      ghost var upgraded := Snapshot();
      events := events + [FtsUpgraded(oldVersion, newVersion)];
      if hasListener {
        events := events + [ListenerCalled(oldVersion, newVersion)];
      }
      assert Snapshot() == Finish(upgraded, oldVersion, newVersion, hasListener);
    }
  }

  lemma SelectedFrom(steps: seq<UpgradeStep>, i: int, oldVersion: int)
    requires 0 <= i < |steps|
    ensures Selected(steps[i..], oldVersion)
         == (if oldVersion < steps[i].threshold then [steps[i]] else []) + Selected(steps[i + 1..], oldVersion)
  {
    assert steps[i..][0] == steps[i] && steps[i..][1..] == steps[i + 1..];
  }

  lemma {:induction false} ApplyAllSnoc(s: State, steps: seq<UpgradeStep>, step: UpgradeStep)
    ensures ApplyAll(s, steps + [step]) == Apply(ApplyAll(s, steps), step)
    decreases |steps|
  {
    if steps == [] {
      assert [] + [step] == [step];
    } else {
      assert (steps + [step])[1..] == steps[1..] + [step];
      ApplyAllSnoc(Apply(s, steps[0]), steps[1..], step);
    }
  }

  /** An upgrade from the current version changes no table and only runs the full-text-search upgrade and the listener. */
  lemma UpgradeFromCurrent(s: State, newVersion: int, hasListener: bool)
    ensures Finish(ApplyAll(s, StepsRun(DATABASE_VERSION)), DATABASE_VERSION, newVersion, hasListener)
         == s.(events := s.events + [FtsUpgraded(DATABASE_VERSION, newVersion)] +
                         (if hasListener then [ListenerCalled(DATABASE_VERSION, newVersion)] else []))
  {
    NoStepsFromCurrent();
  }
}
