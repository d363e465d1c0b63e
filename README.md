# OpenTasks core rules, modelled in Dafny

OpenTasks is an Android task manager made of two parts. One is a content provider that stores task lists, tasks, their instances and their properties in SQLite. The other is the app, which edits tasks through an in-memory data model. This project models the rules both sides apply to task data, and proves properties of them. It models the code in the way the code itself is written:

- **Provider.** This covers:
  - the schema migration of `TaskDatabaseHelper.onUpgrade`, with its row-level data fixes, and the `CREATE INDEX` builder;
  - the query flags, selection builders, validators and MIME types of `TaskProvider`;
  - the processors that validate and derive task fields (`TaskValidatorProcessor`, `AutoUpdateProcessor`);
  - the parent-id bookkeeping of `RelationHandler`;
  - the instance-to-task mapping of `TaskValueDelegate`, and the instance refresh rules of `Instantiating`;
  - the operation lookup and alarm decisions of `ContentOperation`;
  - the full-text-search tokeniser `NGramGenerator`.
- **App.** This covers:
  - the `ContentSet` edit buffer;
  - the field adapters for descriptions, checklists and time zones;
  - the time-zone picker's labels and ordering;
  - the most-recently-used task lists and the pinned-task preference string;
  - the undo-notification records;
  - the child query of an expandable group and the rows of the "by due date" grouping;
  - the tab configuration, the list-visibility settings and the quick-add list selection;
  - the text colour chosen for a field background.

Each Java file of the core is one Dafny module with the file's name. Four shared modules hold the common pieces:

- `Wrappers`: `Option` for Java's `null`, and `Result` for a thrown exception, whose message is the failure value.
- `ContentValues`: Android's column-to-value maps, where a present key may hold an explicit null, and their typed readings `getAsInteger`, `getAsLong` and `getAsString`.
- `Lists`: the `java.util.List` calls `remove(Object)` and `indexOf`, and the absence of duplicates.
- `Text`: the behaviour of the Java string calls the code uses, namely literal `String.split`, joining, `trim`, `indexOf`, and `Long` parsing and printing.

Objects whose fields the source updates in place are classes, with `modifies` clauses on their methods. Examples are `ContentSet`, `RecentlyUsedLists`, `TabConfig`, the tokeniser with its reused buffer, the database during an upgrade, and the adapters' selection state. Each such method is specified against a function of the old state. Pure rules and codecs are functions, with lemmas for:

- their round trips, e.g. parsing a serialised checklist, reading back a parcel, or reading back the pinned-task string;
- their bounds and invariants, i.e. what a step leaves unchanged.

Booleans stored in a row are the integers 1 and 0, and times are milliseconds since the epoch. Where Java's 32- or 64-bit arithmetic matters, the wrap-around is written out: `Number.intValue`, `long` subtraction in the comparators, and the `int` bit sets of the range types.

Where the code and its written description disagree, the model follows the code:

- `onUpgrade` has no step that clears the time zone of all-day tasks when moving from version 19 to 20. Its guarded steps are at the thresholds 2, 3, 4, 6 to 14, 16 to 19, 22 (twice) and 23.
- The rule "an all-day task has no time zone" is enforced on the client, in `TimezoneFieldAdapter.set`, and checked on the provider by `TaskValidatorProcessor`. No migration enforces it.
- `StringFieldAdapter`, the parent of `DescriptionStringFieldAdapter`, is not part of this model. Its `get` and `set` are taken to read a field as a string and to put a string into it.

## Model

| member | source | states |
|---|---|---|
| Lists.RemoveFirst | opentasks/src/main/java/org/dmfs/tasks/utils/TasksListCursorAdapter.java:149 | `ArrayList.remove(Object)`, as used here and at RecentlyUsedLists.java line 139: removing an absent element changes nothing, and removing a present one shortens the list by one |
| Lists.RemoveFirstCount | opentasks/src/main/java/org/dmfs/tasks/utils/RecentlyUsedLists.java:139 | removal takes exactly one occurrence of the element out of the multiset, and nothing when it is absent |
| Lists.RemoveFirstSubset | opentasks/src/main/java/org/dmfs/tasks/utils/RecentlyUsedLists.java:139 | removal keeps only old elements |
| Lists.RemoveFirstDistinct | opentasks/src/main/java/org/dmfs/tasks/utils/TasksListCursorAdapter.java:149 | on a duplicate-free list, removal keeps it duplicate-free and takes out exactly that element, as both the spinner selection and the recently used lists rely on |
| Lists.IndexOf | opentasks/src/main/java/org/dmfs/tasks/groupings/cursorloaders/TimeRangeCursorFactory.java:238 | `List.indexOf`, as used here and at TimeZoneChoicesAdapter.java line 165: the index is -1 exactly when the element is absent, and otherwise the first position holding it |
| TaskProvider.QueryParameter | opentasks-provider/src/main/java/org/dmfs/provider/tasks/TaskProvider.java:252 | present iff some query parameter has the key; the value is that of the first such parameter |
| TaskProvider.FlagsMeaning | opentasks-provider/src/main/java/org/dmfs/provider/tasks/TaskProvider.java:250-269 | the sync-adapter and load-properties flags are true iff the parameter is present and its first value is not exactly "false" |
| TaskProvider.UndoubleDouble | opentasks-provider/src/main/java/org/dmfs/provider/tasks/TaskProvider.java:356 | reading back a body with every quote doubled gives the original text |
| TaskProvider.UnquoteEscape | opentasks-provider/src/main/java/org/dmfs/provider/tasks/TaskProvider.java:356 | an escaped account value reads back as exactly that value, so a quote cannot end the literal early |
| TaskProvider.AndAppend | opentasks-provider/src/main/java/org/dmfs/provider/tasks/TaskProvider.java:349-352 | a clause appended to an empty buffer stands alone; otherwise it follows " AND " |
| TaskProvider.AccountSelectionNone | opentasks-provider/src/main/java/org/dmfs/provider/tasks/TaskProvider.java:344 | nothing is appended when neither account parameter is given |
| TaskProvider.AccountSelectionPrefix | opentasks-provider/src/main/java/org/dmfs/provider/tasks/TaskProvider.java:339-372 | the account selection only appends to the buffer |
| TaskProvider.AccountSelectionBoth | opentasks-provider/src/main/java/org/dmfs/provider/tasks/TaskProvider.java:347-369 | on an empty buffer the name clause comes first, then " AND ", then the type clause |
| TaskProvider.AccountSelectionNameOnly | opentasks-provider/src/main/java/org/dmfs/provider/tasks/TaskProvider.java:347-357 | on a non-empty buffer a lone name clause follows " AND " |
| TaskProvider.SelectionBuilder.constructor | opentasks-provider/src/main/java/org/dmfs/provider/tasks/TaskProvider.java:420 | the builder starts with the given text |
| TaskProvider.SelectionBuilder.SelectAccount | opentasks-provider/src/main/java/org/dmfs/provider/tasks/TaskProvider.java:339-372 | the buffer gains the escaped account name and type clauses of the URI's parameters |
| TaskProvider.SelectionBuilder.SelectId | opentasks-provider/src/main/java/org/dmfs/provider/tasks/TaskProvider.java:405-415 | the buffer gains "key=id", after " AND " iff it was non-empty |
| TaskProvider.SelectionBuilder.UpdateSelection | opentasks-provider/src/main/java/org/dmfs/provider/tasks/TaskProvider.java:513-527 | a null selection leaves the buffer alone; otherwise the selection is appended in parentheses, after " AND " iff the buffer was non-empty; the whole text is returned |
| TaskProvider.ValidateCategoryValues | opentasks-provider/src/main/java/org/dmfs/provider/tasks/TaskProvider.java:1275-1292 | a written _id is always rejected, and an update touching the account name or type is rejected |
| TaskProvider.CategoryInsertRequiresNothing | opentasks-provider/src/main/java/org/dmfs/provider/tasks/TaskProvider.java:1283-1291 | as written, an insert without account name and type passes |
| TaskProvider.CategoryInsertOnlyChecksId | opentasks-provider/src/main/java/org/dmfs/provider/tasks/TaskProvider.java:1283-1291 | as written, an insert passes iff it does not write _id |
| TaskProvider.CategoryIntendedMeaning | opentasks-provider/src/main/java/org/dmfs/provider/tasks/TaskProvider.java:1275-1292 | the intended check passes iff no _id is written and the account is given on insert or left untouched on update; on update it agrees with the code as written |
| TaskProvider.ValidateAlarmValues | opentasks-provider/src/main/java/org/dmfs/provider/tasks/TaskProvider.java:1304-1310 | passes iff ALARM_ID is not written |
| TaskProvider.GetTypeCases | opentasks-provider/src/main/java/org/dmfs/provider/tasks/TaskProvider.java:1313-1333 | a MIME type exists only for lists, tasks and instances; collections get the dir type and single rows the item type |
| TaskProvider.OnDatabaseUpdate | opentasks-provider/src/main/java/org/dmfs/provider/tasks/TaskProvider.java:1377-1383 | the timezone refresh is fired, once, iff the old version is below 15 |
| TaskDatabaseHelper.CreateIndexString | opentasks-provider/src/main/java/org/dmfs/provider/tasks/TaskDatabaseHelper.java:552-579 | fails exactly for a null or empty field list; otherwise the statement named table_first_idx, with the UNIQUE marker when asked, listing every field in order |
| TaskDatabaseHelper.IndexColumnsSplit | opentasks-provider/src/main/java/org/dmfs/provider/tasks/TaskDatabaseHelper.java:570-574 | the column list of plain fields splits back into exactly those fields |
| TaskDatabaseHelper.IndexStatementInjective | opentasks-provider/src/main/java/org/dmfs/provider/tasks/TaskDatabaseHelper.java:552-579 | two statements over plain fields with the same first field are equal only for equal field lists |
| TaskDatabaseHelper.UniqueMarker | opentasks-provider/src/main/java/org/dmfs/provider/tasks/TaskDatabaseHelper.java:562-567 | a unique statement is the plain one with " UNIQUE " after "CREATE " |
| TaskDatabaseHelper.StatusFlagsDerived | opentasks-provider/src/main/java/org/dmfs/provider/tasks/TaskDatabaseHelper.java:700-713 | after step 2 a task with an integer status has IS_NEW = 1 iff it needs action and IS_CLOSED = 1 iff its status is past in-process (0 otherwise); a null status leaves both null; no other column changes |
| TaskDatabaseHelper.PriorityToNullFacts | opentasks-provider/src/main/java/org/dmfs/provider/tasks/TaskDatabaseHelper.java:772-776 | after step 8 no task has priority 0, exactly the rows that had it get a null priority, other rows are unchanged, and the step is idempotent |
| TaskDatabaseHelper.LocalAccountFacts | opentasks-provider/src/main/java/org/dmfs/provider/tasks/TaskDatabaseHelper.java:798-804 | after step 12 no list has the legacy LOCAL account type; exactly those lists get the new local type, others are unchanged |
| TaskDatabaseHelper.SelectedMembers | opentasks-provider/src/main/java/org/dmfs/provider/tasks/TaskDatabaseHelper.java:697-884 | a step runs iff it is one of the steps and the old version is below its threshold |
| TaskDatabaseHelper.SelectedAll | opentasks-provider/src/main/java/org/dmfs/provider/tasks/TaskDatabaseHelper.java:697-884 | with every threshold above the old version, every step runs |
| TaskDatabaseHelper.SelectedNone | opentasks-provider/src/main/java/org/dmfs/provider/tasks/TaskDatabaseHelper.java:697-884 | with no threshold above the old version, no step runs |
| TaskDatabaseHelper.SelectedTail | opentasks-provider/src/main/java/org/dmfs/provider/tasks/TaskDatabaseHelper.java:697-884 | over ascending thresholds the steps run are a tail of the steps |
| TaskDatabaseHelper.SelectedContains | opentasks-provider/src/main/java/org/dmfs/provider/tasks/TaskDatabaseHelper.java:697-884 | a step whose threshold is above the old version is run |
| TaskDatabaseHelper.UpgradeStepsOrdered | opentasks-provider/src/main/java/org/dmfs/provider/tasks/TaskDatabaseHelper.java:74 | the upgrade thresholds ascend and none exceeds the database version 23 |
| TaskDatabaseHelper.StepsRunMembers | opentasks-provider/src/main/java/org/dmfs/provider/tasks/TaskDatabaseHelper.java:697-884 | step k runs iff the old version is below k |
| TaskDatabaseHelper.StepsRunTail | opentasks-provider/src/main/java/org/dmfs/provider/tasks/TaskDatabaseHelper.java:697-884 | the steps run are a tail of the upgrade sequence, in ascending order of threshold |
| TaskDatabaseHelper.NoStepsFromCurrent | opentasks-provider/src/main/java/org/dmfs/provider/tasks/TaskDatabaseHelper.java:74 | an upgrade from the current version runs no step |
| TaskDatabaseHelper.ProjectionExcludesRequest | opentasks-provider/src/main/java/org/dmfs/provider/tasks/TaskDatabaseHelper.java:857-862 | the projected cursor row keeps the task id and original instance id and has no update-request column |
| TaskDatabaseHelper.MasterRowsMembers | opentasks-provider/src/main/java/org/dmfs/provider/tasks/TaskDatabaseHelper.java:861 | the re-instantiation query selects exactly the tasks with a null ORIGINAL_INSTANCE_ID |
| TaskDatabaseHelper.VersionColumnIdempotent | opentasks-provider/src/main/java/org/dmfs/provider/tasks/TaskDatabaseHelper.java:839-848 | step 22 adds the VERSION column only when missing, so a second run changes no table |
| TaskDatabaseHelper.StepGuarantees | opentasks-provider/src/main/java/org/dmfs/provider/tasks/TaskDatabaseHelper.java:772-848 | the priority, local-account and version-column steps each establish their guarantee, and every step keeps an established one |
| TaskDatabaseHelper.ApplyAllGuarantees | opentasks-provider/src/main/java/org/dmfs/provider/tasks/TaskDatabaseHelper.java:697-884 | once a step establishing a guarantee has run, the guarantee holds at the end of the steps |
| TaskDatabaseHelper.UpgradeNullsZeroPriority | opentasks-provider/src/main/java/org/dmfs/provider/tasks/TaskDatabaseHelper.java:772-776 | an upgrade from below version 8 leaves no task of priority 0 |
| TaskDatabaseHelper.UpgradeRenamesLocalLists | opentasks-provider/src/main/java/org/dmfs/provider/tasks/TaskDatabaseHelper.java:798-804 | an upgrade from below version 12 leaves no list of the legacy local account type |
| TaskDatabaseHelper.UpgradeAddsVersionColumn | opentasks-provider/src/main/java/org/dmfs/provider/tasks/TaskDatabaseHelper.java:839-848 | an upgrade from below version 22 leaves the tasks table with a VERSION column |
| TaskDatabaseHelper.UpgradeFromCurrent | opentasks-provider/src/main/java/org/dmfs/provider/tasks/TaskDatabaseHelper.java:697-893 | an upgrade from the current version changes no table and only runs the full-text-search upgrade and the listener |
| TaskDatabaseHelper.TaskDatabase.constructor | opentasks-provider/src/main/java/org/dmfs/provider/tasks/TaskDatabaseHelper.java:587-588 | the database starts from the given tables with no events and no refreshed tasks |
| TaskDatabaseHelper.TaskDatabase.Reinstantiate | opentasks-provider/src/main/java/org/dmfs/provider/tasks/TaskDatabaseHelper.java:850-878 | in one transaction every master task, in row order, is refreshed through the instantiating processor; no table changes |
| TaskDatabaseHelper.TaskDatabase.RequestRefresh | opentasks-provider/src/main/java/org/dmfs/provider/tasks/TaskDatabaseHelper.java:864-870 | an update request for a master task's cursor row makes the processor refresh that task's instances |
| TaskDatabaseHelper.TaskDatabase.RunStep | opentasks-provider/src/main/java/org/dmfs/provider/tasks/TaskDatabaseHelper.java:697-884 | one step's effect on the tables and the event log |
| TaskDatabaseHelper.TaskDatabase.RunSteps | opentasks-provider/src/main/java/org/dmfs/provider/tasks/TaskDatabaseHelper.java:697-884 | the guarded steps run in order, each exactly when the old version is below its threshold |
| TaskDatabaseHelper.TaskDatabase.OnUpgrade | opentasks-provider/src/main/java/org/dmfs/provider/tasks/TaskDatabaseHelper.java:697-893 | the steps above the old version in order, then the full-text-search upgrade, then the listener when there is one |
| TaskValidatorProcessor.ReadOnlyMembers | opentasks-provider/src/main/java/org/dmfs/provider/tasks/processors/tasks/TaskValidatorProcessor.java:99-175 | the read-only and sync-only checks cover exactly the fields of their lists |
| TaskValidatorProcessor.VerifyCommon | opentasks-provider/src/main/java/org/dmfs/provider/tasks/processors/tasks/TaskValidatorProcessor.java:97-258 | passes iff no read-only field is written, no sync-only field unless by a sync adapter, not both original-instance fields, each range holds and the times and zone are consistent |
| TaskValidatorProcessor.FieldChecks | opentasks-provider/src/main/java/org/dmfs/provider/tasks/processors/tasks/TaskValidatorProcessor.java:99-180 | passes iff no read-only field, no sync-only field (unless a sync adapter) and not both original-instance fields are written |
| TaskValidatorProcessor.RangeChecks | opentasks-provider/src/main/java/org/dmfs/provider/tasks/processors/tasks/TaskValidatorProcessor.java:182-220 | passes iff each written, non-null classification, priority, percentage and status lies in its range |
| TaskValidatorProcessor.TimeChecks | opentasks-provider/src/main/java/org/dmfs/provider/tasks/processors/tasks/TaskValidatorProcessor.java:222-257 | passes iff the task's start, due, duration and zone are consistent |
| TaskValidatorProcessor.TimeRules | opentasks-provider/src/main/java/org/dmfs/provider/tasks/processors/tasks/TaskValidatorProcessor.java:222-257 | passes iff, with a start, there is not both a due and a duration, the due is not before the start and the duration is not negative; there is no duration without a start; and a timed task that is not all-day has a zone |
| TaskValidatorProcessor.CheckRange | opentasks-provider/src/main/java/org/dmfs/provider/tasks/processors/tasks/TaskValidatorProcessor.java:183-190 | true iff the field is not written, or is null, or lies within the bounds |
| TaskValidatorProcessor.CountRows | opentasks-provider/src/main/java/org/dmfs/provider/tasks/processors/tasks/TaskValidatorProcessor.java:57-63 | no list row has the id iff the count is zero |
| TaskValidatorProcessor.BeforeInsert | opentasks-provider/src/main/java/org/dmfs/provider/tasks/processors/tasks/TaskValidatorProcessor.java:43-73 | passes iff the common checks pass and LIST_ID is given and matches exactly one list row |
| TaskValidatorProcessor.BeforeUpdate | opentasks-provider/src/main/java/org/dmfs/provider/tasks/processors/tasks/TaskValidatorProcessor.java:76-86 | passes iff the common checks pass and only a sync adapter changes an original-instance field |
| TaskValidatorProcessor.InsertWithoutListRejected | opentasks-provider/src/main/java/org/dmfs/provider/tasks/processors/tasks/TaskValidatorProcessor.java:49-53 | an insert without LIST_ID is rejected |
| TaskValidatorProcessor.ReadOnlyRejected | opentasks-provider/src/main/java/org/dmfs/provider/tasks/processors/tasks/TaskValidatorProcessor.java:99-169 | writing a read-only field fails on insert and on update, even for a sync adapter |
| TaskValidatorProcessor.SyncAdapterMaySetSyncFields | opentasks-provider/src/main/java/org/dmfs/provider/tasks/processors/tasks/TaskValidatorProcessor.java:129-175 | whatever passes for an app also passes for a sync adapter |
| AutoUpdateProcessor.FirstWithSyncId | opentasks-provider/src/main/java/org/dmfs/provider/tasks/processors/tasks/AutoUpdateProcessor.java:125-133 | a found row is in the table and carries the sync id; none found means no row carries it |
| AutoUpdateProcessor.FirstWithId | opentasks-provider/src/main/java/org/dmfs/provider/tasks/processors/tasks/AutoUpdateProcessor.java:145-153 | a found row is in the table and carries the id; none found means no row carries it |
| AutoUpdateProcessor.AutoUpdateProcessor.UpdateFields | opentasks-provider/src/main/java/org/dmfs/provider/tasks/processors/tasks/AutoUpdateProcessor.java:97-219 | runs the five steps in source order; it passes iff their composition succeeds, and then the change set is the composition's result; id, stored row and recurrence flag are unchanged |
| AutoUpdateProcessor.AutoUpdateProcessor.Touch | opentasks-provider/src/main/java/org/dmfs/provider/tasks/processors/tasks/AutoUpdateProcessor.java:99-109 | the change set becomes the touched one; id, stored row and recurrence flag are unchanged |
| AutoUpdateProcessor.AutoUpdateProcessor.NormalizePriority | opentasks-provider/src/main/java/org/dmfs/provider/tasks/processors/tasks/AutoUpdateProcessor.java:111-119 | the change set becomes the one with an updated priority 0 replaced by null |
| AutoUpdateProcessor.AutoUpdateProcessor.ResolveOriginal | opentasks-provider/src/main/java/org/dmfs/provider/tasks/processors/tasks/AutoUpdateProcessor.java:121-161 | the change set and outcome are those of the original-instance lookup, including its null-reference failure |
| AutoUpdateProcessor.AutoUpdateProcessor.ApplyPercent | opentasks-provider/src/main/java/org/dmfs/provider/tasks/processors/tasks/AutoUpdateProcessor.java:163-187 | the change set becomes the one after the percent-complete rules |
| AutoUpdateProcessor.AutoUpdateProcessor.ApplyStatus | opentasks-provider/src/main/java/org/dmfs/provider/tasks/processors/tasks/AutoUpdateProcessor.java:189-218 | the change set becomes the one after the status, flag and completion rules |
| AutoUpdateProcessor.AutoUpdateProcessor.BeforeInsert | opentasks-provider/src/main/java/org/dmfs/provider/tasks/processors/tasks/AutoUpdateProcessor.java:50-60 | the fields are updated as for any write, and a successful local insert then also gets CREATED = now |
| AutoUpdateProcessor.AutoUpdateProcessor.BeforeUpdate | opentasks-provider/src/main/java/org/dmfs/provider/tasks/processors/tasks/AutoUpdateProcessor.java:77-81 | an update runs exactly the field update |
| AutoUpdateProcessor.AfterInsert | opentasks-provider/src/main/java/org/dmfs/provider/tasks/processors/tasks/AutoUpdateProcessor.java:63-74 | an update of the other instances is issued iff a sync adapter inserted a recurring task, and it sets ORIGINAL_INSTANCE_ID to the new id for the rows whose ORIGINAL_INSTANCE_SYNC_ID is its sync id |
| AutoUpdateProcessor.AfterUpdate | opentasks-provider/src/main/java/org/dmfs/provider/tasks/processors/tasks/AutoUpdateProcessor.java:84-94 | an update is issued iff a sync adapter changed the sync id of a recurring task, and it writes the new sync id into ORIGINAL_INSTANCE_SYNC_ID |
| AutoUpdateProcessor.TouchedFrame | opentasks-provider/src/main/java/org/dmfs/provider/tasks/processors/tasks/AutoUpdateProcessor.java:99-109 | the first step touches only DIRTY, LAST_MODIFIED and STATUS, and a sync adapter's write not at all |
| AutoUpdateProcessor.PriorityFrame | opentasks-provider/src/main/java/org/dmfs/provider/tasks/processors/tasks/AutoUpdateProcessor.java:111-119 | the priority step touches only PRIORITY |
| AutoUpdateProcessor.OriginalFrame | opentasks-provider/src/main/java/org/dmfs/provider/tasks/processors/tasks/AutoUpdateProcessor.java:121-161 | the lookup step touches only the two original-instance fields |
| AutoUpdateProcessor.PercentFrame | opentasks-provider/src/main/java/org/dmfs/provider/tasks/processors/tasks/AutoUpdateProcessor.java:163-187 | the percent step touches only STATUS and COMPLETED |
| AutoUpdateProcessor.StatusFrame | opentasks-provider/src/main/java/org/dmfs/provider/tasks/processors/tasks/AutoUpdateProcessor.java:189-218 | the status step touches only STATUS, IS_NEW, IS_CLOSED, PERCENT_COMPLETE and COMPLETED |
| AutoUpdateProcessor.FailsOnNullReference | opentasks-provider/src/main/java/org/dmfs/provider/tasks/processors/tasks/AutoUpdateProcessor.java:122-161 | the update fails exactly when a written original-instance sync id is null, or, without one, a written original-instance id is null |
| AutoUpdateProcessor.DirtyOnLocalWrite | opentasks-provider/src/main/java/org/dmfs/provider/tasks/processors/tasks/AutoUpdateProcessor.java:99-103 | after a local write DIRTY is true and LAST_MODIFIED is now; after a sync adapter's write both are as the caller gave them |
| AutoUpdateProcessor.ZeroPriorityBecomesNull | opentasks-provider/src/main/java/org/dmfs/provider/tasks/processors/tasks/AutoUpdateProcessor.java:111-119 | an updated priority 0 ends up null |
| AutoUpdateProcessor.StatusStepFlags | opentasks-provider/src/main/java/org/dmfs/provider/tasks/processors/tasks/AutoUpdateProcessor.java:189-218 | when the status step runs, the status is the effective one, IS_NEW iff NEEDS_ACTION, IS_CLOSED iff COMPLETED or CANCELLED, and locally COMPLETED gives 100% while any other status clears COMPLETED |
| AutoUpdateProcessor.StatusStepStatus | opentasks-provider/src/main/java/org/dmfs/provider/tasks/processors/tasks/AutoUpdateProcessor.java:190-200 | a null status becomes STATUS_DEFAULT, and IS_NEW and IS_CLOSED follow the status in both directions |
| AutoUpdateProcessor.StatusStepCompletion | opentasks-provider/src/main/java/org/dmfs/provider/tasks/processors/tasks/AutoUpdateProcessor.java:206-217 | for a local write, COMPLETED status sets PERCENT_COMPLETE to 100 and any other status clears the completion time |
| AutoUpdateProcessor.StatusStepKeepsStatus | opentasks-provider/src/main/java/org/dmfs/provider/tasks/processors/tasks/AutoUpdateProcessor.java:189-200 | the status step never changes a non-null status |
| AutoUpdateProcessor.StatusStaysUpdated | opentasks-provider/src/main/java/org/dmfs/provider/tasks/processors/tasks/AutoUpdateProcessor.java:97-187 | a written status is still written when the status step starts |
| AutoUpdateProcessor.FlagsFollowStatus | opentasks-provider/src/main/java/org/dmfs/provider/tasks/processors/tasks/AutoUpdateProcessor.java:189-218 | when the status is written or the task is new, the final status is non-null and the flags and completion fields follow it |
| AutoUpdateProcessor.TouchedCompletes | opentasks-provider/src/main/java/org/dmfs/provider/tasks/processors/tasks/AutoUpdateProcessor.java:105-108 | a local write giving a completion time without a status sets STATUS to COMPLETED |
| AutoUpdateProcessor.PercentCompletes | opentasks-provider/src/main/java/org/dmfs/provider/tasks/processors/tasks/AutoUpdateProcessor.java:164-177 | a local write setting 100% without a status sets STATUS to COMPLETED |
| AutoUpdateProcessor.PercentKeepsCompleted | opentasks-provider/src/main/java/org/dmfs/provider/tasks/processors/tasks/AutoUpdateProcessor.java:163-187 | the percent step keeps a COMPLETED status |
| AutoUpdateProcessor.CompletionCompletesTask | opentasks-provider/src/main/java/org/dmfs/provider/tasks/processors/tasks/AutoUpdateProcessor.java:105-108 | over the whole update, a local write giving a completion time or 100% but no status leaves the task COMPLETED |
| AutoUpdateProcessor.SyncIdResolvesId | opentasks-provider/src/main/java/org/dmfs/provider/tasks/processors/tasks/AutoUpdateProcessor.java:122-141 | a written original-instance sync id naming a stored task leaves that task's id as ORIGINAL_INSTANCE_ID |
| RelationHandler.ValidateValues | opentasks-provider/src/main/java/org/dmfs/provider/tasks/handler/RelationHandler.java:39-71 | accepted iff RELATED_CONTENT_URI is absent and exactly one of id, UID and URI is non-null; the content-URI error comes first; the given reference is kept, the other two are written as nulls and every other column is unchanged |
| RelationHandler.TaskWithId | opentasks-provider/src/main/java/org/dmfs/provider/tasks/handler/RelationHandler.java:141-160 | the row found carries the queried id; when none is found no row has that id |
| RelationHandler.TaskWithUid | opentasks-provider/src/main/java/org/dmfs/provider/tasks/handler/RelationHandler.java:141-160 | the row found carries the queried UID; when none is found no row has that UID |
| RelationHandler.ResolveFields | opentasks-provider/src/main/java/org/dmfs/provider/tasks/handler/RelationHandler.java:114-127 | a given related id fills in the related UID of that task (null if none); otherwise a given UID fills in the related id; otherwise nothing changes |
| RelationHandler.WithParent | opentasks-provider/src/main/java/org/dmfs/provider/tasks/handler/RelationHandler.java:189-191 | same number of rows; exactly the rows with the given id get the new parent, every other row is unchanged |
| RelationHandler.TaskTable.constructor | opentasks-provider/src/main/java/org/dmfs/provider/tasks/handler/RelationHandler.java:75 | the table starts with the given rows |
| RelationHandler.TaskTable.SetParent | opentasks-provider/src/main/java/org/dmfs/provider/tasks/handler/RelationHandler.java:189-191 | the table becomes the rows with the parent of the given id replaced |
| RelationHandler.UpdateParentId | opentasks-provider/src/main/java/org/dmfs/provider/tasks/handler/RelationHandler.java:171-221 | fails (Java null unboxing) iff no relation type is written or stored; otherwise leaves the parent column as the parent, child or sibling rule says; on failure the table is untouched |
| RelationHandler.ClearParentId | opentasks-provider/src/main/java/org/dmfs/provider/tasks/handler/RelationHandler.java:231-270 | removing a parent link clears this task's parent, removing a child link clears the child's parent, a sibling link changes nothing |
| RelationHandler.Insert | opentasks-provider/src/main/java/org/dmfs/provider/tasks/handler/RelationHandler.java:75-81 | succeeds iff validation passes and a relation type is written; returns the resolved values and leaves the parent column updated by them |
| RelationHandler.Update | opentasks-provider/src/main/java/org/dmfs/provider/tasks/handler/RelationHandler.java:85-91 | as insert, with the stored row supplying the relation type when none is written |
| RelationHandler.Delete | opentasks-provider/src/main/java/org/dmfs/provider/tasks/handler/RelationHandler.java:95-99 | the parent column is cleared as clearParentId says |
| RelationHandler.ParentOfWithParent | opentasks-provider/src/main/java/org/dmfs/provider/tasks/handler/RelationHandler.java:189-191 | after setting the parent of one id, that id's parent is the new one if the task exists and every other task's parent is unchanged; the set of existing tasks is unchanged |
| RelationHandler.ParentLink | opentasks-provider/src/main/java/org/dmfs/provider/tasks/handler/RelationHandler.java:183-194 | after a parent link the task's parent is the related id |
| RelationHandler.ChildLink | opentasks-provider/src/main/java/org/dmfs/provider/tasks/handler/RelationHandler.java:195-206 | after a child link the related task's parent is this task and no other task's parent changes |
| RelationHandler.SiblingLink | opentasks-provider/src/main/java/org/dmfs/provider/tasks/handler/RelationHandler.java:207-220 | after a sibling link the task has the related task's parent |
| RelationHandler.UnlinkOrphans | opentasks-provider/src/main/java/org/dmfs/provider/tasks/handler/RelationHandler.java:242-261 | after removing a parent link this task has no parent; after removing a child link the child has no parent |
| RelationHandler.WithParentTwice | opentasks-provider/src/main/java/org/dmfs/provider/tasks/handler/RelationHandler.java:189-191 | setting the parent twice keeps only the second value |
| RelationHandler.WithParentUnchanged | opentasks-provider/src/main/java/org/dmfs/provider/tasks/handler/RelationHandler.java:189-191 | setting a parent the rows already have changes nothing |
| RelationHandler.ParentLinkThenUnlink | opentasks-provider/src/main/java/org/dmfs/provider/tasks/handler/RelationHandler.java:171-270 | adding then deleting a parent relation of an orphan task restores the table |
| RelationHandler.ChildLinkThenUnlink | opentasks-provider/src/main/java/org/dmfs/provider/tasks/handler/RelationHandler.java:171-270 | adding then deleting a child relation to an orphan task restores the table |
| RelationHandler.UidResolvesBack | opentasks-provider/src/main/java/org/dmfs/provider/tasks/handler/RelationHandler.java:114-127 | with unique ids, the id resolved from a UID resolves back to that UID |
| RelationHandler.IdResolvesBack | opentasks-provider/src/main/java/org/dmfs/provider/tasks/handler/RelationHandler.java:114-127 | with unique UIDs, the UID resolved from an id resolves back to that id |
| Instantiating.UpdatedOnly | opentasks-provider/src/main/java/org/dmfs/provider/tasks/processors/tasks/Instantiating.java:376-396 | fails iff some key has no column in the row or a non-null value without a long reading over a non-null column; otherwise keeps exactly the keys whose value is not unchanged (both null, or equal as longs), with their values |
| Instantiating.UpdatedOnlyIsChanges | opentasks-provider/src/main/java/org/dmfs/provider/tasks/processors/tasks/Instantiating.java:376-396 | a map meeting the method's contract is exactly the changes function |
| Instantiating.ChangesSuffice | opentasks-provider/src/main/java/org/dmfs/provider/tasks/processors/tasks/Instantiating.java:362-369 | writing only the changes leaves every column reading as if the whole change set had been written |
| Instantiating.WrittenRowHasNoChanges | opentasks-provider/src/main/java/org/dmfs/provider/tasks/processors/tasks/Instantiating.java:376-396 | once numbers and nulls are written, nothing is left to update |
| Instantiating.ChangesIdempotent | opentasks-provider/src/main/java/org/dmfs/provider/tasks/processors/tasks/Instantiating.java:376-396 | the changes of the changes are the changes |
| Instantiating.Wrap64 | opentasks-provider/src/main/java/org/dmfs/provider/tasks/processors/tasks/Instantiating.java:298-306 | the result is a long, and a result that fits is unchanged |
| Instantiating.Sign | opentasks-provider/src/main/java/org/dmfs/provider/tasks/processors/tasks/Instantiating.java:299-307 | -1, 0 and 1 exactly for negative, zero and positive |
| Instantiating.CompareOriginalTimesAsWritten | opentasks-provider/src/main/java/org/dmfs/provider/tasks/processors/tasks/Instantiating.java:285-299 | null sorts first and two nulls are equal; the result is -1, 0 or 1 |
| Instantiating.CompareOriginalTimes | opentasks-provider/src/main/java/org/dmfs/provider/tasks/processors/tasks/Instantiating.java:285-299 | 0 iff equal, -1 iff the left precedes (null first, then by time), 1 iff the right precedes |
| Instantiating.CompareOriginalTimesOrders | opentasks-provider/src/main/java/org/dmfs/provider/tasks/processors/tasks/Instantiating.java:285-299 | the intended comparator is antisymmetric and transitive |
| Instantiating.AsWrittenAgreesWithoutOverflow | opentasks-provider/src/main/java/org/dmfs/provider/tasks/processors/tasks/Instantiating.java:298-299 | the comparator as written agrees with the intended one whenever the difference fits in a long |
| Instantiating.AsWrittenOverflows | opentasks-provider/src/main/java/org/dmfs/provider/tasks/processors/tasks/Instantiating.java:298-299 | for the longs 2^62 and -2^62 the comparator as written orders each before the other, while the intended one puts 2^62 after -2^62 |
| Instantiating.CompareWithRowAsWritten | opentasks-provider/src/main/java/org/dmfs/provider/tasks/processors/tasks/Instantiating.java:302-307 | the result is -1, 0 or 1 |
| Instantiating.CompareWithRow | opentasks-provider/src/main/java/org/dmfs/provider/tasks/processors/tasks/Instantiating.java:302-307 | the sign of the true difference of the time (null read as 0) and the row's time |
| Instantiating.RowComparatorOverflows | opentasks-provider/src/main/java/org/dmfs/provider/tasks/processors/tasks/Instantiating.java:305-307 | a null time against the smallest long sorts before it as written and after it as intended |
| Instantiating.Limited | opentasks-provider/src/main/java/org/dmfs/provider/tasks/processors/tasks/Instantiating.java:271 | at most the first n elements, in order, and all of them when there are no more than n |
| Instantiating.Then | opentasks-provider/src/main/java/org/dmfs/provider/tasks/processors/tasks/Instantiating.java:312-371 | writes in front of a run that throws still throw; otherwise they precede the run's writes |
| Instantiating.ThenNothing | opentasks-provider/src/main/java/org/dmfs/provider/tasks/processors/tasks/Instantiating.java:312-371 | no writes in front leave the run as it is |
| Instantiating.ThenThen | opentasks-provider/src/main/java/org/dmfs/provider/tasks/processors/tasks/Instantiating.java:312-371 | writes in front of writes in front of a run are their concatenation in front of it |
| Instantiating.RunDistances | opentasks-provider/src/main/java/org/dmfs/provider/tasks/processors/tasks/Instantiating.java:310-371 | from a counter of -1 or 0, every inserted instance gets distance -1 or 0, at the limit only deletes follow, and nothing but deletes follows the insert of the upcoming instance |
| Instantiating.RunNext | opentasks-provider/src/main/java/org/dmfs/provider/tasks/processors/tasks/Instantiating.java:312 | a run that goes on is the first element's writes followed by the run of the rest from the new counter |
| Instantiating.RunInserts | opentasks-provider/src/main/java/org/dmfs/provider/tasks/processors/tasks/Instantiating.java:339-349 | every inserted instance gets distance -1 or 0 |
| Instantiating.RunAtLimit | opentasks-provider/src/main/java/org/dmfs/provider/tasks/processors/tasks/Instantiating.java:314-329 | once the counter is at the limit, a run writes nothing but deletes |
| Instantiating.RunUpcomingLast | opentasks-provider/src/main/java/org/dmfs/provider/tasks/processors/tasks/Instantiating.java:310-371 | after the insert of the upcoming instance only deletes follow |
| Instantiating.DeletesAfterConcat | opentasks-provider/src/main/java/org/dmfs/provider/tasks/processors/tasks/Instantiating.java:312-371 | one element's writes followed by a run keep the deletes-after-upcoming property |
| Instantiating.StepDistances | opentasks-provider/src/main/java/org/dmfs/provider/tasks/processors/tasks/Instantiating.java:314-370 | one element moves the counter up by at most one and never past the limit, writes at most one row, inserts with the new counter as distance, and deletes only at the limit |
| Instantiating.OverrideCountAsWritten | opentasks-provider/src/main/java/org/dmfs/provider/tasks/processors/tasks/Instantiating.java:177-197 | two instance rows pass the loop as written, though an override must have exactly one |
| Instantiating.OverrideWrites | opentasks-provider/src/main/java/org/dmfs/provider/tasks/processors/tasks/Instantiating.java:183-192 | one update per row, each by the task id |
| Instantiating.Instantiating.constructor | opentasks-provider/src/main/java/org/dmfs/provider/tasks/processors/tasks/Instantiating.java:98-101 | nothing delegated and nothing written |
| Instantiating.Instantiating.Insert | opentasks-provider/src/main/java/org/dmfs/provider/tasks/processors/tasks/Instantiating.java:104-119 | delegates the insert, then refreshes the new task's own instance when it is an override and the series otherwise |
| Instantiating.Instantiating.Update | opentasks-provider/src/main/java/org/dmfs/provider/tasks/processors/tasks/Instantiating.java:122-147 | fails iff UPDATE_REQUESTED was written as null; otherwise removes it, delegates, and refreshes nothing iff no timing field was updated and no refresh was requested, else the series for a master and the single instance for an override |
| Instantiating.Instantiating.Delete | opentasks-provider/src/main/java/org/dmfs/provider/tasks/processors/tasks/Instantiating.java:150-155 | only delegates |
| Instantiating.Instantiating.WriteOverrideRows | opentasks-provider/src/main/java/org/dmfs/provider/tasks/processors/tasks/Instantiating.java:177-197 | passes iff there are between 1 and maxRows rows, writing each row let through by task id |
| Instantiating.Instantiating.UpdateOverrideInstanceAsWritten | opentasks-provider/src/main/java/org/dmfs/provider/tasks/processors/tasks/Instantiating.java:170-213 | a null original id throws; with IS_CLOSED updated the master, if found, is to be refreshed; otherwise the loop as written passes iff there are 1 or 2 rows |
| Instantiating.Instantiating.UpdateOverrideInstance | opentasks-provider/src/main/java/org/dmfs/provider/tasks/processors/tasks/Instantiating.java:170-213 | as above, but the loop passes iff there is exactly one row |
| Instantiating.Instantiating.ApplyItem | opentasks-provider/src/main/java/org/dmfs/provider/tasks/processors/tasks/Instantiating.java:313-370 | one loop iteration stops, throws or goes on exactly as the step function says, with its writes |
| Instantiating.Instantiating.UpdateMasterInstances | opentasks-provider/src/main/java/org/dmfs/provider/tasks/processors/tasks/Instantiating.java:226-373 | passes iff the run from counter -1 does not throw, and then writes exactly the run's writes |
| TaskValueDelegate.Without | opentasks-provider/src/main/java/org/dmfs/provider/tasks/processors/instances/TaskValueDelegate.java:253 | filtering a date out never lengthens the list |
| TaskValueDelegate.WithoutCounts | opentasks-provider/src/main/java/org/dmfs/provider/tasks/processors/instances/TaskValueDelegate.java:252-253 | the filtered list has no occurrence of the date and every other date as often as before |
| TaskValueDelegate.WithoutConcat | opentasks-provider/src/main/java/org/dmfs/provider/tasks/processors/instances/TaskValueDelegate.java:252-253 | filtering distributes over concatenation |
| TaskValueDelegate.WithoutAbsent | opentasks-provider/src/main/java/org/dmfs/provider/tasks/processors/instances/TaskValueDelegate.java:252-253 | filtering a date that is not there changes nothing |
| TaskValueDelegate.AppendedFacts | opentasks-provider/src/main/java/org/dmfs/provider/tasks/processors/instances/TaskValueDelegate.java:252 | after appending, the date is last and occurs exactly once, and every other date keeps its count |
| TaskValueDelegate.AppendedIdempotent | opentasks-provider/src/main/java/org/dmfs/provider/tasks/processors/instances/TaskValueDelegate.java:252 | appending the same date twice is appending it once |
| TaskValueDelegate.AppendDateMoves | opentasks-provider/src/main/java/org/dmfs/provider/tasks/processors/instances/TaskValueDelegate.java:250-254 | appendDate makes the date the last of the added-to list, removes it from the other list, which keeps its order, and touches no other field |
| TaskValueDelegate.WithoutAgain | opentasks-provider/src/main/java/org/dmfs/provider/tasks/processors/instances/TaskValueDelegate.java:252-253 | filtering again, or filtering after appending, gives the once-filtered list |
| TaskValueDelegate.AppendDateBack | opentasks-provider/src/main/java/org/dmfs/provider/tasks/processors/instances/TaskValueDelegate.java:250-254 | moving a date to one list and then back leaves both lists as a single move back would |
| TaskValueDelegate.NotSpecial | opentasks-provider/src/main/java/org/dmfs/provider/tasks/processors/instances/TaskValueDelegate.java:53-86 | the start, due, duration, id and original-instance fields are not among the special fields |
| TaskValueDelegate.OverrideTimesFacts | opentasks-provider/src/main/java/org/dmfs/provider/tasks/processors/instances/TaskValueDelegate.java:174-187 | the time step leaves the stripped fields out, leaves other fields alone, and sets start, due, duration and the original all-day flag as the caller's change set says |
| TaskValueDelegate.OverrideFacts | opentasks-provider/src/main/java/org/dmfs/provider/tasks/processors/instances/TaskValueDelegate.java:160-191 | the override refers to its master and instance time, holds no special field and no id, and has the instance's start and due unless the caller changed them |
| TaskValueDelegate.OverrideRefersToMaster | opentasks-provider/src/main/java/org/dmfs/provider/tasks/processors/instances/TaskValueDelegate.java:166-167 | the override's original instance id is the master's id and its original time the instance's |
| TaskValueDelegate.OverrideStripsSpecial | opentasks-provider/src/main/java/org/dmfs/provider/tasks/processors/instances/TaskValueDelegate.java:168-172 | the override holds no special field and no row id |
| TaskValueDelegate.OverrideKeepsTimes | opentasks-provider/src/main/java/org/dmfs/provider/tasks/processors/instances/TaskValueDelegate.java:174-187 | the override takes the instance start unless the start was changed, the instance due with no duration unless either was changed, and the original all-day flag from the task |
| TaskValueDelegate.TaskValueDelegate.constructor | opentasks-provider/src/main/java/org/dmfs/provider/tasks/processors/instances/TaskValueDelegate.java:91-94 | no calls to the wrapped processor yet |
| TaskValueDelegate.TaskValueDelegate.AppendDate | opentasks-provider/src/main/java/org/dmfs/provider/tasks/processors/instances/TaskValueDelegate.java:250-254 | the task's values become the appendDate result; id, row and recurrence are unchanged |
| TaskValueDelegate.TaskValueDelegate.Insert | opentasks-provider/src/main/java/org/dmfs/provider/tasks/processors/instances/TaskValueDelegate.java:97-153 | an override whose master is missing or is itself an override fails; a plain instance is inserted as it is; otherwise the master gains the RDATEs, is updated, the instance is inserted and the master's properties are copied |
| TaskValueDelegate.TaskValueDelegate.UnsetAll | opentasks-provider/src/main/java/org/dmfs/provider/tasks/processors/instances/TaskValueDelegate.java:169-172 | every listed field is removed from the override and nothing else changes |
| TaskValueDelegate.TaskValueDelegate.Update | opentasks-provider/src/main/java/org/dmfs/provider/tasks/processors/instances/TaskValueDelegate.java:156-199 | a recurring task yields an inserted override and a copy of its properties; any other task is updated as it is |
| TaskValueDelegate.TaskValueDelegate.Delete | opentasks-provider/src/main/java/org/dmfs/provider/tasks/processors/instances/TaskValueDelegate.java:202-247 | an override is deleted and its time becomes an EXDATE of a master that is found; a recurring task gets the instance time as an EXDATE; any other task is deleted; a missing instance time fails exactly where Java unboxes it |
| TaskValueDelegate.FirstTime | opentasks-provider/src/main/java/org/dmfs/provider/tasks/processors/instances/TaskValueDelegate.java:117-119 | the master's start when present, otherwise its due |
| TaskValueDelegate.MasterRdates | opentasks-provider/src/main/java/org/dmfs/provider/tasks/processors/instances/TaskValueDelegate.java:117-126 | a master that was not recurring ends with the instance time as its last RDATE and keeps its own first date among them |
| TimeZoneChoicesAdapter.GMTOffsetString | opentasks/src/main/java/org/dmfs/tasks/model/TimeZoneChoicesAdapter.java:194-200 | the label is twelve characters and shows '+' exactly for a non-negative offset and '-' exactly for a negative one |
| TimeZoneChoicesAdapter.ParseGMTOffset | opentasks/src/main/java/org/dmfs/tasks/model/TimeZoneChoicesAdapter.java:194-200 | a label read back has two-digit hours and minutes |
| TimeZoneChoicesAdapter.Pad2Value | opentasks/src/main/java/org/dmfs/tasks/model/TimeZoneChoicesAdapter.java:199 | the two %02d digits of a value below 100 read back as that value |
| TimeZoneChoicesAdapter.GMTOffsetRoundTrip | opentasks/src/main/java/org/dmfs/tasks/model/TimeZoneChoicesAdapter.java:194-200 | every label reads back as the offset's sign, its whole hours modulo 24 and its whole minutes modulo 60, both in range |
| TimeZoneChoicesAdapter.Insert | opentasks/src/main/java/org/dmfs/tasks/model/TimeZoneChoicesAdapter.java:120-132 | inserting one id lengthens the list by one |
| TimeZoneChoicesAdapter.SortByKey | opentasks/src/main/java/org/dmfs/tasks/model/TimeZoneChoicesAdapter.java:120-132 | sorting keeps the number of ids |
| TimeZoneChoicesAdapter.InsertPermutes | opentasks/src/main/java/org/dmfs/tasks/model/TimeZoneChoicesAdapter.java:120-132 | inserting adds exactly the new id to the ids |
| TimeZoneChoicesAdapter.SortByKeyPermutes | opentasks/src/main/java/org/dmfs/tasks/model/TimeZoneChoicesAdapter.java:120-132 | the sorted ids are a permutation of the ids |
| TimeZoneChoicesAdapter.InsertSorted | opentasks/src/main/java/org/dmfs/tasks/model/TimeZoneChoicesAdapter.java:120-132 | inserting into an offset-sorted list keeps it sorted |
| TimeZoneChoicesAdapter.SortByKeySorted | opentasks/src/main/java/org/dmfs/tasks/model/TimeZoneChoicesAdapter.java:120-132 | the sorted ids are in ascending order of their zone's offset at the reference time |
| TimeZoneChoicesAdapter.InsertWithKey | opentasks/src/main/java/org/dmfs/tasks/model/TimeZoneChoicesAdapter.java:120-132 | among ids of one offset, the inserted id comes first and the others keep their order |
| TimeZoneChoicesAdapter.SortByKeyStable | opentasks/src/main/java/org/dmfs/tasks/model/TimeZoneChoicesAdapter.java:120-132 | ids with equal offsets keep their relative order, as Collections.sort is stable |
| TimeZoneChoicesAdapter.Names | opentasks/src/main/java/org/dmfs/tasks/model/TimeZoneChoicesAdapter.java:68-75 | the title map has exactly the configured ids as keys |
| TimeZoneChoicesAdapter.Zones | opentasks/src/main/java/org/dmfs/tasks/model/TimeZoneChoicesAdapter.java:68-75 | the zone map has exactly the configured ids as keys |
| TimeZoneChoicesAdapter.NamesLast | opentasks/src/main/java/org/dmfs/tasks/model/TimeZoneChoicesAdapter.java:68-75 | an id's title is the one given with its last occurrence |
| TimeZoneChoicesAdapter.TimeZoneChoicesAdapter.constructor | opentasks/src/main/java/org/dmfs/tasks/model/TimeZoneChoicesAdapter.java:59-117 | titles and zones come from the configured ids, the reference time is now, and the id list is the configured ids sorted by offset at that time |
| TimeZoneChoicesAdapter.TimeZoneChoicesAdapter.SortIds | opentasks/src/main/java/org/dmfs/tasks/model/TimeZoneChoicesAdapter.java:120-132 | the id list becomes the old one sorted by offset at the given time, and nothing else changes |
| TimeZoneChoicesAdapter.TimeZoneChoicesAdapter.GetTitle | opentasks/src/main/java/org/dmfs/tasks/model/TimeZoneChoicesAdapter.java:142-156 | null exactly for a non-zone; otherwise the offset label at the reference time followed by the configured title, or the display name when there is none |
| TimeZoneChoicesAdapter.TimeZoneChoicesAdapter.GetIndex | opentasks/src/main/java/org/dmfs/tasks/model/TimeZoneChoicesAdapter.java:160-177 | -1 for a non-zone with no change; otherwise a differing or missing reference time re-sorts at that time (or now), an unknown id fails, and a known id gives the first position of its zone |
| TimeZoneChoicesAdapter.TimeZoneChoicesAdapter.GetCount | opentasks/src/main/java/org/dmfs/tasks/model/TimeZoneChoicesAdapter.java:211-214 | the count is the number of ids |
| TimeZoneChoicesAdapter.TimeZoneChoicesAdapter.GetItem | opentasks/src/main/java/org/dmfs/tasks/model/TimeZoneChoicesAdapter.java:218-221 | a position inside the list gives the zone of the id there, any other position is an error |
| NGramGenerator.ToLower | opentasks-provider/src/main/java/org/dmfs/ngrams/NGramGenerator.java:138-141 | same length; each ASCII capital becomes its small letter and every other character stays |
| NGramGenerator.SeparatorRun | opentasks-provider/src/main/java/org/dmfs/ngrams/NGramGenerator.java:36 | the leading run of separator characters is maximal: all separators, followed by a word character or the end |
| NGramGenerator.PiecesAreWords | opentasks-provider/src/main/java/org/dmfs/ngrams/NGramGenerator.java:143 | with the separator pattern of line 36, every piece between separator runs consists of word characters, and only the first and last pieces can be empty |
| NGramGenerator.FirstPieceOfWord | opentasks-provider/src/main/java/org/dmfs/ngrams/NGramGenerator.java:143 | a text that starts with a word character has a non-empty first piece |
| NGramGenerator.WordsAreRuns | opentasks-provider/src/main/java/org/dmfs/ngrams/NGramGenerator.java:143 | the words are runs of word characters (or the whole text when it has no separator), and only the first word can be empty |
| NGramGenerator.GramSeq | opentasks-provider/src/main/java/org/dmfs/ngrams/NGramGenerator.java:170-175 | max(1, len - n + 1) substrings, the i-th being word[i..min(i + n, len)] |
| NGramGenerator.ElementsSnoc | opentasks-provider/src/main/java/org/dmfs/ngrams/NGramGenerator.java:172-175 | one more loop round adds exactly its substring to the set |
| NGramGenerator.SpaceGram | opentasks-provider/src/main/java/org/dmfs/ngrams/NGramGenerator.java:179-187 | a space followed by the first min(len, n - 1) characters of the word |
| NGramGenerator.Overwritten | opentasks-provider/src/main/java/org/dmfs/ngrams/NGramGenerator.java:188-194 | the buffer keeps its length |
| NGramGenerator.NGramGenerator.constructor | opentasks-provider/src/main/java/org/dmfs/ngrams/NGramGenerator.java:59-65 | n and the minimum word length are kept, lower-casing is on, the space-gram off, and the buffer is a space followed by n - 1 NUL characters |
| NGramGenerator.NGramGenerator.SetAllLowercase | opentasks-provider/src/main/java/org/dmfs/ngrams/NGramGenerator.java:75-79 | sets only the lower-casing flag |
| NGramGenerator.NGramGenerator.SetAddSpaceInFront | opentasks-provider/src/main/java/org/dmfs/ngrams/NGramGenerator.java:89-93 | sets only the space-gram flag |
| NGramGenerator.NGramGenerator.AddWordNgramsAsWritten | opentasks-provider/src/main/java/org/dmfs/ngrams/NGramGenerator.java:159-197 | a word shorter than the minimum adds nothing; otherwise the contiguous substrings are added, and with the space-gram on the buffer is overwritten from position 1 and added whole |
| NGramGenerator.NGramGenerator.AddWordNgrams | opentasks-provider/src/main/java/org/dmfs/ngrams/NGramGenerator.java:159-197 | the set grows by exactly the word's n-grams, with the space-gram of the source's comment |
| NGramGenerator.NGramGenerator.AddContiguous | opentasks-provider/src/main/java/org/dmfs/ngrams/NGramGenerator.java:170-175 | the set grows by exactly the word's contiguous substrings |
| NGramGenerator.NGramGenerator.AddWordsNgramsAsWritten | opentasks-provider/src/main/java/org/dmfs/ngrams/NGramGenerator.java:150-153 | the loop over the words: the set keeps what it held and gains the grams of each word as written, the reused buffer carried from word to word and left as the last counted word wrote it |
| NGramGenerator.NGramGenerator.GetNgramsInto | opentasks-provider/src/main/java/org/dmfs/ngrams/NGramGenerator.java:136-156 | the given set (or a fresh one) keeps what it held and gains the grams of every word of the text, lower-cased when asked, each word going through the word method as written, so the reused buffer is carried from word to word and left as the last counted word wrote it |
| NGramGenerator.NGramGenerator.GetNgramsIntoIntended | opentasks-provider/src/main/java/org/dmfs/ngrams/NGramGenerator.java:136-156 | the corrected half of the space-gram finding: the same loop over the word method of the comment, so the set grows by exactly the comment's n-grams of every word and keeps what it held |
| NGramGenerator.NGramGenerator.GetNgrams | opentasks-provider/src/main/java/org/dmfs/ngrams/NGramGenerator.java:118-123 | a fresh set with the grams of every word of the text as written, from the buffer the generator holds, which is left as the last counted word wrote it |
| NGramGenerator.NGramGenerator.GetNgramsIntended | opentasks-provider/src/main/java/org/dmfs/ngrams/NGramGenerator.java:118-123 | the corrected half: exactly the comment's n-grams of every word of the text |
| NGramGenerator.LongWordGrams | opentasks-provider/src/main/java/org/dmfs/ngrams/NGramGenerator.java:170-175 | a word of length at least n yields exactly its len - n + 1 substrings of length n |
| NGramGenerator.ShortWordGrams | opentasks-provider/src/main/java/org/dmfs/ngrams/NGramGenerator.java:170-175 | a word shorter than n yields only itself |
| NGramGenerator.TooShortWordGrams | opentasks-provider/src/main/java/org/dmfs/ngrams/NGramGenerator.java:164-167 | a word shorter than the minimum contributes nothing |
| NGramGenerator.OverwrittenFull | opentasks-provider/src/main/java/org/dmfs/ngrams/NGramGenerator.java:188-195 | the reused buffer holds the intended space-gram when the word fills it |
| NGramGenerator.StaleSpaceGram | opentasks-provider/src/main/java/org/dmfs/ngrams/NGramGenerator.java:188-195 | with n = 3, "xyz" then "a" leaves " ay" and a fresh generator " a\0", where the comment's space-gram of "a" is " a" |
| NGramGenerator.StaleSpaceGramInText | opentasks-provider/src/main/java/org/dmfs/ngrams/NGramGenerator.java:188-195 | on the words "xyz" and "a" with n = 3, minimum length 1 and the space-gram on (the configuration of the full-text search), the text's grams as written hold " ay", which the comment's grams do not |
| NGramGenerator.WordsAsWrittenAgrees | opentasks-provider/src/main/java/org/dmfs/ngrams/NGramGenerator.java:179-195 | starting from a buffer that is a space and n - 1 further characters, the grams as written equal the comment's grams whenever the space-gram is off or every counted word has at least n - 1 characters |
| ContentOperation.Ordinal | opentasks-provider/src/main/java/org/dmfs/provider/tasks/ContentOperation.java:45-283 | each operation's ordinal is its position in declaration order |
| ContentOperation.Get | opentasks-provider/src/main/java/org/dmfs/provider/tasks/ContentOperation.java:398-411 | an operation is returned iff firstId <= id < firstId + 3, and it is the one whose ordinal is id - firstId |
| ContentOperation.Register | opentasks-provider/src/main/java/org/dmfs/provider/tasks/ContentOperation.java:378-385 | one registration per operation, in order, with path "content_operation/" + its name and code firstId + its ordinal |
| ContentOperation.GetInvertsRegister | opentasks-provider/src/main/java/org/dmfs/provider/tasks/ContentOperation.java:378-411 | every registered code maps back to its own operation, and no two registrations share a code |
| ContentOperation.GetOrdinal | opentasks-provider/src/main/java/org/dmfs/provider/tasks/ContentOperation.java:398-411 | firstId + ordinal always gets that operation |
| ContentOperation.BroadcastForCases | opentasks-provider/src/main/java/org/dmfs/provider/tasks/ContentOperation.java:119-128 | a due broadcast is sent iff the due time is in (lastAlarm, now]; a start broadcast iff only the start time is; every selected row gets one |
| ContentOperation.BroadcastsSound | opentasks-provider/src/main/java/org/dmfs/provider/tasks/ContentOperation.java:94-129 | every broadcast names an open, undeleted row whose due or start time fell in the window, with that row's kind |
| ContentOperation.AlarmState.constructor | opentasks-provider/src/main/java/org/dmfs/provider/tasks/ContentOperation.java:154-158 | no last-alarm time stored and no alarm planned |
| ContentOperation.AlarmState.PostNotifications | opentasks-provider/src/main/java/org/dmfs/provider/tasks/ContentOperation.java:81-141 | the broadcasts are those of the rows for the stored last-alarm time (now when none), the last-alarm time becomes now, and the next alarm after now is planned when there is one |
| ContentOperation.AlarmState.UpdateNotificationAlarm | opentasks-provider/src/main/java/org/dmfs/provider/tasks/ContentOperation.java:188-264 | a clock that went backwards resets the last alarm to now; the earliest start or due after it is planned; with none, now is saved |
| ContentOperation.MinTimeIsLeast | opentasks-provider/src/main/java/org/dmfs/provider/tasks/ContentOperation.java:206-226 | the first row of the sorted query is a candidate's time and no candidate is earlier; there is none iff no row is a candidate |
| ContentOperation.FirstAfter | opentasks-provider/src/main/java/org/dmfs/provider/tasks/ContentOperation.java:206-226 | the lookup returns exactly the least candidate time |
| ContentOperation.NextAlarmIsEarliest | opentasks-provider/src/main/java/org/dmfs/provider/tasks/ContentOperation.java:203-254 | the next alarm is the earliest start or due time after the last alarm among open, undeleted rows, and there is none iff no row has one |
| ContentSet.ContentSet.constructor | opentasks/src/main/java/org/dmfs/tasks/model/ContentSet.java:104-112 | a new set has the URI, no loaded and no edited values, no listeners, no bulk update and nothing queued |
| ContentSet.ContentSet.Create | opentasks/src/main/java/org/dmfs/tasks/model/ContentSet.java:104-112 | a null URI is an IllegalArgumentException; any other gives a fresh empty set with that URI |
| ContentSet.ContentSet.Clone | opentasks/src/main/java/org/dmfs/tasks/model/ContentSet.java:121-139 | a null original is an IllegalArgumentException; otherwise the copy has the same loaded values, edits and URI and no listeners |
| ContentSet.ContentSet.NotifyUpdateListeners | opentasks/src/main/java/org/dmfs/tasks/model/ContentSet.java:492-509 | the key's listeners are queued during a bulk update and delivered in one round otherwise; a key without listeners changes nothing |
| ContentSet.ContentSet.Put | opentasks/src/main/java/org/dmfs/tasks/model/ContentSet.java:271-358 | for the Integer, Long and String overloads: afterwards the key read as the overload's type is the new value and every other key reads as before; a value equal to the current typed reading changes nothing; one equal to the loaded typed reading drops the edit, any other becomes an edit; a change notifies the key's listeners |
| ContentSet.ContentSet.Remove | opentasks/src/main/java/org/dmfs/tasks/model/ContentSet.java:450-460 | the key then reads as null and no other key changes; only a non-null loaded value creates the edit set when there is none yet |
| ContentSet.ContentSet.Persist | opentasks/src/main/java/org/dmfs/tasks/model/ContentSet.java:216-238 | with no edits nothing is sent and the URI is returned; an insert sends the edits and takes the returned URI; an update sends the edits to the same URI; the edits are then discarded |
| ContentSet.ContentSet.StartBulkUpdate | opentasks/src/main/java/org/dmfs/tasks/model/ContentSet.java:420-423 | the bulk-update counter goes up by one and nothing else changes |
| ContentSet.ContentSet.FinishBulkUpdate | opentasks/src/main/java/org/dmfs/tasks/model/ContentSet.java:429-441 | the counter goes down by one; only the outermost finish (counter 1) delivers the queued listeners in one round and empties the queue |
| ContentSet.ContentSet.AddOnChangeListener | opentasks/src/main/java/org/dmfs/tasks/model/ContentSet.java:463-479 | the listener joins the key's set; it is told the content is loaded iff asked and values exist |
| ContentSet.ContentSet.RemoveOnChangeListener | opentasks/src/main/java/org/dmfs/tasks/model/ContentSet.java:482-489 | the listener leaves the key's set; a key without a set is left alone |
| ContentSet.InsertXorUpdate | opentasks/src/main/java/org/dmfs/tasks/model/ContentSet.java:241-250 | a set is never both an insert and an update, and one with edits is one of the two |
| TaskAdapter.FieldValue | opentasks-provider/src/main/java/org/dmfs/provider/tasks/model/EntityAdapter.java:53-60 | a field reads as the change set's value when it holds the key, otherwise as the stored row's, and null for a new task |
| TaskAdapter.TaskAdapter.OldValueOf | opentasks-provider/src/main/java/org/dmfs/provider/tasks/model/EntityAdapter.java:63-71 | the old value is the stored one, null for a task that is not stored yet |
| TaskAdapter.TaskAdapter.Set | opentasks-provider/src/main/java/org/dmfs/provider/tasks/model/EntityAdapter.java:100-108 | the change set maps the key to the value and nothing else changes |
| TaskAdapter.TaskAdapter.Unset | opentasks-provider/src/main/java/org/dmfs/provider/tasks/model/EntityAdapter.java:111-117 | the key leaves the change set and nothing else changes |
| TaskAdapter.TaskAdapter.Duplicate | opentasks-provider/src/main/java/org/dmfs/provider/tasks/model/TaskAdapter.java:355-361 | a fresh, unstored task holding every value of this one except `_id` |
| TaskAdapter.SetReadsBack | opentasks-provider/src/main/java/org/dmfs/provider/tasks/model/EntityAdapter.java:60-108 | after setting, the field reads as the value set and counts as updated iff the task is new or the value differs from the stored one; other fields read as before |
| TaskAdapter.UnsetReadsStored | opentasks-provider/src/main/java/org/dmfs/provider/tasks/model/EntityAdapter.java:111-117 | after unsetting, the field keeps its stored value and is not updated |
| TaskAdapter.NotUpdatedReadsStored | opentasks-provider/src/main/java/org/dmfs/provider/tasks/model/EntityAdapter.java:60-81 | a field of a stored task that is not updated reads as its stored value |
| TaskAdapter.BoolValue | opentasks-provider/src/main/java/org/dmfs/provider/tasks/model/TaskAdapter.java:236-238 | a stored boolean reads back as true iff it was true |
| TaskAdapter.DatesValue | opentasks-provider/src/main/java/org/dmfs/provider/tasks/model/TaskAdapter.java:266-275 | a stored date list reads back as the list, and only the empty list is stored as null |
| AbstractFieldView.TextColorFromBackground | opentasks/src/main/java/org/dmfs/tasks/widget/AbstractFieldView.java:245-262 | the result is only dark grey 0xFF333333 or white, and dark grey exactly when ((3r + 4g + b) >> 3) · a / 255 exceeds 180 |
| AbstractFieldView.DeterminantBounds | opentasks/src/main/java/org/dmfs/tasks/widget/AbstractFieldView.java:247-252 | the determinant lies between 0 and the unscaled luminance, which is at most 255, and never exceeds the alpha |
| AbstractFieldView.TransparentIsWhite | opentasks/src/main/java/org/dmfs/tasks/widget/AbstractFieldView.java:250-261 | a fully transparent colour (alpha 0) always gets white text |
| AbstractFieldView.DarkNeedsBrightAndOpaque | opentasks/src/main/java/org/dmfs/tasks/widget/AbstractFieldView.java:251-256 | dark text needs both a luminance above 180 and an alpha above 180 |
| AbstractFieldView.OpaqueExtremes | opentasks/src/main/java/org/dmfs/tasks/widget/AbstractFieldView.java:245-262 | opaque white gets dark grey text, opaque black gets white text |
| AbstractFieldView.AbstractFieldView.GetCustomBackgroundColor | opentasks/src/main/java/org/dmfs/tasks/widget/AbstractFieldView.java:170-185 | no ContentSet gives null; the task-list option gives the list colour; otherwise the task option gives the task colour, or the list colour when the task has none; with neither option the result is null |
| AbstractFieldView.AbstractFieldView.SetValue | opentasks/src/main/java/org/dmfs/tasks/widget/AbstractFieldView.java:124-153 | the same ContentSet changes nothing; a different one is unregistered from, replaced, followed with an initial notification, and a custom background colour is applied only when there is one |
| ChecklistFieldAdapter.FirstStart | src/org/dmfs/tasks/model/adapters/ChecklistFieldAdapter.java:177-188 | a found position is a checklist start at or after the search origin, and no checklist start lies between the origin and it (or anywhere after the origin when none is found) |
| ChecklistFieldAdapter.FirstStartSkip | src/org/dmfs/tasks/model/adapters/ChecklistFieldAdapter.java:178-188 | skipping positions that are no checklist start does not change the first start found |
| ChecklistFieldAdapter.ParseLine | src/org/dmfs/tasks/model/adapters/ChecklistFieldAdapter.java:201-206 | a line gives no item iff it trims to the empty string |
| ChecklistFieldAdapter.ParseTrimmed | src/org/dmfs/tasks/model/adapters/ChecklistFieldAdapter.java:202-219 | only the empty line gives no item; a line without a "[x]", "[X]" or "[ ]" prefix is an unchecked item with the whole line as text |
| ChecklistFieldAdapter.ParseLines | src/org/dmfs/tasks/model/adapters/ChecklistFieldAdapter.java:196-221 | never more items than lines |
| ChecklistFieldAdapter.ExtractCheckList | src/org/dmfs/tasks/model/adapters/ChecklistFieldAdapter.java:173-191 | a null value or one shorter than three characters has no checklist |
| ChecklistFieldAdapter.ParseLinesSnoc | src/org/dmfs/tasks/model/adapters/ChecklistFieldAdapter.java:199-220 | one more line appends that line's item, if any, to the items so far |
| ChecklistFieldAdapter.ParseTrimmedLine | src/org/dmfs/tasks/model/adapters/ChecklistFieldAdapter.java:202-219 | the loop body gives exactly the item the parsing function gives |
| ChecklistFieldAdapter.ParseCheckListLines | src/org/dmfs/tasks/model/adapters/ChecklistFieldAdapter.java:194-222 | the loop over the split lines returns exactly the parsed checklist |
| ChecklistFieldAdapter.ExtractCheckListOf | src/org/dmfs/tasks/model/adapters/ChecklistFieldAdapter.java:173-191 | the search loop over the occurrences of '[' returns exactly the extracted checklist |
| ChecklistFieldAdapter.ExtractAt | src/org/dmfs/tasks/model/adapters/ChecklistFieldAdapter.java:180-186 | with the first checklist start at j, the checklist is the parse of the text from j on |
| ChecklistFieldAdapter.OpenBracketOccurs | src/org/dmfs/tasks/model/adapters/ChecklistFieldAdapter.java:178-180 | every checklist start is an occurrence of '[', so the indexOf loop misses none |
| ChecklistFieldAdapter.ItemLines | src/org/dmfs/tasks/model/adapters/ChecklistFieldAdapter.java:243-244 | one line per item, in order, each the item's mark, a space and its text |
| ChecklistFieldAdapter.SerializeCheckList | src/org/dmfs/tasks/model/adapters/ChecklistFieldAdapter.java:225-246 | a null list leaves the buffer as it was; otherwise the item lines joined with "\n" are appended |
| ChecklistFieldAdapter.AppendLine | src/org/dmfs/tasks/model/adapters/ChecklistFieldAdapter.java:241-244 | appending separator, mark, space and text one by one appends their concatenation |
| ChecklistFieldAdapter.SerializedSnoc | src/org/dmfs/tasks/model/adapters/ChecklistFieldAdapter.java:232-245 | the first item gives its line alone; each later one appends "\n" and its line |
| ChecklistFieldAdapter.Set | src/org/dmfs/tasks/model/adapters/ChecklistFieldAdapter.java:108-130 | the field becomes the old description followed by "\n" and the serialised list, or only the old description for a null or empty list; no other field changes |
| ChecklistFieldAdapter.ParseItemLine | src/org/dmfs/tasks/model/adapters/ChecklistFieldAdapter.java:201-219 | the line of a storable item parses back to that item |
| ChecklistFieldAdapter.TrimMarked | src/org/dmfs/tasks/model/adapters/ChecklistFieldAdapter.java:201 | trimming a mark, a space and trimmed text keeps the mark at the front and the text behind it |
| ChecklistFieldAdapter.ParseMarked | src/org/dmfs/tasks/model/adapters/ChecklistFieldAdapter.java:208-215 | a line starting with an item's mark whose rest trims to the item's text parses to the item |
| ChecklistFieldAdapter.TrimMarkSpace | src/org/dmfs/tasks/model/adapters/ChecklistFieldAdapter.java:201 | a mark followed by a space (empty text) trims to the mark |
| ChecklistFieldAdapter.ParseItemLines | src/org/dmfs/tasks/model/adapters/ChecklistFieldAdapter.java:196-221 | the lines of storable items parse back to the items |
| ChecklistFieldAdapter.ParseLinesOf | src/org/dmfs/tasks/model/adapters/ChecklistFieldAdapter.java:199-220 | lines that each parse to the corresponding item parse to the whole list |
| ChecklistFieldAdapter.ConsLast | src/org/dmfs/tasks/model/adapters/ChecklistFieldAdapter.java:199 | a non-empty sequence is its front followed by its last element |
| ChecklistFieldAdapter.SerializeParse | src/org/dmfs/tasks/model/adapters/ChecklistFieldAdapter.java:194-246 | round trip: parsing the serialisation of a non-empty list of storable items gives the list back |
| ChecklistFieldAdapter.DescriptionHasNoChecklist | src/org/dmfs/tasks/model/adapters/ChecklistFieldAdapter.java:111 | the description the setter keeps holds no checklist start |
| ChecklistFieldAdapter.SerializedStart | src/org/dmfs/tasks/model/adapters/ChecklistFieldAdapter.java:243 | a serialised non-empty list starts with a checklist start followed by a space |
| ChecklistFieldAdapter.ChecklistAfterDescription | src/org/dmfs/tasks/model/adapters/ChecklistFieldAdapter.java:115-121 | after a description without checklist start and a newline, the first checklist start is where the serialised list begins |
| ChecklistFieldAdapter.SetThenGet | src/org/dmfs/tasks/model/adapters/ChecklistFieldAdapter.java:82-130 | after setting a non-empty list of storable items, getting returns exactly that list, whatever the field held before |
| ChecklistFieldAdapter.GetAfterDescription | src/org/dmfs/tasks/model/adapters/ChecklistFieldAdapter.java:115-121 | a description, "\n" and a serialised list read back as the list |
| ChecklistFieldAdapter.GetWithoutDescription | src/org/dmfs/tasks/model/adapters/ChecklistFieldAdapter.java:115-121 | with a null description, the serialised list alone reads back as the list |
| ChecklistFieldAdapter.ClearThenGet | src/org/dmfs/tasks/model/adapters/ChecklistFieldAdapter.java:125-129 | after setting a null or empty list, no checklist is left |
| ChecklistFieldAdapter.SetKeepsDescription | src/org/dmfs/tasks/model/adapters/ChecklistFieldAdapter.java:111-121 | setting a list keeps the description in front of the checklist as it was |
| DescriptionFieldAdapter.UpToTerminatorFacts | opentasks/src/main/java/org/dmfs/tasks/model/adapters/DescriptionFieldAdapter.java:39 | the `(.*)` capture is a single-line prefix of the rest of the line that stops only at a line terminator or at the end |
| DescriptionFieldAdapter.UpToTerminatorSingleLine | opentasks/src/main/java/org/dmfs/tasks/model/adapters/DescriptionFieldAdapter.java:39 | on a single line the capture is the whole rest |
| DescriptionFieldAdapter.MatchCheckboxMeaning | opentasks/src/main/java/org/dmfs/tasks/model/adapters/DescriptionFieldAdapter.java:176-187 | with the pattern of line 39, a line is a checkbox line iff it starts with an optional "- " or "* " bullet and a mark "[x]", "[X]" or "[ ]"; x and X tick it, and the text is the capture after the mark |
| DescriptionFieldAdapter.ParseDescription | opentasks/src/main/java/org/dmfs/tasks/model/adapters/DescriptionFieldAdapter.java:161-217 | the loop over the split lines returns exactly the items of the paragraph fold |
| DescriptionFieldAdapter.ReadLine | opentasks/src/main/java/org/dmfs/tasks/model/adapters/DescriptionFieldAdapter.java:174-207 | one loop iteration updates items, open paragraph and mark exactly as one fold step |
| DescriptionFieldAdapter.ItemLines | opentasks/src/main/java/org/dmfs/tasks/model/adapters/DescriptionFieldAdapter.java:238-242 | one line per item, in order |
| DescriptionFieldAdapter.SerializeDescription | opentasks/src/main/java/org/dmfs/tasks/model/adapters/DescriptionFieldAdapter.java:220-244 | the loop writes exactly the item lines joined with "\n", a checkbox item prefixed by "- [x] " or "- [ ] " |
| DescriptionFieldAdapter.AppendItem | opentasks/src/main/java/org/dmfs/tasks/model/adapters/DescriptionFieldAdapter.java:236-242 | appending separator, prefix and text one by one appends their concatenation |
| DescriptionFieldAdapter.SerializedSnoc | opentasks/src/main/java/org/dmfs/tasks/model/adapters/DescriptionFieldAdapter.java:227-243 | the first item gives its line alone; each later one appends "\n" and its line |
| DescriptionFieldAdapter.ItemLinesSnoc | opentasks/src/main/java/org/dmfs/tasks/model/adapters/DescriptionFieldAdapter.java:228-243 | one more item appends its line |
| DescriptionFieldAdapter.Set | opentasks/src/main/java/org/dmfs/tasks/model/adapters/DescriptionFieldAdapter.java:110-125 | a null or empty list leaves the field reading as a null string, any other list as its serialised form; no other field changes |
| DescriptionFieldAdapter.ParseNull | opentasks/src/main/java/org/dmfs/tasks/model/adapters/DescriptionFieldAdapter.java:164-167 | a null description has no items |
| DescriptionFieldAdapter.MatchItemLine | opentasks/src/main/java/org/dmfs/tasks/model/adapters/DescriptionFieldAdapter.java:240-242 | the stored line of a storable checkbox item matches the pattern with the item's tick and its text after one space, under the pattern of line 39 |
| DescriptionFieldAdapter.StepCheckbox | opentasks/src/main/java/org/dmfs/tasks/model/adapters/DescriptionFieldAdapter.java:176-188 | reading such a line closes the open paragraph and opens the item's own |
| DescriptionFieldAdapter.ConsHeadTail | opentasks/src/main/java/org/dmfs/tasks/model/adapters/DescriptionFieldAdapter.java:172 | a non-empty sequence is its head followed by its tail |
| DescriptionFieldAdapter.ClosePending | opentasks/src/main/java/org/dmfs/tasks/model/adapters/DescriptionFieldAdapter.java:179-183 | closing a pending checkbox paragraph adds exactly its item, the text trimmed back |
| DescriptionFieldAdapter.FinishPending | opentasks/src/main/java/org/dmfs/tasks/model/adapters/DescriptionFieldAdapter.java:210-215 | the final close adds exactly the pending item |
| DescriptionFieldAdapter.FoldFrom | opentasks/src/main/java/org/dmfs/tasks/model/adapters/DescriptionFieldAdapter.java:172-215 | reading the remaining item lines with the previous item pending yields all the items |
| DescriptionFieldAdapter.FoldFromLast | opentasks/src/main/java/org/dmfs/tasks/model/adapters/DescriptionFieldAdapter.java:210-215 | after the last line, finishing closes the pending item |
| DescriptionFieldAdapter.FoldFromStep | opentasks/src/main/java/org/dmfs/tasks/model/adapters/DescriptionFieldAdapter.java:176-188 | the line of item k closes item k - 1 and leaves item k pending |
| DescriptionFieldAdapter.SerializeParse | opentasks/src/main/java/org/dmfs/tasks/model/adapters/DescriptionFieldAdapter.java:161-244 | round trip: parsing the serialisation of storable checkbox items gives the items back |
| DescriptionFieldAdapter.LineAvoidsNewline | opentasks/src/main/java/org/dmfs/tasks/model/adapters/DescriptionFieldAdapter.java:238-242 | the line of a storable item holds no "\n", so splitting keeps it whole |
| DescriptionFieldAdapter.SetThenGet | opentasks/src/main/java/org/dmfs/tasks/model/adapters/DescriptionFieldAdapter.java:84-125 | after `set`, `get` on the same ContentSet returns the stored checklist (an empty list reads back as empty) |
| DescriptionFieldAdapter.FoldPlain | opentasks/src/main/java/org/dmfs/tasks/model/adapters/DescriptionFieldAdapter.java:189-207 | plain lines read into an open plain paragraph are joined to it with "\n" |
| DescriptionFieldAdapter.PlainLinesOneParagraph | opentasks/src/main/java/org/dmfs/tasks/model/adapters/DescriptionFieldAdapter.java:189-215 | consecutive non-checkbox lines form one untrimmed plain item, joined with "\n" |
| DescriptionFieldAdapter.FoldPlainFromStart | opentasks/src/main/java/org/dmfs/tasks/model/adapters/DescriptionFieldAdapter.java:169-207 | from the start, plain lines build one open plain paragraph |
| DescriptionFieldAdapter.JoinNotEmpty | opentasks/src/main/java/org/dmfs/tasks/model/adapters/DescriptionFieldAdapter.java:211 | a joined paragraph starting with a non-empty line is non-empty, so it is closed at the end |
| DescriptionStringFieldAdapter.FindFrom | opentasks/src/main/java/org/dmfs/tasks/model/adapters/DescriptionStringFieldAdapter.java:128-153 | a found position is a newline followed by a checklist mark at or after the origin, and no such newline lies before it (none at all when nothing is found) |
| DescriptionStringFieldAdapter.Cut | opentasks/src/main/java/org/dmfs/tasks/model/adapters/DescriptionStringFieldAdapter.java:146-151 | the description ends at the newline or, after a CR, one position earlier |
| DescriptionStringFieldAdapter.Extract | opentasks/src/main/java/org/dmfs/tasks/model/adapters/DescriptionStringFieldAdapter.java:105-157 | a null value gives null and nothing else does; the description is always a prefix of the value |
| DescriptionStringFieldAdapter.FindFromSkip | opentasks/src/main/java/org/dmfs/tasks/model/adapters/DescriptionStringFieldAdapter.java:129-153 | skipping newlines not followed by a checklist mark does not change the position found |
| DescriptionStringFieldAdapter.ChecklistIsMarker | opentasks/src/main/java/org/dmfs/tasks/model/adapters/DescriptionStringFieldAdapter.java:129 | every checklist start after a newline is an occurrence of "\n[", so the indexOf loop misses none |
| DescriptionStringFieldAdapter.ExtractDescription | opentasks/src/main/java/org/dmfs/tasks/model/adapters/DescriptionStringFieldAdapter.java:105-157 | the search loop returns exactly the extracted description |
| DescriptionStringFieldAdapter.MarkAfter | opentasks/src/main/java/org/dmfs/tasks/model/adapters/DescriptionStringFieldAdapter.java:131-143 | an occurrence of "\n[" starts a checklist iff "]" follows, or a mark in " xX" and then "]" |
| DescriptionStringFieldAdapter.CutBefore | opentasks/src/main/java/org/dmfs/tasks/model/adapters/DescriptionStringFieldAdapter.java:146-151 | the cut is the newline's position, moved back over a CR |
| DescriptionStringFieldAdapter.SkipNonMarkers | opentasks/src/main/java/org/dmfs/tasks/model/adapters/DescriptionStringFieldAdapter.java:129 | positions where "\n[" does not occur are skipped without changing the result |
| DescriptionStringFieldAdapter.ExtractIsPrefix | opentasks/src/main/java/org/dmfs/tasks/model/adapters/DescriptionStringFieldAdapter.java:105-157 | the description is a prefix of the value, and the whole value when no checklist starts in it |
| DescriptionStringFieldAdapter.SetAsWritten | opentasks/src/main/java/org/dmfs/tasks/model/adapters/DescriptionStringFieldAdapter.java:72-89 | the field becomes the new description followed by the old checklist, with "\n" added unless the checklist starts with "\n"; no other field changes |
| DescriptionStringFieldAdapter.Set | opentasks/src/main/java/org/dmfs/tasks/model/adapters/DescriptionStringFieldAdapter.java:72-89 | as `set`, but a checklist separated by CR LF also gets no extra "\n"; no other field changes |
| DescriptionStringFieldAdapter.ChecklistShape | opentasks/src/main/java/org/dmfs/tasks/model/adapters/DescriptionStringFieldAdapter.java:78-82 | a non-empty checklist part starts with a checklist mark, after LF or CR LF or right away |
| DescriptionStringFieldAdapter.ChecklistAfterShift | opentasks/src/main/java/org/dmfs/tasks/model/adapters/DescriptionStringFieldAdapter.java:129-143 | a checklist start inside the second part of a concatenation is one in the whole, and back |
| DescriptionStringFieldAdapter.ExtractPlain | opentasks/src/main/java/org/dmfs/tasks/model/adapters/DescriptionStringFieldAdapter.java:105-157 | a value without any checklist line is its own description |
| DescriptionStringFieldAdapter.ExtractLeadingPlain | opentasks/src/main/java/org/dmfs/tasks/model/adapters/DescriptionStringFieldAdapter.java:128-152 | plain text followed by a checklist line after LF or CR LF has that text as its description |
| DescriptionStringFieldAdapter.GetAfterSet | opentasks/src/main/java/org/dmfs/tasks/model/adapters/DescriptionStringFieldAdapter.java:58-89 | after the corrected `set`, `get` returns exactly the description written, and the old checklist stays behind it, separated by one line break |
| DescriptionStringFieldAdapter.SetNullOverChecklist | opentasks/src/main/java/org/dmfs/tasks/model/adapters/DescriptionStringFieldAdapter.java:82 | setting a null description in front of a checklist stores the text "null" as the description |
| DescriptionStringFieldAdapter.SetAsWrittenCrLf | opentasks/src/main/java/org/dmfs/tasks/model/adapters/DescriptionStringFieldAdapter.java:146-151 | as written (with the line-break check of line 82), a CR LF separated checklist makes `get` return the new description followed by "\n" |
| TimezoneFieldAdapter.Create | opentasks/src/main/java/org/dmfs/tasks/model/adapters/TimezoneFieldAdapter.java:59-86 | construction fails exactly when the TZ field name is null, and otherwise keeps the three field names |
| TimezoneFieldAdapter.Get | opentasks/src/main/java/org/dmfs/tasks/model/adapters/TimezoneFieldAdapter.java:89-108 | no zone exactly for an all-day task; otherwise the stored zone id or the local default, with a reference time only when a reference field is configured |
| TimezoneFieldAdapter.Set | opentasks/src/main/java/org/dmfs/tasks/model/adapters/TimezoneFieldAdapter.java:217-231 | an all-day task's TZ reads as a null string whatever value is passed; otherwise a zone leaves TZ reading as its id and null leaves TZ unchanged; no other field changes |
| TimezoneFieldAdapter.SetIn | opentasks/src/main/java/org/dmfs/tasks/model/adapters/TimezoneFieldAdapter.java:234-248 | the same rule on a plain values map: all-day writes null, a zone writes its id, null changes nothing, other keys are untouched |
| TimezoneFieldAdapter.IsAllDayRow | opentasks/src/main/java/org/dmfs/tasks/model/adapters/TimezoneFieldAdapter.java:189-202 | a configured all-day column missing from the row is an error, and all-day holds only for a non-null value |
| TimezoneFieldAdapter.GetRow | opentasks/src/main/java/org/dmfs/tasks/model/adapters/TimezoneFieldAdapter.java:111-144 | a missing TZ or all-day column is an error; otherwise no zone exactly for an all-day row |
| TimezoneFieldAdapter.AllDayHasNoZone | opentasks/src/main/java/org/dmfs/tasks/model/adapters/TimezoneFieldAdapter.java:234-248 | after set on an all-day task it is still all-day and its TZ is null |
| TimezoneFieldAdapter.SetThenGetRow | opentasks/src/main/java/org/dmfs/tasks/model/adapters/TimezoneFieldAdapter.java:111-144 | after setting a zone on a task that is not all-day, reading the row back gives that zone |
| ExpandableChildDescriptor.NextQuestion | src/org/dmfs/tasks/utils/ExpandableChildDescriptor.java:97 | the result is -1 or the position of a '?' at or after the search start |
| ExpandableChildDescriptor.Loop | src/org/dmfs/tasks/utils/ExpandableChildDescriptor.java:94-116 | a successful loop ends at a position inside the template |
| ExpandableChildDescriptor.LoopFails | src/org/dmfs/tasks/utils/ExpandableChildDescriptor.java:97-101 | a round that finds no '?' fails with the substring exception, one that reads a column outside the row with the column error |
| ExpandableChildDescriptor.LoopNull | src/org/dmfs/tasks/utils/ExpandableChildDescriptor.java:97-115 | a null column value copies the text up to the '?', writes "null" instead of it and moves past it |
| ExpandableChildDescriptor.LoopKept | src/org/dmfs/tasks/utils/ExpandableChildDescriptor.java:97-115 | a non-null value copies the text up to the '?', keeps the '?' unread and appends the value to the arguments |
| ExpandableChildDescriptor.CursorQuery | src/org/dmfs/tasks/utils/ExpandableChildDescriptor.java:68-142 | with no selection columns the call fails with a NullPointerException, since the null argument array reaches `TextUtils.join` in the log statement at line 141; otherwise it fails only for too few placeholders or a column outside the row |
| ExpandableChildDescriptor.QueryOfBuilt | src/org/dmfs/tasks/utils/ExpandableChildDescriptor.java:118-138 | after the loop, the arguments get the filter's appended, the unread tail is appended when the position is past 0, and the selection is closed with ")" or ") and (filter)" |
| ExpandableChildDescriptor.BuildSelection | src/org/dmfs/tasks/utils/ExpandableChildDescriptor.java:81-116 | the loop over the selection columns returns exactly the recursive loop's result from "(" |
| ExpandableChildDescriptor.GetCursorLoader | src/org/dmfs/tasks/utils/ExpandableChildDescriptor.java:68-142 | returns exactly the query function's result: its selection and arguments, or its exception, the NullPointerException for no selection columns included |
| ExpandableChildDescriptor.LoopArgs | src/org/dmfs/tasks/utils/ExpandableChildDescriptor.java:101-113 | the loop's arguments are the earlier ones followed by the non-null column values in column order |
| ExpandableChildDescriptor.ArgumentsOfQuery | src/org/dmfs/tasks/utils/ExpandableChildDescriptor.java:89-123 | on any successful query the arguments are the non-null column values in column order, then the filter's arguments |
| ExpandableChildDescriptor.ColumnValues | src/org/dmfs/tasks/utils/ExpandableChildDescriptor.java:101 | one value per selection column |
| ExpandableChildDescriptor.NextQuestionIsIndexOf | src/org/dmfs/tasks/utils/ExpandableChildDescriptor.java:97 | the '?' search agrees with `indexOf` |
| ExpandableChildDescriptor.OccursQuestion | src/org/dmfs/tasks/utils/ExpandableChildDescriptor.java:97 | the one-character string "?" occurs at j iff the character there is '?' |
| ExpandableChildDescriptor.SubstitutedSkip | src/org/dmfs/tasks/utils/ExpandableChildDescriptor.java:75-79 | text without '?' in front passes through the reference substitution unchanged |
| ExpandableChildDescriptor.SubstitutedNone | src/org/dmfs/tasks/utils/ExpandableChildDescriptor.java:75-79 | text without '?' has no placeholder for a value, so the substitution fails |
| ExpandableChildDescriptor.FirstQuestion | src/org/dmfs/tasks/utils/ExpandableChildDescriptor.java:97 | the '?' found is the first at or after the start; none found means there is none |
| ExpandableChildDescriptor.SearchStart | src/org/dmfs/tasks/utils/ExpandableChildDescriptor.java:97 | in a template with no leading '?' and no "??", searching one character further after a substituted "null" finds what a search from the first unread character finds |
| ExpandableChildDescriptor.SubstitutedAt | src/org/dmfs/tasks/utils/ExpandableChildDescriptor.java:75-79 | the substitution splits at the first '?': the text before it, then "null" or "?", then the substitution of the rest |
| ExpandableChildDescriptor.AgreesStep | src/org/dmfs/tasks/utils/ExpandableChildDescriptor.java:94-116 | a round appending some text and a token agrees with the substitution prepending them |
| ExpandableChildDescriptor.PendingPrefix | src/org/dmfs/tasks/utils/ExpandableChildDescriptor.java:98 | the text copied up to the next '?' is a pending kept '?', if any, then the unread text |
| ExpandableChildDescriptor.MatchesDone | src/org/dmfs/tasks/utils/ExpandableChildDescriptor.java:125-129 | with no column left, the selection built and the unread tail are the substituted template |
| ExpandableChildDescriptor.MatchesMissing | src/org/dmfs/tasks/utils/ExpandableChildDescriptor.java:97-98 | when no '?' is left for a column, the loop and the substitution both fail |
| ExpandableChildDescriptor.RoundState | src/org/dmfs/tasks/utils/ExpandableChildDescriptor.java:97-115 | after a round that found a '?', the loop is again in a well-formed state |
| ExpandableChildDescriptor.RoundSplit | src/org/dmfs/tasks/utils/ExpandableChildDescriptor.java:97-115 | a round's copied text and token are what the substitution puts in front of the rest |
| ExpandableChildDescriptor.RoundNull | src/org/dmfs/tasks/utils/ExpandableChildDescriptor.java:102-108 | a "null" round keeps the loop in agreement with the substitution |
| ExpandableChildDescriptor.RoundKept | src/org/dmfs/tasks/utils/ExpandableChildDescriptor.java:109-113 | a kept round keeps the loop in agreement with the substitution |
| ExpandableChildDescriptor.LoopMatchesSubstitution | src/org/dmfs/tasks/utils/ExpandableChildDescriptor.java:94-129 | from any well-formed state the loop builds the text so far, the pending '?', then the substitution of the unread template |
| ExpandableChildDescriptor.SelectionOfQuery | src/org/dmfs/tasks/utils/ExpandableChildDescriptor.java:73-138 | for a template without a leading '?' or "??", the selection is "(" + the k-th '?' replaced by "null" exactly for null values + ")" or ") and (filter)", and the query fails iff there are fewer '?' than columns |
| TimeRangeCursorFactory.TypeFamilies | opentasks/src/main/java/org/dmfs/tasks/groupings/cursorloaders/TimeRangeCursorFactory.java:43-79 | every day, week, month and year type carries its family bit, and TYPE_NO_END is the negative Java int -2^31 |
| TimeRangeCursorFactory.TimeBounds | opentasks/src/main/java/org/dmfs/tasks/groupings/cursorloaders/TimeRangeCursorFactory.java:103-104 | MAX_TIME and MIN_TIME are half of Long.MAX_VALUE and Long.MIN_VALUE (rounded toward zero) |
| TimeRangeCursorFactory.WrittenPut | opentasks/src/main/java/org/dmfs/tasks/groupings/cursorloaders/TimeRangeCursorFactory.java:236-243 | writing a column into a row laid out by the projection is the same as recording it and laying the row out again |
| TimeRangeCursorFactory.MakeRowWritesColumns | opentasks/src/main/java/org/dmfs/tasks/groupings/cursorloaders/TimeRangeCursorFactory.java:191-233 | the writes makeRow performs give each column exactly its column value, and unwritten columns have none |
| TimeRangeCursorFactory.WrittenRow | opentasks/src/main/java/org/dmfs/tasks/groupings/cursorloaders/TimeRangeCursorFactory.java:191-233 | the row built from makeRow's writes is the projected row of the range |
| TimeRangeCursorFactory.CursorArgs | opentasks/src/main/java/org/dmfs/tasks/groupings/cursorloaders/TimeRangeCursorFactory.java:121-188 | the rows getCursor adds, group by group, are the null row, open past, five day rows and open future in that order |
| TimeRangeCursorFactory.TimeRangeCursorFactory.constructor | opentasks/src/main/java/org/dmfs/tasks/groupings/cursorloaders/TimeRangeCursorFactory.java:112-118 | the factory keeps the projection and the calendar it is given |
| TimeRangeCursorFactory.TimeRangeCursorFactory.InsertValue | opentasks/src/main/java/org/dmfs/tasks/groupings/cursorloaders/TimeRangeCursorFactory.java:236-243 | a projected column's cell gets the value, every other cell is unchanged, and an unprojected column changes nothing |
| TimeRangeCursorFactory.TimeRangeCursorFactory.MakeRow | opentasks/src/main/java/org/dmfs/tasks/groupings/cursorloaders/TimeRangeCursorFactory.java:191-233 | a fresh row as long as the projection whose cells are the projected column values of the range |
| TimeRangeCursorFactory.TimeRangeCursorFactory.WriteBounds | opentasks/src/main/java/org/dmfs/tasks/groupings/cursorloaders/TimeRangeCursorFactory.java:195-205 | after id, type, start, end and, for a bounded range, year and month of the midpoint, the row holds exactly those writes |
| TimeRangeCursorFactory.TimeRangeCursorFactory.WriteStart | opentasks/src/main/java/org/dmfs/tasks/groupings/cursorloaders/TimeRangeCursorFactory.java:207-215 | an open past writes open_past 1 and start offset 0, otherwise the zone offset of the start |
| TimeRangeCursorFactory.TimeRangeCursorFactory.WriteEnd | opentasks/src/main/java/org/dmfs/tasks/groupings/cursorloaders/TimeRangeCursorFactory.java:217-230 | an open future writes open_future 1 and end offset 0, otherwise the zone offset of the end, and a range with neither end writes null_row 1 |
| TimeRangeCursorFactory.TimeRangeCursorFactory.GetCursor | opentasks/src/main/java/org/dmfs/tasks/groupings/cursorloaders/TimeRangeCursorFactory.java:121-188 | the cursor has one row per range of the cursor rows, each the projected row of its range |
| TimeRangeCursorFactory.TimeRangeCursorFactory.AddRow | opentasks/src/main/java/org/dmfs/tasks/groupings/cursorloaders/TimeRangeCursorFactory.java:134-184 | appending a made row keeps rows and ranges in step |
| TimeRangeCursorFactory.OpenEnds | opentasks/src/main/java/org/dmfs/tasks/groupings/cursorloaders/TimeRangeCursorFactory.java:207-225 | open_past is 1 iff the start is null or at most MIN_TIME (and then its offset is 0), open_future is 1 iff the end is null or at least MAX_TIME (and then its offset is 0) |
| TimeRangeCursorFactory.NullRowAndCalendar | opentasks/src/main/java/org/dmfs/tasks/groupings/cursorloaders/TimeRangeCursorFactory.java:200-205 | null_row is 1 iff both ends are null; year and month are set iff both ends lie strictly inside the bounds |
| TimeRangeCursorFactory.KnownColumns | opentasks/src/main/java/org/dmfs/tasks/groupings/cursorloaders/TimeRangeCursorFactory.java:99-101 | only columns of the default projection ever receive a value |
| TimeRangeCursorFactory.OnlyProjected | opentasks/src/main/java/org/dmfs/tasks/groupings/cursorloaders/TimeRangeCursorFactory.java:236-243 | a non-null cell sits at the first position of its column, which is a default-projection column |
| TimeRangeCursorFactory.CursorRowsIds | opentasks/src/main/java/org/dmfs/tasks/groupings/cursorloaders/TimeRangeCursorFactory.java:134-184 | the row ids strictly increase |
| TimeRangeCursorFactory.CursorRowsChain | opentasks/src/main/java/org/dmfs/tasks/groupings/cursorloaders/TimeRangeCursorFactory.java:142-184 | every row after one with an end starts where that one ended, so the ranges tile the time line |
| TimeRangeCursorFactory.CursorRowsCount | opentasks/src/main/java/org/dmfs/tasks/groupings/cursorloaders/TimeRangeCursorFactory.java:132-185 | the cursor has between five and eight rows, with ids from 1 to 8 |
| TabConfig.TabOf | opentasks/src/main/java/org/dmfs/tasks/groupings/TabConfig.java:85-99 | a parsed tab keeps title, icon and id, and is visible unless the attribute says false |
| TabConfig.VisibleTabs | opentasks/src/main/java/org/dmfs/tasks/groupings/TabConfig.java:255-271 | the visible list is never longer than the tab list |
| TabConfig.VisibleMembers | opentasks/src/main/java/org/dmfs/tasks/groupings/TabConfig.java:255-271 | a tab is in the visible list iff it is a tab with visible set |
| TabConfig.NthVisibleIndex | opentasks/src/main/java/org/dmfs/tasks/groupings/TabConfig.java:255-271 | the i-th visible tab is a visible tab at some index j of the full list, with exactly i visible tabs before j |
| TabConfig.VisibleOrder | opentasks/src/main/java/org/dmfs/tasks/groupings/TabConfig.java:264-270 | visible tabs keep the order they have among all tabs |
| TabConfig.VisibleMonotone | opentasks/src/main/java/org/dmfs/tasks/groupings/TabConfig.java:264-270 | a prefix of the tabs has no more visible tabs than all of them |
| TabConfig.VisiblePrefix | opentasks/src/main/java/org/dmfs/tasks/groupings/TabConfig.java:264-270 | a longer prefix has at least as many visible tabs as a shorter one |
| TabConfig.VisibleIdempotent | opentasks/src/main/java/org/dmfs/tasks/groupings/TabConfig.java:255-271 | filtering the visible list again changes nothing |
| TabConfig.DefaultsVisible | opentasks/src/main/java/org/dmfs/tasks/groupings/TabConfig.java:98-99 | tabs without a visible attribute are all visible |
| TabConfig.TabsOf | opentasks/src/main/java/org/dmfs/tasks/groupings/TabConfig.java:149-150 | one tab per parsed element, position by position |
| TabConfig.TabConfig.Load | opentasks/src/main/java/org/dmfs/tasks/groupings/TabConfig.java:189-201 | the tabs are the parsed elements and the visible list is recomputed before the configuration is returned |
| TabConfig.TabConfig.UpdateVisible | opentasks/src/main/java/org/dmfs/tasks/groupings/TabConfig.java:255-271 | the tabs are unchanged and the visible list becomes the visible tabs in order |
| TabConfig.TabConfig.GetItem | opentasks/src/main/java/org/dmfs/tasks/groupings/TabConfig.java:211-214 | the tab at a position of the full list; an error exactly when the position is out of range |
| TabConfig.TabConfig.GetVisibleItem | opentasks/src/main/java/org/dmfs/tasks/groupings/TabConfig.java:224-227 | the tab at a position of the visible list; an error exactly when the position is out of range |
| TabConfig.TabConfig.Size | opentasks/src/main/java/org/dmfs/tasks/groupings/TabConfig.java:235-238 | the number of tabs |
| TabConfig.TabConfig.VisibleSize | opentasks/src/main/java/org/dmfs/tasks/groupings/TabConfig.java:246-249 | the number of visible tabs |
| TabConfig.VisibleItems | opentasks/src/main/java/org/dmfs/tasks/groupings/TabConfig.java:211-249 | with the visible list up to date, visibleSize is at most size and getVisibleItem(i) is the i-th visible tab of the full list, and visible |
| RecentlyUsedLists.WithoutEmpty | opentasks/src/main/java/org/dmfs/tasks/utils/RecentlyUsedLists.java:71-74 | empty segments are dropped; a list without empty segments is unchanged |
| RecentlyUsedLists.WithoutNullEntries | opentasks/src/main/java/org/dmfs/tasks/utils/RecentlyUsedLists.java:61-67 | no segment equal to "null" survives the cleaning, and the list never grows |
| RecentlyUsedLists.ParseAll | opentasks/src/main/java/org/dmfs/tasks/utils/RecentlyUsedLists.java:63-74 | on success every segment parses as a long to the id at its position; on failure some segment does not parse |
| RecentlyUsedLists.IdStrings | opentasks/src/main/java/org/dmfs/tasks/utils/RecentlyUsedLists.java:86-88 | one decimal rendering per id, position by position |
| RecentlyUsedLists.RenderReadsBack | opentasks/src/main/java/org/dmfs/tasks/utils/RecentlyUsedLists.java:48-91 | a list written by setList contains no "null" and reads back by getList as exactly the same ids |
| RecentlyUsedLists.ParseAllOfIdStrings | opentasks/src/main/java/org/dmfs/tasks/utils/RecentlyUsedLists.java:71-88 | parsing the renderings of long ids yields the ids again |
| RecentlyUsedLists.StoredIdsInRange | opentasks/src/main/java/org/dmfs/tasks/utils/RecentlyUsedLists.java:67-74 | every id read from the preference is within the signed 64-bit range |
| RecentlyUsedLists.UseOrderFacts | opentasks/src/main/java/org/dmfs/tasks/utils/RecentlyUsedLists.java:136-142 | after use the id is first, the order is duplicate-free, and the members are the old ones plus the id |
| RecentlyUsedLists.FirstAllowed | opentasks/src/main/java/org/dmfs/tasks/utils/RecentlyUsedLists.java:116-123 | nothing is found iff no recent id is allowed; a found id is the first recent id in the allowed list |
| RecentlyUsedLists.RecentlyUsedLists.constructor | opentasks/src/main/java/org/dmfs/tasks/utils/RecentlyUsedLists.java:50 | the object starts from the given preference value |
| RecentlyUsedLists.RecentlyUsedLists.SetList | opentasks/src/main/java/org/dmfs/tasks/utils/RecentlyUsedLists.java:86-91 | the preference becomes the comma-joined rendering of the ids |
| RecentlyUsedLists.RecentlyUsedLists.GetList | opentasks/src/main/java/org/dmfs/tasks/utils/RecentlyUsedLists.java:48-75 | returns the stored ids (none when unset, an error on an unparsable entry); a stored "null" is cleaned and the cleaned list written back, otherwise the preference is untouched |
| RecentlyUsedLists.RecentlyUsedLists.GetRecentFromList | opentasks/src/main/java/org/dmfs/tasks/utils/RecentlyUsedLists.java:104-125 | a null in the allowed list fails without touching the preference; otherwise the preference is left as getList leaves it (rewritten without "null" entries when it held any), and the result is the first recent allowed id, else the first allowed id, else an index error, or the read error of an unparsable preference |
| RecentlyUsedLists.RecentlyUsedLists.Use | opentasks/src/main/java/org/dmfs/tasks/utils/RecentlyUsedLists.java:136-142 | succeeds iff the stored list reads; then the stored order is the id followed by the old order without it, and on failure the preference is unchanged |
| RecentlyUsedLists.UseReadsBack | opentasks/src/main/java/org/dmfs/tasks/utils/RecentlyUsedLists.java:136-142 | the order written by use reads back unchanged by the next getList |
| RecentlyUsedLists.ReadAfterNullEntry | opentasks/src/main/java/org/dmfs/tasks/utils/RecentlyUsedLists.java:59-68 | the stored value "null,1,2" reads as ids 1 and 2 |
| RecentlyUsedLists.UseThreeRendersFirst | opentasks/src/main/java/org/dmfs/tasks/utils/RecentlyUsedLists.java:136-142 | using 3 on the list 1,2 stores "3,1,2" |
| SettingsListFragment.Toggle | opentasks/src/main/java/org/dmfs/tasks/SettingsListFragment.java:421-433 | a recorded id is forgotten; an unrecorded id is recorded with the given value |
| SettingsListFragment.ToggleTwice | opentasks/src/main/java/org/dmfs/tasks/SettingsListFragment.java:310-313 | changing the same list twice reverts the map to its original state |
| SettingsListFragment.ToggleCommutes | opentasks/src/main/java/org/dmfs/tasks/SettingsListFragment.java:421-433 | changes to different lists commute |
| SettingsListFragment.BoundCheck | opentasks/src/main/java/org/dmfs/tasks/SettingsListFragment.java:380-394 | a null compare column leaves the checkbox alone; otherwise it shows the recorded value, else whether the stored value is 1 |
| SettingsListFragment.UpdateFor | opentasks/src/main/java/org/dmfs/tasks/SettingsListFragment.java:509-512 | the update selects the list by its id and writes "1" exactly when the value is true and "0" exactly when it is false |
| SettingsListFragment.UpdateForId | opentasks/src/main/java/org/dmfs/tasks/SettingsListFragment.java:511 | the list id reads back from the update's selection argument |
| SettingsListFragment.KeysCard | opentasks/src/main/java/org/dmfs/tasks/SettingsListFragment.java:507 | a map keyed by exactly the ids of a duplicate-free order has one key per id, so iterating its key set visits each recorded id once |
| SettingsListFragment.VisibleListAdapter.constructor | opentasks/src/main/java/org/dmfs/tasks/SettingsListFragment.java:320 | the map of recorded changes starts empty |
| SettingsListFragment.VisibleListAdapter.AddToState | opentasks/src/main/java/org/dmfs/tasks/SettingsListFragment.java:421-433 | the map is toggled for the id; the result is true exactly when the id is recorded afterwards, i.e. when it was not before |
| SettingsListFragment.VisibleListAdapter.ClearHashMap | opentasks/src/main/java/org/dmfs/tasks/SettingsListFragment.java:436-439 | the map becomes empty |
| SettingsListFragment.SettingsListFragment.constructor | opentasks/src/main/java/org/dmfs/tasks/SettingsListFragment.java:131-142 | the fragment keeps the compare column and a fresh adapter with no recorded changes |
| SettingsListFragment.SettingsListFragment.OnItemClick | opentasks/src/main/java/org/dmfs/tasks/SettingsListFragment.java:273-280 | the checkbox flips and the flipped value is toggled into the map for the row's id |
| SettingsListFragment.SettingsListFragment.SaveListState | opentasks/src/main/java/org/dmfs/tasks/SettingsListFragment.java:502-531 | the batch holds exactly one update per recorded id, each writing the recorded value to the compare column; the result is the batch's outcome |
| SettingsListFragment.SettingsListFragment.DoneSaveListState | opentasks/src/main/java/org/dmfs/tasks/SettingsListFragment.java:534-537 | the recorded changes are dropped |
| SettingsListFragment.ClickThenBind | opentasks/src/main/java/org/dmfs/tasks/SettingsListFragment.java:273-394 | after a click on an unchanged list the bound checkbox shows the flipped value |
| SettingsListFragment.ClickTwice | opentasks/src/main/java/org/dmfs/tasks/SettingsListFragment.java:273-394 | two clicks on the same list leave no recorded change and show the original value |
| TasksListCursorAdapter.TasksListCursorAdapter.constructor | opentasks/src/main/java/org/dmfs/tasks/utils/TasksListCursorAdapter.java:49-58 | nothing selected, no listener, no listener calls |
| TasksListCursorAdapter.TasksListCursorAdapter.SetSelectionEnabledListener | opentasks/src/main/java/org/dmfs/tasks/utils/TasksListCursorAdapter.java:61-64 | only the listener changes |
| TasksListCursorAdapter.TasksListCursorAdapter.SwapCursor | opentasks/src/main/java/org/dmfs/tasks/utils/TasksListCursorAdapter.java:67-86 | a new cursor selects all of its lists in row order; a null cursor keeps the selection |
| TasksListCursorAdapter.TasksListCursorAdapter.Click | opentasks/src/main/java/org/dmfs/tasks/utils/TasksListCursorAdapter.java:133-163 | the box flips; a checked id is added unless present, an unchecked one removed; the listener hears "enabled" when the selection goes from empty to non-empty and "disabled" for the reverse |
| TasksListCursorAdapter.ClickKeepsDistinct | opentasks/src/main/java/org/dmfs/tasks/utils/TasksListCursorAdapter.java:133-150 | a click keeps the selection duplicate-free; afterwards the id is selected iff its box is checked, and no other id changes |
| TasksListCursorAdapter.CheckThenUncheck | opentasks/src/main/java/org/dmfs/tasks/utils/TasksListCursorAdapter.java:133-150 | checking and then unchecking an unselected list restores the selection |
| TasksListCursorAdapter.RemoveLast | opentasks/src/main/java/org/dmfs/tasks/utils/TasksListCursorAdapter.java:149 | removing an id that was only appended at the end gives the list before the append |
| TaskNotificationHandler.PinnedTaskStore.constructor | opentasks/src/main/java/org/dmfs/tasks/notification/TaskNotificationHandler.java:166 | the store starts from the given preference value, possibly unset |
| TaskNotificationHandler.PinnedTaskStore.SavePinnedTasks | opentasks/src/main/java/org/dmfs/tasks/notification/TaskNotificationHandler.java:142-155 | the preference becomes the URIs joined with ",," |
| TaskNotificationHandler.PinnedTaskStore.SavePinnedTaskAsWritten | opentasks/src/main/java/org/dmfs/tasks/notification/TaskNotificationHandler.java:164-170 | the stored string, with null rendered as "null", followed by ",," and the URI |
| TaskNotificationHandler.PinnedTaskStore.SavePinnedTask | opentasks/src/main/java/org/dmfs/tasks/notification/TaskNotificationHandler.java:164-170 | the URI is appended to the stored list, an unset or empty preference counting as the empty list |
| TaskNotificationHandler.PinnedTaskStore.GetPinnedTaskUris | opentasks/src/main/java/org/dmfs/tasks/notification/TaskNotificationHandler.java:173-186 | no URIs for an unset preference, otherwise every piece of the ",," split |
| TaskNotificationHandler.PinnedTaskStore.IsTaskPinned | opentasks/src/main/java/org/dmfs/tasks/notification/TaskNotificationHandler.java:123-133 | true iff the URI is among the stored pinned URIs |
| TaskNotificationHandler.PinnedTaskStore.PinTask | opentasks/src/main/java/org/dmfs/tasks/notification/TaskNotificationHandler.java:75-80 | the stored string (null printed as "null") gains ",," and the task's URI, as savePinnedTask is written, and the task's PINNED flag reads as the integer 1; no other value of the task changes |
| TaskNotificationHandler.PinnedTaskStore.PinTaskIntended | opentasks/src/main/java/org/dmfs/tasks/notification/TaskNotificationHandler.java:75-80 | the corrected half of the append finding: the task's URI is appended to the stored list, an unset or empty preference counting as empty, and the PINNED flag reads as the integer 1; no other value changes |
| TaskNotificationHandler.PinnedTaskStore.UnpinTask | opentasks/src/main/java/org/dmfs/tasks/notification/TaskNotificationHandler.java:91-94 | the PINNED flag reads as the integer 0, no other value of the task changes, and the stored list is left as it was |
| TaskNotificationHandler.SaveThenRead | opentasks/src/main/java/org/dmfs/tasks/notification/TaskNotificationHandler.java:142-186 | a non-empty list of storable URIs saved by savePinnedTasks reads back as the same list |
| TaskNotificationHandler.EmptyListReadsBackOneEmptyUri | opentasks/src/main/java/org/dmfs/tasks/notification/TaskNotificationHandler.java:142-186 | an empty list is saved as "" and reads back as one empty URI |
| TaskNotificationHandler.AppendPinnedExtends | opentasks/src/main/java/org/dmfs/tasks/notification/TaskNotificationHandler.java:164-170 | appending to a store that encodes a list yields a store that encodes the list plus the URI |
| TaskNotificationHandler.AppendPinnedReadsBack | opentasks/src/main/java/org/dmfs/tasks/notification/TaskNotificationHandler.java:164-186 | after appending, the pinned URIs read back as the old ones followed by the new one |
| TaskNotificationHandler.AppendAsWrittenOnUnsetStore | opentasks/src/main/java/org/dmfs/tasks/notification/TaskNotificationHandler.java:166-167 | as written, pinning with nothing stored reads back as "null" followed by the URI, not just the URI |
| TaskNotificationHandler.AppendAsWrittenOnEmptyStore | opentasks/src/main/java/org/dmfs/tasks/notification/TaskNotificationHandler.java:166-167 | as written, pinning after an empty list was saved reads back as an empty URI followed by the URI |
| NotificationAction.Encoding | src/org/dmfs/tasks/notification/NotificationActionUtils.java:473-481 | six values: type, text resource, notification id, URI, time and title |
| NotificationAction.Decode | src/org/dmfs/tasks/notification/NotificationActionUtils.java:500-508 | a decoded action re-encodes to exactly the first six values read |
| NotificationAction.DecodeEncoding | src/org/dmfs/tasks/notification/NotificationActionUtils.java:473-508 | reading back what was written gives every field back, whatever follows in the parcel |
| NotificationAction.Parcel.constructor | src/org/dmfs/tasks/notification/NotificationActionUtils.java:404 | an empty parcel read from the start |
| NotificationAction.Parcel.Write | src/org/dmfs/tasks/notification/NotificationActionUtils.java:475-480 | appends one value and leaves the read position |
| NotificationAction.Parcel.Read | src/org/dmfs/tasks/notification/NotificationActionUtils.java:502-507 | returns the value at the read position and advances it, or nothing at the end |
| NotificationAction.WriteToParcel | src/org/dmfs/tasks/notification/NotificationActionUtils.java:473-481 | appends exactly the six encoded values |
| NotificationAction.FromParcel | src/org/dmfs/tasks/notification/NotificationActionUtils.java:483-508 | reads the action the remaining values decode to, consuming six values when it succeeds |
| NotificationAction.ParcelRoundTrip | src/org/dmfs/tasks/notification/NotificationActionUtils.java:402-408 | an action written to a fresh parcel and read back from the start by the constructor of lines 483-508 is equal to the original |
| NotificationAction.UndoBookkeeping.constructor | src/org/dmfs/tasks/notification/NotificationActionUtils.java:69-76 | no timestamps recorded and the timeout unset (-1) |
| NotificationAction.UndoBookkeeping.CreateUndoNotification | src/org/dmfs/tasks/notification/NotificationActionUtils.java:273-313 | records the action's time under its notification id and changes nothing else |
| NotificationAction.UndoBookkeeping.ProcessUndoNotification | src/org/dmfs/tasks/notification/NotificationActionUtils.java:385-389 | forgets the notification id's time and changes nothing else |
| NotificationAction.UndoBookkeeping.RegisterUndoTimeout | src/org/dmfs/tasks/notification/NotificationActionUtils.java:330-342 | fixes the timeout at 10000 ms the first time and triggers at the elapsed real time plus the timeout |
| NotificationAction.ProcessUndoesCreate | src/org/dmfs/tasks/notification/NotificationActionUtils.java:312 | for an id not yet recorded, processing the undo notification (line 388) after its creation leaves the timestamps as they were |

## Left out

- SQLite, cursors, the ContentResolver, SharedPreferences, Intents, the AlarmManager and the notification APIs are replaced by plain values. Rows and query results are maps and sequences, the preference is a string and a parcel is a sequence of fields.
- The DDL statements of `onUpgrade` (table, view, trigger and index creation) are recorded as events in order, not executed. The full-text-search upgrade and the upgrade listener are recorded the same way.
- Transactions and concurrency are left out because they depend on a real database and real threads. This covers the provider's batching and yield points, its atomic flags and handler thread, and the lock and handler posting of `ContentOperation`.
- Date, time-zone and recurrence arithmetic are parameters. The reason is that the `Time`, `TimeZone` and RFC 5545 (recurrence) libraries they use are not part of this model.
  - The current time is an argument.
  - `TimeRangeCursorFactory.TimeRangeCursorFactory.GetCursor` receives the six day boundaries it would compute, and a `Calendar` that supplies year, month and zone offset.
  - `TimeZoneChoicesAdapter` receives a zone-offset function and a display-name function.
- The Android calls made beside the modelled bookkeeping are left out because they are side effects on the platform and return nothing to the code. These are broadcasts, alarm scheduling, log output, the foreground service started by `pinTask`, and listener callbacks beyond the record of which listener was notified.
- TimeZoneChoicesAdapter.TimeZoneChoicesAdapter.constructor: models the loop over the configured ids and the sort. It leaves out adding GMT and the other available platform zones. Both depend on `TimeZoneWrapper` equality and on the platform's zone list, which are not part of this model.
- ContentSet.ContentSet.Put: models the Integer, Long and String overloads. The Float overload is left out, because floating point is out of scope.
- TimeZoneChoicesAdapter.TimeZoneChoicesAdapter.SortIds: orders by the exact offset, where the Java comparator returns the `int` difference of two offsets. The two agree whenever that difference fits in an `int`, which holds for offsets below 2^30 ms in magnitude and so for every real zone. The same holds for the sort in the constructor.
- NotificationAction.Decode: a parcel with fewer than six values, or a value of another type, decodes to nothing. Android's `Parcel` would instead read default values (null or 0) past the end of its data, and that platform behaviour is not modelled.
- NGramGenerator: word characters and lower-casing are ASCII. The Unicode letter and mark classes and locale-specific case mapping of `\p{L}\p{M}` and `toLowerCase(Locale)` are not modelled.
- Instantiating and TaskValueDelegate: the recurrence-expanding pieces they call (`Diff`, `DiffMap`, `InstanceValuesIterable`, the wrapped task processor and `copyProperties`) are inputs or recorded calls, not computations.
- TaskAdapter.TaskAdapter.constructor: a task's `isRecurring` is a given flag, because it derives from recurrence fields that are not part of this model.
- ExpandableChildDescriptor.SelectionOfQuery: relates the built selection to the substitution only for templates with no '?' at the start and no two '?' side by side. The loop itself is modelled for every template.
- UI rendering, floating-point computation and resource or XML inflation around the modelled code are out of scope, because they hold no standalone logic.
- The legacy copies under `src/` of rules already modelled from `opentasks/` are modelled once. Examples are `ContentSet`, `TimeZoneChoicesAdapter` and the pinned-task codec.

## Findings

| source | as written | input that shows it | evidently intended | confidence | as-written member | corrected member |
|---|---|---|---|---|---|---|
| opentasks-provider/src/main/java/org/dmfs/ngrams/NGramGenerator.java:188-195 | the space-in-front gram is copied out of the reused buffer without clearing the characters past the word, so a word shorter than n-1 keeps characters of the previous contents | n = 3 and the word "a": from a fresh buffer the gram is " a" followed by a NUL character, and after the word "xyz" it is " ay", instead of " a" | the gram of a short word is a space followed by the whole word | not executed | NGramGenerator.NGramGenerator.AddWordNgramsAsWritten, NGramGenerator.NGramGenerator.GetNgrams, NGramGenerator.StaleSpaceGram, NGramGenerator.StaleSpaceGramInText | NGramGenerator.NGramGenerator.AddWordNgrams, NGramGenerator.NGramGenerator.GetNgramsIntended, NGramGenerator.WordsAsWrittenAgrees |
| opentasks/src/main/java/org/dmfs/tasks/notification/TaskNotificationHandler.java:166-167 | `savePinnedTask` appends ",," and the URI to the stored string even when nothing is stored, and a missing preference is printed as "null" | no pinned tasks stored and the URI u: the store reads back as ["null", u] | the store reads back as the old URIs followed by u, and just [u] when nothing was stored | not executed | TaskNotificationHandler.PinnedTaskStore.SavePinnedTaskAsWritten, TaskNotificationHandler.PinnedTaskStore.PinTask, TaskNotificationHandler.AppendAsWrittenOnUnsetStore | TaskNotificationHandler.PinnedTaskStore.SavePinnedTask, TaskNotificationHandler.PinnedTaskStore.PinTaskIntended, TaskNotificationHandler.AppendPinnedReadsBack |
| opentasks/src/main/java/org/dmfs/tasks/notification/TaskNotificationHandler.java:166-167 | the same append applied to a store holding the empty string adds an empty URI in front | stored value "" and the URI u: the store reads back as ["", u] | the store reads back as [u] | not executed | TaskNotificationHandler.AppendAsWritten, TaskNotificationHandler.AppendAsWrittenOnEmptyStore | TaskNotificationHandler.AppendPinned, TaskNotificationHandler.AppendPinnedReadsBack |
| opentasks/src/main/java/org/dmfs/tasks/model/adapters/DescriptionStringFieldAdapter.java:146-151 | `set` adds a "\n" separator unless the stored checklist starts with "\n", but the checklist may start with "\r\n" (line 82) | a stored "a\r\n[x] b" and the new description "c": `get` afterwards returns "c\n" | `get` afterwards returns "c" | not executed | DescriptionStringFieldAdapter.SetAsWritten, DescriptionStringFieldAdapter.SetAsWrittenCrLf | DescriptionStringFieldAdapter.Set, DescriptionStringFieldAdapter.GetAfterSet |
| opentasks-provider/src/main/java/org/dmfs/provider/tasks/processors/tasks/Instantiating.java:177-197 | the guard `count++ > 1` that stops an override with more than one instance lets two instance rows through | an override whose task has two instance rows: both are processed without an error | an override has exactly one instance row, and a second row is rejected | not executed | Instantiating.UpdateOverrideInstanceAsWritten, Instantiating.OverrideCountAsWritten | Instantiating.UpdateOverrideInstance |
| opentasks-provider/src/main/java/org/dmfs/provider/tasks/processors/tasks/Instantiating.java:285-307 | the comparators return the sign of a `long` subtraction, which wraps around for times far apart | original times 2^62 and -2^62 compare as -1 in both orders; a null expected time (read as 0) against a row time of Long.MIN_VALUE compares as -1 | the comparators give the sign of the true difference (the original-time one with null first), so the first pair compares as 1 and the row case as 1 | not executed | Instantiating.CompareOriginalTimesAsWritten, Instantiating.AsWrittenOverflows, Instantiating.CompareWithRowAsWritten, Instantiating.RowComparatorOverflows | Instantiating.CompareOriginalTimes, Instantiating.CompareOriginalTimesOrders, Instantiating.CompareWithRow |
| opentasks-provider/src/main/java/org/dmfs/provider/tasks/TaskProvider.java:1283-1291 | on insert, `validateCategoryValues` does not check the account name and type, although its messages say both are required on INSERT | an empty value map with isNew = true passes | an insert without account name or account type is rejected | not executed (low) | TaskProvider.ValidateCategoryValues, TaskProvider.CategoryInsertRequiresNothing | TaskProvider.ValidateCategoryValuesIntended, TaskProvider.CategoryIntendedMeaning |
