/**
 * The task provider's query-parameter flags, selection builders, value validators,
 * MIME types and its reaction to a database upgrade.
 */
module TaskProvider {
  import opened Wrappers
  import ContentOperation
  import Text

  // ------------------------------------------------------------------ URI flags

  /** The query part of a content URI: its parameters in order, already decoded. */
  datatype Uri = Uri(query: seq<(string, string)>)

  const CALLER_IS_SYNCADAPTER: string := "caller_is_syncadapter"
  const LOAD_PROPERTIES: string := "load_properties"
  const ACCOUNT_NAME: string := "account_name"
  const ACCOUNT_TYPE: string := "account_type"

  /** `Uri.getQueryParameter`: the value of the first parameter named `key`, or null. */
  function QueryParameter(uri: Uri, key: string): (r: Option<string>)
    ensures r.Some? <==> exists i :: 0 <= i < |uri.query| && uri.query[i].0 == key
    ensures r.Some? ==> exists i :: 0 <= i < |uri.query| && uri.query[i] == (key, r.value) &&
                                    forall j :: 0 <= j < i ==> uri.query[j].0 != key
    decreases |uri.query|
  {
    if |uri.query| == 0 then None
    else if uri.query[0].0 == key then Some(uri.query[0].1)
    else
      var r := QueryParameter(Uri(uri.query[1..]), key);
      assert forall i :: 1 <= i < |uri.query| ==> uri.query[i] == uri.query[1..][i - 1];
      r
  }

  /** A boolean query flag: set unless absent or exactly "false". */
  predicate Flag(param: Option<string>)
  {
    param != None && param != Some("false")
  }

  predicate IsCallerSyncAdapter(uri: Uri)
  {
    Flag(QueryParameter(uri, CALLER_IS_SYNCADAPTER))
  }

  predicate ShouldLoadProperties(uri: Uri)
  {
    Flag(QueryParameter(uri, LOAD_PROPERTIES))
  }

  /** Both flags are true iff the parameter is present and not exactly "false" (so "FALSE" and "" count as true). */
  lemma FlagsMeaning(uri: Uri)
    ensures IsCallerSyncAdapter(uri) <==>
      (exists i :: 0 <= i < |uri.query| && uri.query[i].0 == CALLER_IS_SYNCADAPTER)
      && QueryParameter(uri, CALLER_IS_SYNCADAPTER).value != "false"
    ensures ShouldLoadProperties(uri) <==>
      (exists i :: 0 <= i < |uri.query| && uri.query[i].0 == LOAD_PROPERTIES)
      && QueryParameter(uri, LOAD_PROPERTIES).value != "false"
    ensures IsCallerSyncAdapter(Uri([(CALLER_IS_SYNCADAPTER, "FALSE")]))
    ensures !IsCallerSyncAdapter(Uri([(CALLER_IS_SYNCADAPTER, "false"), (CALLER_IS_SYNCADAPTER, "true")]))
  {
  }

  // ------------------------------------------------------------------ SQL string literals

  /** Each single quote doubled, as `DatabaseUtils.appendEscapedSQLString` writes the body of the literal. */
  function DoubleQuotes(s: string): string
  {
    if |s| == 0 then ""
    else (if s[0] == '\'' then "''" else [s[0]]) + DoubleQuotes(s[1..])
  }

  /** `DatabaseUtils.appendEscapedSQLString`: the value as an SQL string literal. */
  function Escape(s: string): string
  {
    "'" + DoubleQuotes(s) + "'"
  }

  /** How SQLite reads the body of a string literal: "''" stands for one quote, a lone quote ends it. */
  function UndoubleQuotes(s: string): Option<string>
  {
    if |s| == 0 then Some("")
    else if s[0] != '\'' then
      var rest := UndoubleQuotes(s[1..]);
      if rest.Some? then Some([s[0]] + rest.value) else None
    else if |s| >= 2 && s[1] == '\'' then
      var rest := UndoubleQuotes(s[2..]);
      if rest.Some? then Some("'" + rest.value) else None
    else None
  }

  /** The value of an SQL string literal, if `lit` is one. */
  function Unquote(lit: string): Option<string>
  {
    if |lit| >= 2 && lit[0] == '\'' && lit[|lit| - 1] == '\'' then UndoubleQuotes(lit[1..|lit| - 1]) else None
  }

  lemma {:induction false} UndoubleDouble(s: string)
    ensures UndoubleQuotes(DoubleQuotes(s)) == Some(s)
  {
    if |s| > 0 {
      UndoubleDouble(s[1..]);
      var d := DoubleQuotes(s);
      if s[0] == '\'' {
        assert d[2..] == DoubleQuotes(s[1..]);
      } else {
        assert d[1..] == DoubleQuotes(s[1..]);
      }
      assert s == [s[0]] + s[1..];
    }
  }

  /** An escaped value reads back as exactly the value, so names with quotes cannot break out of the literal. */
  lemma UnquoteEscape(s: string)
    ensures Unquote(Escape(s)) == Some(s)
  {
    UndoubleDouble(s);
    var e := Escape(s);
    assert e[1..|e| - 1] == DoubleQuotes(s);
  }

  // ------------------------------------------------------------------ selection builders

  /** `clause` appended to `sb`, preceded by " AND " iff `sb` is not empty. */
  function AndAppend(sb: string, clause: string): (r: string)
    ensures |sb| == 0 ==> r == clause
    ensures |sb| > 0 ==> r == sb + " AND " + clause
  {
    sb + (if |sb| > 0 then " AND " else "") + clause
  }

  /** The account selection `selectAccount` appends for the given name and type parameters. */
  function AccountSelection(sb: string, name: Option<string>, accountType: Option<string>): string
  {
    var withName := if name.Some? then AndAppend(sb, ACCOUNT_NAME + "=" + Escape(name.value)) else sb;
    if accountType.Some? then AndAppend(withName, ACCOUNT_TYPE + "=" + Escape(accountType.value)) else withName
  }

  /** The account selection appends nothing when both parameters are absent. */
  lemma AccountSelectionNone(sb: string)
    ensures AccountSelection(sb, None, None) == sb
  {
  }

  /** The account selection keeps the buffer as a prefix. */
  lemma AccountSelectionPrefix(sb: string, name: Option<string>, accountType: Option<string>)
    ensures sb <= AccountSelection(sb, name, accountType)
  {
    var withName := if name.Some? then AndAppend(sb, ACCOUNT_NAME + "=" + Escape(name.value)) else sb;
    if name.Some? {
      AndAppendPrefix(sb, ACCOUNT_NAME + "=" + Escape(name.value));
    }
    if accountType.Some? {
      AndAppendPrefix(withName, ACCOUNT_TYPE + "=" + Escape(accountType.value));
    }
  }

  lemma AndAppendPrefix(sb: string, clause: string)
    ensures sb <= AndAppend(sb, clause)
  {
    assert AndAppend(sb, clause) == sb + ((if |sb| > 0 then " AND " else "") + clause);
  }

  /** On an empty buffer the name clause comes first, then " AND ", then the type clause. */
  lemma AccountSelectionBoth(name: string, accountType: string)
    ensures AccountSelection("", Some(name), Some(accountType))
         == ACCOUNT_NAME + "=" + Escape(name) + " AND " + ACCOUNT_TYPE + "=" + Escape(accountType)
  {
    var c1 := ACCOUNT_NAME + "=" + Escape(name);
    var c2 := ACCOUNT_TYPE + "=" + Escape(accountType);
    assert AndAppend("", c1) == c1;
    assert |c1| > 0;
    assert AndAppend(c1, c2) == c1 + " AND " + c2;
    assert c1 + " AND " + c2 == ACCOUNT_NAME + "=" + Escape(name) + " AND " + ACCOUNT_TYPE + "=" + Escape(accountType);
  }

  /** On a non-empty buffer a lone name clause is joined by " AND ". */
  lemma AccountSelectionNameOnly(sb: string, name: string)
    requires |sb| > 0
    ensures AccountSelection(sb, Some(name), None) == sb + " AND " + ACCOUNT_NAME + "=" + Escape(name)
  {
    var c1 := ACCOUNT_NAME + "=" + Escape(name);
    assert AndAppend(sb, c1) == sb + " AND " + c1;
    assert sb + " AND " + c1 == sb + " AND " + ACCOUNT_NAME + "=" + Escape(name);
  }

  /** The `StringBuilder` a selection is assembled in. */
  class SelectionBuilder {
    var text: string

    constructor (initial: string)
      ensures text == initial
    {
      text := initial;
    }

    /** `selectAccount(StringBuilder, Uri)`. */
    method SelectAccount(uri: Uri)
      modifies this
      ensures text == AccountSelection(old(text), QueryParameter(uri, ACCOUNT_NAME), QueryParameter(uri, ACCOUNT_TYPE))
    {
      var accountName := QueryParameter(uri, ACCOUNT_NAME);
      var accountType := QueryParameter(uri, ACCOUNT_TYPE);
      ghost var before := text;
      if accountName.Some? || accountType.Some? {
        if accountName.Some? {
          var clause := ACCOUNT_NAME + "=" + Escape(accountName.value);
          ghost var sb := text;
          if |text| > 0 {
            text := text + " AND ";
          }
          text := text + clause;
          assert text == AndAppend(sb, clause);
        }
        ghost var withName := text;
        assert withName == if accountName.Some? then AndAppend(before, ACCOUNT_NAME + "=" + Escape(accountName.value)) else before;
        if accountType.Some? {
          var clause := ACCOUNT_TYPE + "=" + Escape(accountType.value);
          if |text| > 0 {
            text := text + " AND ";
          }
          text := text + clause;
          assert text == AndAppend(withName, clause);
        }
      }
    }

    /** `_selectId`: appends "key=id", after " AND " iff the buffer was not empty. */
    method SelectId(id: int, key: string)
      modifies this
      ensures text == AndAppend(old(text), key + "=" + Text.IntToString(id))
    {
      if |text| > 0 {
        text := text + " AND ";
      }
      text := text + key + "=" + Text.IntToString(id);
    }

    /** `updateSelection`: adds the caller's selection in parentheses and returns the whole text. */
    method UpdateSelection(selection: Option<string>) returns (r: string)
      modifies this
      ensures selection.None? ==> text == old(text)
      ensures selection.Some? && |old(text)| > 0 ==> text == old(text) + " AND ( " + selection.value + " ) "
      ensures selection.Some? && |old(text)| == 0 ==> text == " ( " + selection.value + " ) "
      ensures r == text
    {
      if selection.Some? {
        if |text| > 0 {
          text := text + " AND ( " + selection.value + " ) ";
        } else {
          text := text + " ( " + selection.value + " ) ";
        }
      }
      r := text;
    }
  }

  // ------------------------------------------------------------------ validators

  const ID: string := "_id"
  const ALARM_ID: string := "alarm_id"

  /** ContentValues as far as the validators look at them: each key maps to a value or to null. */
  type Values = map<string, Option<string>>

  /** The `get` of ContentValues: null for an absent key. */
  function Get(values: Values, key: string): Option<string>
  {
    if key in values then values[key] else None
  }

  /** One write-once check of `validateCategoryValues`, exactly as its condition is written. */
  predicate WriteOnceViolated(values: Values, key: string, isNew: bool)
  {
    isNew != (key in values) && (!isNew || Get(values, key) != None)
  }

  /** `validateCategoryValues` as written: rejects `_id`, then the account name, then the account type. */
  function ValidateCategoryValues(values: Values, isNew: bool): (r: Outcome)
    ensures ID in values ==> r == Fail("_ID can not be set manually")
    ensures !isNew && (ACCOUNT_NAME in values || ACCOUNT_TYPE in values) ==> r.Fail?
  {
    if ID in values then Fail("_ID can not be set manually")
    else if WriteOnceViolated(values, ACCOUNT_NAME, isNew) then Fail("ACCOUNT_NAME is write-once and required on INSERT")
    else if WriteOnceViolated(values, ACCOUNT_TYPE, isNew) then Fail("ACCOUNT_TYPE is write-once and required on INSERT")
    else Pass
  }

  /** As written, an insert passes without any account name or type, although the messages call them required. */
  lemma CategoryInsertRequiresNothing()
    ensures ValidateCategoryValues(map[], true) == Pass
  {
  }

  /** On insert, as written, the outcome depends only on `_id`. */
  lemma CategoryInsertOnlyChecksId(values: Values)
    ensures ValidateCategoryValues(values, true).Pass? <==> ID !in values
  {
  }

  /** A category insert that has both account columns with non-null values. */
  predicate HasAccount(values: Values)
  {
    Get(values, ACCOUNT_NAME).Some? && Get(values, ACCOUNT_TYPE).Some?
  }

  /** The intended rule: account name and type are required (non-null) on insert and can never be changed afterwards. */
  function ValidateCategoryValuesIntended(values: Values, isNew: bool): (r: Outcome)
  {
    if ID in values then Fail("_ID can not be set manually")
    else if isNew && Get(values, ACCOUNT_NAME).None? then Fail("ACCOUNT_NAME is write-once and required on INSERT")
    else if !isNew && ACCOUNT_NAME in values then Fail("ACCOUNT_NAME is write-once and required on INSERT")
    else if isNew && Get(values, ACCOUNT_TYPE).None? then Fail("ACCOUNT_TYPE is write-once and required on INSERT")
    else if !isNew && ACCOUNT_TYPE in values then Fail("ACCOUNT_TYPE is write-once and required on INSERT")
    else Pass
  }

  /** The intended validator accepts exactly: no `_id`, and the account given on insert / untouched on update. */
  lemma CategoryIntendedMeaning(values: Values, isNew: bool)
    ensures ValidateCategoryValuesIntended(values, isNew).Pass? <==>
      ID !in values && (if isNew then HasAccount(values) else ACCOUNT_NAME !in values && ACCOUNT_TYPE !in values)
    ensures !isNew ==> ValidateCategoryValuesIntended(values, isNew) == ValidateCategoryValues(values, isNew)
  {
  }

  /** `validateAlarmValues`: supplying ALARM_ID is the one thing rejected. */
  function ValidateAlarmValues(values: Values): (r: Outcome)
    ensures r.Pass? <==> ALARM_ID !in values
  {
    if ALARM_ID in values then Fail("ALARM_ID can not be set manually") else Pass
  }

  // ------------------------------------------------------------------ MIME types

  const LISTS: int := 1
  const LIST_ID: int := 2
  const TASKS: int := 101
  const TASK_ID: int := 102
  const INSTANCES: int := 103
  const INSTANCE_ID: int := 104

  const CURSOR_DIR_BASE_TYPE: string := "vnd.android.cursor.dir"
  const CURSOR_ITEM_BASE_TYPE: string := "vnd.android.cursor.item"

  /** `getType` for a URI-matcher code; any other code is an unsupported URI. */
  function GetType(code: int): Result<string>
  {
    if code == LISTS then Success(CURSOR_DIR_BASE_TYPE + "/org.dmfs.tasks." + "tasklists")
    else if code == LIST_ID then Success(CURSOR_ITEM_BASE_TYPE + "/org.dmfs.tasks." + "tasklists")
    else if code == TASKS then Success(CURSOR_DIR_BASE_TYPE + "/org.dmfs.tasks." + "tasks")
    else if code == TASK_ID then Success(CURSOR_ITEM_BASE_TYPE + "/org.dmfs.tasks." + "tasks")
    else if code == INSTANCES then Success(CURSOR_DIR_BASE_TYPE + "/org.dmfs.tasks." + "instances")
    else if code == INSTANCE_ID then Success(CURSOR_ITEM_BASE_TYPE + "/org.dmfs.tasks." + "instances")
    else Failure("Unsupported URI")
  }

  /** Only lists, tasks and instances have a MIME type; collections get a dir type, single rows an item type. */
  lemma GetTypeCases(code: int)
    ensures GetType(code).Success? <==> code in {LISTS, LIST_ID, TASKS, TASK_ID, INSTANCES, INSTANCE_ID}
    ensures code in {LISTS, TASKS, INSTANCES} ==> CURSOR_DIR_BASE_TYPE + "/" <= GetType(code).value
    ensures code in {LIST_ID, TASK_ID, INSTANCE_ID} ==> CURSOR_ITEM_BASE_TYPE + "/" <= GetType(code).value
  {
  }

  // ------------------------------------------------------------------ upgrade hook

  /** `onDatabaseUpdate`: the operations fired after an upgrade from `oldVersion`. */
  function OnDatabaseUpdate(oldVersion: int, newVersion: int): (fired: seq<ContentOperation.Op>)
    ensures fired == [ContentOperation.UpdateTimezone] || fired == []
    ensures ContentOperation.UpdateTimezone in fired <==> oldVersion < 15
  {
    if oldVersion < 15 then [ContentOperation.UpdateTimezone] else []
  }
}
