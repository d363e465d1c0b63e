/**
 * TimezoneFieldAdapter: the time zone of a task, kept consistent with its all-day flag.
 * An all-day task has no time zone; reading one yields null and writing one stores null.
 */
module TimezoneFieldAdapter {
  import opened Wrappers
  import opened ContentValues
  import ContentSet

  /**
   * A TimeZoneWrapper: a zone id and, when the adapter has a reference-time field, the
   * timestamp that decides whether summer time applies.
   */
  datatype Zone = Zone(id: string, referenceTime: Option<int>)

  /** The adapter's field names; only the time-zone field is mandatory. */
  datatype Adapter = Adapter(tzField: string, allDayField: Option<string>, referenceField: Option<string>)

  /** Both constructors: a null time-zone field name is an IllegalArgumentException. */
  function Create(tzField: Option<string>, allDayField: Option<string>, referenceField: Option<string>): (r: Result<Adapter>)
    ensures r.Failure? <==> tzField.None?
    ensures r.Success? ==> r.value == Adapter(tzField.value, allDayField, referenceField)
  {
    if tzField.None? then Failure("timezoneFieldName must not be null")
    else Success(Adapter(tzField.value, allDayField, referenceField))
  }

  /** An all-day flag as stored: a non-null integer greater than zero. */
  predicate AllDayFlag(allday: Option<int>)
  {
    allday.Some? && allday.value > 0
  }

  /** `isAllDay(ContentSet)`: never without an all-day field, otherwise the flag of that field. */
  predicate IsAllDay(a: Adapter, values: ContentSet.ContentSet)
    reads values
  {
    a.allDayField.Some? && AllDayFlag(AsInteger(values.Get(a.allDayField.value)))
  }

  /** `get(ContentSet)`: null for an all-day task, otherwise the stored zone or the device zone `localId`. */
  function Get(a: Adapter, values: ContentSet.ContentSet, localId: string): (r: Option<Zone>)
    reads values
    ensures r.None? <==> IsAllDay(a, values)
    ensures r.Some? ==> r.value.id == (if AsString(values.Get(a.tzField)).Some? then AsString(values.Get(a.tzField)).value else localId)
    ensures r.Some? ==> (r.value.referenceTime.Some? ==> a.referenceField.Some?)
  {
    var timezoneId := AsString(values.Get(a.tzField));
    if IsAllDay(a, values) then None
    else
      var id := if timezoneId.None? then localId else timezoneId.value;
      var reference := if a.referenceField.Some? then AsLong(values.Get(a.referenceField.value)) else None;
      Some(Zone(id, reference))
  }

  /** `set(ContentSet)`: all-day stores a null zone whatever is passed; otherwise the id of a non-null zone. */
  method Set(a: Adapter, values: ContentSet.ContentSet, value: Option<Zone>)
    modifies values
    ensures old(IsAllDay(a, values)) ==> AsString(values.Get(a.tzField)) == None
    ensures !old(IsAllDay(a, values)) && value.Some? ==> AsString(values.Get(a.tzField)) == Some(value.value.id)
    ensures !old(IsAllDay(a, values)) && value.None? ==> values.Get(a.tzField) == old(values.Get(a.tzField))
    ensures forall k :: k != a.tzField ==> values.Get(k) == old(values.Get(k))
  {
    if !IsAllDay(a, values) {
      if value.Some? {
        values.Put(StringKind, a.tzField, Some(StrV(value.value.id)));
      }
    } else {
      values.Put(StringKind, a.tzField, None);
    }
  }

  // ---------------------------------------------------------------- ContentValues

  /** `isAllDay(ContentValues)`. */
  predicate IsAllDayIn(a: Adapter, values: Values)
  {
    a.allDayField.Some? && AllDayFlag(AsInteger(ContentValues.Get(values, a.allDayField.value)))
  }

  /** `set(ContentValues)`: the same rule on a plain ContentValues map. */
  function SetIn(a: Adapter, values: Values, value: Option<Zone>): (r: Values)
    ensures IsAllDayIn(a, values) ==> a.tzField in r && r[a.tzField] == None
    ensures !IsAllDayIn(a, values) && value.Some? ==> a.tzField in r && r[a.tzField] == Some(StrV(value.value.id))
    ensures !IsAllDayIn(a, values) && value.None? ==> r == values
    ensures forall k :: k != a.tzField ==> ContentValues.Get(r, k) == ContentValues.Get(values, k)
  {
    if !IsAllDayIn(a, values) then
      if value.Some? then values[a.tzField := Some(StrV(value.value.id))] else values
    else values[a.tzField := None]
  }

  // ---------------------------------------------------------------- cursor rows

  /** A cursor row: the columns it projects, each with its (possibly null) value. */
  type Row = map<string, Option<Value>>

  /** `Cursor.getInt` as SQLite answers it: the integer value, 0 for text that is not a number. */
  function RowInt(v: Option<Value>): int
  {
    var i := AsInteger(v);
    if i.Some? then i.value else 0
  }

  /** `isAllDay(Cursor)`: a missing all-day column is an IllegalArgumentException. */
  function IsAllDayRow(a: Adapter, row: Row): (r: Result<bool>)
    ensures r.Failure? <==> a.allDayField.Some? && a.allDayField.value !in row
    ensures r.Success? && r.value ==> a.allDayField.Some? && row[a.allDayField.value].Some?
  {
    if a.allDayField.None? then Success(false)
    else if a.allDayField.value !in row then Failure("The allday column is missing in cursor.")
    else
      var v := row[a.allDayField.value];
      Success(v.Some? && RowInt(v) > 0)
  }

  /** `get(Cursor)`: a missing time-zone column is an error; the reference time is read only when its column exists. */
  function GetRow(a: Adapter, row: Row, localId: string): (r: Result<Option<Zone>>)
    ensures r.Failure? <==> a.tzField !in row || IsAllDayRow(a, row).Failure?
    ensures r.Success? ==> (r.value.None? <==> IsAllDayRow(a, row) == Success(true))
    ensures r.Success? && r.value.Some? && r.value.value.referenceTime.Some? ==>
      a.referenceField.Some? && a.referenceField.value in row
  {
    if a.tzField !in row then Failure("The timezone column is missing in cursor.")
    else
      var timezoneId := AsString(row[a.tzField]);
      var allDay := IsAllDayRow(a, row);
      if allDay.Failure? then Failure(allDay.error)
      else if allDay.value then Success(None)
      else
        var id := if timezoneId.None? then localId else timezoneId.value;
        var reference := if a.referenceField.Some? && a.referenceField.value in row
          then Some(RowInt64(row[a.referenceField.value])) else None;
        Success(Some(Zone(id, reference)))
  }

  /** `Cursor.getLong`: the long value, 0 for null and for text that is not a number. */
  function RowInt64(v: Option<Value>): int
  {
    var i := AsLong(v);
    if i.Some? then i.value else 0
  }

  // ---------------------------------------------------------------- properties

  /** After `set` on an all-day task, reading gives null whatever zone was passed, and so does any later read. */
  lemma AllDayHasNoZone(a: Adapter, values: Values, value: Option<Zone>)
    requires IsAllDayIn(a, values)
    requires a.allDayField.value != a.tzField
    ensures IsAllDayIn(a, SetIn(a, values, value))
    ensures ContentValues.Get(SetIn(a, values, value), a.tzField) == None
  {
  }

  /** On a task that is not all-day, the zone written by `set` is the zone read back. */
  lemma SetThenGetRow(a: Adapter, values: Values, zone: Zone, localId: string)
    requires !IsAllDayIn(a, values)
    requires a.allDayField.Some? ==> a.allDayField.value in values && a.allDayField.value != a.tzField
    ensures GetRow(a, SetIn(a, values, Some(zone)), localId).Success?
    ensures GetRow(a, SetIn(a, values, Some(zone)), localId).value.Some?
    ensures GetRow(a, SetIn(a, values, Some(zone)), localId).value.value.id == zone.id
  {
    var row := SetIn(a, values, Some(zone));
    if a.allDayField.Some? {
      var v := row[a.allDayField.value];
      assert v == values[a.allDayField.value];
      assert !(v.Some? && RowInt(v) > 0) by {
        assert v.Some? ==> AsInteger(v).Some? || RowInt(v) == 0;
      }
    }
  }
}
