/**
 * TimeRangeCursorFactory: the rows of the "by due date" grouping. Each row describes a time
 * range (id, type bits, start, end, open ends, null row) and is laid out by a projection of
 * column names; a column that is not in the projection is never written.
 */
module TimeRangeCursorFactory {
  import opened Wrappers
  import Text
  import Lists

  // ---------------------------------------------------------------- range types (Java `int` bit sets)

  const TYPE_END_OF_DAY: bv32 := 0x01
  const TYPE_END_OF_YESTERDAY: bv32 := 0x02 | TYPE_END_OF_DAY
  const TYPE_END_OF_TODAY: bv32 := 0x04 | TYPE_END_OF_DAY
  const TYPE_END_OF_TOMORROW: bv32 := 0x08 | TYPE_END_OF_DAY
  const TYPE_END_IN_7_DAYS: bv32 := 0x10 | TYPE_END_OF_DAY

  const TYPE_END_OF_A_WEEK: bv32 := 0x0100
  const TYPE_END_OF_LAST_WEEK: bv32 := 0x0200 | TYPE_END_OF_A_WEEK
  const TYPE_END_OF_THIS_WEEK: bv32 := 0x0400 | TYPE_END_OF_A_WEEK
  const TYPE_END_OF_NEXT_WEEK: bv32 := 0x0800 | TYPE_END_OF_A_WEEK

  const TYPE_END_OF_A_MONTH: bv32 := 0x01_0000
  const TYPE_END_OF_LAST_MONTH: bv32 := 0x02_0000 | TYPE_END_OF_A_MONTH
  const TYPE_END_OF_THIS_MONTH: bv32 := 0x04_0000 | TYPE_END_OF_A_MONTH
  const TYPE_END_OF_NEXT_MONTH: bv32 := 0x08_0000 | TYPE_END_OF_A_MONTH

  const TYPE_END_OF_A_YEAR: bv32 := 0x0100_0000
  const TYPE_END_OF_LAST_YEAR: bv32 := 0x0200_0000 | TYPE_END_OF_A_YEAR
  const TYPE_END_OF_THIS_YEAR: bv32 := 0x0400_0000 | TYPE_END_OF_A_YEAR
  const TYPE_END_OF_NEXT_YEAR: bv32 := 0x0800_0000 | TYPE_END_OF_A_YEAR

  const TYPE_OVERDUE: bv32 := 0x2000_0000
  const TYPE_NO_END: bv32 := 0x8000_0000

  /** The Java `int` a 32-bit pattern stands for (two's complement). */
  function JavaInt(b: bv32): int
  {
    if b < 0x8000_0000 then b as int else b as int - 0x1_0000_0000
  }

  /** `type` has every bit of `bit` set. */
  predicate HasBits(t: bv32, bit: bv32)
  {
    t & bit == bit
  }

  /** The day types carry the end-of-day bit, the month types the month bit, the year types the year bit. */
  lemma TypeFamilies()
    ensures forall t :: t in {TYPE_END_OF_YESTERDAY, TYPE_END_OF_TODAY, TYPE_END_OF_TOMORROW, TYPE_END_IN_7_DAYS} ==> HasBits(t, TYPE_END_OF_DAY)
    ensures forall t :: t in {TYPE_END_OF_LAST_WEEK, TYPE_END_OF_THIS_WEEK, TYPE_END_OF_NEXT_WEEK} ==> HasBits(t, TYPE_END_OF_A_WEEK)
    ensures forall t :: t in {TYPE_END_OF_LAST_MONTH, TYPE_END_OF_THIS_MONTH, TYPE_END_OF_NEXT_MONTH} ==> HasBits(t, TYPE_END_OF_A_MONTH)
    ensures forall t :: t in {TYPE_END_OF_LAST_YEAR, TYPE_END_OF_THIS_YEAR, TYPE_END_OF_NEXT_YEAR} ==> HasBits(t, TYPE_END_OF_A_YEAR)
    ensures JavaInt(TYPE_NO_END) == -0x8000_0000
  {
  }

  // ---------------------------------------------------------------- columns and bounds

  const RANGE_ID := "_id"
  const RANGE_TYPE := "type"
  const RANGE_START := "start"
  const RANGE_END := "end"
  const RANGE_YEAR := "year"
  const RANGE_MONTH := "month"
  const RANGE_OPEN_FUTURE := "open_future"
  const RANGE_OPEN_PAST := "open_past"
  const RANGE_NULL_ROW := "null_row"
  const RANGE_START_TZ_OFFSET := "start_tz_offset"
  const RANGE_END_TZ_OFFSET := "end_tz_offset"

  const DEFAULT_PROJECTION: seq<string> := [RANGE_START, RANGE_END, RANGE_ID, RANGE_YEAR, RANGE_MONTH, RANGE_OPEN_PAST,
    RANGE_OPEN_FUTURE, RANGE_NULL_ROW, RANGE_TYPE, RANGE_START_TZ_OFFSET, RANGE_END_TZ_OFFSET]

  /** `Long.MAX_VALUE / 2` and `Long.MIN_VALUE / 2` (both exact or rounded towards zero). */
  const MAX_TIME: int := 0x3FFF_FFFF_FFFF_FFFF
  const MIN_TIME: int := -0x4000_0000_0000_0000

  lemma TimeBounds()
    ensures MAX_TIME * 2 + 1 == Text.MAX_LONG && MIN_TIME * 2 == Text.MIN_LONG
  {
  }

  /** A row cell: an Integer or Long, or null. */
  type Cell = Option<int>

  /** The calendar the factory consults, which is not part of this model: year, month and zone offset of a time. */
  datatype Calendar = Calendar(yearOf: int -> int, monthOf: int -> int, offsetOf: int -> int)

  /** A range with both ends present and strictly inside the open bounds. */
  predicate Bounded(start: Option<int>, end: Option<int>)
  {
    start.Some? && start.value > MIN_TIME && end.Some? && end.value < MAX_TIME
  }

  predicate OpenPast(start: Option<int>)
  {
    start.None? || start.value <= MIN_TIME
  }

  predicate OpenFuture(end: Option<int>)
  {
    end.None? || end.value >= MAX_TIME
  }

  /** The arguments of one `makeRow` call. */
  datatype RangeRow = RangeRow(id: int, rangeType: int, start: Option<int>, end: Option<int>)

  /** What `makeRow` writes into the column named `c` (None: nothing, i.e. the cell stays null). */
  function ColumnValue(c: string, r: RangeRow, cal: Calendar): Cell
  {
    var middle := if Bounded(r.start, r.end) then (r.start.value + r.end.value) / 2 else 0;
    if c == RANGE_ID then Some(r.id)
    else if c == RANGE_TYPE then Some(r.rangeType)
    else if c == RANGE_START then r.start
    else if c == RANGE_END then r.end
    else if c == RANGE_YEAR then (if Bounded(r.start, r.end) then Some(cal.yearOf(middle)) else None)
    else if c == RANGE_MONTH then (if Bounded(r.start, r.end) then Some(cal.monthOf(middle)) else None)
    else if c == RANGE_OPEN_PAST then (if OpenPast(r.start) then Some(1) else None)
    else if c == RANGE_START_TZ_OFFSET then (if OpenPast(r.start) then Some(0) else Some(cal.offsetOf(r.start.value)))
    else if c == RANGE_OPEN_FUTURE then (if OpenFuture(r.end) then Some(1) else None)
    else if c == RANGE_END_TZ_OFFSET then (if OpenFuture(r.end) then Some(0) else Some(cal.offsetOf(r.end.value)))
    else if c == RANGE_NULL_ROW then (if r.start.None? && r.end.None? then Some(1) else None)
    else None
  }

  /** The row laid out by the projection: each column's value at its first position, null elsewhere. */
  function RowOf(projection: seq<string>, r: RangeRow, cal: Calendar): (row: seq<Cell>)
    ensures |row| == |projection|
  {
    seq(|projection|, j requires 0 <= j < |projection| =>
      if Lists.IndexOf(projection, projection[j]) == j then ColumnValue(projection[j], r, cal) else None)
  }

  /** `insertValue` on a row's contents: the column's first position gets the value, if the column is projected. */
  function Put(row: seq<Cell>, index: int, value: Cell): (r: seq<Cell>)
    ensures |r| == |row|
  {
    if 0 <= index < |row| then row[index := value] else row
  }

  /** The row after `insertValue` calls on a fresh row that wrote the columns of `m`. */
  function Written(projection: seq<string>, m: map<string, Cell>): (row: seq<Cell>)
    ensures |row| == |projection|
  {
    seq(|projection|, j requires 0 <= j < |projection| =>
      if Lists.IndexOf(projection, projection[j]) == j && projection[j] in m then m[projection[j]] else None)
  }

  lemma WrittenNone(projection: seq<string>)
    ensures Written(projection, map[]) == seq(|projection|, _ => None)
  {
  }

  /** One more `insertValue` call. */
  lemma WrittenPut(projection: seq<string>, m: map<string, Cell>, c: string, v: Cell)
    ensures Written(projection, m[c := v]) == Put(Written(projection, m), Lists.IndexOf(projection, c), v)
  {
    var i := Lists.IndexOf(projection, c);
    forall j | 0 <= j < |projection|
      ensures Written(projection, m[c := v])[j] == Put(Written(projection, m), i, v)[j]
    {
    }
  }

  /** The columns `makeRow` writes, with their values, in the order of its branches. */
  ghost function MakeRowWrites(r: RangeRow, cal: Calendar): map<string, Cell>
  {
    var m := EndWrites(r, cal);
    if r.start.None? && r.end.None? then m[RANGE_NULL_ROW := Some(1)] else m
  }

  /** The writes of `makeRow` up to and including its end-offset branch. */
  ghost function EndWrites(r: RangeRow, cal: Calendar): map<string, Cell>
  {
    var m := StartWrites(r, cal);
    if OpenFuture(r.end) then m[RANGE_OPEN_FUTURE := Some(1)][RANGE_END_TZ_OFFSET := Some(0)]
    else m[RANGE_END_TZ_OFFSET := Some(cal.offsetOf(r.end.value))]
  }

  /** The writes of `makeRow` up to and including its start-offset branch. */
  ghost function StartWrites(r: RangeRow, cal: Calendar): map<string, Cell>
  {
    var m := BoundedWrites(r, cal);
    if OpenPast(r.start) then m[RANGE_OPEN_PAST := Some(1)][RANGE_START_TZ_OFFSET := Some(0)]
    else m[RANGE_START_TZ_OFFSET := Some(cal.offsetOf(r.start.value))]
  }

  /** The writes of `makeRow` up to and including its year and month branch. */
  ghost function BoundedWrites(r: RangeRow, cal: Calendar): map<string, Cell>
  {
    var m := map[][RANGE_ID := Some(r.id)][RANGE_TYPE := Some(r.rangeType)][RANGE_START := r.start][RANGE_END := r.end];
    if Bounded(r.start, r.end) then
      var middle := (r.start.value + r.end.value) / 2;
      m[RANGE_YEAR := Some(cal.yearOf(middle))][RANGE_MONTH := Some(cal.monthOf(middle))]
    else m
  }

  /** The writes of `makeRow` are exactly the column values `ColumnValue` describes. */
  lemma MakeRowWritesColumns(r: RangeRow, cal: Calendar)
    ensures forall c :: c in MakeRowWrites(r, cal) ==> MakeRowWrites(r, cal)[c] == ColumnValue(c, r, cal)
    ensures forall c :: c !in MakeRowWrites(r, cal) ==> ColumnValue(c, r, cal) == None
  {
    ColumnsDistinct();
    var m := MakeRowWrites(r, cal);
    forall c | c in m
      ensures m[c] == ColumnValue(c, r, cal)
    {
    }
    forall c | c !in m
      ensures ColumnValue(c, r, cal) == None
    {
    }
  }

  /** The column names are pairwise different. */
  lemma ColumnsDistinct()
    ensures RANGE_ID != RANGE_TYPE && RANGE_ID != RANGE_START && RANGE_ID != RANGE_END && RANGE_ID != RANGE_YEAR
    ensures RANGE_ID != RANGE_MONTH && RANGE_ID != RANGE_OPEN_FUTURE && RANGE_ID != RANGE_OPEN_PAST
    ensures RANGE_ID != RANGE_NULL_ROW && RANGE_ID != RANGE_START_TZ_OFFSET && RANGE_ID != RANGE_END_TZ_OFFSET
    ensures RANGE_TYPE != RANGE_START && RANGE_TYPE != RANGE_END && RANGE_TYPE != RANGE_YEAR && RANGE_TYPE != RANGE_MONTH
    ensures RANGE_TYPE != RANGE_OPEN_FUTURE && RANGE_TYPE != RANGE_OPEN_PAST && RANGE_TYPE != RANGE_NULL_ROW
    ensures RANGE_TYPE != RANGE_START_TZ_OFFSET && RANGE_TYPE != RANGE_END_TZ_OFFSET
    ensures RANGE_START != RANGE_END && RANGE_START != RANGE_YEAR && RANGE_START != RANGE_MONTH
    ensures RANGE_START != RANGE_OPEN_FUTURE && RANGE_START != RANGE_OPEN_PAST && RANGE_START != RANGE_NULL_ROW
    ensures RANGE_START != RANGE_START_TZ_OFFSET && RANGE_START != RANGE_END_TZ_OFFSET
    ensures RANGE_END != RANGE_YEAR && RANGE_END != RANGE_MONTH && RANGE_END != RANGE_OPEN_FUTURE
    ensures RANGE_END != RANGE_OPEN_PAST && RANGE_END != RANGE_NULL_ROW && RANGE_END != RANGE_START_TZ_OFFSET
    ensures RANGE_END != RANGE_END_TZ_OFFSET
    ensures RANGE_YEAR != RANGE_MONTH && RANGE_YEAR != RANGE_OPEN_FUTURE && RANGE_YEAR != RANGE_OPEN_PAST
    ensures RANGE_YEAR != RANGE_NULL_ROW && RANGE_YEAR != RANGE_START_TZ_OFFSET && RANGE_YEAR != RANGE_END_TZ_OFFSET
    ensures RANGE_MONTH != RANGE_OPEN_FUTURE && RANGE_MONTH != RANGE_OPEN_PAST && RANGE_MONTH != RANGE_NULL_ROW
    ensures RANGE_MONTH != RANGE_START_TZ_OFFSET && RANGE_MONTH != RANGE_END_TZ_OFFSET
    ensures RANGE_OPEN_FUTURE != RANGE_OPEN_PAST && RANGE_OPEN_FUTURE != RANGE_NULL_ROW
    ensures RANGE_OPEN_FUTURE != RANGE_START_TZ_OFFSET && RANGE_OPEN_FUTURE != RANGE_END_TZ_OFFSET
    ensures RANGE_OPEN_PAST != RANGE_NULL_ROW && RANGE_OPEN_PAST != RANGE_START_TZ_OFFSET
    ensures RANGE_OPEN_PAST != RANGE_END_TZ_OFFSET
    ensures RANGE_NULL_ROW != RANGE_START_TZ_OFFSET && RANGE_NULL_ROW != RANGE_END_TZ_OFFSET
    ensures RANGE_START_TZ_OFFSET != RANGE_END_TZ_OFFSET
  {
    assert RANGE_ID[0] != RANGE_END[0];
    assert RANGE_TYPE[0] != RANGE_YEAR[0];
    assert RANGE_START[0] != RANGE_MONTH[0];
  }

  /** Writes that agree with `ColumnValue` on every column give the row `RowOf` describes. */
  lemma WrittenRow(projection: seq<string>, m: map<string, Cell>, r: RangeRow, cal: Calendar)
    requires forall c :: c in m ==> m[c] == ColumnValue(c, r, cal)
    requires forall c :: c !in m ==> ColumnValue(c, r, cal) == None
    ensures Written(projection, m) == RowOf(projection, r, cal)
  {
  }

  /** Each of `rows` is the row of the `makeRow` call with the matching arguments. */
  ghost predicate Listed(projection: seq<string>, rows: seq<seq<Cell>>, args: seq<RangeRow>, cal: Calendar)
  {
    |rows| == |args| && forall k :: 0 <= k < |rows| ==> rows[k] == RowOf(projection, args[k], cal)
  }

  lemma Append(projection: seq<string>, rows: seq<seq<Cell>>, args: seq<RangeRow>, row: seq<Cell>, r: RangeRow, cal: Calendar)
    requires Listed(projection, rows, args, cal)
    requires row == RowOf(projection, r, cal)
    ensures Listed(projection, rows + [row], args + [r], cal)
  {
  }

  /** The rows `getCursor` adds, given the day boundaries t1 (today 00:00) to t6 (next 1 January). */
  function CursorRows(projection: seq<string>, t1: int, t2: int, t3: int, t4: int, t5: int, t6: int): seq<RangeRow>
  {
    NullRows(projection) + PastRows(projection, t1) + DayRows(t1, t2, t3, t4, t5, t6) + FutureRows(projection, t6)
  }

  /** The arguments `getCursor` passes to `makeRow`, group by group, are `CursorRows`. */
  lemma CursorArgs(projection: seq<string>, t1: int, t2: int, t3: int, t4: int, t5: int, t6: int,
                   nulls: seq<RangeRow>, past: seq<RangeRow>, bounded: seq<RangeRow>, args: seq<RangeRow>)
    requires nulls == NullRows(projection)
    requires past == nulls + PastRows(projection, t1)
    requires bounded == past + DayRows(t1, t2, t3, t4, t5, t6)
    requires args == bounded + FutureRows(projection, t6)
    ensures args == CursorRows(projection, t1, t2, t3, t4, t5, t6)
  {
  }

  /** The null row, present when the projection asks for it. */
  function NullRows(projection: seq<string>): seq<RangeRow>
  {
    if RANGE_NULL_ROW in projection then [RangeRow(1, 0, None, None)] else []
  }

  /** The open-ended row before today, present when the projection asks for open pasts. */
  function PastRows(projection: seq<string>, t1: int): seq<RangeRow>
  {
    if RANGE_OPEN_PAST in projection then [RangeRow(2, JavaInt(TYPE_END_OF_YESTERDAY), Some(MIN_TIME), Some(t1))] else []
  }

  /** The five bounded rows, from today to the end of the year. */
  function DayRows(t1: int, t2: int, t3: int, t4: int, t5: int, t6: int): seq<RangeRow>
  {
    [RangeRow(3, JavaInt(TYPE_END_OF_TODAY), Some(t1), Some(t2)),
     RangeRow(4, JavaInt(TYPE_END_OF_TOMORROW), Some(t2), Some(t3)),
     RangeRow(5, JavaInt(TYPE_END_IN_7_DAYS), Some(t3), Some(t4)),
     RangeRow(6, JavaInt(TYPE_END_OF_A_MONTH), Some(t4), Some(t5)),
     RangeRow(7, JavaInt(TYPE_END_OF_A_YEAR), Some(t5), Some(t6))]
  }

  /** The open-ended row after the year, present when the projection asks for open futures. */
  function FutureRows(projection: seq<string>, t6: int): seq<RangeRow>
  {
    if RANGE_OPEN_FUTURE in projection then [RangeRow(8, JavaInt(TYPE_NO_END), Some(t6), Some(MAX_TIME))] else []
  }

  class TimeRangeCursorFactory {
    const projection: seq<string>
    const calendar: Calendar

    constructor (projection: seq<string>, calendar: Calendar)
      ensures this.projection == projection && this.calendar == calendar
    {
      this.projection := projection;
      this.calendar := calendar;
    }

    /** `insertValue`: writes the column's first position; a column outside the projection is ignored. */
    method InsertValue(row: array<Cell>, column: string, value: Cell, ghost written: map<string, Cell>)
      requires row.Length == |projection|
      modifies row
      ensures Lists.IndexOf(projection, column) >= 0 ==> row[Lists.IndexOf(projection, column)] == value
      ensures forall k :: 0 <= k < row.Length && k != Lists.IndexOf(projection, column) ==> row[k] == old(row[k])
      ensures old(row[..]) == Written(projection, written) ==> row[..] == Written(projection, written[column := value])
    {
      var index := Lists.IndexOf(projection, column);
      if index >= 0 {
        row[index] := value;
      }
      WrittenPut(projection, written, column, value);
    }

    /** `makeRow`: a row of the projection's length holding the range's columns. */
    method MakeRow(id: int, rangeType: int, start: Option<int>, end: Option<int>) returns (row: array<Cell>)
      ensures fresh(row)
      ensures row.Length == |projection|
      ensures row[..] == RowOf(projection, RangeRow(id, rangeType, start, end), calendar)
    {
      row := new Cell[|projection|](_ => None);
      var r := RangeRow(id, rangeType, start, end);
      WrittenNone(projection);
      WriteBounds(row, r);
      WriteStart(row, r);
      WriteEnd(row, r);
      if start.None? && end.None? {
        InsertValue(row, RANGE_NULL_ROW, Some(1), EndWrites(r, calendar));
      }
      MakeRowWritesColumns(r, calendar);
      WrittenRow(projection, MakeRowWrites(r, calendar), r, calendar);
    }

    /** The first part of `makeRow`: id, type, start and end, then year and month of a bounded range. */
    method WriteBounds(row: array<Cell>, r: RangeRow)
      requires row.Length == |projection| && row[..] == Written(projection, map[])
      modifies row
      ensures row[..] == Written(projection, BoundedWrites(r, calendar))
    {
      ghost var written: map<string, Cell> := map[];
      InsertValue(row, RANGE_ID, Some(r.id), written);
      written := written[RANGE_ID := Some(r.id)];
      InsertValue(row, RANGE_TYPE, Some(r.rangeType), written);
      written := written[RANGE_TYPE := Some(r.rangeType)];
      WriteEnds(row, r, written);
      written := written[RANGE_START := r.start][RANGE_END := r.end];
      if r.start.Some? && r.start.value > MIN_TIME && r.end.Some? && r.end.value < MAX_TIME {
        var middle := (r.start.value + r.end.value) / 2;
        WriteDate(row, calendar.yearOf(middle), calendar.monthOf(middle), written);
      }
    }

    method WriteEnds(row: array<Cell>, r: RangeRow, ghost written: map<string, Cell>)
      requires row.Length == |projection| && row[..] == Written(projection, written)
      modifies row
      ensures row[..] == Written(projection, written[RANGE_START := r.start][RANGE_END := r.end])
    {
      InsertValue(row, RANGE_START, r.start, written);
      InsertValue(row, RANGE_END, r.end, written[RANGE_START := r.start]);
    }

    method WriteDate(row: array<Cell>, year: int, month: int, ghost written: map<string, Cell>)
      requires row.Length == |projection| && row[..] == Written(projection, written)
      modifies row
      ensures row[..] == Written(projection, written[RANGE_YEAR := Some(year)][RANGE_MONTH := Some(month)])
    {
      InsertValue(row, RANGE_YEAR, Some(year), written);
      InsertValue(row, RANGE_MONTH, Some(month), written[RANGE_YEAR := Some(year)]);
    }

    /** The start branch of `makeRow`: an open past, or the start's zone offset. */
    method WriteStart(row: array<Cell>, r: RangeRow)
      requires row.Length == |projection| && row[..] == Written(projection, BoundedWrites(r, calendar))
      modifies row
      ensures row[..] == Written(projection, StartWrites(r, calendar))
    {
      ghost var written := BoundedWrites(r, calendar);
      if r.start.None? || r.start.value <= MIN_TIME {
        InsertValue(row, RANGE_OPEN_PAST, Some(1), written);
        written := written[RANGE_OPEN_PAST := Some(1)];
        InsertValue(row, RANGE_START_TZ_OFFSET, Some(0), written);
      } else {
        InsertValue(row, RANGE_START_TZ_OFFSET, Some(calendar.offsetOf(r.start.value)), written);
      }
    }

    /** The end branch of `makeRow`: an open future, or the end's zone offset. */
    method WriteEnd(row: array<Cell>, r: RangeRow)
      requires row.Length == |projection| && row[..] == Written(projection, StartWrites(r, calendar))
      modifies row
      ensures row[..] == Written(projection, EndWrites(r, calendar))
    {
      ghost var written := StartWrites(r, calendar);
      if r.end.None? || r.end.value >= MAX_TIME {
        InsertValue(row, RANGE_OPEN_FUTURE, Some(1), written);
        written := written[RANGE_OPEN_FUTURE := Some(1)];
        InsertValue(row, RANGE_END_TZ_OFFSET, Some(0), written);
      } else {
        InsertValue(row, RANGE_END_TZ_OFFSET, Some(calendar.offsetOf(r.end.value)), written);
      }
    }

    /** `getCursor` with its day boundaries given: the rows in the order they are added. */
    method GetCursor(t1: int, t2: int, t3: int, t4: int, t5: int, t6: int) returns (rows: seq<seq<Cell>>)
      ensures |rows| == |CursorRows(projection, t1, t2, t3, t4, t5, t6)|
      ensures forall k :: 0 <= k < |rows| ==> rows[k] == RowOf(projection, CursorRows(projection, t1, t2, t3, t4, t5, t6)[k], calendar)
    {
      rows := [];
      ghost var args: seq<RangeRow> := [];
      if RANGE_NULL_ROW in projection {
        rows := AddRow(rows, args, RangeRow(1, 0, None, None));
        args := args + [RangeRow(1, 0, None, None)];
      }
      ghost var nulls := args;
      if RANGE_OPEN_PAST in projection {
        rows := AddRow(rows, args, RangeRow(2, JavaInt(TYPE_END_OF_YESTERDAY), Some(MIN_TIME), Some(t1)));
        args := args + [RangeRow(2, JavaInt(TYPE_END_OF_YESTERDAY), Some(MIN_TIME), Some(t1))];
      }
      ghost var past := args;
      var days := DayRows(t1, t2, t3, t4, t5, t6);
      rows := AddRow(rows, args, days[0]);
      args := args + [days[0]];
      rows := AddRow(rows, args, days[1]);
      args := args + [days[1]];
      rows := AddRow(rows, args, days[2]);
      args := args + [days[2]];
      rows := AddRow(rows, args, days[3]);
      args := args + [days[3]];
      rows := AddRow(rows, args, days[4]);
      args := args + [days[4]];
      assert args == past + days by {
        assert days == [days[0], days[1], days[2], days[3], days[4]];
      }
      ghost var bounded := args;
      if RANGE_OPEN_FUTURE in projection {
        rows := AddRow(rows, args, RangeRow(8, JavaInt(TYPE_NO_END), Some(t6), Some(MAX_TIME)));
        args := args + [RangeRow(8, JavaInt(TYPE_NO_END), Some(t6), Some(MAX_TIME))];
      }
      CursorArgs(projection, t1, t2, t3, t4, t5, t6, nulls, past, bounded, args);
    }

    /** `addRow(makeRow(...))`: the cursor gets the row of `r`. */
    method AddRow(rows: seq<seq<Cell>>, ghost args: seq<RangeRow>, r: RangeRow) returns (rows': seq<seq<Cell>>)
      requires Listed(projection, rows, args, calendar)
      ensures Listed(projection, rows', args + [r], calendar)
    {
      var row := MakeRow(r.id, r.rangeType, r.start, r.end);
      Append(projection, rows, args, row[..], r, calendar);
      rows' := rows + [row[..]];
    }
  }

  // ---------------------------------------------------------------- properties of the rows

  /** The open-past and start-offset cells: 1 and 0 exactly when the start is absent or at the lower bound. */
  lemma OpenEnds(projection: seq<string>, r: RangeRow, cal: Calendar)
    ensures var row := RowOf(projection, r, cal);
      var i := Lists.IndexOf(projection, RANGE_OPEN_PAST);
      i >= 0 ==> (row[i] == Some(1) <==> OpenPast(r.start)) && (row[i].None? <==> !OpenPast(r.start))
    ensures var row := RowOf(projection, r, cal);
      var i := Lists.IndexOf(projection, RANGE_START_TZ_OFFSET);
      i >= 0 && OpenPast(r.start) ==> row[i] == Some(0)
    ensures var row := RowOf(projection, r, cal);
      var i := Lists.IndexOf(projection, RANGE_OPEN_FUTURE);
      i >= 0 ==> (row[i] == Some(1) <==> OpenFuture(r.end)) && (row[i].None? <==> !OpenFuture(r.end))
    ensures var row := RowOf(projection, r, cal);
      var i := Lists.IndexOf(projection, RANGE_END_TZ_OFFSET);
      i >= 0 && OpenFuture(r.end) ==> row[i] == Some(0)
  {
  }

  /** The null-row cell is 1 exactly when both ends are absent; year and month only for bounded ranges. */
  lemma NullRowAndCalendar(projection: seq<string>, r: RangeRow, cal: Calendar)
    ensures var row := RowOf(projection, r, cal);
      var i := Lists.IndexOf(projection, RANGE_NULL_ROW);
      i >= 0 ==> (row[i] == Some(1) <==> r.start.None? && r.end.None?)
    ensures var row := RowOf(projection, r, cal);
      var i := Lists.IndexOf(projection, RANGE_YEAR);
      i >= 0 ==> (row[i].Some? <==> Bounded(r.start, r.end))
    ensures var row := RowOf(projection, r, cal);
      var i := Lists.IndexOf(projection, RANGE_MONTH);
      i >= 0 ==> (row[i].Some? <==> Bounded(r.start, r.end))
  {
  }

  /** Only the columns of the default projection are ever written. */
  lemma KnownColumns(c: string, r: RangeRow, cal: Calendar)
    ensures ColumnValue(c, r, cal).Some? ==> c in DEFAULT_PROJECTION
  {
    if ColumnValue(c, r, cal).Some? {
      assert c == DEFAULT_PROJECTION[0] || c == DEFAULT_PROJECTION[1] || c == DEFAULT_PROJECTION[2] ||
        c == DEFAULT_PROJECTION[3] || c == DEFAULT_PROJECTION[4] || c == DEFAULT_PROJECTION[5] ||
        c == DEFAULT_PROJECTION[6] || c == DEFAULT_PROJECTION[7] || c == DEFAULT_PROJECTION[8] ||
        c == DEFAULT_PROJECTION[9] || c == DEFAULT_PROJECTION[10];
    }
  }

  /** A column that is not projected leaves no trace: every cell belongs to a projected column. */
  lemma OnlyProjected(projection: seq<string>, r: RangeRow, cal: Calendar, j: int)
    requires 0 <= j < |projection|
    ensures RowOf(projection, r, cal)[j].Some? ==> Lists.IndexOf(projection, projection[j]) == j
    ensures RowOf(projection, r, cal)[j].Some? ==> projection[j] in DEFAULT_PROJECTION
  {
    KnownColumns(projection[j], r, cal);
  }

  /** The ids increase from row to row. */
  lemma CursorRowsIds(projection: seq<string>, t1: int, t2: int, t3: int, t4: int, t5: int, t6: int)
    ensures var rows := CursorRows(projection, t1, t2, t3, t4, t5, t6);
      forall k, l :: 0 <= k < l < |rows| ==> rows[k].id < rows[l].id
  {
  }

  /** Each row after a bounded end starts where the previous one ended. */
  lemma CursorRowsChain(projection: seq<string>, t1: int, t2: int, t3: int, t4: int, t5: int, t6: int)
    ensures var rows := CursorRows(projection, t1, t2, t3, t4, t5, t6);
      forall k :: 0 < k < |rows| && rows[k - 1].end.Some? ==> rows[k].start == rows[k - 1].end
  {
  }

  /** Five to eight rows, with ids between 1 and 8. */
  lemma CursorRowsCount(projection: seq<string>, t1: int, t2: int, t3: int, t4: int, t5: int, t6: int)
    ensures var rows := CursorRows(projection, t1, t2, t3, t4, t5, t6);
      5 <= |rows| <= 8 && forall k :: 0 <= k < |rows| ==> 1 <= rows[k].id <= 8
  {
  }
}
