/**
 * Android's ContentValues as the rest of the model sees them: a map from column names to
 * values, where a present key may hold an explicit null.
 */
module ContentValues {
  import opened Wrappers
  import Text

  /**
   * A column value. Integers stand for Java's Integer and Long, timestamps (milliseconds)
   * and durations; date lists are the decoded content of RDATE/EXDATE-style columns.
   */
  datatype Value = IntV(i: int) | StrV(s: string) | BoolV(b: bool) | DatesV(dates: seq<int>)

  /** A ContentValues object: `key in values` is `containsKey`, `values[key] == None` is an explicit null. */
  type Values = map<string, Option<Value>>

  /** `ContentValues.get`: the value, or null for an explicit null and for an absent key. */
  function Get(values: Values, key: string): Option<Value>
  {
    if key in values then values[key] else None
  }

  /** `getAsString`: a string as it is, a number or a boolean in its decimal or literal form. */
  function AsString(v: Option<Value>): Option<string>
  {
    match v
    case None => None
    case Some(StrV(s)) => Some(s)
    case Some(IntV(i)) => Some(Text.IntToString(i))
    case Some(BoolV(b)) => Some(if b then "true" else "false")
    case Some(DatesV(_)) => None
  }

  const MIN_INT: int := -0x8000_0000
  const MAX_INT: int := 0x7FFF_FFFF

  /** `Number.intValue`: the low 32 bits of a long, read as a signed value. */
  function IntValue(i: int): (r: int)
    ensures MIN_INT <= r <= MAX_INT
    ensures MIN_INT <= i <= MAX_INT ==> r == i
  {
    (i - MIN_INT) % 0x1_0000_0000 + MIN_INT
  }

  /** `getAsInteger`: a number as its int value, a string holding an int in decimal, null for anything else. */
  function AsInteger(v: Option<Value>): (r: Option<int>)
    ensures r.Some? ==> MIN_INT <= r.value <= MAX_INT
  {
    match v
    case Some(IntV(i)) => Some(IntValue(i))
    case Some(StrV(s)) =>
      var n := Text.ParseLong(s);
      if n.Some? && MIN_INT <= n.value <= MAX_INT then n else None
    case _ => None
  }

  /** `getAsLong`: a number as it is, a string holding a long in decimal, null for anything else. */
  function AsLong(v: Option<Value>): (r: Option<int>)
    ensures r.Some? && !(v.Some? && v.value.IntV?) ==> Text.MIN_LONG <= r.value <= Text.MAX_LONG
  {
    match v
    case Some(IntV(i)) => Some(i)
    case Some(StrV(s)) => Text.ParseLong(s)
    case _ => None
  }

  /** The Java type of a value handed to a typed `put` overload. */
  datatype Kind = IntegerKind | LongKind | StringKind

  /** The typed reading `getAsInteger`, `getAsLong` or `getAsString` of a value, as a value again. */
  function Read(kind: Kind, v: Option<Value>): (r: Option<Value>)
    ensures kind == StringKind ==> (r.None? <==> AsString(v).None?) && (r.Some? ==> r.value == StrV(AsString(v).value))
    ensures kind == IntegerKind ==> (r.None? <==> AsInteger(v).None?) && (r.Some? ==> r.value == IntV(AsInteger(v).value))
    ensures kind == LongKind ==> (r.None? <==> AsLong(v).None?) && (r.Some? ==> r.value == IntV(AsLong(v).value))
  {
    match kind
    case IntegerKind => var i := AsInteger(v); if i.Some? then Some(IntV(i.value)) else None
    case LongKind => var l := AsLong(v); if l.Some? then Some(IntV(l.value)) else None
    case StringKind => var t := AsString(v); if t.Some? then Some(StrV(t.value)) else None
  }

  /** A typed reading reads itself back: reading a value twice is reading it once. */
  lemma ReadIdempotent(kind: Kind, v: Option<Value>)
    ensures Read(kind, Read(kind, v)) == Read(kind, v)
  {
  }

  /** `Cursor.getInt` and `Cursor.getLong`: a null or non-numeric column reads as 0. */
  function CursorLong(v: Option<Value>): (r: int)
    ensures AsLong(v).Some? ==> r == AsLong(v).value
    ensures AsLong(v).None? ==> r == 0
  {
    var n := AsLong(v);
    if n.Some? then n.value else 0
  }

  function CursorInt(v: Option<Value>): (r: int)
    ensures AsInteger(v).Some? ==> r == AsInteger(v).value
    ensures AsInteger(v).None? ==> r == 0
  {
    var n := AsInteger(v);
    if n.Some? then n.value else 0
  }

  /** Reading back a stored int gives it back; a decimal string of an int reads as that int. */
  lemma AsIntegerReadsBack(i: int)
    requires MIN_INT <= i <= MAX_INT
    ensures AsInteger(Some(IntV(i))) == Some(i)
    ensures AsInteger(Some(StrV(Text.IntToString(i)))) == Some(i)
  {
    Text.ParseLongOfString(i);
  }
}
