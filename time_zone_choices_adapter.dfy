/**
 * The choices adapter of the time-zone picker: a list of zone ids sorted by their UTC offset at a
 * reference time, the zone each id stands for, the configured titles, and the "(GMT+HH:MM) " labels.
 */
module TimeZoneChoicesAdapter {
  import opened Wrappers
  import Text
  import Lists

  /** A Java `int`: the type of `TimeZone.getOffset`. */
  type Int32 = x: int | -0x8000_0000 <= x < 0x8000_0000

  // ---------------------------------------------------------------- the offset label

  function Digit(d: int): char
    requires 0 <= d < 10
  {
    "0123456789"[d]
  }

  /** `%02d` for a value below 100. */
  function Pad2(n: int): (s: string)
    requires 0 <= n < 100
    ensures |s| == 2 && Text.AllDigits(s)
  {
    [Digit(n / 10), Digit(n % 10)]
  }

  function Abs(m: int): nat
  {
    if m < 0 then -m else m
  }

  /** The hours of the label: whole hours of the absolute offset, modulo 24. */
  function Hours(millis: int): int
  {
    (Abs(millis) / (1000 * 60 * 60)) % 24
  }

  /** The minutes of the label: whole minutes of the absolute offset, modulo 60. */
  function Minutes(millis: int): int
  {
    (Abs(millis) / (1000 * 60)) % 60
  }

  /** `getGMTOffsetString`: "(GMT", the sign, two-digit hours, ':', two-digit minutes and ") ". */
  function GMTOffsetString(millis: Int32): (s: string)
    ensures |s| == 12
    ensures s[4] == '+' <==> millis >= 0
    ensures s[4] == '-' <==> millis < 0
  {
    "(GMT" + [if millis >= 0 then '+' else '-'] + Pad2(Hours(millis)) + ":" + Pad2(Minutes(millis)) + ") "
  }

  /** The sign (true for '+'), hours and minutes a label shows. */
  datatype Offset = Offset(nonNegative: bool, hours: nat, minutes: nat)

  function DigitValue(c: char): nat
    requires Text.IsDigit(c)
  {
    (c as int) - ('0' as int)
  }

  /** Reads a label back; None for anything that is not of the label's shape. */
  function ParseGMTOffset(s: string): (r: Option<Offset>)
    ensures r.Some? ==> r.value.hours < 100 && r.value.minutes < 100
  {
    if |s| == 12 && s[..4] == "(GMT" && (s[4] == '+' || s[4] == '-') && Text.IsDigit(s[5]) && Text.IsDigit(s[6])
      && s[7] == ':' && Text.IsDigit(s[8]) && Text.IsDigit(s[9]) && s[10..] == ") "
    then Some(Offset(s[4] == '+', DigitValue(s[5]) * 10 + DigitValue(s[6]), DigitValue(s[8]) * 10 + DigitValue(s[9])))
    else None
  }

  lemma Pad2Value(n: int)
    requires 0 <= n < 100
    ensures DigitValue(Pad2(n)[0]) * 10 + DigitValue(Pad2(n)[1]) == n
  {
    assert forall d :: 0 <= d < 10 ==> DigitValue(Digit(d)) == d by {
      forall d | 0 <= d < 10
        ensures DigitValue(Digit(d)) == d
      {
        assert "0123456789"[d] as int == '0' as int + d by {
          if d == 0 {} else if d == 1 {} else if d == 2 {} else if d == 3 {} else if d == 4 {}
          else if d == 5 {} else if d == 6 {} else if d == 7 {} else if d == 8 {} else {}
        }
      }
    }
  }

  /** The label shows the sign of the offset and its hours (mod 24) and minutes (mod 60). */
  lemma GMTOffsetRoundTrip(millis: Int32)
    ensures ParseGMTOffset(GMTOffsetString(millis)) == Some(Offset(millis >= 0, Hours(millis), Minutes(millis)))
    ensures 0 <= Hours(millis) < 24 && 0 <= Minutes(millis) < 60
  {
    var s := GMTOffsetString(millis);
    var h := Pad2(Hours(millis));
    var m := Pad2(Minutes(millis));
    assert s[5] == h[0] && s[6] == h[1] && s[8] == m[0] && s[9] == m[1];
    assert s[..4] == "(GMT" && s[10..] == ") ";
    Pad2Value(Hours(millis));
    Pad2Value(Minutes(millis));
  }

  // ---------------------------------------------------------------- ordering by offset

  /** The offset of each id's zone at time `t`; ids without a zone sort as offset 0. */
  function OffsetKey(idMap: map<string, string>, offset: (string, int) -> Int32, t: int): string -> int
  {
    id => if id in idMap then offset(idMap[id], t) else 0
  }

  predicate SortedBy(s: seq<string>, key: string -> int)
  {
    forall i, j :: 0 <= i < j < |s| ==> key(s[i]) <= key(s[j])
  }

  /** `x` placed before the first element whose key is not smaller. */
  function Insert(x: string, s: seq<string>, key: string -> int): (r: seq<string>)
    ensures |r| == |s| + 1
  {
    if |s| == 0 then [x]
    else if key(x) <= key(s[0]) then [x] + s
    else
      assert s == [s[0]] + s[1..];
      [s[0]] + Insert(x, s[1..], key)
  }

  /** `Collections.sort` with the comparator `offset(lhs) - offset(rhs)`: a stable sort by key. */
  function SortByKey(s: seq<string>, key: string -> int): (r: seq<string>)
    ensures |r| == |s|
  {
    if |s| == 0 then []
    else
      assert s == [s[0]] + s[1..];
      Insert(s[0], SortByKey(s[1..], key), key)
  }

  /** Inserting adds `x` and loses nothing. */
  lemma {:induction false} InsertPermutes(x: string, s: seq<string>, key: string -> int)
    ensures multiset(Insert(x, s, key)) == multiset(s) + multiset{x}
  {
    if |s| > 0 && key(x) > key(s[0]) {
      InsertPermutes(x, s[1..], key);
      assert s == [s[0]] + s[1..];
    }
  }

  /** The sorted ids are a permutation of the configured ones. */
  lemma {:induction false} SortByKeyPermutes(s: seq<string>, key: string -> int)
    ensures multiset(SortByKey(s, key)) == multiset(s)
  {
    if |s| > 0 {
      SortByKeyPermutes(s[1..], key);
      InsertPermutes(s[0], SortByKey(s[1..], key), key);
      assert s == [s[0]] + s[1..];
    }
  }

  lemma {:induction false} InsertSorted(x: string, s: seq<string>, key: string -> int)
    requires SortedBy(s, key)
    ensures SortedBy(Insert(x, s, key), key)
    ensures |s| > 0 ==> Insert(x, s, key)[0] == x || Insert(x, s, key)[0] == s[0]
  {
    if |s| > 0 && key(x) > key(s[0]) {
      InsertSorted(x, s[1..], key);
      var t := Insert(x, s[1..], key);
      InsertPermutes(x, s[1..], key);
      assert forall k :: 0 <= k < |t| ==> key(s[0]) <= key(t[k]) by {
        forall k | 0 <= k < |t|
          ensures key(s[0]) <= key(t[k])
        {
          assert t[k] in multiset(t);
          assert t[k] == x || t[k] in multiset(s[1..]);
          if t[k] != x {
            var j :| 0 <= j < |s[1..]| && s[1..][j] == t[k];
            assert s[j + 1] == t[k];
          }
        }
      }
    }
  }

  /** The sorted ids are in ascending order of offset. */
  lemma {:induction false} SortByKeySorted(s: seq<string>, key: string -> int)
    ensures SortedBy(SortByKey(s, key), key)
  {
    if |s| > 0 {
      SortByKeySorted(s[1..], key);
      InsertSorted(s[0], SortByKey(s[1..], key), key);
    }
  }

  /** The ids whose key is `v`, in order. */
  function WithKey(s: seq<string>, key: string -> int, v: int): seq<string>
  {
    if |s| == 0 then [] else (if key(s[0]) == v then [s[0]] else []) + WithKey(s[1..], key, v)
  }

  lemma {:induction false} InsertWithKey(x: string, s: seq<string>, key: string -> int, v: int)
    ensures WithKey(Insert(x, s, key), key, v) == (if key(x) == v then [x] else []) + WithKey(s, key, v)
  {
    if |s| == 0 {
      WithKeyCons(x, s, key, v);
    } else if key(x) <= key(s[0]) {
      WithKeyCons(x, s, key, v);
    } else {
      var t := Insert(x, s[1..], key);
      var rest := WithKey(s[1..], key, v);
      assert Insert(x, s, key) == [s[0]] + t;
      WithKeyCons(s[0], t, key, v);
      WithKeyCons(s[0], s[1..], key, v);
      assert [s[0]] + s[1..] == s;
      InsertWithKey(x, s[1..], key, v);
      if key(x) == v {
        assert key(s[0]) != v;
        assert WithKey(Insert(x, s, key), key, v) == [x] + rest;
      } else {
        assert WithKey(t, key, v) == rest;
      }
    }
  }

  lemma WithKeyCons(y: string, t: seq<string>, key: string -> int, v: int)
    ensures WithKey([y] + t, key, v) == (if key(y) == v then [y] else []) + WithKey(t, key, v)
  {
    assert ([y] + t)[1..] == t;
  }

  /** Zones with equal offsets keep their relative order (the sort is stable). */
  lemma {:induction false} SortByKeyStable(s: seq<string>, key: string -> int, v: int)
    ensures WithKey(SortByKey(s, key), key, v) == WithKey(s, key, v)
  {
    if |s| > 0 {
      SortByKeyStable(s[1..], key, v);
      InsertWithKey(s[0], SortByKey(s[1..], key), key, v);
    }
  }

  // ---------------------------------------------------------------- the adapter

  /** The objects the picker hands in: a zone wrapper with its id and optional reference time, or anything else. */
  datatype Choice = Wrapper(id: string, referenceTimeStamp: Option<int>) | Other

  /** The names the first constructor loop records: each id's title, a later duplicate overriding an earlier one. */
  function Names(ids: seq<string>, titles: seq<string>): (m: map<string, string>)
    requires |ids| <= |titles|
    ensures m.Keys == set id | id in ids
  {
    if |ids| == 0 then map[]
    else Names(ids[..|ids| - 1], titles)[ids[|ids| - 1] := titles[|ids| - 1]]
  }

  /** The zone recorded for each configured id: its own. */
  function Zones(ids: seq<string>): (m: map<string, string>)
    ensures m.Keys == set id | id in ids
  {
    map id | id in ids :: id
  }

  lemma {:induction false} NamesLast(ids: seq<string>, titles: seq<string>, k: int)
    requires |ids| <= |titles| && 0 <= k < |ids| && ids[k] !in ids[k + 1..]
    ensures Names(ids, titles)[ids[k]] == titles[k]
  {
    if k < |ids| - 1 {
      var p := ids[..|ids| - 1];
      assert ids[k + 1..] == p[k + 1..] + [ids[|ids| - 1]];
      assert p[k] == ids[k];
      NamesLast(p, titles, k);
    }
  }

  class TimeZoneChoicesAdapter {
    /** `mIdList`: the ids in picker order. */
    var idList: seq<string>
    /** `mIdMap`: the zone (given by its own id) each id stands for. */
    var idMap: map<string, string>
    /** `mNameMap`: the configured titles. */
    var nameMap: map<string, string>
    /** `mReferenceTime`: the time the offsets are shown for. */
    var referenceTime: int
    /** `TimeZone.getOffset(time)` of the zone with a given id, which is not part of this model. */
    const offset: (string, int) -> Int32
    /** The long display name of a zone, in daylight time or not at the given time, which is not part of this model. */
    const displayName: (string, int) -> string

    ghost predicate Valid()
      reads this
    {
      forall id :: id in idList ==> id in idMap
    }

    /** The constructor's first loop over the configured ids and titles, then the sort at the current time. */
    constructor (ids: seq<string>, titles: seq<string>, now: int, offset: (string, int) -> Int32, displayName: (string, int) -> string)
      requires |ids| <= |titles|
      ensures Valid()
      ensures this.offset == offset && this.displayName == displayName
      ensures referenceTime == now
      ensures nameMap == Names(ids, titles) && idMap == Zones(ids)
      ensures idList == SortByKey(ids, OffsetKey(Zones(ids), offset, now))
    {
      this.offset := offset;
      this.displayName := displayName;
      var names: map<string, string> := map[];
      var zones: map<string, string> := map[];
      var list: seq<string> := [];
      for i := 0 to |ids|
        invariant list == ids[..i]
        invariant names == Names(ids[..i], titles)
        invariant zones == Zones(ids[..i])
      {
        names := names[ids[i] := titles[i]];
        zones := zones[ids[i] := ids[i]];
        list := list + [ids[i]];
        assert ids[..i + 1][..i] == ids[..i];
      }
      assert ids[..|ids|] == ids;
      nameMap := names;
      idMap := zones;
      referenceTime := now;
      var sorted := SortByKey(list, OffsetKey(zones, offset, now));
      SortByKeyPermutes(list, OffsetKey(zones, offset, now));
      assert forall id :: id in sorted ==> id in multiset(ids);
      idList := sorted;
    }

    /** `sortIds`: the ids re-sorted by their offset at `time`. */
    method SortIds(time: int)
      requires Valid()
      modifies this
      ensures Valid()
      ensures idList == SortByKey(old(idList), OffsetKey(idMap, offset, time))
      ensures idMap == old(idMap) && nameMap == old(nameMap) && referenceTime == old(referenceTime)
    {
      SortByKeyPermutes(idList, OffsetKey(idMap, offset, time));
      idList := SortByKey(idList, OffsetKey(idMap, offset, time));
      assert forall id :: id in idList ==> id in multiset(old(idList));
    }

    /** `getTitle`: the offset label at the reference time and the configured or display name; null for non-zones. */
    function GetTitle(choice: Choice): (r: Option<string>)
      reads this
      ensures r.None? <==> choice.Other?
      ensures r.Some? ==> |r.value| >= 12
      ensures r.Some? ==> r.value[..12] == GMTOffsetString(offset(choice.id, referenceTime))
      ensures r.Some? && choice.id in nameMap ==> r.value[12..] == nameMap[choice.id]
      ensures r.Some? && choice.id !in nameMap ==> r.value[12..] == displayName(choice.id, referenceTime)
    {
      match choice
      case Other => None
      case Wrapper(id, _) =>
        var title := if id in nameMap then nameMap[id] else displayName(id, referenceTime);
        Some(GMTOffsetString(offset(id, referenceTime)) + title)
    }

    /**
     * `getIndex`: -1 for non-zones; otherwise, after re-sorting when the choice's reference time differs
     * (a missing one meaning the current time), the position of the choice's zone in the list.
     */
    method GetIndex(choice: Choice, now: int) returns (r: Result<int>)
      requires Valid()
      modifies this
      ensures Valid()
      ensures idMap == old(idMap) && nameMap == old(nameMap)
      ensures choice.Other? ==> r == Success(-1) && idList == old(idList) && referenceTime == old(referenceTime)
      ensures choice.Wrapper? ==>
        referenceTime == (if choice.referenceTimeStamp.None? then now else choice.referenceTimeStamp.value)
      ensures choice.Wrapper? && choice.referenceTimeStamp == Some(old(referenceTime)) ==>
        idList == old(idList) && referenceTime == old(referenceTime)
      ensures choice.Wrapper? && choice.referenceTimeStamp != Some(old(referenceTime)) ==>
        idList == SortByKey(old(idList), OffsetKey(idMap, offset, referenceTime))
      ensures choice.Wrapper? && choice.id !in idMap ==> r.Failure?
      ensures choice.Wrapper? && choice.id in idMap ==>
        r.Success? && r.value == Lists.IndexOf(idList, idMap[choice.id])
    {
      if choice.Other? {
        return Success(-1);
      }
      var refTime := choice.referenceTimeStamp;
      if (refTime.Some? && refTime.value != referenceTime) || refTime.None? {
        referenceTime := if refTime.None? then now else refTime.value;
        SortIds(referenceTime);
      }
      if choice.id !in idMap {
        return Failure("NullPointerException: no zone for the id");
      }
      var zone := idMap[choice.id];
      r := Success(Lists.IndexOf(idList, zone));
    }

    /** `getCount`: the number of ids. */
    function GetCount(): (n: nat)
      reads this
      ensures n == |idList|
    {
      |idList|
    }

    /** `getItem`: the zone of the id at `position`; out of range is an error. */
    function GetItem(position: int): (r: Result<string>)
      reads this
      requires Valid()
      ensures r.Success? <==> 0 <= position < |idList|
      ensures r.Success? ==> r.value == idMap[idList[position]]
    {
      if 0 <= position < |idList| then Success(idMap[idList[position]])
      else Failure("IndexOutOfBoundsException")
    }
  }
}
