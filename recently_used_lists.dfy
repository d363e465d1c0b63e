/**
 * RecentlyUsedLists: the ids of task lists in most-recently-used order, persisted as one
 * preference string of decimal ids joined by ",". Readers skip empty segments and clean up
 * stored "null" entries.
 */
module RecentlyUsedLists {
  import opened Wrappers
  import Text
  import opened Lists

  const SEPARATOR: string := ","
  const NULL_ENTRY: string := "null"

  function WithoutEmpty(xs: seq<string>): (r: seq<string>)
    ensures forall i :: 0 <= i < |r| ==> r[i] != ""
    ensures (forall i :: 0 <= i < |xs| ==> xs[i] != "") ==> r == xs
  {
    if |xs| == 0 then []
    else if xs[0] == "" then WithoutEmpty(xs[1..])
    else [xs[0]] + WithoutEmpty(xs[1..])
  }

  function WithoutNullEntries(xs: seq<string>): (r: seq<string>)
    ensures forall i :: 0 <= i < |r| ==> r[i] != NULL_ENTRY
    ensures |r| <= |xs|
  {
    if |xs| == 0 then []
    else if xs[0] == NULL_ENTRY then WithoutNullEntries(xs[1..])
    else [xs[0]] + WithoutNullEntries(xs[1..])
  }

  /** The non-empty segments between commas. */
  function Segments(s: string): seq<string>
  {
    WithoutEmpty(Text.SplitRaw(s, SEPARATOR))
  }

  /** `Long.valueOf` on every segment; one malformed segment is a NumberFormatException. */
  function ParseAll(xs: seq<string>): (r: Result<seq<int>>)
    ensures r.Success? ==> |r.value| == |xs|
    ensures r.Success? ==> forall i :: 0 <= i < |xs| ==> Text.ParseLong(xs[i]) == Some(r.value[i])
    ensures r.Failure? ==> exists i :: 0 <= i < |xs| && Text.ParseLong(xs[i]).None?
  {
    if |xs| == 0 then Success([])
    else
      var head := Text.ParseLong(xs[0]);
      if head.None? then Failure("NumberFormatException")
      else
        var tail := ParseAll(xs[1..]);
        if tail.Failure? then tail else Success([head.value] + tail.value)
  }

  function IdStrings(ids: seq<int>): (r: seq<string>)
    ensures |r| == |ids|
    ensures forall i :: 0 <= i < |ids| ==> r[i] == Text.IntToString(ids[i])
  {
    if |ids| == 0 then [] else [Text.IntToString(ids[0])] + IdStrings(ids[1..])
  }

  /** `setList`: `TextUtils.join(",", lists)`. */
  function Render(ids: seq<int>): string
  {
    Text.Join(IdStrings(ids), SEPARATOR)
  }

  predicate HasNull(s: string)
  {
    Text.IndexOf(s, NULL_ENTRY, 0) != -1
  }

  predicate InLongRange(ids: seq<int>)
  {
    forall i :: 0 <= i < |ids| ==> Text.MIN_LONG <= ids[i] <= Text.MAX_LONG
  }

  /** The ids a preference value stands for, as `getList` reads them. */
  function StoredIds(pref: Option<string>): Result<seq<int>>
  {
    if pref.None? then Success([])
    else if HasNull(pref.value) then ParseAll(WithoutNullEntries(Segments(pref.value)))
    else ParseAll(Segments(pref.value))
  }

  /** What `setList` writes is read back by `getList` as the same ids, with no cleanup needed. */
  lemma RenderReadsBack(ids: seq<int>)
    requires InLongRange(ids)
    ensures !HasNull(Render(ids))
    ensures StoredIds(Some(Render(ids))) == Success(ids)
  {
    var strs := IdStrings(ids);
    forall i | 0 <= i < |strs|
      ensures Text.CharsIn(strs[i], Text.NUMBER_CHARS + {','})
      ensures Text.Avoids(strs[i], SEPARATOR) && strs[i] != ""
    {
      Text.IntToStringChars(ids[i]);
      Text.IntToStringAvoids(ids[i], SEPARATOR);
    }
    Text.JoinCharsIn(strs, SEPARATOR, Text.NUMBER_CHARS + {','});
    Text.NotFoundOutside(Render(ids), NULL_ENTRY, Text.NUMBER_CHARS + {','});
    if |ids| == 0 {
      assert Segments(Render(ids)) == [];
    } else {
      Text.SplitRawJoin(strs, SEPARATOR);
      assert Segments(Render(ids)) == strs;
    }
    ParseAllOfIdStrings(ids);
  }

  lemma {:induction false} ParseAllOfIdStrings(ids: seq<int>)
    requires InLongRange(ids)
    ensures ParseAll(IdStrings(ids)) == Success(ids)
  {
    if |ids| > 0 {
      Text.ParseLongOfString(ids[0]);
      ParseAllOfIdStrings(ids[1..]);
      assert IdStrings(ids)[1..] == IdStrings(ids[1..]);
      assert [ids[0]] + ids[1..] == ids;
    }
  }

  lemma StoredIdsInRange(pref: Option<string>)
    ensures StoredIds(pref).Success? ==> InLongRange(StoredIds(pref).value)
  {
  }

  /** The order after `use(x)`: x first, then the old order without x. */
  function UseOrder(ids: seq<int>, x: int): seq<int>
  {
    [x] + RemoveFirst(ids, x)
  }

  /** `use` keeps every id once: a duplicate-free list stays duplicate-free, x first, nothing lost. */
  lemma UseOrderFacts(ids: seq<int>, x: int)
    requires Distinct(ids)
    ensures Distinct(UseOrder(ids, x))
    ensures UseOrder(ids, x)[0] == x
    ensures forall y :: y in ids || y == x <==> y in UseOrder(ids, x)
  {
    RemoveFirstDistinct(ids, x);
  }

  /** `x` is `recent[i]`, is allowed, and no earlier recent id is. */
  predicate FirstAllowedAt(recent: seq<int>, allowed: seq<Option<int>>, i: int, x: int)
  {
    0 <= i < |recent| && recent[i] == x && Some(x) in allowed &&
    forall j :: 0 <= j < i ==> Some(recent[j]) !in allowed
  }

  /** The first recently used id that is allowed. */
  function FirstAllowed(recent: seq<int>, allowed: seq<Option<int>>): (r: Option<int>)
    ensures r.None? <==> forall i :: 0 <= i < |recent| ==> Some(recent[i]) !in allowed
    ensures r.Some? ==> exists i :: FirstAllowedAt(recent, allowed, i, r.value)
  {
    if |recent| == 0 then None
    else if Some(recent[0]) in allowed then
      assert FirstAllowedAt(recent, allowed, 0, recent[0]);
      Some(recent[0])
    else
      var t := FirstAllowed(recent[1..], allowed);
      assert t.Some? ==> exists i :: FirstAllowedAt(recent, allowed, i, t.value) by {
        if t.Some? {
          var k :| FirstAllowedAt(recent[1..], allowed, k, t.value);
          assert FirstAllowedAt(recent, allowed, k + 1, t.value);
        }
      }
      t
  }

  /** `getRecentFromList` given the recent ids: the first allowed recent id, else the first allowed id. */
  function RecentFrom(recent: seq<int>, allowed: seq<Option<int>>): Result<int>
  {
    if None in allowed then Failure("allowedLists cannot contain 'null'")
    else
      var first := FirstAllowed(recent, allowed);
      if first.Some? then Success(first.value)
      else if |allowed| == 0 then Failure("IndexOutOfBoundsException")
      else Success(allowed[0].value)
  }

  /** The preference as `getList` leaves it: rewritten without its "null" entries when those were dropped. */
  function PrefAfterGetList(pref: Option<string>): Option<string>
  {
    if pref.Some? && HasNull(pref.value) && StoredIds(pref).Success? then Some(Render(StoredIds(pref).value))
    else pref
  }

  /** The preference holding the list. */
  class RecentlyUsedLists {
    var pref: Option<string>

    constructor (initial: Option<string>)
      ensures pref == initial
    {
      pref := initial;
    }

    method SetList(ids: seq<int>)
      modifies this
      ensures pref == Some(Render(ids))
    {
      pref := Some(Render(ids));
    }

    /** `getList`: reads the ids; stored "null" entries are dropped and the cleaned list is written back. */
    method GetList() returns (r: Result<seq<int>>)
      modifies this
      ensures r == StoredIds(old(pref))
      ensures pref == PrefAfterGetList(old(pref))
      decreases if pref.Some? && HasNull(pref.value) then 1 else 0
    {
      if pref.None? {
        return Success([]);
      }
      var s := pref.value;
      if HasNull(s) {
        var cleaned := ParseAll(WithoutNullEntries(Segments(s)));
        if cleaned.Failure? {
          return cleaned;
        }
        SetList(cleaned.value);
        RenderReadsBack(cleaned.value);
        r := GetList();
        return;
      }
      r := ParseAll(Segments(s));
    }

    /** `getRecentFromList`: the allowed list is checked for null before the preference is read. */
    method GetRecentFromList(allowed: seq<Option<int>>) returns (r: Result<int>)
      modifies this
      ensures None in allowed ==> r.Failure? && pref == old(pref)
      ensures None !in allowed && StoredIds(old(pref)).Failure? ==> r.Failure?
      ensures None !in allowed && StoredIds(old(pref)).Success? ==> r == RecentFrom(StoredIds(old(pref)).value, allowed)
      ensures None !in allowed ==> pref == PrefAfterGetList(old(pref))
    {
      if None in allowed {
        return Failure("allowedLists cannot contain 'null'");
      }
      var recent := GetList();
      if recent.Failure? {
        return Failure(recent.error);
      }
      var ids := recent.value;
      var i := 0;
      while i < |ids|
        invariant 0 <= i <= |ids|
        invariant FirstAllowed(ids, allowed) == FirstAllowed(ids[i..], allowed)
      {
        if Some(ids[i]) in allowed {
          return Success(ids[i]);
        }
        assert ids[i..][1..] == ids[i + 1..];
        i := i + 1;
      }
      if |allowed| == 0 {
        return Failure("IndexOutOfBoundsException");
      }
      r := Success(allowed[0].value);
    }

    /** `use(x)`: x moves to the front of the stored order. */
    method Use(listId: int) returns (r: Outcome)
      requires Text.MIN_LONG <= listId <= Text.MAX_LONG
      modifies this
      ensures r.Pass? <==> StoredIds(old(pref)).Success?
      ensures r.Pass? ==> pref == Some(Render(UseOrder(StoredIds(old(pref)).value, listId)))
      ensures r.Fail? ==> pref == old(pref)
    {
      var lists := GetList();
      if lists.Failure? {
        return Fail(lists.error);
      }
      var reordered := [listId] + RemoveFirst(lists.value, listId);
      SetList(reordered);
      r := Pass;
    }
  }

  /** After `use(x)` the list reads back as x followed by the old order without x. */
  lemma UseReadsBack(pref: Option<string>, x: int)
    requires Text.MIN_LONG <= x <= Text.MAX_LONG
    requires StoredIds(pref).Success?
    ensures StoredIds(Some(Render(UseOrder(StoredIds(pref).value, x)))) == Success(UseOrder(StoredIds(pref).value, x))
  {
    var ids := StoredIds(pref).value;
    RemoveFirstSubset(ids, x);
    var u := UseOrder(ids, x);
    forall i | 0 <= i < |u| ensures Text.MIN_LONG <= u[i] <= Text.MAX_LONG {
      if i > 0 {
        assert u[i] in RemoveFirst(ids, x);
      }
    }
    RenderReadsBack(u);
  }

  lemma SplitNullOneTwo()
    ensures Text.SplitRaw("null,1,2", SEPARATOR) == ["null", "1", "2"]
  {
    var parts := ["null", "1", "2"];
    assert parts[1..] == ["1", "2"] && parts[1..][1..] == ["2"];
    assert Text.Join(parts, SEPARATOR) == "null" + "," + ("1" + "," + "2");
    assert "null" + "," + ("1" + "," + "2") == "null,1,2";
    forall k | 0 <= k < |parts| ensures Text.Avoids(parts[k], SEPARATOR) {
    }
    Text.SplitRawJoin(parts, SEPARATOR);
  }

  lemma ParseOneTwo()
    ensures ParseAll(["1", "2"]) == Success([1, 2])
  {
    assert Text.ParseLong("1") == Some(1);
    assert Text.ParseLong("2") == Some(2);
    assert ["1", "2"][1..] == ["2"] && ["2"][1..] == [] && ["2"][0] == "2";
    assert ParseAll([]) == Success([]) && [2] + [] == [2] && [1] + [2] == [1, 2];
    assert ParseAll(["2"]) == Success([2]);
  }

  lemma SegmentsNullOneTwo()
    ensures HasNull("null,1,2")
    ensures WithoutNullEntries(Segments("null,1,2")) == ["1", "2"]
  {
    assert Text.OccursAt("null,1,2", NULL_ENTRY, 0);
    SplitNullOneTwo();
    assert Segments("null,1,2") == ["null", "1", "2"];
    assert ["null", "1", "2"][1..] == ["1", "2"];
  }

  /** A stored "null,1,2" reads as [1, 2], the "null" entry being dropped. */
  lemma ReadAfterNullEntry()
    ensures StoredIds(Some("null,1,2")) == Success([1, 2])
  {
    SegmentsNullOneTwo();
    ParseOneTwo();
  }

  /** Using list 3 on [1, 2] stores "3,1,2". */
  lemma UseThreeRendersFirst()
    ensures Render(UseOrder([1, 2], 3)) == "3,1,2"
  {
    assert UseOrder([1, 2], 3) == [3, 1, 2];
    assert Text.IntToString(3) == "3";
    assert Text.IntToString(1) == "1";
    assert Text.IntToString(2) == "2";
    assert IdStrings([3, 1, 2]) == ["3", "1", "2"];
  }
}
