/**
 * ChecklistFieldAdapter (the legacy checklist format): a checklist is stored after the
 * description, one item per line, as "[x] text" for a checked and "[ ] text" for an
 * unchecked item.
 */
module ChecklistFieldAdapter {
  import opened Wrappers
  import opened ContentValues
  import Text
  import ContentSet
  import Description = DescriptionStringFieldAdapter

  datatype CheckListItem = CheckListItem(checked: bool, text: string)

  const NEWLINE: string := "\n"

  // ---------------------------------------------------------------- reading

  /** A checklist starts at `j`: a '[' at the start of a line with ']' two characters later and a mark in " xX" between. */
  predicate ChecklistStart(v: string, j: int)
  {
    0 <= j && j + 2 < |v| && v[j] == '[' && v[j + 2] == ']' && (j == 0 || v[j - 1] == '\n') && v[j + 1] in " xX"
  }

  /** The first checklist start at or after `from`. */
  function FirstStart(v: string, from: nat): (r: Option<nat>)
    ensures r.Some? ==> from <= r.value && ChecklistStart(v, r.value)
    ensures forall q :: from <= q && (r.None? || q < r.value) ==> !ChecklistStart(v, q)
    decreases |v| - from
  {
    if from >= |v| then None
    else if ChecklistStart(v, from) then Some(from)
    else FirstStart(v, from + 1)
  }

  lemma FirstStartSkip(v: string, from: nat, to: nat)
    requires from <= to
    requires forall q :: from <= q < to ==> !ChecklistStart(v, q)
    ensures FirstStart(v, from) == FirstStart(v, to)
    decreases (to as int) - (from as int)
  {
    if from < to && from < |v| {
      FirstStartSkip(v, from + 1, to);
    }
  }

  /** One line: trimmed first, then parsed by `ParseTrimmed`. */
  function ParseLine(line: string): (r: Option<CheckListItem>)
    ensures r.None? <==> Text.Trim(line) == ""
  {
    ParseTrimmed(Text.Trim(line))
  }

  /** `l` starts with '[', `c`, ']'. */
  predicate HasMark(l: string, c: char)
  {
    |l| >= 3 && l[0] == '[' && l[1] == c && l[2] == ']'
  }

  /** A trimmed line: empty gives nothing, "[x]", "[X]" and "[ ]" an item with the trimmed rest, any other line an unchecked item. */
  function ParseTrimmed(l: string): (r: Option<CheckListItem>)
    ensures r.None? <==> l == ""
    ensures r.Some? && !(HasMark(l, 'x') || HasMark(l, 'X') || HasMark(l, ' ')) ==> r.value == CheckListItem(false, l)
  {
    if |l| == 0 then None
    else if HasMark(l, 'x') || HasMark(l, 'X') then Some(CheckListItem(true, Text.Trim(l[3..])))
    else if HasMark(l, ' ') then Some(CheckListItem(false, Text.Trim(l[3..])))
    else Some(CheckListItem(false, l))
  }

  function OptionList(o: Option<CheckListItem>): seq<CheckListItem>
  {
    if o.Some? then [o.value] else []
  }

  /** The items of the lines, in order. */
  function ParseLines(lines: seq<string>): (r: seq<CheckListItem>)
    ensures |r| <= |lines|
  {
    if |lines| == 0 then []
    else ParseLines(lines[..|lines| - 1]) + OptionList(ParseLine(lines[|lines| - 1]))
  }

  /** `parseCheckList` on a checklist string. */
  function ParseCheckList(checklist: string): seq<CheckListItem>
  {
    ParseLines(Text.JavaSplit(checklist, NEWLINE))
  }

  /** `extractCheckList`: the items from the first checklist start on, none for a null or short value. */
  function ExtractCheckList(value: Option<string>): (r: seq<CheckListItem>)
    ensures (value.None? || |value.value| < 3) ==> r == []
  {
    if value.None? || |value.value| < 3 then []
    else
      var j := FirstStart(value.value, 0);
      if j.Some? then ParseCheckList(value.value[j.value..]) else []
  }

  lemma ParseLinesSnoc(lines: seq<string>, i: nat)
    requires i < |lines|
    ensures ParseLines(lines[..i + 1]) == ParseLines(lines[..i]) + OptionList(ParseLine(lines[i]))
  {
    assert lines[..i + 1][..i] == lines[..i];
  }

  /** The body of `parseCheckList`'s loop on a trimmed line. */
  method ParseTrimmedLine(line: string) returns (r: Option<CheckListItem>)
    ensures r == ParseTrimmed(line)
  {
    if |line| == 0 {
      return None;
    }
    if HasMark(line, 'x') || HasMark(line, 'X') {
      r := Some(CheckListItem(true, Text.Trim(line[3..])));
    } else if HasMark(line, ' ') {
      r := Some(CheckListItem(false, Text.Trim(line[3..])));
    } else {
      r := Some(CheckListItem(false, line));
    }
  }

  /** `parseCheckList`: a loop over the lines of the split string. */
  method ParseCheckListLines(checklist: string) returns (result: seq<CheckListItem>)
    ensures result == ParseCheckList(checklist)
  {
    var lines := Text.JavaSplit(checklist, NEWLINE);
    result := [];
    for i := 0 to |lines|
      invariant result == ParseLines(lines[..i])
    {
      ParseLinesSnoc(lines, i);
      var line := Text.Trim(lines[i]);
      var item := ParseTrimmedLine(line);
      if item.Some? {
        result := result + [item.value];
      } else {
        assert result + [] == result;
      }
    }
    assert lines[..|lines|] == lines;
  }

  /** `extractCheckList`: the search loop over the occurrences of '['. */
  method ExtractCheckListOf(value: Option<string>) returns (r: seq<CheckListItem>)
    ensures r == ExtractCheckList(value)
  {
    if value.Some? && |value.value| >= 3 {
      var v := value.value;
      var pos := -1;
      while true
        invariant -1 <= pos < |v|
        invariant FirstStart(v, 0) == FirstStart(v, pos + 1)
        decreases |v| - pos
      {
        var next := Text.IndexOf(v, "[", pos + 1);
        if next < 0 {
          break;
        }
        assert v[next] == v[next..next + 1][0] == '[';
        forall q | pos + 1 <= q < next {
          OpenBracketOccurs(v, q);
        }
        FirstStartSkip(v, pos + 1, next);
        if |v| > next + 2 && v[next + 2] == ']' && (next == 0 || v[next - 1] == '\n') {
          var checkmark := v[next + 1];
          if checkmark == ' ' || checkmark == 'x' || checkmark == 'X' {
            assert ChecklistStart(v, next);
            assert FirstStart(v, 0) == Some(next);
            ExtractAt(v, next);
            r := ParseCheckListLines(v[next..]);
            return;
          }
        }
        FirstStartSkip(v, next, next + 1);
        pos := next;
      }
      forall q | pos + 1 <= q < |v| {
        OpenBracketOccurs(v, q);
      }
      FirstStartSkip(v, pos + 1, |v|);
    }
    r := [];
  }

  lemma ExtractAt(v: string, j: nat)
    requires |v| >= 3 && FirstStart(v, 0) == Some(j)
    ensures ExtractCheckList(Some(v)) == ParseCheckList(v[j..])
  {
  }

  lemma OpenBracketOccurs(v: string, q: int)
    ensures ChecklistStart(v, q) ==> Text.OccursAt(v, "[", q)
  {
    if ChecklistStart(v, q) {
      assert v[q..q + 1] == [v[q]];
    }
  }

  // ---------------------------------------------------------------- writing

  function Mark(checked: bool): string
  {
    if checked then "[x]" else "[ ]"
  }

  function ItemLine(item: CheckListItem): string
  {
    Mark(item.checked) + " " + item.text
  }

  function ItemLines(items: seq<CheckListItem>): (r: seq<string>)
    ensures |r| == |items|
    ensures forall i :: 0 <= i < |items| ==> r[i] == ItemLine(items[i])
  {
    seq(|items|, i requires 0 <= i < |items| => ItemLine(items[i]))
  }

  /** What `serializeCheckList` appends: the item lines joined with "\n". */
  function Serialized(items: seq<CheckListItem>): string
  {
    Text.Join(ItemLines(items), NEWLINE)
  }

  /** `serializeCheckList`: appends the lines to `sb`, a separator before all but the first; nothing for a null or empty list. */
  method SerializeCheckList(sb: string, checklist: Option<seq<CheckListItem>>) returns (r: string)
    ensures checklist.None? ==> r == sb
    ensures checklist.Some? ==> r == sb + Serialized(checklist.value)
  {
    r := sb;
    if checklist.None? || |checklist.value| == 0 {
      return;
    }
    var items := checklist.value;
    var first := true;
    for i := 0 to |items|
      invariant first <==> i == 0
      invariant i > 0 ==> r == sb + Serialized(items[..i])
      invariant i == 0 ==> r == sb
    {
      ghost var before := r;
      ghost var sep := if first then "" else NEWLINE;
      if first {
        first := false;
      } else {
        r := r + NEWLINE;
      }
      ghost var withSep := r;
      assert withSep == before + sep;
      r := r + Mark(items[i].checked);
      r := r + " ";
      r := r + items[i].text;
      AppendLine(before, sep, Mark(items[i].checked), items[i].text);
      assert r == before + (sep + ItemLine(items[i]));
      SerializedSnoc(items, i);
    }
    assert items[..|items|] == items;
  }

  lemma AppendLine(before: string, sep: string, mark: string, text: string)
    ensures before + sep + mark + " " + text == before + (sep + (mark + " " + text))
  {
  }

  lemma SerializedSnoc(items: seq<CheckListItem>, i: nat)
    requires i < |items|
    ensures i == 0 ==> Serialized(items[..1]) == ItemLine(items[0])
    ensures i > 0 ==> Serialized(items[..i + 1]) == Serialized(items[..i]) + (NEWLINE + ItemLine(items[i]))
  {
    assert ItemLines(items[..i + 1]) == ItemLines(items[..i]) + [ItemLine(items[i])];
    if i > 0 {
      Text.JoinSnoc(ItemLines(items[..i]), ItemLine(items[i]), NEWLINE);
    }
  }

  /** The value `set` stores: the current description, then "\n" and the checklist; only the description for a null or empty list. */
  function Combined(prior: Option<string>, value: Option<seq<CheckListItem>>): Option<string>
  {
    var description := Description.Extract(prior);
    if value.Some? && |value.value| > 0 then
      Some((if description.Some? then description.value + NEWLINE else "") + Serialized(value.value))
    else description
  }

  /** `get`: the checklist of the stored field. */
  function Get(values: ContentSet.ContentSet, fieldName: string): seq<CheckListItem>
    reads values
  {
    ExtractCheckList(AsString(values.Get(fieldName)))
  }

  /** `set` on a ContentSet. */
  method Set(values: ContentSet.ContentSet, fieldName: string, value: Option<seq<CheckListItem>>)
    modifies values
    ensures AsString(values.Get(fieldName)) == Combined(old(AsString(values.Get(fieldName))), value)
    ensures forall k :: k != fieldName ==> values.Get(k) == old(values.Get(k))
  {
    var oldDescription := Description.ExtractDescription(AsString(values.Get(fieldName)));
    if value.Some? && |value.value| > 0 {
      var sb := "";
      if oldDescription.Some? {
        sb := sb + oldDescription.value;
        sb := sb + "\n";
        assert sb == oldDescription.value + NEWLINE;
      }
      sb := SerializeCheckList(sb, value);
      values.Put(StringKind, fieldName, Some(StrV(sb)));
    } else {
      values.Put(StringKind, fieldName, if oldDescription.None? then None else Some(StrV(oldDescription.value)));
    }
  }

  // ---------------------------------------------------------------- properties

  /** An item survives storage when its text is one trimmed line. */
  predicate Storable(item: CheckListItem)
  {
    Text.IsTrimmed(item.text) && Text.Avoids(item.text, NEWLINE)
  }

  lemma ParseItemLine(item: CheckListItem)
    requires Storable(item)
    ensures ParseLine(ItemLine(item)) == Some(item)
  {
    var mark := Mark(item.checked);
    assert ItemLine(item) == mark + (" " + item.text);
    TrimMarked(mark, item.text);
    ParseMarked(Text.Trim(ItemLine(item)), item);
  }

  /** A mark, a space and trimmed text trim to the mark followed by text that trims to the text. */
  lemma TrimMarked(mark: string, t: string)
    requires |mark| == 3 && mark[0] == '[' && mark[2] == ']' && Text.IsTrimmed(t)
    ensures var l := Text.Trim(mark + (" " + t));
      |l| >= 3 && l[..3] == mark && Text.Trim(l[3..]) == t
  {
    var line := mark + (" " + t);
    if |t| == 0 {
      assert line == mark + " ";
      TrimMarkSpace(mark);
      assert Text.Trim(line)[3..] == "";
    } else {
      assert line[0] == '[' && line[|line| - 1] == t[|t| - 1];
      Text.TrimFacts(line);
      assert line[3..] == " " + t;
      Text.TrimSpacePrefix(t);
    }
  }

  lemma ParseMarked(l: string, item: CheckListItem)
    requires |l| >= 3 && l[..3] == Mark(item.checked)
    requires Text.Trim(l[3..]) == item.text
    ensures ParseTrimmed(l) == Some(item)
  {
    assert l[0] == l[..3][0] && l[1] == l[..3][1] && l[2] == l[..3][2];
  }

  lemma TrimMarkSpace(mark: string)
    requires |mark| == 3 && mark[0] == '[' && mark[2] == ']'
    ensures Text.Trim(mark + " ") == mark
  {
    var s := mark + " ";
    assert Text.TrimStart(s) == s;
    assert s[..3] == mark;
    assert Text.TrimEnd(mark) == mark;
  }

  lemma ParseItemLines(items: seq<CheckListItem>)
    requires forall i :: 0 <= i < |items| ==> Storable(items[i])
    ensures ParseLines(ItemLines(items)) == items
  {
    var lines := ItemLines(items);
    forall i | 0 <= i < |lines|
      ensures ParseLine(lines[i]) == Some(items[i])
    {
      ParseItemLine(items[i]);
    }
    ParseLinesOf(lines, items);
  }

  /** Lines each of which parses to the corresponding item parse to the items. */
  lemma {:induction false} ParseLinesOf(lines: seq<string>, items: seq<CheckListItem>)
    requires |lines| == |items|
    requires forall i :: 0 <= i < |lines| ==> ParseLine(lines[i]) == Some(items[i])
    ensures ParseLines(lines) == items
  {
    if |lines| > 0 {
      var n := |lines| - 1;
      ParseLinesOf(lines[..n], items[..n]);
      assert OptionList(ParseLine(lines[n])) == [items[n]];
      ConsLast(items);
    }
  }

  lemma ConsLast<T>(s: seq<T>)
    requires |s| > 0
    ensures s[..|s| - 1] + [s[|s| - 1]] == s
  {
  }

  /** Round trip: parsing a serialised non-empty list of storable items gives the list back. */
  lemma SerializeParse(items: seq<CheckListItem>)
    requires |items| > 0
    requires forall i :: 0 <= i < |items| ==> Storable(items[i])
    ensures ParseCheckList(Serialized(items)) == items
  {
    var lines := ItemLines(items);
    forall i | 0 <= i < |lines|
      ensures Text.Avoids(lines[i], NEWLINE)
    {
      assert lines[i] == Mark(items[i].checked) + " " + items[i].text;
    }
    assert lines[|lines| - 1][0] == '[';
    Text.JavaSplitJoin(lines, NEWLINE);
    ParseItemLines(items);
  }

  /** A description cut off by `extractDescription` holds no checklist start. */
  lemma DescriptionHasNoChecklist(v: string)
    ensures forall j :: !ChecklistStart(Description.Extract(Some(v)).value, j)
  {
    var d := Description.Extract(Some(v)).value;
    forall j | ChecklistStart(d, j)
      ensures ChecklistStart(v, j)
    {
      assert d[j] == v[j] && d[j + 1] == v[j + 1] && d[j + 2] == v[j + 2];
      if j > 0 {
        assert d[j - 1] == v[j - 1];
      }
    }
    forall j | ChecklistStart(v, j) && j > 0
      ensures Description.ChecklistAfter(v, j - 1)
    {
    }
    assert ChecklistStart(v, 0) ==> Description.BracketMarker(v, 0);
  }

  /** A serialised non-empty list starts with a checklist line. */
  lemma SerializedStart(items: seq<CheckListItem>)
    requires |items| > 0
    ensures |Serialized(items)| >= 4 && ChecklistStart(Serialized(items), 0)
    ensures Serialized(items)[3] == ' '
  {
    var s := Serialized(items);
    var first := ItemLine(items[0]);
    assert ItemLines(items)[0] == first;
    if |items| > 1 {
      assert s == first + (NEWLINE + Text.Join(ItemLines(items)[1..], NEWLINE));
    } else {
      assert s == first;
    }
    assert s[..|first|] == first;
    assert s[0] == first[0] && s[1] == first[1] && s[2] == first[2] && s[3] == first[3];
  }

  /** A checklist put after a description and a newline is the first checklist of the combined text. */
  lemma ChecklistAfterDescription(d: string, s: string)
    requires forall j :: !ChecklistStart(d, j)
    requires ChecklistStart(s, 0)
    ensures forall q :: 0 <= q < |d| + 1 ==> !ChecklistStart(d + NEWLINE + s, q)
    ensures ChecklistStart(d + NEWLINE + s, |d| + 1)
  {
    var w := d + NEWLINE + s;
    forall q | 0 <= q < |d| + 1
      ensures !ChecklistStart(w, q)
    {
      if q + 2 < |d| {
        assert w[q] == d[q] && w[q + 1] == d[q + 1] && w[q + 2] == d[q + 2];
        if q > 0 {
          assert w[q - 1] == d[q - 1];
        }
        assert ChecklistStart(w, q) == ChecklistStart(d, q);
      } else if q + 2 == |d| {
        assert w[q + 2] == '\n';
      } else if q + 1 == |d| {
        assert w[q + 1] == '\n';
      } else {
        assert w[q] == '\n';
      }
    }
    assert w[|d|] == '\n' && w[|d| + 1] == s[0] && w[|d| + 2] == s[1] && w[|d| + 3] == s[2];
  }

  /** After `set` with a non-empty list of storable items, `get` returns exactly that list. */
  lemma SetThenGet(prior: Option<string>, items: seq<CheckListItem>)
    requires |items| > 0
    requires forall i :: 0 <= i < |items| ==> Storable(items[i])
    ensures ExtractCheckList(Combined(prior, Some(items))) == items
  {
    SerializeParse(items);
    SerializedStart(items);
    var description := Description.Extract(prior);
    if description.Some? {
      DescriptionHasNoChecklist(prior.value);
      GetAfterDescription(description.value, items);
    } else {
      GetWithoutDescription(prior, items);
    }
  }

  lemma GetAfterDescription(d: string, items: seq<CheckListItem>)
    requires |items| > 0 && forall j :: !ChecklistStart(d, j)
    requires ParseCheckList(Serialized(items)) == items
    requires |Serialized(items)| >= 4 && ChecklistStart(Serialized(items), 0)
    ensures ExtractCheckList(Some(d + NEWLINE + Serialized(items))) == items
  {
    var s := Serialized(items);
    var w := d + NEWLINE + s;
    ChecklistAfterDescription(d, s);
    FirstStartSkip(w, 0, |d| + 1);
    assert w[|d| + 1..] == s;
    ExtractAt(w, |d| + 1);
  }

  lemma GetWithoutDescription(prior: Option<string>, items: seq<CheckListItem>)
    requires |items| > 0 && Description.Extract(prior).None?
    requires ParseCheckList(Serialized(items)) == items
    requires |Serialized(items)| >= 4 && ChecklistStart(Serialized(items), 0)
    ensures ExtractCheckList(Combined(prior, Some(items))) == items
  {
    var s := Serialized(items);
    assert "" + s == s;
    assert Combined(prior, Some(items)) == Some(s);
    assert s[0..] == s;
    assert FirstStart(s, 0) == Some(0);
    ExtractAt(s, 0);
  }

  /** After `set` with a null or empty list, no checklist is left. */
  lemma ClearThenGet(prior: Option<string>, value: Option<seq<CheckListItem>>)
    requires value.None? || value.value == []
    ensures ExtractCheckList(Combined(prior, value)) == []
  {
    if prior.Some? {
      DescriptionHasNoChecklist(prior.value);
      var d := Description.Extract(prior).value;
      if |d| >= 3 {
        assert FirstStart(d, 0).None?;
      }
    }
  }

  /** `set` leaves the description in front of the checklist as it was. */
  lemma SetKeepsDescription(prior: string, items: seq<CheckListItem>)
    requires |items| > 0
    requires Description.PlainText(Description.Extract(Some(prior)).value)
    ensures Description.Extract(Combined(Some(prior), Some(items))) == Description.Extract(Some(prior))
  {
    var d := Description.Extract(Some(prior)).value;
    var s := Serialized(items);
    SerializedStart(items);
    var w := d + NEWLINE + s;
    assert w[|d|] == '\n' && w[|d| + 1] == s[0] && w[|d| + 2] == s[1] && w[|d| + 3] == s[2];
    assert Description.ChecklistAfter(w, |d|);
    assert w[..|d|] == d;
    Description.ExtractLeadingPlain(w, |d|);
  }
}
