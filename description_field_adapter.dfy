/**
 * DescriptionFieldAdapter: the task description field holds free text paragraphs mixed
 * with checklist lines of the form "- [x] text", "* [ ] text" or "[X] text". Reading splits
 * it into DescriptionItems, writing serialises them with "- [x] " / "- [ ] " prefixes.
 */
module DescriptionFieldAdapter {
  import opened Wrappers
  import opened ContentValues
  import Text
  import ContentSet

  datatype DescriptionItem = DescriptionItem(checkbox: bool, checked: bool, text: string)

  const NEWLINE: string := "\n"

  /** The characters at which the regular expression `.` stops. */
  predicate IsLineTerminator(c: char)
  {
    c == '\n' || c == '\r' || c == '\U{0085}' || c == '\U{2028}' || c == '\U{2029}'
  }

  predicate SingleLine(s: string)
  {
    forall i :: 0 <= i < |s| ==> !IsLineTerminator(s[i])
  }

  /** What `(.*)` captures: everything up to the first line terminator. */
  function UpToTerminator(s: string): string
  {
    if |s| == 0 || IsLineTerminator(s[0]) then "" else [s[0]] + UpToTerminator(s[1..])
  }

  /** The capture is a single-line prefix that stops only at a line terminator or the end. */
  lemma {:induction false} UpToTerminatorFacts(s: string)
    ensures var r := UpToTerminator(s);
      r <= s && SingleLine(r) && (|r| < |s| ==> IsLineTerminator(s[|r|]))
  {
    if |s| > 0 && !IsLineTerminator(s[0]) {
      UpToTerminatorFacts(s[1..]);
      var t := UpToTerminator(s[1..]);
      assert UpToTerminator(s) == [s[0]] + t;
      assert ([s[0]] + t)[1..] == t;
    }
  }

  /** On a single line the capture is the whole line. */
  lemma {:induction false} UpToTerminatorSingleLine(s: string)
    requires SingleLine(s)
    ensures UpToTerminator(s) == s
  {
    if |s| > 0 {
      assert SingleLine(s[1..]) by {
        forall i | 0 <= i < |s[1..]| ensures !IsLineTerminator(s[1..][i]) {
          assert s[1..][i] == s[i + 1];
        }
      }
      UpToTerminatorSingleLine(s[1..]);
      assert [s[0]] + s[1..] == s;
    }
  }

  /** A matched checkbox line: whether it is ticked, and the text after the mark (group 3). */
  datatype Mark = Mark(checked: bool, text: string)

  /** `CHECKMARK_PATTERN.matcher(line).lookingAt()` for `([-*] )?\[([xX ])\](.*)`. */
  function MatchCheckbox(line: string): Option<Mark>
  {
    var rest := if |line| >= 2 && (line[0] == '-' || line[0] == '*') && line[1] == ' ' then line[2..] else line;
    if |rest| >= 3 && rest[0] == '[' && rest[1] in "xX " && rest[2] == ']'
    then Some(Mark(rest[1] != ' ', UpToTerminator(rest[3..])))
    else None
  }

  /** The line begins with the bullet `p` (none, "- " or "* ") and then the mark `[m]`. */
  predicate BoxAt(line: string, p: string, m: char)
  {
    (p == "" || p == "- " || p == "* ") && m in "xX " && p + ['[', m, ']'] <= line
  }

  /** A line is a checkbox item iff it starts with an optional bullet and a mark; x and X tick it. */
  lemma MatchCheckboxMeaning(line: string)
    ensures MatchCheckbox(line).Some? <==> exists p, m :: BoxAt(line, p, m)
    ensures forall p, m :: BoxAt(line, p, m) ==>
      MatchCheckbox(line) == Some(Mark(m != ' ', UpToTerminator(line[|p| + 3..])))
  {
    var bulleted := |line| >= 2 && (line[0] == '-' || line[0] == '*') && line[1] == ' ';
    if MatchCheckbox(line).Some? {
      if bulleted {
        assert BoxAt(line, line[..2], line[3]);
      } else {
        assert BoxAt(line, "", line[1]);
      }
    }
    forall p, m | BoxAt(line, p, m)
      ensures MatchCheckbox(line) == Some(Mark(m != ' ', UpToTerminator(line[|p| + 3..])))
    {
      assert (p + ['[', m, ']'])[|p|] == '[';
      assert line[|p|] == '[';
      assert line[|p| + 1] == m;
      if p == "" {
        assert !bulleted;
      }
    }
  }

  // ---------------------------------------------------------------- reading

  /** The loop state of `parseDescription`: items so far, the open paragraph and its mark. */
  datatype ParseState = ParseState(result: seq<DescriptionItem>, paragraph: string, hasMark: bool, checked: bool)

  const START: ParseState := ParseState([], "", false, false)

  /** The item an open paragraph becomes: checkbox texts are trimmed, plain paragraphs are not. */
  function Close(st: ParseState): DescriptionItem
  {
    DescriptionItem(st.hasMark, st.checked, if st.hasMark then Text.Trim(st.paragraph) else st.paragraph)
  }

  /** Closing a non-empty open paragraph. */
  function Flush(st: ParseState): seq<DescriptionItem>
  {
    st.result + (if |st.paragraph| > 0 then [Close(st)] else [])
  }

  /** One line of the loop. */
  function Step(st: ParseState, line: string): ParseState
  {
    var m := MatchCheckbox(line);
    if m.Some? then ParseState(Flush(st), m.value.text, true, m.value.checked)
    else
      var open := if st.hasMark then ParseState(Flush(st), "", false, st.checked) else st;
      open.(paragraph := open.paragraph + (if |open.paragraph| > 0 then NEWLINE else "") + line)
  }

  function Fold(st: ParseState, lines: seq<string>): ParseState
    decreases |lines|
  {
    if |lines| == 0 then st else Fold(Step(st, lines[0]), lines[1..])
  }

  /** The final paragraph is closed if it has a mark or any text. */
  function Finish(st: ParseState): seq<DescriptionItem>
  {
    st.result + (if st.hasMark || |st.paragraph| > 0 then [Close(st)] else [])
  }

  /** The items `parseDescription` returns. */
  function Parse(description: Option<string>): seq<DescriptionItem>
  {
    if description.None? then [] else Finish(Fold(START, Text.JavaSplit(description.value, NEWLINE)))
  }

  /** `parseDescription`. */
  method ParseDescription(description: Option<string>) returns (items: seq<DescriptionItem>)
    ensures items == Parse(description)
  {
    if description.None? {
      return [];
    }
    var lines := Text.JavaSplit(description.value, NEWLINE);
    var result: seq<DescriptionItem> := [];
    var paragraph := "";
    var hasMark := false;
    var checked := false;
    var i := 0;
    while i < |lines|
      invariant 0 <= i <= |lines|
      invariant Fold(START, lines) == Fold(ParseState(result, paragraph, hasMark, checked), lines[i..])
    {
      assert lines[i..][1..] == lines[i + 1..];
      result, paragraph, hasMark, checked := ReadLine(result, paragraph, hasMark, checked, lines[i]);
      i := i + 1;
    }
    assert lines[|lines|..] == [];
    items := result;
    if hasMark || |paragraph| > 0 {
      items := items + [DescriptionItem(hasMark, checked, if hasMark then Text.Trim(paragraph) else paragraph)];
    }
  }

  /** The body of `parseDescription`'s loop: one line read into the open paragraph. */
  method ReadLine(result: seq<DescriptionItem>, paragraph: string, hasMark: bool, checked: bool, line: string)
    returns (result': seq<DescriptionItem>, paragraph': string, hasMark': bool, checked': bool)
    ensures ParseState(result', paragraph', hasMark', checked') == Step(ParseState(result, paragraph, hasMark, checked), line)
  {
    result', paragraph', hasMark', checked' := result, paragraph, hasMark, checked;
    var m := MatchCheckbox(line);
    if m.Some? {
      if |paragraph'| > 0 {
        result' := result' + [DescriptionItem(hasMark', checked', if hasMark' then Text.Trim(paragraph') else paragraph')];
      }
      hasMark' := true;
      checked' := m.value.checked;
      paragraph' := m.value.text;
    } else {
      if hasMark' {
        if |paragraph'| > 0 {
          result' := result' + [DescriptionItem(hasMark', checked', Text.Trim(paragraph'))];
        }
        hasMark' := false;
        paragraph' := "";
      }
      if |paragraph'| > 0 {
        paragraph' := paragraph' + NEWLINE;
      }
      paragraph' := paragraph' + line;
    }
  }

  // ---------------------------------------------------------------- writing

  /** The prefix of a checkbox item. */
  function Prefix(checked: bool): string
  {
    if checked then "- [x] " else "- [ ] "
  }

  /** One item as `serializeDescription` writes it. */
  function ItemLine(item: DescriptionItem): string
  {
    (if item.checkbox then Prefix(item.checked) else "") + item.text
  }

  function ItemLines(items: seq<DescriptionItem>): (r: seq<string>)
    ensures |r| == |items|
  {
    seq(|items|, i requires 0 <= i < |items| => ItemLine(items[i]))
  }

  /** The serialised form: the item lines separated by '\n'. */
  function Serialized(items: seq<DescriptionItem>): string
  {
    Text.Join(ItemLines(items), NEWLINE)
  }

  /** `serializeDescription` into an empty buffer. */
  method SerializeDescription(items: seq<DescriptionItem>) returns (sb: string)
    ensures sb == Serialized(items)
  {
    sb := "";
    var first := true;
    var i := 0;
    while i < |items|
      invariant 0 <= i <= |items|
      invariant first <==> i == 0
      invariant i == 0 ==> sb == ""
      invariant i > 0 ==> sb == Serialized(items[..i])
    {
      var item := items[i];
      ghost var prev := sb;
      ghost var sep := if first then "" else NEWLINE;
      if first {
        first := false;
      } else {
        sb := sb + NEWLINE;
      }
      ghost var mark := if item.checkbox then Prefix(item.checked) else "";
      if item.checkbox {
        sb := sb + Prefix(item.checked);
      } else {
        assert sb + "" == sb;
      }
      sb := sb + item.text;
      AppendItem(prev, sep, mark, item.text);
      assert sb == prev + (sep + ItemLine(item));
      SerializedSnoc(items, i);
      i := i + 1;
    }
    assert items[..|items|] == items;
  }

  lemma AppendItem(prev: string, sep: string, mark: string, text: string)
    ensures prev + sep + mark + text == prev + (sep + (mark + text))
  {
  }

  lemma SerializedSnoc(items: seq<DescriptionItem>, i: nat)
    requires i < |items|
    ensures i == 0 ==> Serialized(items[..1]) == ItemLine(items[0])
    ensures i > 0 ==> Serialized(items[..i + 1]) == Serialized(items[..i]) + (NEWLINE + ItemLine(items[i]))
  {
    ItemLinesSnoc(items, i);
    if i > 0 {
      Text.JoinSnoc(ItemLines(items[..i]), ItemLine(items[i]), NEWLINE);
    }
  }

  lemma ItemLinesSnoc(items: seq<DescriptionItem>, i: nat)
    requires i < |items|
    ensures ItemLines(items[..i + 1]) == ItemLines(items[..i]) + [ItemLine(items[i])]
  {
    var a := ItemLines(items[..i + 1]);
    var b := ItemLines(items[..i]) + [ItemLine(items[i])];
    assert |a| == |b|;
    forall k | 0 <= k < |a| ensures a[k] == b[k] {
      assert items[..i + 1][k] == items[k];
      if k < i {
        assert items[..i][k] == items[k];
      }
    }
  }

  /**
   * `set`: a null or empty list stores null, any other list its serialised form; the
   * other fields of the task are untouched.
   */
  method Set(values: ContentSet.ContentSet, fieldName: string, value: Option<seq<DescriptionItem>>)
    modifies values
    ensures value.None? || |value.value| == 0 ==> AsString(values.Get(fieldName)) == None
    ensures value.Some? && |value.value| > 0 ==> AsString(values.Get(fieldName)) == Some(Serialized(value.value))
    ensures forall k :: k != fieldName ==> values.Get(k) == old(values.Get(k))
  {
    if value.Some? && |value.value| > 0 {
      var text := SerializeDescription(value.value);
      values.Put(StringKind, fieldName, Some(StrV(text)));
    } else {
      values.Put(StringKind, fieldName, None);
    }
  }

  /** `get`: the parsed form of the stored string. */
  function Get(values: ContentSet.ContentSet, fieldName: string): seq<DescriptionItem>
    reads values
  {
    Parse(AsString(values.Get(fieldName)))
  }

  // ---------------------------------------------------------------- properties

  /** A null description has no items. */
  lemma ParseNull()
    ensures Parse(None) == []
  {
  }

  /** A checklist item that survives storing: single-line, already trimmed text. */
  predicate Storable(item: DescriptionItem)
  {
    item.checkbox && SingleLine(item.text) && Text.IsTrimmed(item.text)
  }

  /** The state just after reading the line of checkbox `item`, with `done` closed before it. */
  function Pending(done: seq<DescriptionItem>, item: DescriptionItem): ParseState
  {
    ParseState(done, " " + item.text, true, item.checked)
  }

  /** The stored line of a checkbox item matches, with the item's text after one space. */
  lemma MatchItemLine(item: DescriptionItem)
    requires Storable(item)
    ensures MatchCheckbox(ItemLine(item)) == Some(Mark(item.checked, " " + item.text))
  {
    var line := ItemLine(item);
    var t := " " + item.text;
    var pre := Prefix(item.checked);
    assert line == pre + item.text;
    assert line[..6] == pre;
    assert line[0] == '-' && line[1] == ' ' && line[2] == '[' && line[4] == ']';
    assert line[3] == (if item.checked then 'x' else ' ');
    assert line[2..][3..] == t;
    assert SingleLine(t) by {
      forall i | 0 <= i < |t| ensures !IsLineTerminator(t[i]) {
        if i > 0 {
          assert t[i] == item.text[i - 1];
        }
      }
    }
    UpToTerminatorSingleLine(t);
  }

  lemma StepCheckbox(st: ParseState, item: DescriptionItem)
    requires Storable(item)
    ensures Step(st, ItemLine(item)) == ParseState(Flush(st), " " + item.text, true, item.checked)
  {
    MatchItemLine(item);
  }

  lemma ConsHeadTail<T>(s: seq<T>)
    requires |s| > 0
    ensures [s[0]] + s[1..] == s
  {
  }

  lemma ClosePending(done: seq<DescriptionItem>, item: DescriptionItem)
    requires Storable(item)
    ensures Flush(Pending(done, item)) == done + [item]
  {
    Text.TrimSpacePrefix(item.text);
  }

  lemma FinishPending(done: seq<DescriptionItem>, item: DescriptionItem)
    requires Storable(item)
    ensures Finish(Pending(done, item)) == done + [item]
  {
    Text.TrimSpacePrefix(item.text);
  }

  /**
   * Reading the lines of `items` from the `k`-th on, with the previous item pending, closes
   * every item: the result is `items`.
   */
  lemma {:induction false} FoldFrom(items: seq<DescriptionItem>, k: nat)
    requires 0 < k <= |items|
    requires forall i :: 0 <= i < |items| ==> Storable(items[i])
    ensures Finish(Fold(Pending(items[..k - 1], items[k - 1]), ItemLines(items)[k..])) == items
    decreases |items| - k
  {
    if k == |items| {
      FoldFromLast(items);
    } else {
      FoldFromStep(items, k);
      FoldFrom(items, k + 1);
    }
  }

  /** After the last line, finishing closes the pending item. */
  lemma FoldFromLast(items: seq<DescriptionItem>)
    requires |items| > 0 && Storable(items[|items| - 1])
    ensures Finish(Fold(Pending(items[..|items| - 1], items[|items| - 1]), ItemLines(items)[|items|..])) == items
  {
    var n := |items|;
    var st := Pending(items[..n - 1], items[n - 1]);
    var none := ItemLines(items)[n..];
    assert none == [];
    assert Fold(st, none) == st;
    FinishPending(items[..n - 1], items[n - 1]);
    assert items[..n - 1] + [items[n - 1]] == items;
  }

  /** The line of item `k` closes item `k - 1` and leaves item `k` pending. */
  lemma FoldFromStep(items: seq<DescriptionItem>, k: nat)
    requires 0 < k < |items| && Storable(items[k - 1]) && Storable(items[k])
    ensures Fold(Pending(items[..k - 1], items[k - 1]), ItemLines(items)[k..])
         == Fold(Pending(items[..k], items[k]), ItemLines(items)[k + 1..])
  {
    var lines := ItemLines(items);
    var st := Pending(items[..k - 1], items[k - 1]);
    ClosePending(items[..k - 1], items[k - 1]);
    assert items[..k - 1] + [items[k - 1]] == items[..k];
    assert lines[k..][0] == ItemLine(items[k]) && lines[k..][1..] == lines[k + 1..];
    StepCheckbox(st, items[k]);
  }

  /** Storing a checklist and reading it back gives the same items. */
  lemma SerializeParse(items: seq<DescriptionItem>)
    requires forall i :: 0 <= i < |items| ==> Storable(items[i])
    ensures Parse(Some(Serialized(items))) == items
  {
    if |items| > 0 {
      var lines := ItemLines(items);
      forall i | 0 <= i < |lines| ensures Text.Avoids(lines[i], NEWLINE) {
        LineAvoidsNewline(items[i]);
      }
      Text.JavaSplitJoin(lines, NEWLINE);
      StepCheckbox(START, items[0]);
      assert Flush(START) == [] == items[..0];
      assert Fold(START, lines) == Fold(Pending(items[..0], items[0]), lines[1..]);
      FoldFrom(items, 1);
    }
  }

  lemma LineAvoidsNewline(item: DescriptionItem)
    requires Storable(item)
    ensures Text.Avoids(ItemLine(item), NEWLINE)
  {
    var line := ItemLine(item);
    assert line == Prefix(item.checked) + item.text;
    forall k | 0 <= k < |line| ensures line[k] != '\n' {
      if k >= 6 {
        assert line[k] == item.text[k - 6];
      }
    }
  }

  /** So `set` followed by `get` on the same ContentSet returns the stored checklist. */
  lemma SetThenGet(items: seq<DescriptionItem>)
    requires forall i :: 0 <= i < |items| ==> Storable(items[i])
    ensures Parse(AsString(if |items| == 0 then None else Some(StrV(Serialized(items))))) == items
  {
    SerializeParse(items);
  }

  /** The state after the plain lines `lines[k..]`, read with the non-empty paragraph `p` open. */
  lemma {:induction false} FoldPlain(p: string, lines: seq<string>, k: nat)
    requires p != "" && k <= |lines|
    requires forall i :: 0 <= i < |lines| ==> MatchCheckbox(lines[i]).None?
    ensures Fold(ParseState([], p, false, false), lines[k..]) == ParseState([], Text.Join([p] + lines[k..], NEWLINE), false, false)
    decreases |lines| - k
  {
    if k < |lines| {
      var q := p + NEWLINE + lines[k];
      var rest := lines[k..];
      var tail := lines[k + 1..];
      assert rest[0] == lines[k] && rest[1..] == tail;
      assert Step(ParseState([], p, false, false), lines[k]) == ParseState([], q, false, false);
      assert Fold(ParseState([], p, false, false), rest) == Fold(ParseState([], q, false, false), tail);
      FoldPlain(q, lines, k + 1);
      if |tail| == 0 {
        assert [p] + rest == [p, lines[k]];
        assert ([p, lines[k]])[1..] == [lines[k]];
        assert [q] + tail == [q];
      } else {
        assert ([q] + tail)[1..] == tail;
        assert ([p] + rest)[1..] == rest;
        assert Text.Join(rest, NEWLINE) == lines[k] + NEWLINE + Text.Join(tail, NEWLINE);
      }
    }
  }

  /** Consecutive plain lines form one untrimmed paragraph, joined with '\n'. */
  lemma PlainLinesOneParagraph(lines: seq<string>)
    requires |lines| > 0 && lines[0] != "" && lines[|lines| - 1] != ""
    requires forall i :: 0 <= i < |lines| ==> MatchCheckbox(lines[i]).None? && Text.Avoids(lines[i], NEWLINE)
    ensures Parse(Some(Text.Join(lines, NEWLINE))) == [DescriptionItem(false, false, Text.Join(lines, NEWLINE))]
  {
    var text := Text.Join(lines, NEWLINE);
    Text.JavaSplitJoin(lines, NEWLINE);
    FoldPlainFromStart(lines);
    JoinNotEmpty(lines);
    assert Finish(ParseState([], text, false, false)) == [] + [DescriptionItem(false, false, text)];
  }

  lemma FoldPlainFromStart(lines: seq<string>)
    requires |lines| > 0 && lines[0] != ""
    requires forall i :: 0 <= i < |lines| ==> MatchCheckbox(lines[i]).None?
    ensures Fold(START, lines) == ParseState([], Text.Join(lines, NEWLINE), false, false)
  {
    var first := ParseState([], lines[0], false, false);
    assert "" + "" + lines[0] == lines[0];
    assert Step(START, lines[0]) == first;
    assert Fold(START, lines) == Fold(first, lines[1..]);
    FoldPlain(lines[0], lines, 1);
    ConsHeadTail(lines);
  }

  lemma JoinNotEmpty(lines: seq<string>)
    requires |lines| > 0 && lines[0] != ""
    ensures |Text.Join(lines, NEWLINE)| > 0
  {
    if |lines| > 1 {
      assert Text.Join(lines, NEWLINE) == lines[0] + NEWLINE + Text.Join(lines[1..], NEWLINE);
    }
  }
}
