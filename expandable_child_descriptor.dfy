/**
 * ExpandableChildDescriptor: the query for the children of an expandable group. The
 * selection's '?' placeholders are paired with columns of the group's cursor row; a null
 * column value is written into the selection as the literal "null" (selection arguments
 * must not be null), a non-null value becomes a selection argument.
 */
module ExpandableChildDescriptor {
  import opened Wrappers
  import Text

  /** The selection and the cursor columns whose values fill its placeholders. */
  datatype Descriptor = Descriptor(selection: string, selectionColumns: seq<int>)

  /** An additional filter: a selection and its arguments. */
  datatype Filter = Filter(selection: string, args: seq<string>)

  /** The selection and arguments handed to the CursorLoader. */
  datatype Query = Query(selection: string, args: seq<string>)

  /** The loop's state at its end: the selection built so far, the arguments and the position in the template. */
  datatype Built = Built(out: string, args: seq<string>, pos: nat)

  /** A cursor row: `getString` of each column index; an index outside the row is an error. */
  type Row = seq<Option<string>>

  const TOO_FEW_PLACEHOLDERS: string := "StringIndexOutOfBoundsException: too few placeholders"
  const COLUMN_OUT_OF_RANGE: string := "column index out of range"
  /** With no selection column the arguments stay null, and logging them with `TextUtils.join` throws. */
  const NULL_SELECTION_ARGS: string := "NullPointerException: TextUtils.join of null selection arguments"

  /** `indexOf('?', from)`: the first '?' at or after `from`, or -1. */
  function NextQuestion(sel: string, from: nat): (r: int)
    ensures r == -1 || (from <= r < |sel| && sel[r] == '?')
    decreases |sel| - from
  {
    if from >= |sel| then -1
    else if sel[from] == '?' then from
    else NextQuestion(sel, from + 1)
  }

  /** Where the loop looks for the next '?': at `pos` on the first round, one further on later rounds. */
  function SearchFrom(pos: nat): nat
  {
    if pos == 0 then pos else pos + 1
  }

  /** The loop of `getCursorLoader` over the remaining columns `cols`. */
  function Loop(sel: string, cols: seq<int>, row: Row, pos: nat, out: string, args: seq<string>): (r: Result<Built>)
    requires pos <= |sel|
    ensures r.Success? ==> r.value.pos <= |sel|
    ensures r.Failure? ==> r.error in {TOO_FEW_PLACEHOLDERS, COLUMN_OUT_OF_RANGE}
    decreases |cols|
  {
    if |cols| == 0 then Success(Built(out, args, pos))
    else
      var newPos := NextQuestion(sel, SearchFrom(pos));
      if newPos < 0 then Failure(TOO_FEW_PLACEHOLDERS)
      else if !(0 <= cols[0] < |row|) then Failure(COLUMN_OUT_OF_RANGE)
      else
        var arg := row[cols[0]];
        var out' := out + sel[pos..newPos];
        if arg.None? then Loop(sel, cols[1..], row, newPos + 1, out' + "null", args)
        else Loop(sel, cols[1..], row, newPos, out', args + [arg.value])
  }

  /** A round that finds no '?' or reads a column outside the row fails. */
  lemma LoopFails(sel: string, cols: seq<int>, row: Row, pos: nat, out: string, args: seq<string>, q: int)
    requires 0 < |cols| && pos <= |sel| && q == NextQuestion(sel, SearchFrom(pos))
    ensures q < 0 ==> Loop(sel, cols, row, pos, out, args) == Failure(TOO_FEW_PLACEHOLDERS)
    ensures q >= 0 && !(0 <= cols[0] < |row|) ==> Loop(sel, cols, row, pos, out, args) == Failure(COLUMN_OUT_OF_RANGE)
  {
  }

  /** A round of the loop for a null column value: "null" replaces the '?'. */
  lemma LoopNull(sel: string, cols: seq<int>, row: Row, pos: nat, out: string, args: seq<string>, q: int)
    requires 0 < |cols| && pos <= |sel| && 0 <= cols[0] < |row| && row[cols[0]].None?
    requires q == NextQuestion(sel, SearchFrom(pos)) && q >= 0
    ensures pos <= q < |sel|
    ensures Loop(sel, cols, row, pos, out, args) == Loop(sel, cols[1..], row, q + 1, out + sel[pos..q] + "null", args)
  {
  }

  /** A round of the loop for a non-null column value: the '?' stays and the value becomes an argument. */
  lemma LoopKept(sel: string, cols: seq<int>, row: Row, pos: nat, out: string, args: seq<string>, q: int)
    requires 0 < |cols| && pos <= |sel| && 0 <= cols[0] < |row| && row[cols[0]].Some?
    requires q == NextQuestion(sel, SearchFrom(pos)) && q >= 0
    ensures pos <= q < |sel|
    ensures Loop(sel, cols, row, pos, out, args) == Loop(sel, cols[1..], row, q, out + sel[pos..q], args + [row[cols[0]].value])
  {
  }

  function FilterArgs(filter: Option<Filter>): seq<string>
  {
    if filter.Some? then filter.value.args else []
  }

  /**
   * The selection and arguments `getCursorLoader` passes on, or the exception it throws: with no
   * selection column the null argument array reaches the log statement.
   */
  function CursorQuery(d: Descriptor, row: Row, filter: Option<Filter>): (r: Result<Query>)
    ensures |d.selectionColumns| == 0 ==> r == Failure(NULL_SELECTION_ARGS)
    ensures r.Failure? ==> r.error in {TOO_FEW_PLACEHOLDERS, COLUMN_OUT_OF_RANGE, NULL_SELECTION_ARGS}
  {
    var sel := d.selection;
    if |d.selectionColumns| == 0 then Failure(NULL_SELECTION_ARGS)
    else
      var b := Loop(sel, d.selectionColumns, row, 0, "(", []);
      if b.Failure? then Failure(b.error)
      else
        var tail := if b.value.pos > 0 then sel[b.value.pos..] else "";
        var close := if filter.Some? then ") and (" + filter.value.selection + ")" else ")";
        Success(Query(b.value.out + tail + close, b.value.args + FilterArgs(filter)))
  }

  lemma QueryOfBuilt(d: Descriptor, row: Row, filter: Option<Filter>, b: Built)
    requires |d.selectionColumns| > 0
    requires Loop(d.selection, d.selectionColumns, row, 0, "(", []) == Success(b)
    ensures b.pos <= |d.selection|
    ensures CursorQuery(d, row, filter) == Success(Query(
      b.out + (if b.pos > 0 then d.selection[b.pos..] else "") + (if filter.Some? then ") and (" + filter.value.selection + ")" else ")"),
      b.args + FilterArgs(filter)))
  {
  }

  /** The loop of `getCursorLoader` over the selection columns, from the builder holding "(". */
  method BuildSelection(selection: string, cols: seq<int>, row: Row) returns (r: Result<Built>)
    ensures r == Loop(selection, cols, row, 0, "(", [])
  {
    var pos := 0;
    var builder := "(";
    var argList: seq<string> := [];
    for i := 0 to |cols|
      invariant pos <= |selection|
      invariant Loop(selection, cols, row, 0, "(", []) == Loop(selection, cols[i..], row, pos, builder, argList)
    {
      assert cols[i..][0] == cols[i] && cols[i..][1..] == cols[i + 1..];
      var newPos := Text.IndexOf(selection, "?", if pos == 0 then pos else pos + 1);
      NextQuestionIsIndexOf(selection, SearchFrom(pos));
      LoopFails(selection, cols[i..], row, pos, builder, argList, newPos);
      if newPos < 0 {
        return Failure(TOO_FEW_PLACEHOLDERS);
      }
      ghost var before := builder;
      builder := builder + selection[pos..newPos];
      if !(0 <= cols[i] < |row|) {
        return Failure(COLUMN_OUT_OF_RANGE);
      }
      var arg := row[cols[i]];
      if arg.None? {
        LoopNull(selection, cols[i..], row, pos, before, argList, newPos);
        builder := builder + "null";
        newPos := newPos + 1;
      } else {
        LoopKept(selection, cols[i..], row, pos, before, argList, newPos);
        argList := argList + [arg.value];
      }
      pos := newPos;
    }
    assert cols[|cols|..] == [];
    return Success(Built(builder, argList, pos));
  }

  /** `getCursorLoader`: the selection and arguments of the loader for a row of the group cursor. */
  method GetCursorLoader(d: Descriptor, row: Row, filter: Option<Filter>) returns (r: Result<Query>)
    ensures r == CursorQuery(d, row, filter)
  {
    var selection := d.selection;
    if |d.selectionColumns| == 0 {
      return Failure(NULL_SELECTION_ARGS);
    }
    var b := BuildSelection(selection, d.selectionColumns, row);
    if b.Failure? {
      return Failure(b.error);
    }
    QueryOfBuilt(d, row, filter, b.value);
    var builder := b.value.out;
    var argList := b.value.args;
    var pos := b.value.pos;
    if filter.Some? {
      argList := argList + filter.value.args;
    } else {
      assert argList + [] == argList;
    }
    assert argList == b.value.args + FilterArgs(filter);
    ghost var tail := if pos > 0 then selection[pos..] else "";
    if pos > 0 {
      builder := builder + selection[pos..];
    } else {
      assert builder + "" == builder;
    }
    assert builder == b.value.out + tail;
    if filter.Some? {
      builder := builder + (") and (" + filter.value.selection + ")");
    } else {
      builder := builder + ")";
    }
    return Success(Query(builder, argList));
  }

  // ---------------------------------------------------------------- arguments

  /** The values of the columns that are not null, in column order. */
  function NonNullValues(cols: seq<int>, row: Row): seq<string>
  {
    if |cols| == 0 then []
    else
      var head := if 0 <= cols[0] < |row| && row[cols[0]].Some? then [row[cols[0]].value] else [];
      head + NonNullValues(cols[1..], row)
  }

  lemma {:induction false} LoopArgs(sel: string, cols: seq<int>, row: Row, pos: nat, out: string, args: seq<string>)
    requires pos <= |sel|
    ensures Loop(sel, cols, row, pos, out, args).Success? ==>
      Loop(sel, cols, row, pos, out, args).value.args == args + NonNullValues(cols, row)
    decreases |cols|
  {
    if |cols| == 0 {
      assert args + [] == args;
    } else {
      var q := NextQuestion(sel, SearchFrom(pos));
      if q >= 0 && 0 <= cols[0] < |row| {
        var rest := NonNullValues(cols[1..], row);
        if row[cols[0]].None? {
          LoopNull(sel, cols, row, pos, out, args, q);
          LoopArgs(sel, cols[1..], row, q + 1, out + sel[pos..q] + "null", args);
          assert NonNullValues(cols, row) == [] + rest == rest;
        } else {
          var v := row[cols[0]].value;
          LoopKept(sel, cols, row, pos, out, args, q);
          LoopArgs(sel, cols[1..], row, q, out + sel[pos..q], args + [v]);
          assert NonNullValues(cols, row) == [v] + rest;
          assert args + [v] + rest == args + ([v] + rest);
        }
      }
    }
  }

  /** The arguments are the non-null column values in column order, then the filter's arguments. */
  lemma ArgumentsOfQuery(d: Descriptor, row: Row, filter: Option<Filter>)
    ensures CursorQuery(d, row, filter).Success? ==>
      CursorQuery(d, row, filter).value.args == NonNullValues(d.selectionColumns, row) + FilterArgs(filter)
  {
    if |d.selectionColumns| == 0 {
      return;
    }
    LoopArgs(d.selection, d.selectionColumns, row, 0, "(", []);
    assert [] + NonNullValues(d.selectionColumns, row) == NonNullValues(d.selectionColumns, row);
  }

  // ---------------------------------------------------------------- the selection

  /**
   * The substitution the source's comment describes: the k-th '?' becomes "null" when the
   * k-th value is null and stays a '?' otherwise; None when there are fewer '?' than values.
   */
  function Substituted(s: string, values: seq<Option<string>>): (r: Option<string>)
    decreases |s|
  {
    if |values| == 0 then Some(s)
    else if |s| == 0 then None
    else if s[0] == '?' then Prepend(if values[0].None? then "null" else "?", Substituted(s[1..], values[1..]))
    else Prepend([s[0]], Substituted(s[1..], values))
  }

  function Prepend(p: string, o: Option<string>): Option<string>
  {
    if o.None? then None else Some(p + o.value)
  }

  /** Every column is inside the row. */
  predicate InRow(cols: seq<int>, row: Row)
  {
    forall j :: 0 <= j < |cols| ==> 0 <= cols[j] < |row|
  }

  /** The column values in column order. */
  function ColumnValues(cols: seq<int>, row: Row): (r: seq<Option<string>>)
    requires InRow(cols, row)
    ensures |r| == |cols|
  {
    if |cols| == 0 then [] else [row[cols[0]]] + ColumnValues(cols[1..], row)
  }

  /** No '?' at the very start and no two '?' side by side. */
  predicate WellSpaced(sel: string)
  {
    (|sel| > 0 ==> sel[0] != '?') && forall j :: 0 <= j < |sel| - 1 ==> !DoubleQuestion(sel, j)
  }

  /** Two '?' side by side at `j`. */
  predicate DoubleQuestion(sel: string, j: nat)
    requires j < |sel| - 1
  {
    sel[j] == '?' && sel[j + 1] == '?'
  }

  predicate NoPlaceholder(s: string)
  {
    forall j :: 0 <= j < |s| ==> s[j] != '?'
  }

  lemma {:induction false} NextQuestionIsIndexOf(sel: string, from: nat)
    ensures NextQuestion(sel, from) == Text.IndexOf(sel, "?", from)
    decreases |sel| - from
  {
    if from < |sel| {
      OccursQuestion(sel, from);
      NextQuestionIsIndexOf(sel, from + 1);
    }
  }

  lemma OccursQuestion(s: string, j: int)
    requires 0 <= j < |s|
    ensures Text.OccursAt(s, "?", j) <==> s[j] == '?'
  {
    assert s[j..j + 1] == [s[j]];
  }

  lemma {:induction false} SubstitutedSkip(s: string, k: nat, values: seq<Option<string>>)
    requires |values| > 0 && k <= |s| && NoPlaceholder(s[..k])
    ensures Substituted(s, values) == Prepend(s[..k], Substituted(s[k..], values))
    decreases k
  {
    if k == 0 {
      assert s[..0] == "" && s[0..] == s;
      assert Substituted(s, values).Some? ==> "" + Substituted(s, values).value == Substituted(s, values).value;
    } else {
      assert s[0] == s[..k][0];
      ghost var t := s[1..][..k - 1];
      forall j | 0 <= j < |t|
        ensures t[j] != '?'
      {
        assert t[j] == s[..k][j + 1];
      }
      SubstitutedSkip(s[1..], k - 1, values);
      assert s[1..][k - 1..] == s[k..];
      assert s[1..][..k - 1] == s[1..k];
      assert [s[0]] + s[1..k] == s[..k];
      var rest := Substituted(s[k..], values);
      if rest.Some? {
        assert [s[0]] + (s[1..k] + rest.value) == s[..k] + rest.value;
      }
    }
  }

  /** Text without a '?' has no placeholder left for a value. */
  lemma {:induction false} SubstitutedNone(s: string, values: seq<Option<string>>)
    requires |values| > 0 && NoPlaceholder(s)
    ensures Substituted(s, values).None?
    decreases |s|
  {
    if |s| > 0 {
      SubstitutedNone(s[1..], values);
    }
  }

  /** The first '?' at or after `start` is at `q`: nothing before it in between. */
  lemma FirstQuestion(sel: string, start: nat, q: int)
    requires start <= |sel| && q == NextQuestion(sel, start)
    ensures q == -1 ==> NoPlaceholder(sel[start..])
    ensures q >= 0 ==> start <= q < |sel| && sel[q] == '?' && NoPlaceholder(sel[start..q])
  {
    NextQuestionIsIndexOf(sel, start);
    forall j | start <= j < |sel| {
      OccursQuestion(sel, j);
    }
    if q >= 0 {
      assert forall j :: 0 <= j < q - start ==> sel[start..q][j] == sel[start + j];
    } else {
      assert forall j :: 0 <= j < |sel| - start ==> sel[start..][j] == sel[start + j];
    }
  }

  /** The pending '?' left in the template when the last value was kept, and where the unread text starts. */
  function Pending(kept: bool): string
  {
    if kept then "?" else ""
  }

  function From(pos: nat, kept: bool): nat
  {
    if kept then pos + 1 else pos
  }

  /**
   * The loop's search start skips one character after a substituted "null"; in a well-spaced
   * template that character is no '?', so the search finds what a search from the first
   * unread character finds.
   */
  lemma SearchStart(sel: string, pos: nat, kept: bool)
    requires WellSpaced(sel) && pos <= |sel|
    requires pos == 0 ==> !kept
    requires kept ==> pos < |sel| && sel[pos] == '?'
    requires pos > 0 && !kept ==> sel[pos - 1] == '?'
    ensures NextQuestion(sel, SearchFrom(pos)) == NextQuestion(sel, From(pos, kept))
  {
    if !kept && 0 < pos < |sel| {
      assert !DoubleQuestion(sel, pos - 1);
    }
  }

  /** The substitution of the text from `from` on, split at its first '?', which is at `q`. */
  lemma SubstitutedAt(sel: string, from: nat, q: nat, values: seq<Option<string>>)
    requires from <= q < |sel| && sel[q] == '?' && NoPlaceholder(sel[from..q]) && |values| > 0
    ensures Substituted(sel[from..], values) ==
      Prepend(sel[from..q], Prepend(if values[0].None? then "null" else "?", Substituted(sel[q + 1..], values[1..])))
  {
    var rest := sel[from..];
    assert rest[..q - from] == sel[from..q];
    SubstitutedSkip(rest, q - from, values);
    assert rest[q - from..] == sel[q..];
    assert sel[q..][0] == '?';
    assert sel[q..][1..] == sel[q + 1..];
  }

  /**
   * The loop's result `r` agrees with the substituted text `sub` after `prefix`: both fail or
   * neither does, and the selection built, followed by the template's unread tail, is `prefix + sub`.
   */
  predicate Agrees(sel: string, r: Result<Built>, prefix: string, sub: Option<string>)
  {
    (r.Success? <==> sub.Some?) &&
    (r.Success? ==> 0 < r.value.pos <= |sel| && r.value.out + sel[r.value.pos..] == prefix + sub.value)
  }

  /** One round's agreement: the round appends `mid` and `tok`, the substitution prepends them. */
  lemma AgreesStep(sel: string, r: Result<Built>, prefix: string, mid: string, tok: string, tail: Option<string>)
    requires Agrees(sel, r, prefix + mid + tok, tail)
    ensures Agrees(sel, r, prefix, Prepend(mid, Prepend(tok, tail)))
  {
    if tail.Some? {
      assert prefix + mid + tok + tail.value == prefix + (mid + (tok + tail.value));
    }
  }

  /** The text the loop copies up to the next '?' is the pending '?', if any, then the unread text. */
  lemma PendingPrefix(sel: string, out: string, pos: nat, q: nat, kept: bool, tok: string)
    requires From(pos, kept) <= q <= |sel|
    requires kept ==> sel[pos] == '?'
    ensures out + sel[pos..q] + tok == out + Pending(kept) + sel[From(pos, kept)..q] + tok
  {
    if kept {
      assert sel[pos..q] == "?" + sel[pos + 1..q];
    }
  }

  /** The preconditions of one state of the loop in a well-spaced template. */
  predicate LoopState(sel: string, cols: seq<int>, row: Row, pos: nat, kept: bool)
  {
    WellSpaced(sel) && pos <= |sel| && InRow(cols, row) &&
    (|cols| > 0 || pos > 0) &&
    (pos == 0 ==> !kept) &&
    (kept ==> pos < |sel| && sel[pos] == '?') &&
    (pos > 0 && !kept ==> sel[pos - 1] == '?')
  }

  /** What the loop computes from a state: the agreement with the reference substitution. */
  predicate Matches(sel: string, cols: seq<int>, row: Row, pos: nat, out: string, args: seq<string>, kept: bool)
    requires LoopState(sel, cols, row, pos, kept)
  {
    Agrees(sel, Loop(sel, cols, row, pos, out, args), out + Pending(kept),
      Substituted(sel[From(pos, kept)..], ColumnValues(cols, row)))
  }

  /** The last state: no column left. */
  lemma MatchesDone(sel: string, cols: seq<int>, row: Row, pos: nat, out: string, args: seq<string>, kept: bool)
    requires LoopState(sel, cols, row, pos, kept) && |cols| == 0
    ensures Matches(sel, cols, row, pos, out, args, kept)
  {
    if kept {
      assert sel[pos..] == "?" + sel[pos + 1..];
    }
    assert out + sel[pos..] == out + Pending(kept) + sel[From(pos, kept)..];
  }

  /** No '?' left for the next column: the loop and the substitution both fail. */
  lemma MatchesMissing(sel: string, cols: seq<int>, row: Row, pos: nat, out: string, args: seq<string>, kept: bool)
    requires LoopState(sel, cols, row, pos, kept) && |cols| > 0
    requires NextQuestion(sel, SearchFrom(pos)) < 0
    ensures Matches(sel, cols, row, pos, out, args, kept)
  {
    SearchStart(sel, pos, kept);
    FirstQuestion(sel, From(pos, kept), -1);
    SubstitutedNone(sel[From(pos, kept)..], ColumnValues(cols, row));
  }

  /** After a round that found a '?' at `q`, the loop is again in a well-formed state. */
  lemma RoundState(sel: string, cols: seq<int>, row: Row, pos: nat, kept: bool, q: int)
    requires LoopState(sel, cols, row, pos, kept) && |cols| > 0
    requires q == NextQuestion(sel, SearchFrom(pos)) && q >= 0
    ensures row[cols[0]].None? ==> LoopState(sel, cols[1..], row, q + 1, false)
    ensures row[cols[0]].Some? ==> LoopState(sel, cols[1..], row, q, true)
  {
    SearchStart(sel, pos, kept);
  }

  /** The common part of a round: the substitution of the unread text, split at the '?' the round uses. */
  lemma RoundSplit(sel: string, cols: seq<int>, row: Row, pos: nat, out: string, args: seq<string>, kept: bool, q: int)
    requires LoopState(sel, cols, row, pos, kept) && |cols| > 0
    requires q == NextQuestion(sel, SearchFrom(pos)) && q >= 0
    ensures From(pos, kept) <= q
    ensures var tok := if row[cols[0]].None? then "null" else "?";
      Substituted(sel[From(pos, kept)..], ColumnValues(cols, row)) ==
        Prepend(sel[From(pos, kept)..q], Prepend(tok, Substituted(sel[q + 1..], ColumnValues(cols[1..], row))))
    ensures var tok := if row[cols[0]].None? then "null" else "?";
      out + sel[pos..q] + tok == out + Pending(kept) + sel[From(pos, kept)..q] + tok
  {
    var from := From(pos, kept);
    SearchStart(sel, pos, kept);
    FirstQuestion(sel, from, q);
    SubstitutedAt(sel, from, q, ColumnValues(cols, row));
    PendingPrefix(sel, out, pos, q, kept, if row[cols[0]].None? then "null" else "?");
  }

  /** A round that writes "null": the next state's agreement gives this one's. */
  lemma RoundNull(sel: string, cols: seq<int>, row: Row, pos: nat, out: string, args: seq<string>, kept: bool, q: int)
    requires LoopState(sel, cols, row, pos, kept) && |cols| > 0
    requires q == NextQuestion(sel, SearchFrom(pos)) && q >= 0 && row[cols[0]].None?
    requires LoopState(sel, cols[1..], row, q + 1, false)
    requires Matches(sel, cols[1..], row, q + 1, out + sel[pos..q] + "null", args, false)
    ensures Matches(sel, cols, row, pos, out, args, kept)
  {
    RoundSplit(sel, cols, row, pos, out, args, kept, q);
    LoopNull(sel, cols, row, pos, out, args, q);
    assert out + sel[pos..q] + "null" + "" == out + sel[pos..q] + "null";
    AgreesStep(sel, Loop(sel, cols, row, pos, out, args), out + Pending(kept), sel[From(pos, kept)..q], "null",
      Substituted(sel[q + 1..], ColumnValues(cols[1..], row)));
  }

  /** A round that keeps the '?' and adds an argument: the next state's agreement gives this one's. */
  lemma RoundKept(sel: string, cols: seq<int>, row: Row, pos: nat, out: string, args: seq<string>, kept: bool, q: int)
    requires LoopState(sel, cols, row, pos, kept) && |cols| > 0
    requires q == NextQuestion(sel, SearchFrom(pos)) && q >= 0 && row[cols[0]].Some?
    requires LoopState(sel, cols[1..], row, q, true)
    requires Matches(sel, cols[1..], row, q, out + sel[pos..q], args + [row[cols[0]].value], true)
    ensures Matches(sel, cols, row, pos, out, args, kept)
  {
    RoundSplit(sel, cols, row, pos, out, args, kept, q);
    LoopKept(sel, cols, row, pos, out, args, q);
    AgreesStep(sel, Loop(sel, cols, row, pos, out, args), out + Pending(kept), sel[From(pos, kept)..q], "?",
      Substituted(sel[q + 1..], ColumnValues(cols[1..], row)));
  }

  /**
   * The loop from any well-formed state builds `out`, then the pending '?' when the last
   * value was kept, then the reference substitution of the unread template.
   */
  lemma {:induction false} LoopMatchesSubstitution(sel: string, cols: seq<int>, row: Row, pos: nat, out: string, args: seq<string>, kept: bool)
    requires LoopState(sel, cols, row, pos, kept)
    ensures Matches(sel, cols, row, pos, out, args, kept)
    decreases |cols|
  {
    if |cols| == 0 {
      MatchesDone(sel, cols, row, pos, out, args, kept);
    } else {
      var q := NextQuestion(sel, SearchFrom(pos));
      if q < 0 {
        MatchesMissing(sel, cols, row, pos, out, args, kept);
      } else {
        RoundState(sel, cols, row, pos, kept, q);
        if row[cols[0]].None? {
          LoopMatchesSubstitution(sel, cols[1..], row, q + 1, out + sel[pos..q] + "null", args, false);
          RoundNull(sel, cols, row, pos, out, args, kept, q);
        } else {
          LoopMatchesSubstitution(sel, cols[1..], row, q, out + sel[pos..q], args + [row[cols[0]].value], true);
          RoundKept(sel, cols, row, pos, out, args, kept, q);
        }
      }
    }
  }

  /**
   * For a template with no '?' at the start and no two '?' side by side, the selection is
   * "(" + the reference substitution + ")", with " and (filter)" when a filter is given, and
   * the query fails exactly when the template has fewer '?' than there are columns.
   */
  lemma SelectionOfQuery(d: Descriptor, row: Row, filter: Option<Filter>)
    requires WellSpaced(d.selection) && |d.selectionColumns| > 0 && InRow(d.selectionColumns, row)
    ensures var sub := Substituted(d.selection, ColumnValues(d.selectionColumns, row));
      var r := CursorQuery(d, row, filter);
      (r.Success? <==> sub.Some?) &&
      (r.Success? ==> r.value.selection == "(" + sub.value + (if filter.Some? then ") and (" + filter.value.selection + ")" else ")"))
  {
    LoopMatchesSubstitution(d.selection, d.selectionColumns, row, 0, "(", [], false);
    assert d.selection[0..] == d.selection;
  }
}
