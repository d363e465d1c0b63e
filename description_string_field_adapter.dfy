/**
 * DescriptionStringFieldAdapter: the plain-text part of the combined description field,
 * i.e. everything before the first checklist line. Reading cuts the checklist off; writing
 * replaces the description and keeps the stored checklist.
 */
module DescriptionStringFieldAdapter {
  import opened Wrappers
  import opened ContentValues
  import Text
  import ContentSet

  const MARKER: string := "\n["

  /** A checklist mark starts at `j`: "[]", or "[ ]", "[x]", "[X]". */
  predicate BracketMarker(v: string, j: int)
  {
    0 <= j < |v| && v[j] == '[' &&
    ((j + 1 < |v| && v[j + 1] == ']') || (j + 2 < |v| && v[j + 2] == ']' && v[j + 1] in " xX"))
  }

  /** A checklist starts on the line after the newline at `p`. */
  predicate ChecklistAfter(v: string, p: int)
  {
    0 <= p < |v| && v[p] == '\n' && BracketMarker(v, p + 1)
  }

  /** The first newline at or after `from` that is followed by a checklist mark. */
  function FindFrom(v: string, from: nat): (r: Option<nat>)
    ensures r.Some? ==> from <= r.value && ChecklistAfter(v, r.value)
    ensures forall q :: from <= q && (r.None? || q < r.value) ==> !ChecklistAfter(v, q)
    decreases |v| - from
  {
    if from >= |v| then None
    else if ChecklistAfter(v, from) then Some(from)
    else FindFrom(v, from + 1)
  }

  /** A CR right before the newline belongs to the checklist too. */
  function Cut(v: string, p: nat): (r: nat)
    requires p <= |v|
    ensures r <= p <= |v|
  {
    if p > 0 && v[p - 1] == '\r' then p - 1 else p
  }

  /** What `extractDescription` returns. */
  function Extract(value: Option<string>): (r: Option<string>)
    ensures value.None? <==> r.None?
    ensures r.Some? ==> r.value <= value.value
  {
    if value.None? || |value.value| < 2 then value
    else
      var v := value.value;
      if BracketMarker(v, 0) then Some("")
      else
        var p := FindFrom(v, 0);
        if p.Some? then Some(v[..Cut(v, p.value)]) else value
  }

  /** Every newline in `[from, to)` is not followed by a checklist, so the search skips them. */
  lemma FindFromSkip(v: string, from: nat, to: nat)
    requires from <= to
    requires forall q :: from <= q < to ==> !ChecklistAfter(v, q)
    ensures FindFrom(v, from) == FindFrom(v, to)
    decreases (to as int) - (from as int)
  {
    if from < to && from < |v| {
      FindFromSkip(v, from + 1, to);
    }
  }

  /** A newline followed by a checklist mark is an occurrence of "\n[". */
  lemma ChecklistIsMarker(v: string, q: int)
    ensures ChecklistAfter(v, q) ==> Text.OccursAt(v, MARKER, q)
  {
    if ChecklistAfter(v, q) {
      assert v[q..q + 2] == [v[q], v[q + 1]];
    }
  }

  /** `extractDescription`: the search loop over the occurrences of "\n[". */
  method ExtractDescription(value: Option<string>) returns (r: Option<string>)
    ensures r == Extract(value)
  {
    if value.None? || |value.value| < 2 {
      return value;
    }
    var v := value.value;
    var len := |v|;
    if v[0] == '[' && v[1] == ']' {
      return Some("");
    }
    if len > 2 && v[0] == '[' && v[2] == ']' {
      var checkMark := v[1];
      if checkMark == ' ' || checkMark == 'x' || checkMark == 'X' {
        return Some("");
      }
    }
    assert !BracketMarker(v, 0);
    var pos := -1;
    while true
      invariant -1 <= pos < len
      invariant FindFrom(v, 0) == FindFrom(v, pos + 1)
      decreases len - pos
    {
      var next := Text.IndexOf(v, MARKER, pos + 1);
      if next < 0 {
        SkipNonMarkers(v, pos + 1, len);
        return value;
      }
      SkipNonMarkers(v, pos + 1, next);
      var found := MarkAfter(v, next);
      if found {
        var cut := CutBefore(v, next);
        return Some(v[..cut]);
      }
      FindFromSkip(v, next, next + 1);
      pos := next;
    }
  }

  /** Whether the occurrence of "\n[" at `next` starts a checklist: "]" or a mark and "]" follow. */
  method MarkAfter(v: string, next: int) returns (found: bool)
    requires Text.OccursAt(v, MARKER, next)
    ensures found == ChecklistAfter(v, next)
  {
    var len := |v|;
    assert v[next..next + 2] == MARKER;
    assert v[next] == '\n' && v[next + 1] == '[';
    found := false;
    if next + 2 < len && v[next + 2] == ']' {
      found := true;
    }
    if next + 3 < len && v[next + 3] == ']' {
      var checkMark := v[next + 2];
      if checkMark == ' ' || checkMark == 'x' || checkMark == 'X' {
        found := true;
      }
    }
  }

  /** The end of the description: the newline at `p`, or the CR in front of it. */
  method CutBefore(v: string, p: nat) returns (cut: nat)
    requires p <= |v|
    ensures cut == Cut(v, p)
  {
    cut := p;
    if cut > 0 && v[cut - 1] == '\r' {
      cut := cut - 1;
    }
  }

  /** Positions where "\n[" does not occur are not checklist starts either. */
  lemma SkipNonMarkers(v: string, from: nat, to: nat)
    requires from <= to
    requires forall i :: from <= i < to ==> !Text.OccursAt(v, MARKER, i)
    ensures FindFrom(v, from) == FindFrom(v, to)
  {
    forall q | from <= q < to ensures !ChecklistAfter(v, q) {
      ChecklistIsMarker(v, q);
    }
    FindFromSkip(v, from, to);
  }

  /** The description is always a prefix of the stored value, and the whole value when it holds no checklist. */
  lemma ExtractIsPrefix(value: Option<string>)
    ensures Extract(value).Some? ==> Extract(value).value <= value.value
    ensures value.Some? && !BracketMarker(value.value, 0) && FindFrom(value.value, 0).None? ==> Extract(value) == value
  {
  }

  // ---------------------------------------------------------------- writing

  /** The checklist part of a stored value: what follows its description. */
  function Checklist(prior: string): string
  {
    var d := Extract(Some(prior)).value;
    prior[|d|..]
  }

  /** The combined value `set` stores, as written: a "\n" is added unless the checklist starts with one. */
  function CombinedAsWritten(prior: Option<string>, value: Option<string>): Option<string>
  {
    if prior.None? || |prior.value| == 0 then value
    else
      var checklist := Checklist(prior.value);
      if |checklist| == 0 then value
      else if MARKER[..1] <= checklist then Some(JavaString(value) + checklist)
      else Some(JavaString(value) + "\n" + checklist)
  }

  /** Java's string concatenation renders a null value as "null". */
  function JavaString(s: Option<string>): string
  {
    if s.None? then "null" else s.value
  }

  /** The combined value with a CR LF separated checklist also left without an extra "\n". */
  function Combined(prior: Option<string>, value: Option<string>): Option<string>
  {
    if prior.None? || |prior.value| == 0 then value
    else
      var checklist := Checklist(prior.value);
      if |checklist| == 0 then value
      else if "\n" <= checklist || "\r\n" <= checklist then Some(JavaString(value) + checklist)
      else Some(JavaString(value) + "\n" + checklist)
  }

  /** `get`: the description part of the stored value. */
  function Get(values: ContentSet.ContentSet, fieldName: string): Option<string>
    reads values
  {
    Extract(AsString(values.Get(fieldName)))
  }

  /** `set` as written. */
  method SetAsWritten(values: ContentSet.ContentSet, fieldName: string, value: Option<string>)
    modifies values
    ensures AsString(values.Get(fieldName)) == CombinedAsWritten(old(AsString(values.Get(fieldName))), value)
    ensures forall k :: k != fieldName ==> values.Get(k) == old(values.Get(k))
  {
    var oldValue := AsString(values.Get(fieldName));
    var stored := value;
    if oldValue.Some? && |oldValue.value| > 0 {
      var oldDescription := ExtractDescription(oldValue);
      var oldChecklist := oldValue.value[|oldDescription.value|..];
      stored := if |oldChecklist| == 0 then value
        else if MARKER[..1] <= oldChecklist then Some(JavaString(value) + oldChecklist)
        else Some(JavaString(value) + "\n" + oldChecklist);
    }
    values.Put(StringKind, fieldName, if stored.None? then None else Some(StrV(stored.value)));
  }

  /** `set` with the separator rule corrected for CR LF. */
  method Set(values: ContentSet.ContentSet, fieldName: string, value: Option<string>)
    modifies values
    ensures AsString(values.Get(fieldName)) == Combined(old(AsString(values.Get(fieldName))), value)
    ensures forall k :: k != fieldName ==> values.Get(k) == old(values.Get(k))
  {
    var oldValue := AsString(values.Get(fieldName));
    var stored := value;
    if oldValue.Some? && |oldValue.value| > 0 {
      var oldDescription := ExtractDescription(oldValue);
      var oldChecklist := oldValue.value[|oldDescription.value|..];
      stored := if |oldChecklist| == 0 then value
        else if "\n" <= oldChecklist || "\r\n" <= oldChecklist then Some(JavaString(value) + oldChecklist)
        else Some(JavaString(value) + "\n" + oldChecklist);
    }
    values.Put(StringKind, fieldName, if stored.None? then None else Some(StrV(stored.value)));
  }

  // ---------------------------------------------------------------- properties

  /** A description that cannot be mistaken for the start of a checklist. */
  predicate PlainText(s: string)
  {
    forall i :: 0 <= i < |s| ==> s[i] != '\n' && s[i] != '\r' && s[i] != '['
  }

  /** The checklist of a stored value starts with a checklist line, possibly after CR LF or LF. */
  lemma ChecklistShape(prior: string)
    requires |Checklist(prior)| > 0
    ensures BracketMarker(Checklist(prior), 0)
      || ChecklistAfter(Checklist(prior), 0)
      || (Checklist(prior)[0] == '\r' && ChecklistAfter(Checklist(prior), 1))
  {
    var d := Extract(Some(prior)).value;
    var c := Checklist(prior);
    if |prior| >= 2 && !BracketMarker(prior, 0) {
      var p := FindFrom(prior, 0);
      if p.Some? {
        var k := Cut(prior, p.value);
        assert c == prior[k..];
        if k < p.value {
          assert c[0] == '\r' && c[1] == prior[p.value] && c[2] == prior[p.value + 1];
          assert BracketMarker(c, 2) == BracketMarker(prior, p.value + 1);
        } else {
          assert c[0] == prior[p.value] && c[1] == prior[p.value + 1];
          assert BracketMarker(c, 1) == BracketMarker(prior, p.value + 1);
        }
      }
    } else if |prior| >= 2 {
      assert d == "" && c == prior;
    }
  }

  /** Shifting a checklist line into a longer value. */
  lemma ChecklistAfterShift(a: string, b: string, j: nat)
    ensures ChecklistAfter(a + b, |a| + j) <==> ChecklistAfter(b, j)
  {
    var v := a + b;
    if j + 3 <= |b| {
      assert v[|a| + j + 2] == b[j + 2];
    }
    if j + 2 <= |b| {
      assert v[|a| + j + 1] == b[j + 1];
    }
    if j + 1 <= |b| {
      assert v[|a| + j] == b[j];
    }
  }

  /** A value without any checklist line is its own description. */
  lemma ExtractPlain(v: string)
    requires PlainText(v)
    ensures Extract(Some(v)) == Some(v)
  {
    if |v| >= 2 {
      FindFromSkip(v, 0, |v|);
    }
  }

  /** Plain text up to `n`, then a checklist line (after LF, or after CR LF): the description is `v[..n]`. */
  lemma ExtractLeadingPlain(v: string, n: nat)
    requires n < |v| && PlainText(v[..n])
    requires ChecklistAfter(v, n) || (v[n] == '\r' && ChecklistAfter(v, n + 1))
    ensures Extract(Some(v)) == Some(v[..n])
  {
    assert forall q :: 0 <= q < n ==> v[q] == v[..n][q];
    if n > 0 {
      assert v[0] == v[..n][0];
    }
    if ChecklistAfter(v, n) {
      FindFromSkip(v, 0, n);
      if n > 0 {
        assert v[n - 1] == v[..n][n - 1];
      }
    } else {
      FindFromSkip(v, 0, n + 1);
    }
  }

  /** After the corrected `set`, `get` returns exactly the description written, and the old checklist stays
      behind it, with a "\n" put in front only when it did not start with a line break already. */
  lemma GetAfterSet(prior: Option<string>, value: string)
    requires PlainText(value)
    ensures Extract(Combined(prior, Some(value))) == Some(value)
    ensures prior.Some? && |prior.value| > 0 ==>
      var c := Checklist(prior.value);
      Combined(prior, Some(value)) == Some(value + (if |c| == 0 || "\n" <= c || "\r\n" <= c then c else "\n" + c))
  {
    if prior.None? || |prior.value| == 0 || |Checklist(prior.value)| == 0 {
      ExtractPlain(value);
      assert value + "" == value;
    } else {
      var c := Checklist(prior.value);
      ChecklistShape(prior.value);
      assert value + c == value + c;
      if "\n" <= c {
        assert ChecklistAfter(c, 0);
        ChecklistAfterShift(value, c, 0);
        assert (value + c)[..|value|] == value;
        ExtractLeadingPlain(value + c, |value|);
      } else if "\r\n" <= c {
        assert ChecklistAfter(c, 1);
        ChecklistAfterShift(value, c, 1);
        assert (value + c)[..|value|] == value;
        assert (value + c)[|value|] == '\r';
        ExtractLeadingPlain(value + c, |value|);
      } else {
        assert c[0] != '\n';
        if |c| >= 2 {
          assert c[..2] == [c[0], c[1]];
        }
        assert BracketMarker(c, 0);
        var w := value + ("\n" + c);
        assert value + "\n" + c == w;
        assert ChecklistAfter("\n" + c, 0);
        ChecklistAfterShift(value, "\n" + c, 0);
        assert w[..|value|] == value;
        ExtractLeadingPlain(w, |value|);
      }
    }
  }

  /** Setting a null description over a checklist stores the text "null" in front of it. */
  lemma SetNullOverChecklist(prior: string)
    requires |Checklist(prior)| > 0
    ensures Extract(Combined(Some(prior), None)) == Some("null")
  {
    GetAfterSet(Some(prior), "null");
  }

  /** As written, a checklist separated by CR LF makes `get` return the new description plus "\n". */
  lemma SetAsWrittenCrLf()
    ensures Extract(CombinedAsWritten(Some("a\r\n[x] b"), Some("c"))) == Some("c\n")
  {
    var v := "a\r\n[x] b";
    assert ChecklistAfter(v, 2);
    assert !ChecklistAfter(v, 0) && !ChecklistAfter(v, 1);
    FindFromSkip(v, 0, 2);
    assert Checklist(v) == v[1..] == "\r\n[x] b";
    assert !(MARKER[..1] <= "\r\n[x] b");
    var w := "c\n\r\n[x] b";
    assert "c" + "\n" + "\r\n[x] b" == w;
    assert ChecklistAfter(w, 3);
    assert !ChecklistAfter(w, 0) && !ChecklistAfter(w, 1) && !ChecklistAfter(w, 2);
    FindFromSkip(w, 0, 3);
    assert w[..2] == "c\n";
  }
}
