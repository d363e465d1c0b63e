/**
 * String helpers with the semantics of the Java library calls the code relies on:
 * `String.join`-style joining, `String.split` with a literal separator, `String.trim`,
 * `String.indexOf(String, int)` and the decimal conversions of `Long`.
 */
module Text {
  import opened Wrappers

  // ---------------------------------------------------------------- joining

  /** The parts glued together with `sep` between neighbours and no trailing separator. */
  function Join(parts: seq<string>, sep: string): string
  {
    if |parts| == 0 then ""
    else if |parts| == 1 then parts[0]
    else parts[0] + sep + Join(parts[1..], sep)
  }

  lemma {:induction false} JoinSnoc(parts: seq<string>, p: string, sep: string)
    requires |parts| > 0
    ensures Join(parts + [p], sep) == Join(parts, sep) + sep + p
  {
    if |parts| == 1 {
      assert parts + [p] == [parts[0], p];
      assert ([parts[0], p])[1..] == [p];
    } else {
      assert (parts + [p])[1..] == parts[1..] + [p];
      JoinSnoc(parts[1..], p, sep);
    }
  }

  // ---------------------------------------------------------------- splitting

  /**
   * The pieces between the leftmost non-overlapping occurrences of `sep`, scanning
   * from the left as `java.util.regex.Matcher.find` does for a literal pattern.
   * Empty pieces are kept, so there is always one piece more than there are matches.
   */
  function SplitRaw(s: string, sep: string): (r: seq<string>)
    requires |sep| > 0
    ensures |r| >= 1
    decreases |s|
  {
    if |s| == 0 then [""]
    else if sep <= s then [""] + SplitRaw(s[|sep|..], sep)
    else
      var t := SplitRaw(s[1..], sep);
      [[s[0]] + t[0]] + t[1..]
  }

  /** `xs` without its trailing empty strings. */
  function DropTrailingEmpty(xs: seq<string>): (r: seq<string>)
    ensures |r| <= |xs| && r == xs[..|r|]
    ensures |r| > 0 ==> r[|r| - 1] != ""
    ensures forall i :: |r| <= i < |xs| ==> xs[i] == ""
  {
    if |xs| > 0 && xs[|xs| - 1] == "" then DropTrailingEmpty(xs[..|xs| - 1]) else xs
  }

  /**
   * Java's `s.split(sep)` for a separator without regular-expression metacharacters:
   * the input itself when `sep` does not occur, otherwise the pieces with trailing
   * empty strings removed.
   */
  function JavaSplit(s: string, sep: string): seq<string>
    requires |sep| > 0
  {
    var raw := SplitRaw(s, sep);
    if |raw| == 1 then [s] else DropTrailingEmpty(raw)
  }

  /** No character of `p` occurs in `sep`, so no occurrence of `sep` can start inside `p`. */
  predicate Avoids(p: string, sep: string)
  {
    forall i :: 0 <= i < |p| ==> p[i] !in sep
  }

  lemma {:induction false} SplitRawAfter(p: string, rest: string, sep: string)
    requires |sep| > 0 && Avoids(p, sep)
    ensures SplitRaw(p + rest, sep)
         == [p + SplitRaw(rest, sep)[0]] + SplitRaw(rest, sep)[1..]
    decreases |p|
  {
    var t := SplitRaw(rest, sep);
    if |p| == 0 {
      assert p + rest == rest;
      assert p + t[0] == t[0];
      assert [t[0]] + t[1..] == t;
    } else {
      var s := p + rest;
      assert s[0] == p[0];
      assert s[0] !in sep && sep[0] in sep;
      assert s[1..] == p[1..] + rest;
      SplitRawAfter(p[1..], rest, sep);
      assert [p[0]] + (p[1..] + t[0]) == p + t[0];
    }
  }

  /** Splitting a join gives back the parts when no part contains a character of the separator. */
  lemma {:induction false} SplitRawJoin(parts: seq<string>, sep: string)
    requires |sep| > 0 && |parts| > 0
    requires forall i :: 0 <= i < |parts| ==> Avoids(parts[i], sep)
    ensures SplitRaw(Join(parts, sep), sep) == parts
  {
    if |parts| == 1 {
      SplitRawAfter(parts[0], "", sep);
      assert parts[0] + "" == parts[0];
    } else {
      var tail := Join(parts[1..], sep);
      SplitRawJoin(parts[1..], sep);
      assert (sep + tail)[|sep|..] == tail;
      assert SplitRaw(sep + tail, sep) == [""] + parts[1..];
      assert parts[0] + sep + tail == parts[0] + (sep + tail);
      SplitRawAfter(parts[0], sep + tail, sep);
      assert parts[0] + "" == parts[0];
    }
  }

  /**
   * Round trip of `String.split` over a join: exact when no part contains a character
   * of the separator and the last part is not empty (Java drops trailing empty pieces).
   */
  lemma JavaSplitJoin(parts: seq<string>, sep: string)
    requires |sep| > 0 && |parts| > 0 && parts[|parts| - 1] != ""
    requires forall i :: 0 <= i < |parts| ==> Avoids(parts[i], sep)
    ensures JavaSplit(Join(parts, sep), sep) == parts
  {
    SplitRawJoin(parts, sep);
  }

  // ---------------------------------------------------------------- searching

  /** `pat` occurs in `s` at index `i`. */
  predicate OccursAt(s: string, pat: string, i: int)
  {
    0 <= i && i + |pat| <= |s| && s[i..i + |pat|] == pat
  }

  function Max0(i: int): nat { if i < 0 then 0 else i }

  /** Java's `s.indexOf(pat, from)` for a non-empty pattern: the first occurrence at or after `from`, or -1. */
  function IndexOf(s: string, pat: string, from: int): (r: int)
    requires |pat| > 0
    ensures r == -1 || (Max0(from) <= r && OccursAt(s, pat, r))
    ensures forall i :: Max0(from) <= i && (r == -1 || i < r) ==> !OccursAt(s, pat, i)
    decreases |s| - from
  {
    if from < 0 then IndexOf(s, pat, 0)
    else if from + |pat| > |s| then -1
    else if s[from..from + |pat|] == pat then from
    else IndexOf(s, pat, from + 1)
  }

  // ---------------------------------------------------------------- trimming

  /** Java's `String.trim`: strips every leading and trailing character up to U+0020. */
  function Trim(s: string): (r: string)
    ensures |r| <= |s|
  {
    TrimEnd(TrimStart(s))
  }

  function TrimStart(s: string): (r: string)
    ensures |r| <= |s|
  {
    if |s| > 0 && s[0] <= ' ' then TrimStart(s[1..]) else s
  }

  function TrimEnd(s: string): (r: string)
    ensures |r| <= |s|
  {
    if |s| > 0 && s[|s| - 1] <= ' ' then TrimEnd(s[..|s| - 1]) else s
  }

  /** `TrimStart` drops a prefix and stops at the first character above U+0020. */
  lemma {:induction false} TrimStartFacts(s: string)
    ensures var r := TrimStart(s); r == s[|s| - |r|..] && (|r| > 0 ==> r[0] > ' ')
  {
    if |s| > 0 && s[0] <= ' ' {
      TrimStartFacts(s[1..]);
    }
  }

  /** `TrimEnd` drops a suffix and stops at the last character above U+0020. */
  lemma {:induction false} TrimEndFacts(s: string)
    ensures var r := TrimEnd(s); r == s[..|r|] && (|r| > 0 ==> r[|r| - 1] > ' ')
  {
    if |s| > 0 && s[|s| - 1] <= ' ' {
      TrimEndFacts(s[..|s| - 1]);
    }
  }

  /** Neither end of `s` is a character that `trim` removes. */
  predicate IsTrimmed(s: string)
  {
    |s| == 0 || (s[0] > ' ' && s[|s| - 1] > ' ')
  }

  /** Trimming is idempotent on already trimmed text, and its result is always trimmed. */
  lemma TrimFacts(s: string)
    ensures IsTrimmed(s) ==> Trim(s) == s
    ensures IsTrimmed(Trim(s))
  {
    var a := TrimStart(s);
    var b := TrimEnd(a);
    TrimStartFacts(s);
    TrimEndFacts(a);
    if |b| > 0 {
      assert b[0] == a[0];
    }
  }

  /** A single space in front of trimmed text is trimmed away. */
  lemma TrimSpacePrefix(t: string)
    requires IsTrimmed(t)
    ensures Trim(" " + t) == t
  {
    assert (" " + t)[1..] == t;
    assert TrimStart(" " + t) == TrimStart(t);
    TrimFacts(t);
    if |t| > 0 {
      assert TrimStart(t) == t;
    }
  }

  // ---------------------------------------------------------------- decimal numbers

  const MIN_LONG: int := -0x8000_0000_0000_0000
  const MAX_LONG: int := 0x7FFF_FFFF_FFFF_FFFF

  predicate IsDigit(c: char) { '0' <= c <= '9' }

  predicate AllDigits(s: string) { forall i :: 0 <= i < |s| ==> IsDigit(s[i]) }

  /** The decimal digits of `n` without leading zeros, as `Long.toString` writes them. */
  function NatToString(n: nat): (r: string)
    ensures |r| > 0 && AllDigits(r)
    decreases n
  {
    if n < 10 then [('0' as int + n) as char]
    else NatToString(n / 10) + [('0' as int + n % 10) as char]
  }

  /** `Long.toString(i)`: a minus sign for negative values, then the digits of the magnitude. */
  function IntToString(i: int): (r: string)
    ensures |r| > 0 && r[|r| - 1] != ','
  {
    if i < 0 then "-" + NatToString(-i) else NatToString(i)
  }

  /** The value of a string of decimal digits. */
  function DigitsValue(s: string): nat
    requires AllDigits(s)
  {
    if |s| == 0 then 0 else DigitsValue(s[..|s| - 1]) * 10 + (s[|s| - 1] as int - '0' as int)
  }

  /**
   * `Long.valueOf(s)`: an optional '+' or '-' followed by at least one decimal digit,
   * whose value lies in the 64-bit range; anything else is a NumberFormatException.
   */
  function ParseLong(s: string): (r: Option<int>)
    ensures r.Some? ==> MIN_LONG <= r.value <= MAX_LONG
  {
    var negative := |s| > 0 && s[0] == '-';
    var body := if |s| > 0 && (s[0] == '-' || s[0] == '+') then s[1..] else s;
    if |body| == 0 || !AllDigits(body) then None
    else
      var v: int := if negative then -(DigitsValue(body) as int) else DigitsValue(body);
      if MIN_LONG <= v <= MAX_LONG then Some(v) else None
  }

  lemma {:induction false} DigitsOfNat(n: nat)
    ensures DigitsValue(NatToString(n)) == n
    decreases n
  {
    var s := NatToString(n);
    if n >= 10 {
      DigitsOfNat(n / 10);
      assert s[..|s| - 1] == NatToString(n / 10);
    }
  }

  /** Reading back what `Long.toString` wrote gives the same value for every 64-bit value. */
  lemma ParseLongOfString(i: int)
    requires MIN_LONG <= i <= MAX_LONG
    ensures ParseLong(IntToString(i)) == Some(i)
  {
    if i < 0 {
      var digits := NatToString(-i);
      DigitsOfNat(-i);
      assert ("-" + digits)[1..] == digits;
      assert ("-" + digits)[0] == '-';
    } else {
      var digits := NatToString(i);
      DigitsOfNat(i);
      assert IsDigit(digits[0]);
    }
  }

  /** Every character of `s` is in `cs`. */
  predicate CharsIn(s: string, cs: set<char>)
  {
    forall k :: 0 <= k < |s| ==> s[k] in cs
  }

  /** A join is made of the characters of its parts and its separator. */
  lemma {:induction false} JoinCharsIn(parts: seq<string>, sep: string, cs: set<char>)
    requires CharsIn(sep, cs)
    requires forall i :: 0 <= i < |parts| ==> CharsIn(parts[i], cs)
    ensures CharsIn(Join(parts, sep), cs)
  {
    if |parts| > 1 {
      JoinCharsIn(parts[1..], sep, cs);
      var tail := Join(parts[1..], sep);
      assert Join(parts, sep) == parts[0] + sep + tail;
      forall k | 0 <= k < |parts[0] + sep + tail| ensures (parts[0] + sep + tail)[k] in cs {
        if k < |parts[0]| {
          assert (parts[0] + sep + tail)[k] == parts[0][k];
        } else if k < |parts[0]| + |sep| {
          assert (parts[0] + sep + tail)[k] == sep[k - |parts[0]|];
        } else {
          assert (parts[0] + sep + tail)[k] == tail[k - |parts[0]| - |sep|];
        }
      }
    }
  }

  /** A pattern whose first character is outside `cs` occurs nowhere in text made of `cs`. */
  lemma NotFoundOutside(s: string, pat: string, cs: set<char>)
    requires |pat| > 0 && pat[0] !in cs && CharsIn(s, cs)
    ensures IndexOf(s, pat, 0) == -1
  {
  }

  const NUMBER_CHARS: set<char> := {'-', '0', '1', '2', '3', '4', '5', '6', '7', '8', '9'}

  /** `Long.toString` writes only a minus sign and digits. */
  lemma IntToStringChars(i: int)
    ensures CharsIn(IntToString(i), NUMBER_CHARS)
  {
    var s := IntToString(i);
    forall k | 0 <= k < |s| ensures s[k] in NUMBER_CHARS {
      assert s[k] == '-' || IsDigit(s[k]) by {
        if i < 0 && k > 0 {
          assert s[k] == NatToString(-i)[k - 1];
        }
      }
    }
  }

  /** Decimal renderings never contain a comma, a newline or a '?' character. */
  lemma IntToStringAvoids(i: int, sep: string)
    requires forall k :: 0 <= k < |sep| ==> !IsDigit(sep[k]) && sep[k] != '-'
    ensures Avoids(IntToString(i), sep)
  {
    var s := IntToString(i);
    forall k | 0 <= k < |s| ensures s[k] !in sep {
      assert s[k] == '-' || IsDigit(s[k]) by {
        if i < 0 && k > 0 {
          assert s[k] == NatToString(-i)[k - 1];
        }
      }
    }
  }
}
