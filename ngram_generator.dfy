/**
 * NGramGenerator: the tokeniser of the full-text search. A text is lower-cased, cut into
 * words (maximal runs of letters, marks and digits) and every word contributes its
 * contiguous substrings of length n, optionally plus one string made of a space and the
 * word's first n-1 characters, which weights word beginnings.
 */
module NGramGenerator {
  import opened Wrappers
  import Text

  // ---------------------------------------------------------------- words

  /** A character that belongs to a word: a letter, a mark or a decimal digit (ASCII classes here). */
  predicate IsWordChar(c: char)
  {
    ('a' <= c <= 'z') || ('A' <= c <= 'Z') || ('0' <= c <= '9')
  }

  /** `toLowerCase` on the ASCII letters. */
  function ToLower(s: string): (r: string)
    ensures |r| == |s|
    ensures forall i :: 0 <= i < |s| ==> r[i] == if 'A' <= s[i] <= 'Z' then (s[i] as int + 32) as char else s[i]
  {
    seq(|s|, i requires 0 <= i < |s| => if 'A' <= s[i] <= 'Z' then (s[i] as int + 32) as char else s[i])
  }

  /** The length of the run of separator characters `s` starts with. */
  function SeparatorRun(s: string): (k: nat)
    ensures k <= |s|
    ensures forall i :: 0 <= i < k ==> !IsWordChar(s[i])
    ensures k < |s| ==> IsWordChar(s[k])
  {
    if |s| == 0 || IsWordChar(s[0]) then 0 else 1 + SeparatorRun(s[1..])
  }

  /** The pieces between the maximal separator runs, empty pieces kept (one more piece than runs). */
  function Pieces(s: string): (r: seq<string>)
    ensures |r| >= 1
    decreases |s|
  {
    if |s| == 0 then [""]
    else if !IsWordChar(s[0]) then [""] + Pieces(s[SeparatorRun(s)..])
    else
      var t := Pieces(s[1..]);
      [[s[0]] + t[0]] + t[1..]
  }

  /** `Pattern.split`: the input itself when no separator occurs, otherwise the pieces without trailing empty ones. */
  function Words(s: string): seq<string>
  {
    var raw := Pieces(s);
    if |raw| == 1 then [s] else Text.DropTrailingEmpty(raw)
  }

  predicate AllWordChars(w: string)
  {
    forall i :: 0 <= i < |w| ==> IsWordChar(w[i])
  }

  lemma {:induction false} PiecesAreWords(s: string)
    ensures forall j :: 0 <= j < |Pieces(s)| ==> AllWordChars(Pieces(s)[j])
    ensures |Pieces(s)| > 1 ==> forall j :: 0 < j < |Pieces(s)| - 1 ==> Pieces(s)[j] != ""
    decreases |s|
  {
    if |s| > 0 {
      if !IsWordChar(s[0]) {
        var rest := s[SeparatorRun(s)..];
        PiecesAreWords(rest);
        var t := Pieces(rest);
        assert |rest| > 0 ==> IsWordChar(rest[0]);
        if |t| > 1 {
          assert t[0] != "" by {
            FirstPieceOfWord(rest);
          }
        }
      } else {
        PiecesAreWords(s[1..]);
        var t := Pieces(s[1..]);
        assert AllWordChars([s[0]] + t[0]);
      }
    }
  }

  /** A text starting with a word character has a non-empty first piece. */
  lemma FirstPieceOfWord(s: string)
    requires |s| > 0 && IsWordChar(s[0])
    ensures Pieces(s)[0] != ""
  {
  }

  /**
   * The words of a text are runs of word characters, and the only empty word is a first one
   * (a text that starts with a separator, or an empty text).
   */
  lemma WordsAreRuns(s: string)
    ensures forall j :: 0 <= j < |Words(s)| ==> AllWordChars(Words(s)[j]) || (|Words(s)| == 1 && Words(s)[0] == s)
    ensures forall j :: 0 < j < |Words(s)| ==> Words(s)[j] != ""
  {
    PiecesAreWords(s);
  }

  // ---------------------------------------------------------------- n-grams of one word

  function Min(a: int, b: int): int { if a < b then a else b }
  function Max(a: int, b: int): int { if a > b then a else b }

  /** The substrings the loop adds, in order: `word[i..min(i + n, len)]` for `i < max(1, len - n + 1)`. */
  function GramSeq(word: string, n: int): (g: seq<string>)
    requires n >= 1
    ensures |g| == Max(1, |word| - n + 1)
    ensures forall i :: 0 <= i < |g| ==> g[i] == word[i..Min(i + n, |word|)]
  {
    seq(Max(1, |word| - n + 1), i requires 0 <= i < Max(1, |word| - n + 1) => word[i..Min(i + n, |word|)])
  }

  function Elements(g: seq<string>): set<string>
  {
    set i | 0 <= i < |g| :: g[i]
  }

  lemma ElementsSnoc(g: seq<string>, i: nat)
    requires i < |g|
    ensures Elements(g[..i + 1]) == Elements(g[..i]) + {g[i]}
  {
    var a := g[..i + 1];
    var b := g[..i];
    assert a == b + [g[i]];
    forall x | x in Elements(a) ensures x in Elements(b) + {g[i]} {
      var j :| 0 <= j < |a| && a[j] == x;
      if j < i {
        assert b[j] == x;
      }
    }
    forall x | x in Elements(b) ensures x in Elements(a) {
      var j :| 0 <= j < |b| && b[j] == x;
      assert a[j] == x;
    }
    assert a[i] == g[i];
  }

  /** What `" " + word.substring(0, min(len, n - 1))` gives: the string of the source's comment. */
  function SpaceGram(word: string, n: int): (r: string)
    requires n >= 1
    ensures |r| == 1 + Min(|word|, n - 1) && r[0] == ' ' && r[1..] <= word
  {
    " " + word[..Min(|word|, n - 1)]
  }

  /** The n-grams of one word; nothing for a word shorter than `minWordLen`. */
  function WordGrams(word: string, n: int, minWordLen: int, addSpace: bool): set<string>
    requires n >= 1
  {
    if |word| < minWordLen then {}
    else Elements(GramSeq(word, n)) + (if addSpace then {SpaceGram(word, n)} else {})
  }

  /** The n-grams of a list of words. */
  function WordsGrams(words: seq<string>, n: int, minWordLen: int, addSpace: bool): set<string>
    requires n >= 1
  {
    if |words| == 0 then {}
    else WordsGrams(words[..|words| - 1], n, minWordLen, addSpace) + WordGrams(words[|words| - 1], n, minWordLen, addSpace)
  }

  /** The buffer after the space-gram loop as written: position 0 a space, then the copied characters, then what was there. */
  function Overwritten(buffer: seq<char>, word: string): (r: seq<char>)
    requires |buffer| >= 1
    ensures |r| == |buffer|
  {
    var count := Min(|word|, |buffer| - 1);
    buffer[..1] + word[..count] + buffer[count + 1..]
  }

  /** The grams gathered so far and the reused buffer as the code as written leaves it. */
  datatype Run = Run(grams: set<string>, buffer: seq<char>)

  /** One word as written: its contiguous grams and, with the space-gram on, the whole overwritten buffer. */
  function WordAsWritten(word: string, buffer: seq<char>, n: int, minWordLen: int, addSpace: bool): (r: Run)
    requires n >= 1 && |buffer| >= 1
    ensures |r.buffer| == |buffer| && r.buffer[0] == buffer[0]
  {
    if |word| < minWordLen then Run({}, buffer)
    else if addSpace then
      var b := Overwritten(buffer, word);
      Run(Elements(GramSeq(word, n)) + {b}, b)
    else Run(Elements(GramSeq(word, n)), buffer)
  }

  /** The words one after another as written, the buffer carried from each word to the next. */
  function WordsAsWritten(words: seq<string>, buffer: seq<char>, n: int, minWordLen: int, addSpace: bool): (r: Run)
    requires n >= 1 && |buffer| >= 1
    ensures |r.buffer| == |buffer| && r.buffer[0] == buffer[0]
  {
    if |words| == 0 then Run({}, buffer)
    else
      var before := WordsAsWritten(words[..|words| - 1], buffer, n, minWordLen, addSpace);
      var last := WordAsWritten(words[|words| - 1], before.buffer, n, minWordLen, addSpace);
      Run(before.grams + last.grams, last.buffer)
  }

  /** The fold over one more word. */
  lemma WordsAsWrittenSnoc(words: seq<string>, i: int, buffer: seq<char>, n: int, minWordLen: int, addSpace: bool)
    requires 0 <= i < |words| && n >= 1 && |buffer| >= 1
    ensures var before := WordsAsWritten(words[..i], buffer, n, minWordLen, addSpace);
      var last := WordAsWritten(words[i], before.buffer, n, minWordLen, addSpace);
      WordsAsWritten(words[..i + 1], buffer, n, minWordLen, addSpace) == Run(before.grams + last.grams, last.buffer)
  {
    assert words[..i + 1][..i] == words[..i];
  }

  /** No word fills the buffer only in part: it is too short to count, or at least n - 1 characters long. */
  predicate FillsBuffer(words: seq<string>, n: int, minWordLen: int)
  {
    forall j :: 0 <= j < |words| ==> |words[j]| < minWordLen || |words[j]| >= n - 1
  }

  /**
   * The code as written gives the grams of the source's comment when the space-gram is off, or
   * when every counted word is long enough to overwrite the whole buffer.
   */
  lemma {:induction false} WordsAsWrittenAgrees(words: seq<string>, buffer: seq<char>, n: int, minWordLen: int, addSpace: bool)
    requires n >= 1 && |buffer| == n && buffer[0] == ' '
    requires !addSpace || FillsBuffer(words, n, minWordLen)
    ensures WordsAsWritten(words, buffer, n, minWordLen, addSpace).grams == WordsGrams(words, n, minWordLen, addSpace)
  {
    if |words| > 0 {
      var front := words[..|words| - 1];
      var w := words[|words| - 1];
      assert !addSpace || FillsBuffer(front, n, minWordLen) by {
        forall j | 0 <= j < |front| ensures !addSpace || |front[j]| < minWordLen || |front[j]| >= n - 1 {
          assert front[j] == words[j];
        }
      }
      WordsAsWrittenAgrees(front, buffer, n, minWordLen, addSpace);
      var b := WordsAsWritten(front, buffer, n, minWordLen, addSpace).buffer;
      if addSpace && |w| >= minWordLen {
        OverwrittenFull(b, w);
      }
    }
  }

  // ---------------------------------------------------------------- the generator

  class NGramGenerator {
    const n: int
    const minWordLen: int
    var allLowercase: bool
    var addSpaceInFront: bool
    var tempArray: array<char>

    predicate Valid()
      reads this, tempArray
    {
      n >= 1 && tempArray.Length == n && tempArray[0] == ' '
    }

    /** `new NGramGenerator(n, minWordLen)`: lower-casing on, no space-gram, a buffer of n characters starting with a space. */
    constructor(n: int, minWordLen: int)
      requires n >= 1
      ensures Valid() && fresh(tempArray)
      ensures this.n == n && this.minWordLen == minWordLen
      ensures allLowercase && !addSpaceInFront
      ensures tempArray[..] == [' '] + seq(n - 1, i => '\0')
    {
      this.n := n;
      this.minWordLen := minWordLen;
      allLowercase := true;
      addSpaceInFront := false;
      var buffer := new char[n](i => '\0');
      buffer[0] := ' ';
      tempArray := buffer;
    }

    method SetAllLowercase(lowercase: bool)
      modifies this
      ensures allLowercase == lowercase && addSpaceInFront == old(addSpaceInFront) && tempArray == old(tempArray)
    {
      allLowercase := lowercase;
    }

    method SetAddSpaceInFront(addSpace: bool)
      modifies this
      ensures addSpaceInFront == addSpace && allLowercase == old(allLowercase) && tempArray == old(tempArray)
    {
      addSpaceInFront := addSpace;
    }

    /** `getNgrams(String, Set)` as written: the space-gram is the whole reused buffer. */
    method AddWordNgramsAsWritten(word: string, ngrams: set<string>) returns (r: set<string>)
      requires Valid()
      modifies tempArray
      ensures Valid()
      ensures |word| < minWordLen ==> r == ngrams && tempArray[..] == old(tempArray[..])
      ensures |word| >= minWordLen && !addSpaceInFront ==>
        r == ngrams + Elements(GramSeq(word, n)) && tempArray[..] == old(tempArray[..])
      ensures |word| >= minWordLen && addSpaceInFront ==>
        tempArray[..] == Overwritten(old(tempArray[..]), word) && r == ngrams + Elements(GramSeq(word, n)) + {tempArray[..]}
      ensures var w := WordAsWritten(word, old(tempArray[..]), n, minWordLen, addSpaceInFront);
        r == ngrams + w.grams && tempArray[..] == w.buffer
    {
      r := ngrams;
      var len := |word|;
      if len < minWordLen {
        return;
      }
      r := AddContiguous(word, r);
      if addSpaceInFront {
        var tempArr := tempArray;
        var count := Min(len, n - 1);
        for i := 0 to count
          invariant tempArr[..] == old(tempArray[..])[..1] + word[..i] + old(tempArray[..])[i + 1..]
        {
          tempArr[i + 1] := word[i];
          assert word[..i + 1] == word[..i] + [word[i]];
        }
        r := r + {tempArr[..]};
      }
    }

    /** `getNgrams(String, Set)` adding the space-gram the source's comment describes. */
    method AddWordNgrams(word: string, ngrams: set<string>) returns (r: set<string>)
      requires Valid()
      ensures r == ngrams + WordGrams(word, n, minWordLen, addSpaceInFront)
    {
      r := ngrams;
      var len := |word|;
      if len < minWordLen {
        return;
      }
      r := AddContiguous(word, r);
      if addSpaceInFront {
        r := r + {" " + word[..Min(len, n - 1)]};
      }
    }

    /** The loop over the start positions. */
    method AddContiguous(word: string, ngrams: set<string>) returns (r: set<string>)
      requires n >= 1
      ensures r == ngrams + Elements(GramSeq(word, n))
    {
      var len := |word|;
      var last := Max(1, len - n + 1);
      ghost var g := GramSeq(word, n);
      r := ngrams;
      for i := 0 to last
        invariant r == ngrams + Elements(g[..i])
      {
        r := r + {word[i..Min(i + n, len)]};
        ElementsSnoc(g, i);
      }
      assert g[..last] == g;
    }

    /** The loop of `getNgrams(Set, String)` over the words, through the word method as written. */
    method AddWordsNgramsAsWritten(words: seq<string>, ngrams: set<string>) returns (r: set<string>)
      requires Valid()
      modifies tempArray
      ensures Valid()
      ensures var run := WordsAsWritten(words, old(tempArray[..]), n, minWordLen, addSpaceInFront);
        r == ngrams + run.grams && tempArray[..] == run.buffer
    {
      r := ngrams;
      ghost var buffer := tempArray[..];
      for i := 0 to |words|
        invariant Valid()
        invariant r == ngrams + WordsAsWritten(words[..i], buffer, n, minWordLen, addSpaceInFront).grams
        invariant tempArray[..] == WordsAsWritten(words[..i], buffer, n, minWordLen, addSpaceInFront).buffer
      {
        WordsAsWrittenSnoc(words, i, buffer, n, minWordLen, addSpaceInFront);
        r := AddWordNgramsAsWritten(words[i], r);
      }
      assert words[..|words|] == words;
    }

    /**
     * `getNgrams(Set, String)`: lower-case, split into words, add each word's n-grams to the given or
     * a fresh set, through the word method as written, so the buffer is carried from word to word.
     */
    method GetNgramsInto(ngrams: Option<set<string>>, data: string) returns (r: set<string>)
      requires Valid()
      modifies tempArray
      ensures Valid()
      ensures var run := WordsAsWritten(Words(if allLowercase then ToLower(data) else data), old(tempArray[..]), n, minWordLen, addSpaceInFront);
        r == (if ngrams.None? then {} else ngrams.value) + run.grams && tempArray[..] == run.buffer
    {
      var text := if allLowercase then ToLower(data) else data;
      r := AddWordsNgramsAsWritten(Words(text), if ngrams.None? then {} else ngrams.value);
    }

    /** `getNgrams(String)`: the n-grams of a text in a fresh set, as written. */
    method GetNgrams(data: string) returns (r: set<string>)
      requires Valid()
      modifies tempArray
      ensures Valid()
      ensures var run := WordsAsWritten(Words(if allLowercase then ToLower(data) else data), old(tempArray[..]), n, minWordLen, addSpaceInFront);
        r == run.grams && tempArray[..] == run.buffer
    {
      r := GetNgramsInto(Some({}), data);
    }

    /** `getNgrams(Set, String)` with the word method the source's comment describes. */
    method GetNgramsIntoIntended(ngrams: Option<set<string>>, data: string) returns (r: set<string>)
      requires Valid()
      ensures r == (if ngrams.None? then {} else ngrams.value) + WordsGrams(Words(if allLowercase then ToLower(data) else data), n, minWordLen, addSpaceInFront)
      ensures ngrams.Some? ==> ngrams.value <= r
    {
      var text := if allLowercase then ToLower(data) else data;
      var words := Words(text);
      r := if ngrams.None? then {} else ngrams.value;
      ghost var start := r;
      for i := 0 to |words|
        invariant r == start + WordsGrams(words[..i], n, minWordLen, addSpaceInFront)
      {
        assert words[..i + 1][..i] == words[..i];
        r := AddWordNgrams(words[i], r);
      }
      assert words[..|words|] == words;
    }

    /** `getNgrams(String)` with the word method the source's comment describes. */
    method GetNgramsIntended(data: string) returns (r: set<string>)
      requires Valid()
      ensures r == WordsGrams(Words(if allLowercase then ToLower(data) else data), n, minWordLen, addSpaceInFront)
    {
      r := GetNgramsIntoIntended(Some({}), data);
    }
  }

  // ---------------------------------------------------------------- properties

  /** A word of length at least n yields exactly its len - n + 1 substrings of length n. */
  lemma LongWordGrams(word: string, n: int)
    requires n >= 1 && |word| >= n
    ensures |GramSeq(word, n)| == |word| - n + 1
    ensures forall i :: 0 <= i < |GramSeq(word, n)| ==> GramSeq(word, n)[i] == word[i..i + n] && |GramSeq(word, n)[i]| == n
  {
  }

  /** A word shorter than n yields itself. */
  lemma ShortWordGrams(word: string, n: int)
    requires n >= 1 && |word| < n
    ensures GramSeq(word, n) == [word]
  {
    assert word[0..|word|] == word;
  }

  /** A word shorter than the minimum contributes nothing. */
  lemma TooShortWordGrams(word: string, n: int, minWordLen: int, addSpace: bool)
    requires n >= 1 && |word| < minWordLen
    ensures WordGrams(word, n, minWordLen, addSpace) == {}
  {
  }

  /** The buffer as written holds the intended space-gram when the word is long enough to fill it. */
  lemma OverwrittenFull(buffer: seq<char>, word: string)
    requires |buffer| >= 1 && buffer[0] == ' ' && |word| >= |buffer| - 1
    ensures Overwritten(buffer, word) == SpaceGram(word, |buffer|)
  {
    assert buffer[..1] == [' '];
  }

  /** As written, the space-gram of a one-letter word depends on the word seen before: "xyz" then "a" gives " ay". */
  lemma StaleSpaceGram()
    ensures Overwritten(Overwritten(" \0\0", "xyz"), "a") == " ay"
    ensures Overwritten(" \0\0", "a") == " a\0"
    ensures SpaceGram("a", 3) == " a"
  {
    assert Overwritten(" \0\0", "xyz") == " xy";
  }

  /** The same on a whole text: the words "xyz" and "a" give the gram " ay" as written, and the comment's grams do not hold it. */
  lemma StaleSpaceGramInText()
    ensures " ay" in WordsAsWritten(["xyz", "a"], " \0\0", 3, 1, true).grams
    ensures " ay" !in WordsGrams(["xyz", "a"], 3, 1, true)
  {
    assert ["xyz", "a"][..1] == ["xyz"];
    assert ["xyz"][..0] == [];
    assert Overwritten(" \0\0", "xyz") == " xy";
    assert Overwritten(" xy", "a") == " ay";
    ShortWordGrams("a", 3);
    assert GramSeq("xyz", 3)[0] == "xyz"[0..3] == "xyz";
    assert Elements(GramSeq("xyz", 3)) == {"xyz"};
    assert SpaceGram("xyz", 3) == " xy";
    assert SpaceGram("a", 3) == " a";
  }
}
