/** The pure part of `load_from_file`: every raw line is stripped, blank lines
    are dropped, the order is kept, and a file with nothing left is an error. */
module WordList {
  import opened Wrappers

  /** The characters Python's `str.strip()` removes (those for which
      `str.isspace()` holds). */
  predicate IsSpace(c: char)
  {
    || ('\t' <= c <= '\r')
    || ('\U{1C}' <= c <= '\U{1F}')
    || c == ' '
    || c == '\U{85}'
    || c == '\U{A0}'
    || c == '\U{1680}'
    || ('\U{2000}' <= c <= '\U{200A}')
    || c == '\U{2028}'
    || c == '\U{2029}'
    || c == '\U{202F}'
    || c == '\U{205F}'
    || c == '\U{3000}'
  }

  /** Every character of `s` is whitespace. */
  predicate AllSpace(s: string)
  {
    forall k :: 0 <= k < |s| ==> IsSpace(s[k])
  }

  /** The first position at or after `i` that does not hold whitespace (or
      `|s|`): the left scan of `str.strip()`. */
  function SkipSpace(s: string, i: nat): (k: nat)
    requires i <= |s|
    ensures i <= k <= |s|
    ensures forall m :: i <= m < k ==> IsSpace(s[m])
    ensures k == |s| || !IsSpace(s[k])
    decreases |s| - i
  {
    if i < |s| && IsSpace(s[i]) then SkipSpace(s, i + 1) else i
  }

  /** The position just past the last non-whitespace character before `j`,
      never going below `lo`: the right scan of `str.strip()`. */
  function SkipSpaceBack(s: string, lo: nat, j: nat): (k: nat)
    requires lo <= j <= |s|
    ensures lo <= k <= j
    ensures forall m :: k <= m < j ==> IsSpace(s[m])
    ensures k == lo || !IsSpace(s[k - 1])
    decreases j
  {
    if lo < j && IsSpace(s[j - 1]) then SkipSpaceBack(s, lo, j - 1) else j
  }

  /** Python's `line.strip()`: the slice between the leading and the trailing
      whitespace. It neither starts nor ends with whitespace. */
  function Strip(s: string): (r: string)
    ensures |r| <= |s|
    ensures r == [] || Trimmed(r)
  {
    var i := SkipSpace(s, 0);
    var j := SkipSpaceBack(s, i, |s|);
    assert i < |s| ==> i < j;
    s[i..j]
  }

  /** A non-empty word with no whitespace at either end. */
  predicate Trimmed(w: string)
  {
    w != [] && !IsSpace(w[0]) && !IsSpace(w[|w| - 1])
  }

  /** What `strip` cuts is whitespace only: the result is the slice of `s`
      between a whitespace prefix and a whitespace suffix. */
  lemma StripIsSlice(s: string)
    ensures exists i, j :: 0 <= i <= j <= |s| && Strip(s) == s[i..j] && AllSpace(s[..i]) && AllSpace(s[j..])
  {
    var i := SkipSpace(s, 0);
    var j := SkipSpaceBack(s, i, |s|);
    assert forall m :: 0 <= m < i ==> s[..i][m] == s[m];
    assert forall m :: 0 <= m < |s| - j ==> s[j..][m] == s[j + m];
    assert Strip(s) == s[i..j] && AllSpace(s[..i]) && AllSpace(s[j..]);
  }

  /** Stripping leaves nothing of the line. */
  predicate Blank(line: string)
  {
    Strip(line) == []
  }

  /** A line is blank when stripping leaves nothing, which is exactly when it
      holds whitespace only. */
  lemma BlankIffAllSpace(s: string)
    ensures Strip(s) == [] <==> AllSpace(s)
  {
  }

  /** A trimmed word is left alone by `strip`; in particular stripping twice
      is stripping once. */
  lemma StripFixesTrimmed(w: string)
    ensures Trimmed(w) ==> Strip(w) == w
    ensures Strip(Strip(w)) == Strip(w)
  {
  }

  /** Every line stripped, position by position. */
  function StripAll(lines: seq<string>): (r: seq<string>)
    ensures |r| == |lines|
    ensures forall i :: 0 <= i < |lines| ==> r[i] == Strip(lines[i])
  {
    seq(|lines|, i requires 0 <= i < |lines| => Strip(lines[i]))
  }

  /** The `if line.strip()` filter of line 63 applied to stripped lines: the
      non-empty ones, in order. */
  function DropEmpty(words: seq<string>): (r: seq<string>)
    ensures |r| <= |words|
    ensures |r| == 0 <==> forall i :: 0 <= i < |words| ==> words[i] == []
    ensures forall t :: 0 <= t < |r| ==> r[t] != [] && r[t] in words
  {
    if |words| == 0 then []
    else
      var rest := DropEmpty(words[1..]);
      assert forall i :: 1 <= i < |words| ==> words[i] == words[1..][i - 1];
      if words[0] == [] then rest else [words[0]] + rest
  }

  /** The list comprehension of line 63: the stripped lines that are not blank,
      in input order. */
  function Normalise(lines: seq<string>): (r: seq<string>)
    ensures |r| <= |lines|
    ensures |r| == 0 <==> forall i :: 0 <= i < |lines| ==> Blank(lines[i])
    ensures forall t :: 0 <= t < |r| ==> Trimmed(r[t])
  {
    var words := StripAll(lines);
    forall w | w in words && w != []
      ensures Trimmed(w)
    {
      var i :| 0 <= i < |words| && words[i] == w;
      assert w == Strip(lines[i]);
    }
    DropEmpty(words)
  }

  /** The positions of the non-empty words, in increasing order, counted from
      `base` (the position of the first of `words` in the whole file). */
  function KeptFrom(words: seq<string>, base: nat): seq<nat>
  {
    if |words| == 0 then []
    else (if words[0] == [] then [] else [base]) + KeptFrom(words[1..], base + 1)
  }

  /** The positions of the non-blank lines of a file. */
  function Kept(lines: seq<string>): seq<nat>
  {
    KeptFrom(StripAll(lines), 0)
  }

  /** There are as many kept positions as non-empty words. */
  lemma {:induction false} KeptFromLength(words: seq<string>, base: nat)
    ensures |KeptFrom(words, base)| == |DropEmpty(words)|
  {
    if |words| > 0 {
      KeptFromLength(words[1..], base + 1);
    }
  }

  /** Relative to `base`, the t-th kept position is in range and holds the t-th
      non-empty word. */
  lemma {:induction false} KeptFromSelects(words: seq<string>, base: nat, t: nat)
    requires t < |KeptFrom(words, base)|
    ensures base <= KeptFrom(words, base)[t] < base + |words|
    ensures t < |DropEmpty(words)| && DropEmpty(words)[t] == words[KeptFrom(words, base)[t] - base]
  {
    KeptFromLength(words, base);
    var tail := words[1..];
    var ks, rest := KeptFrom(words, base), KeptFrom(tail, base + 1);
    var kept, more := DropEmpty(words), DropEmpty(tail);
    if words[0] == [] {
      assert ks == rest && kept == more;
      KeptFromSelects(tail, base + 1, t);
      assert words[ks[t] - base] == tail[rest[t] - (base + 1)];
    } else if t > 0 {
      assert ks == [base] + rest && kept == [words[0]] + more;
      KeptFromSelects(tail, base + 1, t - 1);
      assert ks[t] == rest[t - 1] && kept[t] == more[t - 1];
      assert words[ks[t] - base] == tail[rest[t - 1] - (base + 1)];
    } else {
      assert ks == [base] + rest && kept == [words[0]] + more;
    }
  }

  /** The kept positions strictly increase. */
  lemma {:induction false} KeptFromIncreases(words: seq<string>, base: nat)
    ensures forall t :: 0 <= t < |KeptFrom(words, base)| ==> base <= KeptFrom(words, base)[t] < base + |words|
    ensures forall t, u :: 0 <= t < u < |KeptFrom(words, base)| ==> KeptFrom(words, base)[t] < KeptFrom(words, base)[u]
  {
    if |words| > 0 {
      KeptFromIncreases(words[1..], base + 1);
    }
  }

  /** Every non-empty word has its position kept. */
  lemma {:induction false} KeptFromIsComplete(words: seq<string>, base: nat, i: nat)
    requires i < |words| && words[i] != []
    ensures base + i in KeptFrom(words, base)
  {
    var head: seq<nat> := if words[0] == [] then [] else [base];
    assert KeptFrom(words, base) == head + KeptFrom(words[1..], base + 1);
    if i > 0 {
      assert words[i] == words[1..][i - 1];
      KeptFromIsComplete(words[1..], base + 1, i - 1);
    }
  }

  /** The normalised list has one word per kept position, and the kept
      positions are valid and strictly increasing: the input order is kept. */
  lemma NormaliseKeepsOrder(lines: seq<string>)
    ensures |Kept(lines)| == |Normalise(lines)|
    ensures forall t :: 0 <= t < |Kept(lines)| ==> Kept(lines)[t] < |lines|
    ensures forall t, u :: 0 <= t < u < |Kept(lines)| ==> Kept(lines)[t] < Kept(lines)[u]
  {
    KeptFromLength(StripAll(lines), 0);
    KeptFromIncreases(StripAll(lines), 0);
  }

  /** The t-th normalised word is the stripped line at the t-th kept position,
      and that line is not blank. */
  lemma NormaliseTakesStrippedLine(lines: seq<string>, t: nat)
    requires t < |Normalise(lines)|
    ensures t < |Kept(lines)| && Kept(lines)[t] < |lines|
    ensures Normalise(lines)[t] == Strip(lines[Kept(lines)[t]]) && !Blank(lines[Kept(lines)[t]])
  {
    var words := StripAll(lines);
    KeptFromLength(words, 0);
    KeptFromSelects(words, 0, t);
    assert words[Kept(lines)[t]] == Strip(lines[Kept(lines)[t]]);
  }

  /** Every non-blank line is kept. */
  lemma NormaliseKeepsEveryWord(lines: seq<string>, i: nat)
    requires i < |lines| && !Blank(lines[i])
    ensures i in Kept(lines)
  {
    var words := StripAll(lines);
    assert words[i] == Strip(lines[i]);
    KeptFromIsComplete(words, 0, i);
    assert Kept(lines) == KeptFrom(words, 0);
  }

  /** Why `load_from_file` gives up. */
  datatype LoadError = EmptyFile(fileName: string)

  /** `load_from_file` once the file is open and its lines are read: the
      normalised words, or the ValueError of line 65 when none are left. */
  function LoadFromLines(fileName: string, lines: seq<string>): (r: Result<seq<string>, LoadError>)
    ensures r.Err? <==> forall i :: 0 <= i < |lines| ==> AllSpace(lines[i])
    ensures r.Err? ==> r.error == EmptyFile(fileName)
    ensures r.Ok? ==> |r.value| > 0 && r.value == Normalise(lines)
  {
    var data := Normalise(lines);
    forall i | 0 <= i < |lines|
      ensures Blank(lines[i]) <==> AllSpace(lines[i])
    {
      BlankIffAllSpace(lines[i]);
    }
    if |data| == 0 then Err(EmptyFile(fileName)) else Ok(data)
  }

  /** Each normalised word is the stripped form of a line that is not
      whitespace only. */
  lemma NormalisedWordComesFromLine(lines: seq<string>, w: string)
    requires w in Normalise(lines)
    ensures exists i :: 0 <= i < |lines| && !AllSpace(lines[i]) && w == Strip(lines[i])
  {
    var t :| 0 <= t < |Normalise(lines)| && Normalise(lines)[t] == w;
    NormaliseTakesStrippedLine(lines, t);
    BlankIffAllSpace(lines[Kept(lines)[t]]);
  }

  /** Each line that is not whitespace only contributes its stripped form. */
  lemma NonBlankLineIsNormalised(lines: seq<string>, i: nat)
    requires i < |lines| && !AllSpace(lines[i])
    ensures Strip(lines[i]) in Normalise(lines)
  {
    BlankIffAllSpace(lines[i]);
    NormaliseKeepsEveryWord(lines, i);
    NormaliseKeepsOrder(lines);
    var t :| 0 <= t < |Kept(lines)| && Kept(lines)[t] == i;
    NormaliseTakesStrippedLine(lines, t);
  }
}
