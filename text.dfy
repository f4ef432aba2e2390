/**
 * Whitespace handling of src/utils.py: Python's notion of whitespace, `str.strip()`,
 * `str.split()`, `str.join()` and `clean_text`, which collapses every run of whitespace
 * into one space and trims both ends.
 */
module Text {

  /** Python's `str.isspace()` for one character: what `split()` and `strip()` remove. */
  predicate IsSpace(c: char) {
    || c == ' '
    || ('\t' <= c <= '\r')
    || ('\U{1C}' <= c <= '\U{1F}')
    || c == '\U{85}'
    || c == '\U{A0}'
    || c == '\U{1680}'
    || ('\U{2000}' <= c <= '\U{200A}')
    || c == '\U{2028}'
    || c == '\U{2029}'
    || c == '\U{202F}'
    || c == '\U{205F}'
    || c == '\U{3000}'
  }

  predicate NoSpace(s: string) {
    forall i :: 0 <= i < |s| ==> !IsSpace(s[i])
  }

  /** `not s.strip()`: the string is empty once stripped. */
  predicate AllSpace(s: string) {
    forall i :: 0 <= i < |s| ==> IsSpace(s[i])
  }

  /** Neither end is whitespace. */
  predicate IsStripped(s: string) {
    s == [] || (!IsSpace(s[0]) && !IsSpace(s[|s| - 1]))
  }

  /** A word of `str.split()`: non-empty, no whitespace. */
  predicate IsWord(w: string) {
    w != [] && NoSpace(w)
  }

  /** The normal form `clean_text` produces. */
  ghost predicate IsNormalized(s: string) {
    && IsStripped(s)
    && (forall i :: 0 <= i < |s| && IsSpace(s[i]) ==> s[i] == ' ')
    && (forall i, j {:trigger s[i], s[j]} :: 0 <= i < j < |s| && j == i + 1 ==> !(s[i] == ' ' && s[j] == ' '))
  }

  function LeadingSpaces(s: string): (k: nat)
    ensures k <= |s|
    ensures AllSpace(s[..k])
    ensures k < |s| ==> !IsSpace(s[k])
  {
    if s != [] && IsSpace(s[0]) then 1 + LeadingSpaces(s[1..]) else 0
  }

  /** The first index at or after `i` that does not hold whitespace, or |s| if there is none. */
  function SpanStart(s: string, i: nat): (k: nat)
    requires i <= |s|
    ensures i <= k <= |s|
    ensures forall j :: i <= j < k ==> IsSpace(s[j])
    ensures k < |s| ==> !IsSpace(s[k])
    decreases |s| - i
  {
    if i < |s| && IsSpace(s[i]) then SpanStart(s, i + 1) else i
  }

  /** Where s[lo..j] ends once its trailing whitespace is dropped. */
  function SpanEnd(s: string, lo: nat, j: nat): (k: nat)
    requires lo <= j <= |s|
    ensures lo <= k <= j
    ensures forall m :: k <= m < j ==> IsSpace(s[m])
    ensures lo < k ==> !IsSpace(s[k - 1])
    decreases j
  {
    if lo < j && IsSpace(s[j - 1]) then SpanEnd(s, lo, j - 1) else j
  }

  /** Python's `str.strip()`: the slice of `s` between its leading and its trailing whitespace. */
  function Strip(s: string): (r: string)
    ensures IsStripped(r)
    ensures r == [] <==> AllSpace(s)
  {
    var lo := SpanStart(s, 0);
    s[lo..SpanEnd(s, lo, |s|)]
  }

  /** `strip()` removes only whitespace, and only from the two ends: the result is a slice between whitespace runs. */
  lemma StripTrims(s: string)
    ensures exists lo, hi :: 0 <= lo <= hi <= |s| && Strip(s) == s[lo..hi] && AllSpace(s[..lo]) && AllSpace(s[hi..])
  {
    var lo := SpanStart(s, 0);
    var hi := SpanEnd(s, lo, |s|);
    assert Strip(s) == s[lo..hi] && AllSpace(s[..lo]) && AllSpace(s[hi..]);
  }

  /** A string with no whitespace at either end is its own `strip()`. */
  lemma StripKeepsStripped(s: string)
    requires IsStripped(s)
    ensures Strip(s) == s
  {
    if s != [] {
      assert SpanStart(s, 0) == 0;
      assert SpanEnd(s, 0, |s|) == |s|;
    }
  }

  /** The length of the word `s` starts with. */
  function WordLength(s: string): (n: nat)
    ensures n <= |s|
    ensures NoSpace(s[..n])
    ensures n < |s| ==> IsSpace(s[n])
  {
    if s != [] && !IsSpace(s[0]) then 1 + WordLength(s[1..]) else 0
  }

  /** Python's `str.split()` without arguments: the maximal runs of non-whitespace. */
  function Split(s: string): (words: seq<string>)
    ensures forall k :: 0 <= k < |words| ==> IsWord(words[k])
    ensures words == [] <==> AllSpace(s)
    decreases |s|
  {
    var k := LeadingSpaces(s);
    if k == |s| then
      assert s[..k] == s;
      []
    else
      var t := s[k..];
      var n := WordLength(t);
      [t[..n]] + Split(t[n..])
  }

  /** Python's `sep.join(parts)`. */
  function Join(sep: string, parts: seq<string>): (r: string)
    ensures parts == [] ==> r == ""
  {
    if parts == [] then ""
    else if |parts| == 1 then parts[0]
    else parts[0] + sep + Join(sep, parts[1..])
  }

  /** Python's `s.replace(old, new)` for single characters. */
  function Replace(s: string, from: char, to: char): (r: string)
    ensures |r| == |s|
    ensures forall i :: 0 <= i < |s| ==> r[i] == if s[i] == from then to else s[i]
  {
    seq(|s|, i requires 0 <= i < |s| => if s[i] == from then to else s[i])
  }

  /** `clean_text` of src/utils.py: `" ".join(text.split()).replace(NBSP, " ").strip()`. */
  function CleanText(text: string): (r: string)
    ensures IsStripped(r)
  {
    if text == "" then "" else Strip(Replace(Join(" ", Split(text)), '\U{A0}', ' '))
  }

  /** The characters that are not whitespace, in order. */
  function Visible(s: string): string {
    if s == [] then [] else (if IsSpace(s[0]) then [] else [s[0]]) + Visible(s[1..])
  }

  function Concat(parts: seq<string>): string {
    if parts == [] then [] else parts[0] + Concat(parts[1..])
  }

  // ---------------------------------------------------------------------------
  // Lemmas about joining words

  lemma {:induction false} JoinWordsNormalized(words: seq<string>)
    requires forall k :: 0 <= k < |words| ==> IsWord(words[k])
    ensures IsNormalized(Join(" ", words))
    ensures words != [] ==> Join(" ", words) != [] && Join(" ", words)[0] == words[0][0]
    decreases |words|
  {
    if |words| > 1 {
      var w := words[0];
      var rest := Join(" ", words[1..]);
      JoinWordsNormalized(words[1..]);
      var s := w + " " + rest;
      assert s == Join(" ", words);
      assert s[|w|] == ' ' && s[|w| + 1] == rest[0];
      assert forall i :: 0 <= i < |w| ==> s[i] == w[i];
      assert forall i :: |w| < i < |s| ==> s[i] == rest[i - |w| - 1];
      assert s[|s| - 1] == rest[|rest| - 1];
    }
  }

  lemma {:induction false} VisibleAppend(a: string, b: string)
    ensures Visible(a + b) == Visible(a) + Visible(b)
    decreases |a|
  {
    if a == [] {
      assert a + b == b;
    } else {
      assert (a + b)[1..] == a[1..] + b;
      VisibleAppend(a[1..], b);
    }
  }

  lemma VisibleSplitAt(s: string, n: nat)
    requires n <= |s|
    ensures Visible(s) == Visible(s[..n]) + Visible(s[n..])
  {
    assert s == s[..n] + s[n..];
    VisibleAppend(s[..n], s[n..]);
  }

  lemma {:induction false} VisibleOfSpaces(s: string)
    requires AllSpace(s)
    ensures Visible(s) == []
    decreases |s|
  {
    if s != [] { VisibleOfSpaces(s[1..]); }
  }

  lemma {:induction false} VisibleOfWord(s: string)
    requires NoSpace(s)
    ensures Visible(s) == s
    decreases |s|
  {
    if s != [] { VisibleOfWord(s[1..]); }
  }

  lemma {:induction false} VisibleOfJoin(words: seq<string>)
    requires forall k :: 0 <= k < |words| ==> IsWord(words[k])
    ensures Visible(Join(" ", words)) == Concat(words)
    decreases |words|
  {
    if |words| == 1 {
      VisibleOfWord(words[0]);
      assert Concat(words[1..]) == [];
    } else if |words| > 1 {
      VisibleOfJoin(words[1..]);
      VisibleAppend(words[0] + " ", Join(" ", words[1..]));
      VisibleAppend(words[0], " ");
      VisibleOfWord(words[0]);
      assert Visible(" ") == [];
    }
  }

  /** The words of `split()` hold exactly the visible characters, in order. */
  lemma {:induction false} VisibleOfSplit(s: string)
    ensures Concat(Split(s)) == Visible(s)
    decreases |s|
  {
    var k := LeadingSpaces(s);
    if k == |s| {
      assert s[..k] == s;
      VisibleOfSpaces(s);
    } else {
      var t := s[k..];
      var n := WordLength(t);
      var w, r := t[..n], t[n..];
      assert Split(s) == [w] + Split(r);
      VisibleOfSplit(r);
      calc {
        Concat(Split(s));
        { assert ([w] + Split(r))[1..] == Split(r); }
        w + Concat(Split(r));
        w + Visible(r);
        { VisibleOfWord(w); }
        Visible(w) + Visible(r);
        { VisibleSplitAt(t, n); }
        Visible(t);
        { VisibleOfSpaces(s[..k]); }
        Visible(s[..k]) + Visible(t);
        { VisibleSplitAt(s, k); }
        Visible(s);
      }
    }
  }

  /** Leading whitespace does not change the words. */
  lemma SplitSkipsSpace(c: char, s: string)
    requires IsSpace(c)
    ensures Split([c] + s) == Split(s)
  {
    var cs := [c] + s;
    assert cs[1..] == s;
    var k := LeadingSpaces(s);
    assert LeadingSpaces(cs) == k + 1;
    assert cs[k + 1..] == s[k..];
  }

  /** What follows the first word and its space in a normalised string is normalised. */
  lemma NormalizedAfterWord(s: string, n: nat)
    requires IsNormalized(s) && n < |s| && s[n] == ' '
    ensures n + 1 < |s| && !IsSpace(s[n + 1])
    ensures IsNormalized(s[n + 1..])
  {
    var rest := s[n + 1..];
    assert n + 1 < |s|;
    assert s[n + 1] != ' ';
    forall i, j | 0 <= i < j < |rest| && j == i + 1
      ensures !(rest[i] == ' ' && rest[j] == ' ')
    {
      assert rest[i] == s[n + 1 + i] && rest[j] == s[n + 1 + j];
    }
    forall i | 0 <= i < |rest| && IsSpace(rest[i])
      ensures rest[i] == ' '
    {
      assert rest[i] == s[n + 1 + i];
    }
  }

  lemma AroundSpace(s: string, n: nat)
    requires n < |s| && s[n] == ' '
    ensures s == s[..n] + " " + s[n + 1..]
  {
  }

  lemma JoinCons(sep: string, w: string, words: seq<string>)
    requires words != []
    ensures Join(sep, [w] + words) == w + sep + Join(sep, words)
  {
    assert ([w] + words)[1..] == words;
  }

  /** A non-space character starts the first word, which runs up to the next whitespace. */
  lemma SplitAtWord(s: string)
    requires s != [] && !IsSpace(s[0])
    ensures Split(s) == [s[..WordLength(s)]] + Split(s[WordLength(s)..])
  {
    assert LeadingSpaces(s) == 0;
    assert s[0..] == s;
  }

  /** The word length is fixed by where the first whitespace is. */
  lemma {:induction false} WordLengthAt(s: string, n: nat)
    requires n <= |s| && NoSpace(s[..n]) && (n == |s| || IsSpace(s[n]))
    ensures WordLength(s) == n
    decreases n
  {
    if n > 0 {
      assert !IsSpace(s[..n][0]);
      assert s[1..][..n - 1] == s[1..n];
      assert forall i :: 0 <= i < n - 1 ==> s[1..n][i] == s[..n][i + 1];
      WordLengthAt(s[1..], n - 1);
    }
  }

  /** A word splits into itself. */
  lemma SplitWord(w: string)
    requires IsWord(w)
    ensures Split(w) == [w]
  {
    assert w[..|w|] == w;
    WordLengthAt(w, |w|);
    SplitAtWord(w);
  }

  /** Whitespace separates: the words around a whitespace character are split independently. */
  lemma {:induction false} SplitAtSpace(a: string, c: char, b: string)
    requires IsSpace(c)
    ensures Split(a + [c] + b) == Split(a) + Split(b)
    decreases |a|
  {
    if a == [] {
      assert a + [c] + b == [c] + b;
      SplitSkipsSpace(c, b);
    } else if IsSpace(a[0]) {
      SpaceFirst(a, c, b);
      SplitAtSpace(a[1..], c, b);
    } else {
      var n := WordLength(a);
      WordFirst(a, c, b);
      SplitAtSpace(a[n..], c, b);
      SeqAssoc([a[..n]], Split(a[n..]), Split(b));
    }
  }

  lemma SeqAssoc<T>(x: seq<T>, y: seq<T>, z: seq<T>)
    ensures x + (y + z) == (x + y) + z
  {
  }

  lemma SpaceFirst(a: string, c: char, b: string)
    requires IsSpace(c) && a != [] && IsSpace(a[0])
    ensures Split(a + [c] + b) == Split(a[1..] + [c] + b)
    ensures Split(a) == Split(a[1..])
  {
    assert a + [c] + b == [a[0]] + (a[1..] + [c] + b);
    SplitSkipsSpace(a[0], a[1..] + [c] + b);
    assert a == [a[0]] + a[1..];
    SplitSkipsSpace(a[0], a[1..]);
  }

  lemma WordFirst(a: string, c: char, b: string)
    requires IsSpace(c) && a != [] && !IsSpace(a[0])
    ensures var n := WordLength(a);
      && Split(a + [c] + b) == [a[..n]] + Split(a[n..] + [c] + b)
      && Split(a) == [a[..n]] + Split(a[n..])
  {
    var n := WordLength(a);
    AroundPrefix(a, c, b, n);
    WordLengthBeforeSpace(a, c, b);
    SplitAtWord(a + [c] + b);
    SplitAtWord(a);
  }

  lemma AroundPrefix(a: string, c: char, b: string, n: nat)
    requires 0 < n <= |a|
    ensures var s := a + [c] + b;
      s[0] == a[0] && s[..n] == a[..n] && s[n..] == a[n..] + [c] + b
  {
  }

  /** A whitespace character after `a` ends `a`'s first word at the latest. */
  lemma WordLengthBeforeSpace(a: string, c: char, b: string)
    requires IsSpace(c)
    ensures WordLength(a + [c] + b) == WordLength(a)
  {
    var s := a + [c] + b;
    var n := WordLength(a);
    assert s[..n] == a[..n];
    assert n == |a| || s[n] == a[n];
    WordLengthAt(s, n);
  }

  lemma JoinAtSpace(words: seq<string>, rest: string)
    requires |words| > 1 && rest == Join(" ", words[1..])
    ensures Join(" ", words) == words[0] + [' '] + rest
  {
  }

  /** Splitting words joined by single spaces gives the words back. */
  lemma {:induction false} SplitJoinWords(words: seq<string>)
    requires forall k :: 0 <= k < |words| ==> IsWord(words[k])
    ensures Split(Join(" ", words)) == words
    decreases |words|
  {
    if |words| == 1 {
      SplitWord(words[0]);
    } else if |words| > 1 {
      var rest := Join(" ", words[1..]);
      JoinAtSpace(words, rest);
      SplitAtSpace(words[0], ' ', rest);
      SplitWord(words[0]);
      SplitJoinWords(words[1..]);
      assert words == [words[0]] + words[1..];
    }
  }

  /** In a normalised string, the words are the first word and then the words after its space. */
  lemma SplitNormalizedStep(s: string, n: nat)
    requires IsNormalized(s) && s != [] && n == WordLength(s) && n < |s|
    ensures s[n] == ' ' && n + 1 < |s|
    ensures Split(s) == [s[..n]] + Split(s[n + 1..])
  {
    NormalizedAfterWord(s, n);
    SplitWordThenSpace(s, n);
  }

  lemma SplitWordThenSpace(s: string, n: nat)
    requires s != [] && !IsSpace(s[0]) && n == WordLength(s) && n + 1 < |s| && s[n] == ' '
    ensures Split(s) == [s[..n]] + Split(s[n + 1..])
  {
    SplitAtWord(s);
    assert s[n..] == [' '] + s[n + 1..];
    SplitSkipsSpace(' ', s[n + 1..]);
  }

  /** On a normalised string, splitting then joining with one space gives it back. */
  lemma {:induction false} JoinSplitNormalized(s: string)
    requires IsNormalized(s)
    ensures Join(" ", Split(s)) == s
    decreases |s|
  {
    if s != [] {
      assert LeadingSpaces(s) == 0;
      assert s[0..] == s;
      var n := WordLength(s);
      if n < |s| {
        SplitNormalizedStep(s, n);
        NormalizedAfterWord(s, n);
        var rest := s[n + 1..];
        JoinSplitNormalized(rest);
        var words := Split(rest);
        assert words != [] by { assert !IsSpace(rest[0]); }
        calc {
          Join(" ", Split(s));
          Join(" ", [s[..n]] + words);
          { JoinCons(" ", s[..n], words); }
          s[..n] + " " + Join(" ", words);
          s[..n] + " " + rest;
          { AroundSpace(s, n); }
          s;
        }
      } else {
        assert s[..n] == s;
        assert s[n..] == [];
        assert Split(s) == [s];
      }
    }
  }

  lemma ReplaceAbsent(s: string, from: char, to: char)
    requires forall i :: 0 <= i < |s| ==> s[i] != from
    ensures Replace(s, from, to) == s
  {
  }

  /** For non-empty input `clean_text` is exactly the words joined by single spaces. */
  lemma CleanTextJoinsWords(text: string)
    requires text != ""
    ensures CleanText(text) == Join(" ", Split(text))
  {
    var j := Join(" ", Split(text));
    JoinWordsNormalized(Split(text));
    ReplaceAbsent(j, '\U{A0}', ' ');
  }

  // ---------------------------------------------------------------------------
  // What clean_text promises

  /**
   * `clean_text` yields the normal form: no whitespace at either end, no whitespace
   * other than ' ', never two spaces in a row; and it is "" exactly when the input
   * is all whitespace (in particular for "").
   */
  lemma CleanTextNormalForm(text: string)
    ensures IsNormalized(CleanText(text))
    ensures CleanText(text) == "" <==> AllSpace(text)
  {
    if text != "" {
      CleanTextJoinsWords(text);
      JoinWordsNormalized(Split(text));
    }
  }

  /** `clean_text` keeps every non-whitespace character, in order, and adds none. */
  lemma CleanTextKeepsVisible(text: string)
    ensures Visible(CleanText(text)) == Visible(text)
  {
    if text != "" {
      CleanTextJoinsWords(text);
      VisibleOfJoin(Split(text));
      VisibleOfSplit(text);
    }
  }

  /** The strings `clean_text` leaves unchanged are exactly the normalised ones. */
  lemma CleanTextFixedPoints(s: string)
    ensures CleanText(s) == s <==> IsNormalized(s)
  {
    CleanTextNormalForm(s);
    if IsNormalized(s) && s != "" {
      CleanTextJoinsWords(s);
      JoinSplitNormalized(s);
    }
  }

  /** `clean_text` is idempotent. */
  lemma CleanTextIdempotent(text: string)
    ensures CleanText(CleanText(text)) == CleanText(text)
  {
    CleanTextNormalForm(text);
    CleanTextFixedPoints(CleanText(text));
  }

  /** `clean_text` keeps the words: each run of whitespace between two of them becomes one space. */
  lemma SplitCleanText(text: string)
    ensures Split(CleanText(text)) == Split(text)
  {
    if text != "" {
      CleanTextJoinsWords(text);
      SplitJoinWords(Split(text));
    }
  }

  /** `sep.join(parts)` starts with its first part. */
  lemma {:induction false} JoinStartsWithFirst(sep: string, parts: seq<string>)
    requires parts != []
    ensures parts[0] <= Join(sep, parts)
  {
  }

  /** Where part `k` of `sep.join(parts)` begins: after the parts before it, each followed by `sep`. */
  function JoinOffset(sep: string, parts: seq<string>, k: nat): nat
    requires k < |parts|
  {
    if k == 0 then 0 else |parts[0]| + |sep| + JoinOffset(sep, parts[1..], k - 1)
  }

  /**
   * `sep.join(parts)` lays the parts out in order: part `k` sits at its offset, a `sep`
   * follows every part but the last, and the last part ends the string.
   */
  lemma {:induction false} JoinPlacesParts(sep: string, parts: seq<string>, k: nat)
    requires k < |parts|
    ensures var s, off := Join(sep, parts), JoinOffset(sep, parts, k);
      && off + |parts[k]| <= |s|
      && s[off..off + |parts[k]|] == parts[k]
      && (k + 1 < |parts| ==> off + |parts[k]| + |sep| <= |s| && s[off + |parts[k]|..off + |parts[k]| + |sep|] == sep)
      && (k + 1 == |parts| ==> off + |parts[k]| == |s|)
    decreases k
  {
    if k > 0 {
      JoinUnfold(sep, parts);
      assert JoinOffset(sep, parts, k) == |parts[0]| + |sep| + JoinOffset(sep, parts[1..], k - 1);
      assert parts[1..][k - 1] == parts[k];
      JoinPlacesParts(sep, parts[1..], k - 1);
      JoinShift(parts[0] + sep, Join(sep, parts[1..]), JoinOffset(sep, parts[1..], k - 1), parts[k]);
      if k + 1 < |parts| {
        JoinShift(parts[0] + sep, Join(sep, parts[1..]), JoinOffset(sep, parts[1..], k - 1) + |parts[k]|, sep);
      }
    } else if |parts| > 1 {
      JoinUnfold(sep, parts);
    }
  }

  /** A piece found at offset `off` of `t` is found at offset `|p| + off` of `p + t`. */
  lemma JoinShift(p: string, t: string, off: nat, piece: string)
    requires off + |piece| <= |t| && t[off..off + |piece|] == piece
    ensures |p| + off + |piece| <= |p + t| && (p + t)[|p| + off..|p| + off + |piece|] == piece
  {
    forall j | 0 <= j < |piece|
      ensures (p + t)[|p| + off + j] == piece[j]
    {
      assert (p + t)[|p| + off + j] == t[off + j] == t[off..off + |piece|][j];
    }
  }

  lemma JoinUnfold(sep: string, parts: seq<string>)
    requires |parts| > 1
    ensures Join(sep, parts) == parts[0] + sep + Join(sep, parts[1..])
    ensures |parts[1..]| == |parts| - 1
    ensures forall j :: 0 <= j < |parts| - 1 ==> parts[1..][j] == parts[j + 1]
  {
  }

  /** Python's `s.rfind(c, lo, hi)`: the last index of `c` in s[lo:hi], or -1. */
  function RFind(s: string, c: char, lo: nat, hi: nat): (r: int)
    requires lo <= hi <= |s|
    ensures r == -1 || (lo <= r < hi && s[r] == c)
    decreases hi - lo
  {
    if hi == lo then -1
    else if s[hi - 1] == c then hi - 1
    else RFind(s, c, lo, hi - 1)
  }

  /** No `c` lies after the index `rfind` reports, nor anywhere in s[lo:hi] when it reports -1. */
  lemma {:induction false} RFindIsLast(s: string, c: char, lo: nat, hi: nat)
    requires lo <= hi <= |s|
    ensures var r := RFind(s, c, lo, hi);
      forall i :: (if r == -1 then lo else r + 1) <= i < hi ==> s[i] != c
    decreases hi - lo
  {
    if hi > lo && s[hi - 1] != c {
      RFindIsLast(s, c, lo, hi - 1);
    }
  }
}
