/** Text primitives shared by the tier gate, the satire detector and the
    causal log: the Python string operations the heuristics are built from,
    written out over `seq<char>`.

    - `In(k, s)` is Python's `k in s` (substring presence),
    - `Count(s, k)` is Python's `s.count(k)` (non-overlapping, leftmost first),
    - `Split(s)` is Python's argument-less `s.split()`,
    - `Lower(s)` is `s.lower()`, restricted to the Latin-1 range plus U+0178,
    - `ShowNat`/`ShowInt` are `str(n)` on integers, with `ParseNat` as inverse.
 */
module Text {

  /* ---------------------------------------------------------------------
     Substring presence and counting
     --------------------------------------------------------------------- */

  /** `k` occurs in `s` starting at index `i`. */
  predicate OccursAt(s: string, k: string, i: int) {
    0 <= i && i + |k| <= |s| && s[i..i + |k|] == k
  }

  /** The reference meaning of "k is a substring of s". */
  ghost predicate Occurs(k: string, s: string) {
    exists i :: OccursAt(s, k, i)
  }

  /** Python's `k in s`, as a left-to-right scan. */
  function In(k: string, s: string): (b: bool)
    ensures b <==> Occurs(k, s)
    decreases |s|
  {
    if |s| < |k| then
      assert forall i :: !OccursAt(s, k, i);
      false
    else if s[..|k|] == k then
      assert OccursAt(s, k, 0);
      true
    else
      var rest := In(k, s[1..]);
      assert forall i :: OccursAt(s[1..], k, i) ==> OccursAt(s, k, i + 1);
      assert forall i :: OccursAt(s, k, i) ==> i >= 1 && OccursAt(s[1..], k, i - 1);
      rest
  }

  /** Python's `s.count(k)`: occurrences are taken leftmost first and do not
      overlap; the empty pattern is counted once per gap, `|s| + 1` times. */
  function Count(s: string, k: string): (n: nat)
    ensures n > 0 <==> In(k, s)
    ensures |k| > 0 ==> n <= |s|
    decreases |s|
  {
    if |k| == 0 then |s| + 1
    else if |s| < |k| then 0
    else if s[..|k|] == k then 1 + Count(s[|k|..], k)
    else Count(s[1..], k)
  }

  /** Sum of `Count(s, k)` over the patterns `ks`, as in
      `sum(s.count(k) for k in ks)`. */
  function CountAll(s: string, ks: seq<string>): (n: nat)
    ensures n > 0 <==> exists j :: 0 <= j < |ks| && In(ks[j], s)
  {
    if |ks| == 0 then 0
    else
      assert forall j :: 1 <= j < |ks| ==> ks[j] == ks[1..][j - 1];
      Count(s, ks[0]) + CountAll(s, ks[1..])
  }

  /** Number of patterns of `ks` present in `s`, each counted at most once,
      as in `sum(k in s for k in ks)`. */
  function Hits(s: string, ks: seq<string>): (n: nat)
    ensures n <= |ks|
    ensures n == 0 <==> forall j :: 0 <= j < |ks| ==> !In(ks[j], s)
    ensures n == |ks| <==> forall j :: 0 <= j < |ks| ==> In(ks[j], s)
  {
    if |ks| == 0 then 0
    else
      assert forall j :: 1 <= j < |ks| ==> ks[j] == ks[1..][j - 1];
      (if In(ks[0], s) then 1 else 0) + Hits(s, ks[1..])
  }

  /** Python's `any(k in s for k in ks)`. */
  predicate AnyIn(ks: seq<string>, s: string) {
    exists j :: 0 <= j < |ks| && In(ks[j], s)
  }

  /** `Hits` depends only on WHICH patterns are present, never on how often
      they occur: two texts that contain the same patterns score the same. */
  lemma {:induction false} HitsDependOnPresenceOnly(s: string, t: string, ks: seq<string>)
    requires forall j :: 0 <= j < |ks| ==> (In(ks[j], s) <==> In(ks[j], t))
    ensures Hits(s, ks) == Hits(t, ks)
    decreases |ks|
  {
    if |ks| > 0 {
      assert forall j :: 1 <= j < |ks| ==> ks[j] == ks[1..][j - 1];
      HitsDependOnPresenceOnly(s, t, ks[1..]);
    }
  }

  /** A pattern holding a character that never appears in `s` is absent from `s`. */
  lemma AbsentCharMeansAbsent(s: string, k: string, c: char)
    requires c in k
    requires c !in s
    ensures !In(k, s)
    ensures Count(s, k) == 0
  {
    var m :| 0 <= m < |k| && k[m] == c;
    forall i | 0 <= i && i + |k| <= |s|
      ensures !OccursAt(s, k, i)
    {
      assert s[i..i + |k|][m] == s[i + m];
    }
  }

  /* ---------------------------------------------------------------------
     Case mapping and character classes (Latin-1 plus U+0178)
     --------------------------------------------------------------------- */

  /** Upper-case letters whose lower-case form `LowerChar` knows: A-Z,
      U+00C0..U+00DE without the multiplication sign, and U+0178. */
  predicate IsUpper(c: char) {
    ('A' <= c <= 'Z') || ('\U{00C0}' <= c <= '\U{00DE}' && c != '\U{00D7}') || c == '\U{0178}'
  }

  /** Lower-case and case-less letters of the same range. */
  predicate IsLowerLetter(c: char) {
    ('a' <= c <= 'z') || ('\U{00DF}' <= c <= '\U{00FF}' && c != '\U{00F7}')
    || c == '\U{00AA}' || c == '\U{00B5}' || c == '\U{00BA}'
  }

  /** Python's `c.isalpha()` on the modelled range. */
  predicate IsAlpha(c: char) {
    IsUpper(c) || IsLowerLetter(c)
  }

  function LowerChar(c: char): (d: char)
    ensures IsUpper(c) <==> d != c
    ensures !IsUpper(d)
  {
    if 'A' <= c <= 'Z' || ('\U{00C0}' <= c <= '\U{00DE}' && c != '\U{00D7}') then
      (c as int + 32) as char
    else if c == '\U{0178}' then '\U{00FF}'
    else c
  }

  /** Python's `s.lower()` on the modelled range: character by character. */
  function Lower(s: string): (r: string)
    ensures |r| == |s|
    ensures forall i :: 0 <= i < |s| ==> r[i] == LowerChar(s[i])
  {
    seq(|s|, i requires 0 <= i < |s| => LowerChar(s[i]))
  }

  /** Lower-casing never produces an upper-case letter. */
  lemma LowerHasNoUpper(s: string)
    ensures forall c :: c in Lower(s) ==> !IsUpper(c)
  {
  }

  /** Lower-casing preserves every occurrence: if `k` is in `s` then the
      lower-cased `k` is in the lower-cased `s`. */
  lemma LowerPreservesOccurrence(k: string, s: string)
    requires In(k, s)
    ensures In(Lower(k), Lower(s))
  {
    var i :| OccursAt(s, k, i);
    assert Lower(s)[i..i + |k|] == Lower(k) by {
      forall m | 0 <= m < |k|
        ensures Lower(s)[i..i + |k|][m] == Lower(k)[m]
      {
        assert s[i + m] == s[i..i + |k|][m];
      }
    }
    assert OccursAt(Lower(s), Lower(k), i);
  }

  /** Lower-casing does nothing to a string without upper-case letters. */
  lemma LowerFixesCaseless(s: string)
    requires forall i :: 0 <= i < |s| ==> !IsUpper(s[i])
    ensures Lower(s) == s
  {
  }

  /** Number of characters of `s` satisfying Python's `isupper()`. */
  function CountUpper(s: string): (n: nat)
    ensures n <= |s|
    ensures n == 0 <==> forall i :: 0 <= i < |s| ==> !IsUpper(s[i])
  {
    if |s| == 0 then 0
    else
      assert forall i :: 1 <= i < |s| ==> s[i] == s[1..][i - 1];
      (if IsUpper(s[0]) then 1 else 0) + CountUpper(s[1..])
  }

  /** Number of characters of `s` satisfying Python's `isalpha()`. */
  function CountAlpha(s: string): (n: nat)
    ensures CountUpper(s) <= n <= |s|
    ensures n == 0 <==> forall i :: 0 <= i < |s| ==> !IsAlpha(s[i])
  {
    if |s| == 0 then 0
    else
      assert forall i :: 1 <= i < |s| ==> s[i] == s[1..][i - 1];
      (if IsAlpha(s[0]) then 1 else 0) + CountAlpha(s[1..])
  }

  /* ---------------------------------------------------------------------
     Whitespace splitting
     --------------------------------------------------------------------- */

  /** The whitespace Python's `str.split()` separates on, within Latin-1. */
  predicate IsSpace(c: char) {
    c == ' ' || c == '\t' || c == '\n' || c == '\r' || c == '\U{000B}' || c == '\U{000C}'
    || ('\U{001C}' <= c <= '\U{001F}') || c == '\U{0085}' || c == '\U{00A0}'
  }

  predicate AllSpace(s: string) {
    forall i :: 0 <= i < |s| ==> IsSpace(s[i])
  }

  /** `s` without its leading whitespace. */
  function SkipSpaces(s: string): (r: string)
    ensures |r| <= |s| && r == s[|s| - |r|..]
    ensures AllSpace(s[..|s| - |r|])
    ensures |r| > 0 ==> !IsSpace(r[0])
  {
    if |s| == 0 || !IsSpace(s[0]) then s
    else
      var r := SkipSpaces(s[1..]);
      assert s[1..][..|s| - 1 - |r|] == s[1..|s| - |r|];
      r
  }

  /** The longest prefix of `s` without whitespace. */
  function WordPrefix(s: string): (w: string)
    ensures |w| <= |s| && w == s[..|w|]
    ensures forall i :: 0 <= i < |w| ==> !IsSpace(w[i])
    ensures |w| < |s| ==> IsSpace(s[|w|])
    ensures |s| > 0 && !IsSpace(s[0]) ==> |w| > 0
  {
    if |s| == 0 || IsSpace(s[0]) then []
    else [s[0]] + WordPrefix(s[1..])
  }

  /** A word: a non-empty run without whitespace. */
  predicate IsWord(w: string) {
    |w| > 0 && forall i :: 0 <= i < |w| ==> !IsSpace(w[i])
  }

  /** Python's `s.split()`: the maximal runs of non-whitespace, in order.
      It skips the leading whitespace, takes the longest whitespace-free
      prefix as a word and splits the rest. */
  function Split(s: string): (ws: seq<string>)
    ensures forall w :: w in ws ==> IsWord(w)
    ensures ws == SplitByChar(s)
    decreases |s|
  {
    var t := SkipSpaces(s);
    SplitByCharSkipsSpaces(s);
    if |t| == 0 then []
    else
      var w := WordPrefix(t);
      assert IsWord(w);
      SplitByCharTakesWord(t);
      var rest := Split(t[|w|..]);
      [w] + rest
  }

  /** `split()` read one character at a time: whitespace is dropped, and any
      other character either joins the word that follows it directly or, when
      whitespace or the end of the text follows, forms a word of its own. */
  function SplitByChar(s: string): (ws: seq<string>)
    ensures |s| > 0 && !IsSpace(s[0]) ==> |ws| > 0
    decreases |s|
  {
    if |s| == 0 then []
    else
      var r := SplitByChar(s[1..]);
      if IsSpace(s[0]) then r
      else if |s| > 1 && !IsSpace(s[1]) then [[s[0]] + r[0]] + r[1..]
      else [[s[0]]] + r
  }

  /** The number of positions holding a non-whitespace character followed by
      whitespace or the end of the text: one per word. */
  function WordEnds(s: string): nat
    decreases |s|
  {
    if |s| == 0 then 0
    else (if !IsSpace(s[0]) && (|s| == 1 || IsSpace(s[1])) then 1 else 0) + WordEnds(s[1..])
  }

  /** The characters of `s` that are not whitespace, in order. */
  function NonSpace(s: string): string
    decreases |s|
  {
    if |s| == 0 then [] else (if IsSpace(s[0]) then [] else [s[0]]) + NonSpace(s[1..])
  }

  /** The words run together. */
  function Concat(ws: seq<string>): string
    decreases |ws|
  {
    if |ws| == 0 then [] else ws[0] + Concat(ws[1..])
  }

  /** The character-by-character reading yields one word per word end, and
      its words run together are the text without its whitespace. */
  lemma {:induction false} SplitByCharCountsAndKeeps(s: string)
    ensures |SplitByChar(s)| == WordEnds(s)
    ensures Concat(SplitByChar(s)) == NonSpace(s)
    decreases |s|
  {
    if |s| > 0 {
      var r := SplitByChar(s[1..]);
      SplitByCharCountsAndKeeps(s[1..]);
      if !IsSpace(s[0]) && |s| > 1 && !IsSpace(s[1]) {
        var ws := [[s[0]] + r[0]] + r[1..];
        assert ws[1..] == r[1..];
        assert Concat(r) == r[0] + Concat(r[1..]);
        assert Concat(ws) == [s[0]] + r[0] + Concat(r[1..]);
      } else if !IsSpace(s[0]) {
        assert ([[s[0]]] + r)[1..] == r;
      }
    }
  }

  /** Leading whitespace does not change the character-by-character reading. */
  lemma {:induction false} SplitByCharSkipsSpaces(s: string)
    ensures SplitByChar(SkipSpaces(s)) == SplitByChar(s)
    decreases |s|
  {
    if |s| > 0 && IsSpace(s[0]) {
      SplitByCharSkipsSpaces(s[1..]);
    }
  }

  /** On a text that starts with a word, the character-by-character reading
      yields that word first. */
  lemma {:induction false} SplitByCharTakesWord(t: string)
    requires |t| > 0 && !IsSpace(t[0])
    ensures SplitByChar(t) == [WordPrefix(t)] + SplitByChar(t[|WordPrefix(t)|..])
    decreases |t|
  {
    var w := WordPrefix(t);
    if |t| > 1 && !IsSpace(t[1]) {
      SplitByCharTakesWord(t[1..]);
      var w' := WordPrefix(t[1..]);
      assert w == [t[0]] + w';
      assert t[1..][|w'|..] == t[|w|..];
    } else {
      assert WordPrefix(t[1..]) == [];
      assert w == [t[0]];
    }
  }

  /** `split()` yields one word per word end, and its words run together
      are the text without its whitespace. */
  lemma SplitCountsAndKeeps(s: string)
    ensures |Split(s)| == WordEnds(s)
    ensures Concat(Split(s)) == NonSpace(s)
  {
    SplitByCharCountsAndKeeps(s);
  }

  /** `len(s.split())`. */
  function WordCount(s: string): nat {
    |Split(s)|
  }

  /** A text has no words exactly when it is empty or all whitespace. */
  lemma {:induction false} NoWordsIffAllSpace(s: string)
    ensures WordCount(s) == 0 <==> AllSpace(s)
  {
    var t := SkipSpaces(s);
    if |t| == 0 {
      assert s[..|s|] == s;
    } else {
      assert !IsSpace(s[|s| - |t|]);
    }
  }

  /* ---------------------------------------------------------------------
     Decimal rendering of integers (`str(n)`)
     --------------------------------------------------------------------- */

  predicate IsDigit(c: char) {
    '0' <= c <= '9'
  }

  function DigitChar(d: nat): (c: char)
    requires d < 10
    ensures IsDigit(c)
  {
    "0123456789"[d]
  }

  function DigitValue(c: char): (d: nat)
    requires IsDigit(c)
    ensures d < 10
  {
    (c as int - '0' as int)
  }

  /** `str(n)` for a natural number: decimal digits, most significant first. */
  function ShowNat(n: nat): (s: string)
    ensures |s| > 0
    ensures forall i :: 0 <= i < |s| ==> IsDigit(s[i])
    ensures (n < 10) <==> (|s| == 1)
  {
    if n < 10 then [DigitChar(n)]
    else ShowNat(n / 10) + [DigitChar(n % 10)]
  }

  /** Reads a string of decimal digits back into a number. */
  function ParseNat(s: string): nat
    requires forall i :: 0 <= i < |s| ==> IsDigit(s[i])
  {
    if |s| == 0 then 0
    else ParseNat(s[..|s| - 1]) * 10 + DigitValue(s[|s| - 1])
  }

  /** Rendering then reading returns the original number. */
  lemma {:induction false} ParseShowNat(n: nat)
    ensures ParseNat(ShowNat(n)) == n
  {
    var s := ShowNat(n);
    if n < 10 {
      assert DigitValue(DigitChar(n)) == n;
    } else {
      ParseShowNat(n / 10);
      assert s[..|s| - 1] == ShowNat(n / 10);
      assert DigitValue(DigitChar(n % 10)) == n % 10;
    }
  }

  /** Different numbers have different renderings. */
  lemma ShowNatInjective(a: nat, b: nat)
    requires ShowNat(a) == ShowNat(b)
    ensures a == b
  {
    ParseShowNat(a);
    ParseShowNat(b);
  }

  /** `str(i)` for any integer: a minus sign before the magnitude when negative. */
  function ShowInt(i: int): (s: string)
    ensures |s| > 0
    ensures i < 0 <==> s[0] == '-'
  {
    if i < 0 then "-" + ShowNat(-i) else ShowNat(i)
  }

  /** Rendering an integer is one-to-one. */
  lemma ShowIntInjective(a: int, b: int)
    requires ShowInt(a) == ShowInt(b)
    ensures a == b
  {
    if a < 0 {
      assert ShowInt(a)[1..] == ShowNat(-a);
      assert ShowInt(b)[1..] == ShowNat(-b);
      ShowNatInjective(-a, -b);
    } else {
      ShowNatInjective(a, b);
    }
  }
}
