/**
  Characters and digit runs as the six time patterns see them: ASCII digits
  (`\d` restricted to '0'..'9'), `int()` of a digit run, the regex word
  boundary `\b`, and the `{:d}` / `{:02d}` integer formats.
 */
module Text {

  predicate IsDigit(c: char) {
    '0' <= c <= '9'
  }

  function DigitValue(c: char): (d: nat)
    requires IsDigit(c)
    ensures d < 10
  {
    (c as int) - ('0' as int)
  }

  function DigitChar(d: nat): (c: char)
    requires d < 10
    ensures IsDigit(c) && DigitValue(c) == d
  {
    (('0' as int) + d) as char
  }

  lemma DigitCharOfValue(c: char)
    requires IsDigit(c)
    ensures DigitChar(DigitValue(c)) == c
  {
  }

  predicate AllDigits(w: string) {
    forall k :: 0 <= k < |w| ==> IsDigit(w[k])
  }

  /** `int(w)` for a run of ASCII digits. */
  function DigitsValue(w: string): nat
    requires AllDigits(w)
  {
    if w == [] then 0 else DigitsValue(w[..|w| - 1]) * 10 + DigitValue(w[|w| - 1])
  }

  /** `s[i..j]` is a run of ASCII digits, stated on positions of `s`. */
  predicate DigitsBetween(s: string, i: nat, j: nat) {
    i <= j <= |s| && forall k :: i <= k < j ==> DigitAt(s, k)
  }

  /** Position `k` of `s` holds an ASCII digit. */
  predicate DigitAt(s: string, k: nat) {
    k < |s| && IsDigit(s[k])
  }

  /** `int(s[i..j])`, read in place in `s`. */
  function ValueBetween(s: string, i: nat, j: nat): nat
    requires DigitsBetween(s, i, j)
    decreases j - i
  {
    if i == j then 0
    else
      assert DigitAt(s, j - 1);
      ValueBetween(s, i, j - 1) * 10 + DigitValue(s[j - 1])
  }

  /** Reading in place is `int()` of the slice. */
  lemma {:induction false} ValueBetweenSlice(s: string, i: nat, j: nat)
    requires DigitsBetween(s, i, j)
    ensures AllDigits(s[i..j]) && ValueBetween(s, i, j) == DigitsValue(s[i..j])
    decreases j - i
  {
    if i < j {
      forall k | 0 <= k < j - i
        ensures IsDigit(s[i..j][k])
      {
        assert DigitAt(s, i + k);
      }
      ValueBetweenSlice(s, i, j - 1);
      assert s[i..j][..j - i - 1] == s[i..j - 1];
    }
  }

  /** A run of one or two digits, as `\d{1,2}` captures it, is worth at most 99. */
  lemma ShortDigitsValue(w: string)
    requires AllDigits(w) && 1 <= |w| <= 2
    ensures |w| == 1 ==> DigitsValue(w) == DigitValue(w[0])
    ensures |w| == 2 ==> DigitsValue(w) == 10 * DigitValue(w[0]) + DigitValue(w[1])
    ensures DigitsValue(w) <= 99
  {
    assert w[..|w| - 1][..0] == [];
  }

  /** `ShortDigitsValue` for one or two digits read in place. */
  lemma ShortValueBetween(s: string, i: nat, j: nat)
    requires DigitsBetween(s, i, j) && 1 <= j - i <= 2
    ensures DigitAt(s, i) && (j - i == 2 ==> DigitAt(s, i + 1))
    ensures j - i == 1 ==> ValueBetween(s, i, j) == DigitValue(s[i])
    ensures j - i == 2 ==> ValueBetween(s, i, j) == 10 * DigitValue(s[i]) + DigitValue(s[i + 1])
    ensures ValueBetween(s, i, j) <= 99
  {
    assert DigitAt(s, i);
    if j - i == 2 {
      assert DigitAt(s, i + 1);
    }
    ValueBetweenSlice(s, i, j);
    ShortDigitsValue(s[i..j]);
  }

  /** Python's `str(n)` (the `{:d}` format) of a non-negative integer. */
  function Decimal(n: nat): (w: string)
    ensures AllDigits(w) && DigitsValue(w) == n
    ensures 1 <= |w| && (n < 10 <==> |w| == 1) && (n < 100 <==> |w| <= 2)
    ensures n >= 10 ==> w[0] != '0'
  {
    if n < 10 then [DigitChar(n)]
    else
      var w := Decimal(n / 10) + [DigitChar(n % 10)];
      assert w[..|w| - 1] == Decimal(n / 10);
      w
  }

  /** The `{:02d}` format: at least two digits, padded on the left with '0'. */
  function ZeroPad2(n: nat): (w: string)
    ensures AllDigits(w) && DigitsValue(w) == n
    ensures n < 100 <==> |w| == 2
  {
    if n < 10 then
      var w := ['0', DigitChar(n)];
      ShortDigitsValue(w);
      w
    else Decimal(n)
  }

  /** Every two-digit run is the `{:02d}` form of its own value. */
  lemma ZeroPad2OfDigits(w: string)
    requires AllDigits(w) && |w| == 2
    ensures ZeroPad2(DigitsValue(w)) == w
  {
    ShortDigitsValue(w);
    var v := DigitsValue(w);
    DigitCharOfValue(w[0]);
    DigitCharOfValue(w[1]);
    if v >= 10 {
      assert v / 10 == DigitValue(w[0]) && v % 10 == DigitValue(w[1]);
    }
  }

  /** The characters `\w` treats as word characters: ASCII letters and digits, '_' and the Latin-1 letters. */
  predicate IsWordChar(c: char) {
    || 'a' <= c <= 'z'
    || 'A' <= c <= 'Z'
    || IsDigit(c)
    || c == '_'
    || c == 'ª' || c == 'µ' || c == 'º'
    || ('À' <= c <= 'ÿ' && c != '×' && c != '÷')
  }

  /** `\b` at position `i`: exactly one of the characters around `i` is a word character (the ends count as non-word). */
  predicate WordBoundary(s: string, i: nat)
    requires i <= |s|
  {
    (i > 0 && IsWordChar(s[i - 1])) != (i < |s| && IsWordChar(s[i]))
  }

  /** The character `c` is at position `i` of `s`. */
  predicate CharAt(s: string, i: nat, c: char) {
    i < |s| && s[i] == c
  }

  /** The literal `w` occurs in `s` at position `i`. */
  predicate At(s: string, i: nat, w: string)
    ensures At(s, i, w) ==> i + |w| <= |s|
  {
    i + |w| <= |s| && AtFrom(s, i, w, 0)
  }

  /** The characters `w[k..]` occur in `s` from position `i + k` on. */
  predicate AtFrom(s: string, i: nat, w: string, k: nat)
    requires i + |w| <= |s|
    decreases |w| - k
  {
    k >= |w| || (s[i + k] == w[k] && AtFrom(s, i, w, k + 1))
  }

  lemma {:induction false} AtFromIndex(s: string, i: nat, w: string, k: nat, m: nat)
    requires i + |w| <= |s| && AtFrom(s, i, w, k) && k <= m < |w|
    ensures s[i + m] == w[m]
    decreases m - k
  {
    if k < m {
      AtFromIndex(s, i, w, k + 1, m);
    }
  }

  lemma AtIndex(s: string, i: nat, w: string, k: nat)
    requires At(s, i, w) && k < |w|
    ensures s[i + k] == w[k]
  {
    AtFromIndex(s, i, w, 0, k);
  }

  /** A literal placed between two texts occurs right after the first. */
  lemma AtConcat(a: string, w: string, b: string)
    ensures At(a + w + b, |a|, w)
  {
    AtFromConcat(a, w, b, |w|);
  }

  lemma {:induction false} AtFromConcat(a: string, w: string, b: string, k: nat)
    requires k <= |w|
    ensures AtFrom(a + w + b, |a|, w, |w| - k)
    decreases k
  {
    if k > 0 {
      AtFromConcat(a, w, b, k - 1);
      assert (a + w + b)[|a| + (|w| - k)] == w[|w| - k];
    }
  }

  /** A literal is not found where its first character is missing. */
  lemma NotAtFirst(s: string, j: nat, w: string)
    requires 0 < |w| && j < |s| && s[j] != w[0]
    ensures !At(s, j, w)
  {
  }

  /** Greedy `\d{0,max}` at position `i`: how many digits it takes. */
  function DigitRun(s: string, i: nat, max: nat): (n: nat)
    requires i <= |s|
    ensures n <= max && DigitsBetween(s, i, i + n)
    ensures n < max && i + n < |s| ==> !IsDigit(s[i + n])
    decreases max
  {
    if max == 0 || i == |s| || !IsDigit(s[i]) then 0
    else
      1 + DigitRun(s, i + 1, max - 1)
  }

  /** A run of `k` digits that cannot be extended (it has `max` digits or the next character is no digit) is what `DigitRun` takes. */
  lemma {:induction false} DigitRunTakes(s: string, i: nat, max: nat, k: nat)
    requires k <= max && DigitsBetween(s, i, i + k)
    requires k < max && i + k < |s| ==> !IsDigit(s[i + k])
    ensures DigitRun(s, i, max) == k
    decreases k
  {
    if k > 0 {
      assert DigitAt(s, i);
      DigitRunTakes(s, i + 1, max - 1, k - 1);
    }
  }
}
