/**
  `reemplazar` on an expression that follows other text in the same line.
  Text that has no digit and does not end in a word character changes
  nothing: every pattern starts with a digit at `\b`, so none starts inside
  it, and `\b` right after it reads as it does at the start of a line. So
  each pattern finds the same spans in `a + s` as in `s`, moved by `|a|`.
 */
module Context {
  import opened Wrappers
  import opened Text
  import opened Periods
  import opened Resolvers
  import opened Patterns
  import opened Normalizer

  /** Text that may stand before an expression: no digit, and no word character at its end. */
  predicate Preamble(a: string) {
    NoDigit(a) && (a == [] || !IsWordChar(a[|a| - 1]))
  }

  /**
    `t` holds `s` from position `d` on, and the character before it, if
    any, is no word character.
   */
  predicate Behind(t: string, d: nat, s: string) {
    && |t| == d + |s|
    && (forall j :: 0 <= j < |s| ==> t[d + j] == s[j])
    && (d == 0 || !IsWordChar(t[d - 1]))
  }

  /** `y` is the match `x` found `d` characters further on: both are absent, or both end `d` further with the same groups. */
  predicate Moved(x: Option<Match>, y: Option<Match>, d: nat) {
    && (y.Some? <==> x.Some?)
    && (x.Some? ==> y.value == Match(x.value.end + d, x.value.groups))
  }

  // ---------------------------------------------------------------------
  // The pieces the patterns are made of.

  lemma WordBoundaryShift(t: string, d: nat, s: string, i: nat)
    requires Behind(t, d, s) && i <= |s|
    ensures WordBoundary(t, d + i) == WordBoundary(s, i)
  {
    if i > 0 {
      assert t[d + (i - 1)] == s[i - 1];
    }
    if i < |s| {
      assert t[d + i] == s[i];
    }
  }

  lemma {:induction false} AtFromShift(t: string, d: nat, s: string, j: nat, w: string, k: nat)
    requires Behind(t, d, s) && j + |w| <= |s|
    ensures AtFrom(t, d + j, w, k) == AtFrom(s, j, w, k)
    decreases |w| - k
  {
    if k < |w| {
      assert t[d + (j + k)] == s[j + k];
      AtFromShift(t, d, s, j, w, k + 1);
    }
  }

  lemma AtShift(t: string, d: nat, s: string, j: nat, w: string)
    requires Behind(t, d, s)
    ensures At(t, d + j, w) == At(s, j, w)
  {
    if j + |w| <= |s| {
      AtFromShift(t, d, s, j, w, 0);
    }
  }

  lemma {:induction false} DigitRunShift(t: string, d: nat, s: string, i: nat, max: nat)
    requires Behind(t, d, s) && i <= |s|
    ensures DigitRun(t, d + i, max) == DigitRun(s, i, max)
    decreases max
  {
    if max > 0 && i < |s| {
      assert t[d + i] == s[i];
      DigitRunShift(t, d, s, i + 1, max - 1);
    }
  }

  lemma DigitsBetweenShift(t: string, d: nat, s: string, i: nat, j: nat)
    requires Behind(t, d, s)
    ensures DigitsBetween(t, d + i, d + j) == DigitsBetween(s, i, j)
  {
    if i <= j <= |s| {
      if DigitsBetween(s, i, j) {
        forall k | d + i <= k < d + j ensures DigitAt(t, k) {
          assert DigitAt(s, k - d);
          assert t[d + (k - d)] == s[k - d];
        }
      }
      if DigitsBetween(t, d + i, d + j) {
        forall k | i <= k < j ensures DigitAt(s, k) {
          assert DigitAt(t, d + k);
          assert t[d + k] == s[k];
        }
      }
    }
  }

  lemma {:induction false} ValueBetweenShift(t: string, d: nat, s: string, i: nat, j: nat)
    requires Behind(t, d, s) && DigitsBetween(s, i, j)
    ensures DigitsBetween(t, d + i, d + j)
    ensures ValueBetween(t, d + i, d + j) == ValueBetween(s, i, j)
    decreases j - i
  {
    forall k | d + i <= k < d + j ensures DigitAt(t, k) {
      assert DigitAt(s, k - d);
      assert t[d + (k - d)] == s[k - d];
    }
    if i < j {
      ValueBetweenShift(t, d, s, i, j - 1);
      assert t[d + (j - 1)] == s[j - 1];
    }
  }

  lemma HourValueShift(t: string, d: nat, s: string, i: nat, k: nat)
    requires Behind(t, d, s) && HourAt(s, i, k)
    ensures HourAt(t, d + i, k) && HourValue(t, d + i, k) == HourValue(s, i, k)
  {
    ValueBetweenShift(t, d, s, i, i + k);
  }

  lemma CharAtShift(t: string, d: nat, s: string, i: nat, c: char)
    requires Behind(t, d, s)
    ensures CharAt(t, d + i, c) == CharAt(s, i, c)
  {
    if i < |s| {
      assert t[d + i] == s[i];
    }
  }

  lemma HourSpaceShift(t: string, d: nat, s: string, i: nat)
    requires Behind(t, d, s) && i <= |s|
    ensures HourSpace(t, d + i) == HourSpace(s, i)
  {
    WordBoundaryShift(t, d, s, i);
    DigitRunShift(t, d, s, i, 2);
    var k := DigitRun(s, i, 2);
    CharAtShift(t, d, s, i + k, ' ');
  }

  lemma TipoAtShift(t: string, d: nat, s: string, j: nat)
    requires Behind(t, d, s)
    ensures TipoAt(t, d + j) == TipoAt(s, j)
  {
    AtShift(t, d, s, j, "y media");
    AtShift(t, d, s, j, "y cuarto");
    AtShift(t, d, s, j, "menos cuarto");
  }

  lemma PeriodoAtShift(t: string, d: nat, s: string, j: nat)
    requires Behind(t, d, s)
    ensures PeriodoAt(t, d + j) == PeriodoAt(s, j)
  {
    AtShift(t, d, s, j, "de la mañana");
    AtShift(t, d, s, j, "del mediodía");
    AtShift(t, d, s, j, "de la tarde");
    AtShift(t, d, s, j, "de la noche");
    AtShift(t, d, s, j, "de la madrugada");
  }

  lemma PeriodoEndShift(t: string, d: nat, s: string, j: nat)
    requires Behind(t, d, s)
    ensures PeriodoEnd(t, d + j) == PeriodoEnd(s, j)
  {
    PeriodoAtShift(t, d, s, j);
    if PeriodoAt(s, j).Some? {
      var p := PeriodoAt(s, j).value;
      WordBoundaryShift(t, d, s, j + |Phrase(p)|);
    }
  }

  // ---------------------------------------------------------------------
  // `HH:MM`.

  lemma HhmmTailShift(t: string, d: nat, s: string, i: nat, k: nat)
    requires Behind(t, d, s) && DigitsBetween(s, i, i + k)
    ensures DigitsBetween(t, d + i, d + i + k)
    ensures Moved(HhmmTail(s, i, k), HhmmTail(t, d + i, k), d)
  {
    var c := i + k;
    ValueBetweenShift(t, d, s, i, c);
    if c + 3 <= |s| {
      assert t[d + c] == s[c] && t[d + (c + 1)] == s[c + 1] && t[d + (c + 2)] == s[c + 2];
      if s[c] == ':' && '0' <= s[c + 1] <= '5' && IsDigit(s[c + 2]) {
        assert DigitsBetween(s, c + 1, c + 3) by {
          assert DigitAt(s, c + 1) && DigitAt(s, c + 2);
        }
        ValueBetweenShift(t, d, s, c + 1, c + 3);
        WordBoundaryShift(t, d, s, c + 3);
      }
    }
  }

  lemma MatchHhmmShift(t: string, d: nat, s: string, i: nat)
    requires Behind(t, d, s) && i <= |s|
    ensures Moved(MatchHhmm(s, i), MatchHhmm(t, d + i), d)
  {
    if i < |s| {
      WordBoundaryShift(t, d, s, i);
      assert t[d + i] == s[i];
      if IsDigit(s[i]) {
        assert DigitsBetween(s, i, i + 1) by {
          assert DigitAt(s, i);
        }
        HhmmTailShift(t, d, s, i, 1);
        if i + 2 <= |s| && IsDigit(s[i + 1]) {
          assert t[d + (i + 1)] == s[i + 1];
          assert DigitsBetween(s, i, i + 2) by {
            assert DigitAt(s, i) && DigitAt(s, i + 1);
          }
          HhmmTailShift(t, d, s, i, 2);
        }
      }
    }
  }

  // ---------------------------------------------------------------------
  // `HhMm`.

  lemma HhmmAltFitsShift(t: string, d: nat, s: string, i: nat, k: nat, n: nat, mm: nat)
    requires Behind(t, d, s) && i <= |s|
    ensures HhmmAltFits(t, d + i, k, n, mm) == HhmmAltFits(s, i, k, n, mm)
    ensures HhmmAltFits(s, i, k, n, mm) ==>
      HhmmAltMatchOf(t, d + i, k, n, mm) == Match(HhmmAltMatchOf(s, i, k, n, mm).end + d, HhmmAltMatchOf(s, i, k, n, mm).groups)
  {
    var j := i + k + 1;
    HhmmAltDigitsShift(t, d, s, i, k, n);
    CharAtShift(t, d, s, j + n, 'm');
    WordBoundaryShift(t, d, s, i);
    if j + n + mm <= |s| {
      WordBoundaryShift(t, d, s, j + n + mm);
    }
  }

  lemma HhmmAltDigitsShift(t: string, d: nat, s: string, i: nat, k: nat, n: nat)
    requires Behind(t, d, s) && i <= |s|
    ensures HhmmAltDigits(t, d + i, k, n) == HhmmAltDigits(s, i, k, n)
    ensures HhmmAltDigits(s, i, k, n) ==>
      HourValue(t, d + i, k) == HourValue(s, i, k)
      && ValueBetween(t, d + i + k + 1, d + i + k + 1 + n) == ValueBetween(s, i + k + 1, i + k + 1 + n)
  {
    var j := i + k + 1;
    DigitsBetweenShift(t, d, s, i, i + k);
    CharAtShift(t, d, s, i + k, 'h');
    DigitsBetweenShift(t, d, s, j, j + n);
    if HhmmAltDigits(s, i, k, n) {
      HourValueShift(t, d, s, i, k);
      ValueBetweenShift(t, d, s, j, j + n);
    }
  }

  lemma MatchHhmmAltShift(t: string, d: nat, s: string, i: nat)
    requires Behind(t, d, s) && i <= |s|
    ensures Moved(MatchHhmmAlt(s, i), MatchHhmmAlt(t, d + i), d)
  {
    if MatchHhmmAlt(s, i).Some? {
      var k, n, mm := MatchHhmmAltPieces(s, i);
      HhmmAltFitsShift(t, d, s, i, k, n, mm);
      MatchHhmmAltForward(t, d, s, i, k, n, mm);
    }
    if MatchHhmmAlt(t, d + i).Some? {
      MatchHhmmAltBack(t, d, s, i);
    }
  }

  /** Pieces that fit in `s` and in `t`, with the match moved by `d`: `HhMm` returns that moved match in `t`. */
  lemma MatchHhmmAltForward(t: string, d: nat, s: string, i: nat, k: nat, n: nat, mm: nat)
    requires HhmmAltFits(s, i, k, n, mm) && HhmmAltFits(t, d + i, k, n, mm)
    requires HhmmAltMatchOf(t, d + i, k, n, mm) == Match(HhmmAltMatchOf(s, i, k, n, mm).end + d, HhmmAltMatchOf(s, i, k, n, mm).groups)
    ensures MatchHhmmAlt(t, d + i) == Some(Match(HhmmAltMatchOf(s, i, k, n, mm).end + d, HhmmAltMatchOf(s, i, k, n, mm).groups))
  {
    MatchHhmmAltComplete(t, d + i, k, n, mm);
  }

  /** What `HhMm` finds in `t` after the preamble, it finds in `s`. */
  lemma MatchHhmmAltBack(t: string, d: nat, s: string, i: nat)
    requires Behind(t, d, s) && i <= |s| && MatchHhmmAlt(t, d + i).Some?
    ensures MatchHhmmAlt(s, i).Some?
  {
    var k, n, mm := MatchHhmmAltPieces(t, d + i);
    MatchHhmmAltReach(t, d, s, i, k, n, mm);
  }

  /** The pieces a match of `HhMm` is made of. */
  lemma MatchHhmmAltPieces(s: string, i: nat) returns (k: nat, n: nat, mm: nat)
    requires MatchHhmmAlt(s, i).Some?
    ensures HhmmAltFits(s, i, k, n, mm) && MatchHhmmAlt(s, i).value == HhmmAltMatchOf(s, i, k, n, mm)
  {
    MatchHhmmAltSound(s, i);
    k, n, mm :| HhmmAltFits(s, i, k, n, mm) && MatchHhmmAlt(s, i).value == HhmmAltMatchOf(s, i, k, n, mm);
  }

  /** Pieces that fit in `t` fit in `s` too. */
  lemma MatchHhmmAltReach(t: string, d: nat, s: string, i: nat, k: nat, n: nat, mm: nat)
    requires Behind(t, d, s) && i <= |s| && HhmmAltFits(t, d + i, k, n, mm)
    ensures MatchHhmmAlt(s, i).Some?
  {
    HhmmAltFitsShift(t, d, s, i, k, n, mm);
    MatchHhmmAltComplete(s, i, k, n, mm);
  }

  // ---------------------------------------------------------------------
  // `en punto`.

  lemma MatchEnPuntoShift(t: string, d: nat, s: string, i: nat)
    requires Behind(t, d, s) && i <= |s|
    ensures Moved(MatchEnPunto(s, i), MatchEnPunto(t, d + i), d)
  {
    HourSpaceShift(t, d, s, i);
    var k := HourSpace(s, i);
    if k > 0 {
      AtShift(t, d, s, i + k + 1, "en punto");
      if At(s, i + k + 1, "en punto") {
        WordBoundaryShift(t, d, s, i + k + 9);
      }
      HourValueShift(t, d, s, i, k);
    }
  }

  // ---------------------------------------------------------------------
  // The shapes `cuarto`, `periodo` and `cuarto_periodo` share, over any words.

  /** An hour of one or two digits at `\b`, a blank, and the word `w`. */
  predicate HourWord(s: string, i: nat, k: nat, w: string) {
    HourAt(s, i, k) && WordBoundary(s, i) && CharAt(s, i + k, ' ') && At(s, i + k + 1, w)
  }

  /** `HourWord`, then `\b`. */
  predicate HourOneWord(s: string, i: nat, k: nat, w: string) {
    HourWord(s, i, k, w) && WordBoundary(s, i + k + 1 + |w|)
  }

  /** `HourWord`, a blank, the word `v`, then `\b`. */
  predicate HourTwoWords(s: string, i: nat, k: nat, w: string, v: string) {
    && HourWord(s, i, k, w)
    && CharAt(s, i + k + 1 + |w|, ' ')
    && At(s, i + k + 1 + |w| + 1, v)
    && WordBoundary(s, i + k + 1 + |w| + 1 + |v|)
  }

  lemma HourWordShift(t: string, d: nat, s: string, i: nat, k: nat, w: string)
    requires Behind(t, d, s) && i <= |s|
    ensures HourWord(t, d + i, k, w) == HourWord(s, i, k, w)
    ensures HourWord(s, i, k, w) ==> HourValue(t, d + i, k) == HourValue(s, i, k)
  {
    DigitsBetweenShift(t, d, s, i, i + k);
    WordBoundaryShift(t, d, s, i);
    CharAtShift(t, d, s, i + k, ' ');
    AtShift(t, d, s, i + k + 1, w);
    if HourAt(s, i, k) {
      HourValueShift(t, d, s, i, k);
    }
  }

  lemma HourOneWordShift(t: string, d: nat, s: string, i: nat, k: nat, w: string)
    requires Behind(t, d, s) && i <= |s|
    ensures HourOneWord(t, d + i, k, w) == HourOneWord(s, i, k, w)
    ensures HourOneWord(s, i, k, w) ==> HourValue(t, d + i, k) == HourValue(s, i, k)
  {
    HourWordShift(t, d, s, i, k, w);
    if HourWord(s, i, k, w) {
      WordBoundaryShift(t, d, s, i + k + 1 + |w|);
    }
  }

  lemma HourTwoWordsShift(t: string, d: nat, s: string, i: nat, k: nat, w: string, v: string)
    requires Behind(t, d, s) && i <= |s|
    ensures HourTwoWords(t, d + i, k, w, v) == HourTwoWords(s, i, k, w, v)
    ensures HourTwoWords(s, i, k, w, v) ==> HourValue(t, d + i, k) == HourValue(s, i, k)
  {
    var c := i + k + 1 + |w|;
    HourWordShift(t, d, s, i, k, w);
    CharAtShift(t, d, s, c, ' ');
    AtShift(t, d, s, c + 1, v);
    if c + 1 + |v| <= |s| {
      WordBoundaryShift(t, d, s, c + 1 + |v|);
    }
  }

  // ---------------------------------------------------------------------
  // `cuarto`.

  lemma CuartoFitsShift(t: string, d: nat, s: string, i: nat, k: nat, q: Tipo)
    requires Behind(t, d, s) && i <= |s|
    ensures CuartoFits(t, d + i, k, q) == CuartoFits(s, i, k, q)
    ensures CuartoFits(s, i, k, q) ==>
      CuartoFits(t, d + i, k, q) && CuartoMatchOf(t, d + i, k, q) == Match(CuartoMatchOf(s, i, k, q).end + d, CuartoMatchOf(s, i, k, q).groups)
  {
    CuartoFitsShape(s, i, k, q);
    CuartoFitsShape(t, d + i, k, q);
    HourOneWordShift(t, d, s, i, k, TipoPhrase(q));
  }

  lemma CuartoFitsShape(s: string, i: nat, k: nat, q: Tipo)
    ensures CuartoFits(s, i, k, q) == HourOneWord(s, i, k, TipoPhrase(q))
  {
  }

  lemma MatchCuartoShift(t: string, d: nat, s: string, i: nat)
    requires Behind(t, d, s) && i <= |s|
    ensures Moved(MatchCuarto(s, i), MatchCuarto(t, d + i), d)
  {
    if MatchCuarto(s, i).Some? {
      var k, q := MatchCuartoPieces(s, i);
      CuartoFitsShift(t, d, s, i, k, q);
      MatchCuartoForward(t, d, s, i, k, q);
    }
    if MatchCuarto(t, d + i).Some? {
      MatchCuartoBack(t, d, s, i);
    }
  }

  /** Pieces that fit in `s` and in `t`, with the match moved by `d`: `cuarto` returns that moved match in `t`. */
  lemma MatchCuartoForward(t: string, d: nat, s: string, i: nat, k: nat, q: Tipo)
    requires CuartoFits(s, i, k, q) && CuartoFits(t, d + i, k, q)
    requires CuartoMatchOf(t, d + i, k, q) == Match(CuartoMatchOf(s, i, k, q).end + d, CuartoMatchOf(s, i, k, q).groups)
    ensures MatchCuarto(t, d + i) == Some(Match(CuartoMatchOf(s, i, k, q).end + d, CuartoMatchOf(s, i, k, q).groups))
  {
    MatchCuartoComplete(t, d + i, k, q);
  }

  /** What `cuarto` finds in `t` after the preamble, it finds in `s`. */
  lemma MatchCuartoBack(t: string, d: nat, s: string, i: nat)
    requires Behind(t, d, s) && i <= |s| && MatchCuarto(t, d + i).Some?
    ensures MatchCuarto(s, i).Some?
  {
    var k, q := MatchCuartoPieces(t, d + i);
    MatchCuartoReach(t, d, s, i, k, q);
  }

  /** The pieces a match of `cuarto` is made of. */
  lemma MatchCuartoPieces(s: string, i: nat) returns (k: nat, q: Tipo)
    requires MatchCuarto(s, i).Some?
    ensures CuartoFits(s, i, k, q) && MatchCuarto(s, i).value == CuartoMatchOf(s, i, k, q)
  {
    MatchCuartoSound(s, i);
    k, q :| CuartoFits(s, i, k, q) && MatchCuarto(s, i).value == CuartoMatchOf(s, i, k, q);
  }

  /** Pieces that fit in `t` fit in `s` too. */
  lemma MatchCuartoReach(t: string, d: nat, s: string, i: nat, k: nat, q: Tipo)
    requires Behind(t, d, s) && i <= |s| && CuartoFits(t, d + i, k, q)
    ensures MatchCuarto(s, i).Some?
  {
    CuartoFitsShift(t, d, s, i, k, q);
    MatchCuartoComplete(s, i, k, q);
  }

  // ---------------------------------------------------------------------
  // `periodo`.

  lemma PeriodoFitsShift(t: string, d: nat, s: string, i: nat, k: nat, p: Periodo)
    requires Behind(t, d, s) && i <= |s|
    ensures PeriodoFits(t, d + i, k, p) == PeriodoFits(s, i, k, p)
    ensures PeriodoFits(s, i, k, p) ==>
      PeriodoFits(t, d + i, k, p) && PeriodoMatchOf(t, d + i, k, p) == Match(PeriodoMatchOf(s, i, k, p).end + d, PeriodoMatchOf(s, i, k, p).groups)
  {
    PeriodoFitsShape(s, i, k, p);
    PeriodoFitsShape(t, d + i, k, p);
    HourOneWordShift(t, d, s, i, k, Phrase(p));
  }

  lemma PeriodoFitsShape(s: string, i: nat, k: nat, p: Periodo)
    ensures PeriodoFits(s, i, k, p) == HourOneWord(s, i, k, Phrase(p))
  {
  }

  lemma MatchPeriodoShift(t: string, d: nat, s: string, i: nat)
    requires Behind(t, d, s) && i <= |s|
    ensures Moved(MatchPeriodo(s, i), MatchPeriodo(t, d + i), d)
  {
    if MatchPeriodo(s, i).Some? {
      var k, p := MatchPeriodoPieces(s, i);
      PeriodoFitsShift(t, d, s, i, k, p);
      MatchPeriodoForward(t, d, s, i, k, p);
    }
    if MatchPeriodo(t, d + i).Some? {
      MatchPeriodoBack(t, d, s, i);
    }
  }

  /** Pieces that fit in `s` and in `t`, with the match moved by `d`: `periodo` returns that moved match in `t`. */
  lemma MatchPeriodoForward(t: string, d: nat, s: string, i: nat, k: nat, p: Periodo)
    requires PeriodoFits(s, i, k, p) && PeriodoFits(t, d + i, k, p)
    requires PeriodoMatchOf(t, d + i, k, p) == Match(PeriodoMatchOf(s, i, k, p).end + d, PeriodoMatchOf(s, i, k, p).groups)
    ensures MatchPeriodo(t, d + i) == Some(Match(PeriodoMatchOf(s, i, k, p).end + d, PeriodoMatchOf(s, i, k, p).groups))
  {
    MatchPeriodoComplete(t, d + i, k, p);
  }

  /** What `periodo` finds in `t` after the preamble, it finds in `s`. */
  lemma MatchPeriodoBack(t: string, d: nat, s: string, i: nat)
    requires Behind(t, d, s) && i <= |s| && MatchPeriodo(t, d + i).Some?
    ensures MatchPeriodo(s, i).Some?
  {
    var k, p := MatchPeriodoPieces(t, d + i);
    MatchPeriodoReach(t, d, s, i, k, p);
  }

  /** The pieces a match of `periodo` is made of. */
  lemma MatchPeriodoPieces(s: string, i: nat) returns (k: nat, p: Periodo)
    requires MatchPeriodo(s, i).Some?
    ensures PeriodoFits(s, i, k, p) && MatchPeriodo(s, i).value == PeriodoMatchOf(s, i, k, p)
  {
    MatchPeriodoSound(s, i);
    k, p :| PeriodoFits(s, i, k, p) && MatchPeriodo(s, i).value == PeriodoMatchOf(s, i, k, p);
  }

  /** Pieces that fit in `t` fit in `s` too. */
  lemma MatchPeriodoReach(t: string, d: nat, s: string, i: nat, k: nat, p: Periodo)
    requires Behind(t, d, s) && i <= |s| && PeriodoFits(t, d + i, k, p)
    ensures MatchPeriodo(s, i).Some?
  {
    PeriodoFitsShift(t, d, s, i, k, p);
    MatchPeriodoComplete(s, i, k, p);
  }

  // ---------------------------------------------------------------------
  // `cuarto_periodo`.

  lemma CuartoPeriodoFitsShift(t: string, d: nat, s: string, i: nat, k: nat, q: Tipo, p: Periodo)
    requires Behind(t, d, s) && i <= |s|
    ensures CuartoPeriodoFits(t, d + i, k, q, p) == CuartoPeriodoFits(s, i, k, q, p)
    ensures CuartoPeriodoFits(s, i, k, q, p) ==>
      CuartoPeriodoFits(t, d + i, k, q, p) && CuartoPeriodoMatchOf(t, d + i, k, q, p)
        == Match(CuartoPeriodoMatchOf(s, i, k, q, p).end + d, CuartoPeriodoMatchOf(s, i, k, q, p).groups)
  {
    CuartoPeriodoFitsShape(s, i, k, q, p);
    CuartoPeriodoFitsShape(t, d + i, k, q, p);
    HourTwoWordsShift(t, d, s, i, k, TipoPhrase(q), Phrase(p));
  }

  lemma CuartoPeriodoFitsShape(s: string, i: nat, k: nat, q: Tipo, p: Periodo)
    ensures CuartoPeriodoFits(s, i, k, q, p) == HourTwoWords(s, i, k, TipoPhrase(q), Phrase(p))
    ensures PeriodoStart(i, k, q) + |Phrase(p)| == i + k + 1 + |TipoPhrase(q)| + 1 + |Phrase(p)|
  {
  }

  lemma MatchCuartoPeriodoShift(t: string, d: nat, s: string, i: nat)
    requires Behind(t, d, s) && i <= |s|
    ensures Moved(MatchCuartoPeriodo(s, i), MatchCuartoPeriodo(t, d + i), d)
  {
    if MatchCuartoPeriodo(s, i).Some? {
      var k, q, p := MatchCuartoPeriodoPieces(s, i);
      CuartoPeriodoFitsShift(t, d, s, i, k, q, p);
      MatchCuartoPeriodoForward(t, d, s, i, k, q, p);
    }
    if MatchCuartoPeriodo(t, d + i).Some? {
      MatchCuartoPeriodoBack(t, d, s, i);
    }
  }

  /** Pieces that fit in `s` and in `t`, with the match moved by `d`: `cuarto_periodo` returns that moved match in `t`. */
  lemma MatchCuartoPeriodoForward(t: string, d: nat, s: string, i: nat, k: nat, q: Tipo, p: Periodo)
    requires CuartoPeriodoFits(s, i, k, q, p) && CuartoPeriodoFits(t, d + i, k, q, p)
    requires CuartoPeriodoMatchOf(t, d + i, k, q, p) == Match(CuartoPeriodoMatchOf(s, i, k, q, p).end + d, CuartoPeriodoMatchOf(s, i, k, q, p).groups)
    ensures MatchCuartoPeriodo(t, d + i) == Some(Match(CuartoPeriodoMatchOf(s, i, k, q, p).end + d, CuartoPeriodoMatchOf(s, i, k, q, p).groups))
  {
    MatchCuartoPeriodoComplete(t, d + i, k, q, p);
  }

  /** What `cuarto_periodo` finds in `t` after the preamble, it finds in `s`. */
  lemma MatchCuartoPeriodoBack(t: string, d: nat, s: string, i: nat)
    requires Behind(t, d, s) && i <= |s| && MatchCuartoPeriodo(t, d + i).Some?
    ensures MatchCuartoPeriodo(s, i).Some?
  {
    var k, q, p := MatchCuartoPeriodoPieces(t, d + i);
    MatchCuartoPeriodoReach(t, d, s, i, k, q, p);
  }

  /** The pieces a match of `cuarto_periodo` is made of. */
  lemma MatchCuartoPeriodoPieces(s: string, i: nat) returns (k: nat, q: Tipo, p: Periodo)
    requires MatchCuartoPeriodo(s, i).Some?
    ensures CuartoPeriodoFits(s, i, k, q, p) && MatchCuartoPeriodo(s, i).value == CuartoPeriodoMatchOf(s, i, k, q, p)
  {
    MatchCuartoPeriodoSound(s, i);
    k, q, p :| CuartoPeriodoFits(s, i, k, q, p) && MatchCuartoPeriodo(s, i).value == CuartoPeriodoMatchOf(s, i, k, q, p);
  }

  /** Pieces that fit in `t` fit in `s` too. */
  lemma MatchCuartoPeriodoReach(t: string, d: nat, s: string, i: nat, k: nat, q: Tipo, p: Periodo)
    requires Behind(t, d, s) && i <= |s| && CuartoPeriodoFits(t, d + i, k, q, p)
    ensures MatchCuartoPeriodo(s, i).Some?
  {
    CuartoPeriodoFitsShift(t, d, s, i, k, q, p);
    MatchCuartoPeriodoComplete(s, i, k, q, p);
  }

  /** Each pattern finds at `d + i` of `t` what it finds at `i` of `s`, `d` characters further on. */
  lemma PatternShift(r: Rule, t: string, d: nat, s: string, i: nat)
    requires Behind(t, d, s) && i <= |s|
    ensures Moved(Pattern(r)(s, i), Pattern(r)(t, d + i), d)
  {
    match r
    case CuartoPeriodoRule => MatchCuartoPeriodoShift(t, d, s, i);
    case PeriodoRule => MatchPeriodoShift(t, d, s, i);
    case CuartoRule => MatchCuartoShift(t, d, s, i);
    case EnPuntoRule => MatchEnPuntoShift(t, d, s, i);
    case HhmmAltRule => MatchHhmmAltShift(t, d, s, i);
    case HhmmRule => MatchHhmmShift(t, d, s, i);
  }

  // ---------------------------------------------------------------------
  // The sweeps.

  /** `find` finds in `t`, from `d` on, what it finds in `s`, moved by `d`. */
  ghost predicate MovesAlong(find: Matcher, t: string, d: nat, s: string) {
    forall j: nat {:trigger find(s, j)} :: j <= |s| ==> Moved(find(s, j), find(t, d + j), d)
  }

  lemma PatternMovesAlong(r: Rule, t: string, d: nat, s: string)
    requires Behind(t, d, s)
    ensures MovesAlong(Pattern(r), t, d, s)
  {
    forall j: nat | j <= |s| ensures Moved(Pattern(r)(s, j), Pattern(r)(t, d + j), d) {
      PatternShift(r, t, d, s, j);
    }
  }

  lemma SliceShift(t: string, d: nat, s: string, i: nat, j: nat)
    requires Behind(t, d, s) && i <= j <= |s|
    ensures t[d + i..d + j] == s[i..j]
  {
    forall k | 0 <= k < j - i ensures t[d + i..d + j][k] == s[i..j][k] {
      assert t[d + (i + k)] == s[i + k];
    }
  }

  lemma {:induction false} SweepFromShift(find: Matcher, repl: Replacer, t: string, d: nat, s: string, i: nat)
    requires Anchored(find) && Behind(t, d, s) && MovesAlong(find, t, d, s) && i <= |s|
    ensures SweepFrom(find, repl, t, d + i) == SweepFrom(find, repl, s, i)
    decreases |s| - i, 1
  {
    if i < |s| {
      if find(s, i).None? {
        SweepFromShiftSkip(find, repl, t, d, s, i);
      } else {
        SweepFromShiftReplace(find, repl, t, d, s, i);
      }
    }
  }

  lemma {:induction false} SweepFromShiftSkip(find: Matcher, repl: Replacer, t: string, d: nat, s: string, i: nat)
    requires Anchored(find) && Behind(t, d, s) && MovesAlong(find, t, d, s) && i < |s| && find(s, i).None?
    ensures SweepFrom(find, repl, t, d + i) == SweepFrom(find, repl, s, i)
    decreases |s| - i, 0
  {
    assert Moved(find(s, i), find(t, d + i), d);
    SweepFromShift(find, repl, t, d, s, i + 1);
    assert t[d + i] == s[i];
    SkipShift(find, repl, t, d + i, s, i);
  }

  lemma {:induction false} SweepFromShiftReplace(find: Matcher, repl: Replacer, t: string, d: nat, s: string, i: nat)
    requires Anchored(find) && Behind(t, d, s) && MovesAlong(find, t, d, s) && i < |s| && find(s, i).Some?
    ensures SweepFrom(find, repl, t, d + i) == SweepFrom(find, repl, s, i)
    decreases |s| - i, 0
  {
    var m := find(s, i).value;
    assert Moved(find(s, i), find(t, d + i), d);
    SweepReplaces(find, repl, s, i, m);
    SweepFromShift(find, repl, t, d, s, m.end);
    SliceShift(t, d, s, i, m.end);
    ReplaceShift(find, repl, t, d + i, s, i, m);
  }

  /** A position where neither text has a match: both copy the same character. */
  lemma SkipShift(find: Matcher, repl: Replacer, t: string, e: nat, s: string, i: nat)
    requires Anchored(find) && e < |t| && i < |s| && t[e] == s[i]
    requires find(s, i).None? && find(t, e).None?
    requires SweepFrom(find, repl, t, e + 1) == SweepFrom(find, repl, s, i + 1)
    ensures SweepFrom(find, repl, t, e) == SweepFrom(find, repl, s, i)
  {
  }

  /** A position where both texts have the same match: both replace the same text. */
  lemma ReplaceShift(find: Matcher, repl: Replacer, t: string, e: nat, s: string, i: nat, m: Match)
    requires Anchored(find) && e < |t| && i < |s|
    requires find(s, i) == Some(m) && find(t, e) == Some(Match(m.end - i + e, m.groups))
    requires t[e..m.end - i + e] == s[i..m.end]
    requires SweepFrom(find, repl, t, m.end - i + e) == SweepFrom(find, repl, s, m.end)
    ensures SweepFrom(find, repl, t, e) == SweepFrom(find, repl, s, i)
  {
    SweepReplaces(find, repl, s, i, m);
    SweepReplaces(find, repl, t, e, Match(m.end - i + e, m.groups));
  }

  /** `a + s` holds `s` behind the preamble `a`. */
  lemma PreambleBehind(a: string, s: string)
    requires Preamble(a)
    ensures Behind(a + s, |a|, s)
  {
  }

  /** No pattern finds anything inside the preamble, so a sweep copies it and goes on as on `s` alone. */
  lemma SweepFromPreamble(find: Matcher, repl: Replacer, a: string, s: string)
    requires Anchored(find) && Preamble(a) && Behind(a + s, |a|, s) && MovesAlong(find, a + s, |a|, s)
    ensures SweepFrom(find, repl, a + s, 0) == a + SweepFrom(find, repl, s, 0)
  {
    var t := a + s;
    forall k | 0 <= k < |a| ensures find(t, k).None? {
      assert t[k] == a[k];
      NoMatchOffStart(find, t, k);
    }
    SweepKeeps(find, repl, t, 0, |a|);
    assert t[0..|a|] == a;
    SweepFromShift(find, repl, t, |a|, s, 0);
  }

  /** One sweep keeps the text before the expression and works on the rest as if it were alone. */
  lemma SweepShift(r: Rule, a: string, s: string)
    requires Preamble(a)
    ensures Sweep(r, a + s) == a + Sweep(r, s)
  {
    PreambleBehind(a, s);
    PatternMovesAlong(r, a + s, |a|, s);
    SweepFromPreamble(Pattern(r), Replacement, a, s);
  }

  lemma {:induction false} SweepAllShift(rules: seq<Rule>, a: string, s: string)
    requires Preamble(a)
    ensures SweepAll(rules, a + s) == a + SweepAll(rules, s)
    decreases |rules|
  {
    if rules != [] {
      SweepShift(rules[0], a, s);
      SweepAllShift(rules[1..], a, Sweep(rules[0], s));
    }
  }

  /**
    `reemplazar(a + s)` is `a + reemplazar(s)` when `a` has no digit and
    does not end in a word character: the expressions of a sentence are
    rewritten as they would be on a line of their own.
   */
  lemma ReemplazarInContext(a: string, s: string)
    requires Preamble(a)
    ensures Reemplazar(a + s) == a + Reemplazar(s)
  {
    SweepAllShift(Order, a, s);
  }
}
