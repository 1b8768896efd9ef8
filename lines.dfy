/**
  What `reemplazar` (horas.py:162-183) does to whole lines of the shapes its
  docstring lists: an hour text of one or two digits followed by the words of
  one pattern.
 */
module Lines {
  import opened Wrappers
  import opened Text
  import opened Clock
  import opened Periods
  import opened Resolvers
  import opened Patterns
  import opened Normalizer

  /** The hour group `\d{1,2}` as written in a line. */
  predicate HourText(ht: string) {
    1 <= |ht| <= 2 && AllDigits(ht)
  }

  /** The period phrases start with `de`, end with a letter and hold no digit. */
  lemma PhraseShape(p: Periodo)
    ensures |Phrase(p)| >= 11 && Phrase(p)[0] == 'd' && Phrase(p)[1] == 'e'
    ensures IsWordChar(Phrase(p)[|Phrase(p)| - 1])
    ensures forall k :: 0 <= k < |Phrase(p)| ==> !IsDigit(Phrase(p)[k])
  {
  }

  /** The text an hour text puts in front of the rest of a line. */
  lemma HourTextLead(ht: string, rest: string)
    requires HourText(ht) && 0 < |rest| && !IsDigit(rest[0])
    requires forall k :: 0 <= k < |rest| ==> !IsDigit(rest[k])
    ensures NumberLead(ht + rest, |ht|)
    ensures HourAt(ht + rest, 0, |ht|) && WordBoundary(ht + rest, 0)
    ensures HourValue(ht + rest, 0, |ht|) == DigitsValue(ht)
    ensures DigitRun(ht + rest, 0, 2) == |ht|
  {
    var s := ht + rest;
    forall k | 0 <= k < |ht| ensures DigitAt(s, k) {
      assert s[k] == ht[k];
    }
    forall k | |ht| <= k < |s| ensures !DigitAt(s, k) {
      assert s[k] == rest[k - |ht|];
    }
    assert DigitAt(s, 0);
    ValueBetweenSlice(s, 0, |ht|);
    assert s[0..|ht|] == ht;
    DigitRunTakes(s, 0, 2, |ht|);
  }

  /** A phrase of words after the hour: no digit, at least two characters, word characters first and last. */
  predicate Wordy(w: string) {
    |w| >= 2 && NoDigit(w) && IsWordChar(w[0]) && IsWordChar(w[|w| - 1])
  }

  /** The line `H <phrase>`. */
  function HourPhrase(ht: string, w: string): string {
    ht + (" " + w)
  }

  lemma HourPhraseShape(ht: string, w: string)
    requires HourText(ht) && Wordy(w)
    ensures var s := HourPhrase(ht, w);
      && HourAt(s, 0, |ht|) && WordBoundary(s, 0) && HourValue(s, 0, |ht|) == DigitsValue(ht)
      && HourSpace(s, 0) == |ht| && DigitRun(s, 0, 2) == |ht|
      && CharAt(s, |ht|, ' ') && s[|ht| + 1] == w[0] && s[|ht| + 2] == w[1]
      && At(s, |ht| + 1, w) && |s| == |ht| + 1 + |w| && WordBoundary(s, |s|)
  {
    var s := HourPhrase(ht, w);
    var rest := " " + w;
    forall k | 0 <= k < |rest| ensures !IsDigit(rest[k]) {
      if k > 0 {
        assert rest[k] == w[k - 1];
      }
    }
    HourTextLead(ht, rest);
    HourSpaceComplete(s, 0, |ht|);
    AtConcat(ht + " ", w, "");
    assert (ht + " ") + w + "" == s;
    assert s[|s| - 1] == w[|w| - 1];
  }

  /** Past its start, a line `H <phrase>` gives no pattern anything to match. */
  lemma HourPhraseQuiet(ht: string, w: string)
    requires HourText(ht) && Wordy(w)
    ensures QuietAfterStart(HourPhrase(ht, w))
  {
    var rest := " " + w;
    forall k | 0 <= k < |rest| ensures !IsDigit(rest[k]) {
      if k > 0 {
        assert rest[k] == w[k - 1];
      }
    }
    HourTextLead(ht, rest);
    NumberLeadQuiet(HourPhrase(ht, w), |ht|);
  }

  /** The period phrases start with `de` and are wordy. */
  lemma PhraseWordy(p: Periodo)
    ensures Wordy(Phrase(p)) && Phrase(p)[0] == 'd' && Phrase(p)[1] == 'e'
  {
    PhraseShape(p);
  }

  /** The quarter phrases start with `y` or `m` and are wordy. */
  lemma TipoWordy(t: Tipo)
    ensures Wordy(TipoPhrase(t)) && (TipoPhrase(t)[0] == 'y' || TipoPhrase(t)[0] == 'm')
  {
  }

  /** On a line `H <phrase>` neither `HhMm` nor `HH:MM` matches at the start. */
  lemma HourPhraseNoClock(ht: string, w: string)
    requires HourText(ht) && Wordy(w)
    ensures MatchHhmmAlt(HourPhrase(ht, w), 0).None? && MatchHhmm(HourPhrase(ht, w), 0).None?
  {
    var s := HourPhrase(ht, w);
    HourPhraseShape(ht, w);
    assert !CharAt(s, 1, ':') && !CharAt(s, 2, ':') by {
      if |ht| == 2 {
        assert DigitAt(s, 1);
      } else {
        assert s[2] == w[0];
      }
    }
    HhmmNeedsColon(s, 0);
  }

  // ---------------------------------------------------------------------
  // `H de la tarde` and the other period phrases.

  function PeriodoLine(ht: string, p: Periodo): string {
    HourPhrase(ht, Phrase(p))
  }

  /** Only `periodo` matches at the start of the line, and it takes all of it. */
  lemma PeriodoLineFacts(ht: string, p: Periodo)
    requires HourText(ht)
    ensures var s := PeriodoLine(ht, p);
      && QuietAfterStart(s)
      && Pattern(Order[0])(s, 0).None?
      && Pattern(Order[1])(s, 0) == Some(Match(|s|, PeriodoGroups(DigitsValue(ht), p)))
      && Pattern(Order[2])(s, 0).None? && Pattern(Order[3])(s, 0).None?
      && Pattern(Order[4])(s, 0).None? && Pattern(Order[5])(s, 0).None?
  {
    PhraseWordy(p);
    HourPhraseQuiet(ht, Phrase(p));
    HourPhraseNoClock(ht, Phrase(p));
    PeriodoLineMatches(ht, p);
    OrderPatterns();
  }

  lemma PeriodoLineMatches(ht: string, p: Periodo)
    requires HourText(ht)
    ensures var s := PeriodoLine(ht, p);
      && MatchCuartoPeriodo(s, 0).None? && MatchCuarto(s, 0).None? && MatchEnPunto(s, 0).None?
      && MatchPeriodo(s, 0) == Some(Match(|s|, PeriodoGroups(DigitsValue(ht), p)))
  {
    var s := PeriodoLine(ht, p);
    var k := |ht|;
    PhraseWordy(p);
    HourPhraseShape(ht, Phrase(p));
    NotAtFirst(s, k + 1, "y media");
    NotAtFirst(s, k + 1, "y cuarto");
    NotAtFirst(s, k + 1, "menos cuarto");
    NotAtFirst(s, k + 1, "en punto");
    assert TipoAt(s, k + 1).None?;
    assert PeriodoMatchOf(s, 0, k, p) == Match(|s|, PeriodoGroups(DigitsValue(ht), p));
    MatchPeriodoComplete(s, 0, k, p);
  }

  lemma PeriodoLineWhole(ht: string, p: Periodo)
    requires HourText(ht)
    ensures Reemplazar(PeriodoLine(ht, p)) == Replacement(PeriodoLine(ht, p), PeriodoGroups(DigitsValue(ht), p))
  {
    PeriodoLineFacts(ht, p);
    ReemplazarWhole(PeriodoLine(ht, p), 1, PeriodoGroups(DigitsValue(ht), p));
  }

  /** The replacement of a `periodo` span, through `normalizar_periodo`. */
  lemma PeriodoReplacement(span: string, h: nat, p: Periodo)
    ensures var r := NormalizarPeriodo(h, p);
      Replacement(span, PeriodoGroups(h, p)) == if r.Some? then Format(r.value) else span
  {
  }

  /**
    A line `H <period phrase>` becomes the resolved `HH:00` when
    `normalizar_periodo` accepts the hour, and is left exactly as it is
    otherwise (so `12 de la noche` and `9 de la tarde` stay unchanged).
   */
  lemma ReemplazarPeriodoLine(ht: string, p: Periodo)
    requires HourText(ht)
    ensures var r := NormalizarPeriodo(DigitsValue(ht), p);
      Reemplazar(PeriodoLine(ht, p)) == if r.Some? then Format(r.value) else PeriodoLine(ht, p)
  {
    PeriodoLineWhole(ht, p);
    PeriodoReplacement(PeriodoLine(ht, p), DigitsValue(ht), p);
  }

  // ---------------------------------------------------------------------
  // `H y media`, `H y cuarto`, `H menos cuarto`.

  function CuartoLine(ht: string, t: Tipo): string {
    HourPhrase(ht, TipoPhrase(t))
  }

  lemma CuartoLineMatches(ht: string, t: Tipo)
    requires HourText(ht)
    ensures var s := CuartoLine(ht, t);
      && MatchCuartoPeriodo(s, 0).None? && MatchPeriodo(s, 0).None? && MatchEnPunto(s, 0).None?
      && MatchHhmmAlt(s, 0).None? && MatchHhmm(s, 0).None?
      && MatchCuarto(s, 0) == Some(Match(|s|, CuartoGroups(DigitsValue(ht), t)))
  {
    var s := CuartoLine(ht, t);
    var k := |ht|;
    TipoWordy(t);
    HourPhraseShape(ht, TipoPhrase(t));
    HourPhraseNoClock(ht, TipoPhrase(t));
    TipoAtComplete(s, k + 1, t);
    assert !CharAt(s, |s|, ' ');
    PeriodoAtNone(s, k + 1);
    NotAtFirst(s, k + 1, "en punto");
    assert CuartoMatchOf(s, 0, k, t) == Match(|s|, CuartoGroups(DigitsValue(ht), t));
    MatchCuartoComplete(s, 0, k, t);
  }

  /** Only `cuarto` matches at the start of the line, and it takes all of it. */
  lemma CuartoLineFacts(ht: string, t: Tipo)
    requires HourText(ht)
    ensures var s := CuartoLine(ht, t);
      && QuietAfterStart(s)
      && Pattern(Order[0])(s, 0).None? && Pattern(Order[1])(s, 0).None?
      && Pattern(Order[2])(s, 0) == Some(Match(|s|, CuartoGroups(DigitsValue(ht), t)))
      && Pattern(Order[3])(s, 0).None? && Pattern(Order[4])(s, 0).None? && Pattern(Order[5])(s, 0).None?
  {
    TipoWordy(t);
    HourPhraseQuiet(ht, TipoPhrase(t));
    HourPhraseNoClock(ht, TipoPhrase(t));
    CuartoLineMatches(ht, t);
    OrderPatterns();
  }

  lemma CuartoLineWhole(ht: string, t: Tipo)
    requires HourText(ht)
    ensures Reemplazar(CuartoLine(ht, t)) == Replacement(CuartoLine(ht, t), CuartoGroups(DigitsValue(ht), t))
  {
    CuartoLineFacts(ht, t);
    ReemplazarWhole(CuartoLine(ht, t), 2, CuartoGroups(DigitsValue(ht), t));
  }

  /** The replacement of a `cuarto` span, through `normalizar_cuarto`. */
  lemma CuartoReplacement(span: string, h: nat, t: Tipo)
    ensures var r := NormalizarCuarto(h, t);
      Replacement(span, CuartoGroups(h, t)) == if r.Some? then Format(r.value) else span
  {
  }

  /**
    A line `H <quarter phrase>` becomes the quarter-resolved time when H is
    in 1..12 (so `5 menos cuarto` is `04:45` and `1 menos cuarto` is
    `12:45`), and is left as it is otherwise.
   */
  lemma ReemplazarCuartoLine(ht: string, t: Tipo)
    requires HourText(ht)
    ensures var r := NormalizarCuarto(DigitsValue(ht), t);
      Reemplazar(CuartoLine(ht, t)) == if r.Some? then Format(r.value) else CuartoLine(ht, t)
  {
    CuartoLineWhole(ht, t);
    CuartoReplacement(CuartoLine(ht, t), DigitsValue(ht), t);
  }

  // ---------------------------------------------------------------------
  // `H en punto`.

  function EnPuntoLine(ht: string): string {
    HourPhrase(ht, "en punto")
  }

  lemma EnPuntoLineMatches(ht: string)
    requires HourText(ht)
    ensures var s := EnPuntoLine(ht);
      && MatchCuartoPeriodo(s, 0).None? && MatchPeriodo(s, 0).None? && MatchCuarto(s, 0).None?
      && MatchHhmmAlt(s, 0).None? && MatchHhmm(s, 0).None?
      && MatchEnPunto(s, 0) == Some(Match(|s|, EnPuntoGroups(DigitsValue(ht))))
  {
    var s := EnPuntoLine(ht);
    var k := |ht|;
    assert Wordy("en punto");
    HourPhraseShape(ht, "en punto");
    HourPhraseNoClock(ht, "en punto");
    TipoAtNone(s, k + 1);
    PeriodoAtNone(s, k + 1);
    assert Match(k + 9, EnPuntoGroups(HourValue(s, 0, k))) == Match(|s|, EnPuntoGroups(DigitsValue(ht)));
    MatchEnPuntoComplete(s, 0, k);
  }

  /** Only `en_punto` matches at the start of the line, and it takes all of it. */
  lemma EnPuntoLineFacts(ht: string)
    requires HourText(ht)
    ensures var s := EnPuntoLine(ht);
      && QuietAfterStart(s)
      && Pattern(Order[0])(s, 0).None? && Pattern(Order[1])(s, 0).None? && Pattern(Order[2])(s, 0).None?
      && Pattern(Order[3])(s, 0) == Some(Match(|s|, EnPuntoGroups(DigitsValue(ht))))
      && Pattern(Order[4])(s, 0).None? && Pattern(Order[5])(s, 0).None?
  {
    assert Wordy("en punto");
    HourPhraseQuiet(ht, "en punto");
    HourPhraseNoClock(ht, "en punto");
    EnPuntoLineMatches(ht);
    OrderPatterns();
  }

  lemma EnPuntoLineWhole(ht: string)
    requires HourText(ht)
    ensures Reemplazar(EnPuntoLine(ht)) == Replacement(EnPuntoLine(ht), EnPuntoGroups(DigitsValue(ht)))
  {
    EnPuntoLineFacts(ht);
    ReemplazarWhole(EnPuntoLine(ht), 3, EnPuntoGroups(DigitsValue(ht)));
  }

  /** The replacement of an `en punto` span, through `normalizar_en_punto`. */
  lemma EnPuntoReplacement(span: string, h: nat)
    ensures var r := NormalizarEnPunto(h);
      Replacement(span, EnPuntoGroups(h)) == if r.Some? then Format(r.value) else span
  {
  }

  /** A line `H en punto` becomes `HH:00` for H in 1..12 and is left as it is otherwise. */
  lemma ReemplazarEnPuntoLine(ht: string)
    requires HourText(ht)
    ensures var r := NormalizarEnPunto(DigitsValue(ht));
      Reemplazar(EnPuntoLine(ht)) == if r.Some? then Format(r.value) else EnPuntoLine(ht)
  {
    EnPuntoLineWhole(ht);
    EnPuntoReplacement(EnPuntoLine(ht), DigitsValue(ht));
  }

  // ---------------------------------------------------------------------
  // `H y media de la tarde` and the other quarter+period lines.

  function CuartoPeriodoLine(ht: string, t: Tipo, p: Periodo): string {
    CuartoLine(ht, t) + (" " + Phrase(p))
  }

  /** Two wordy phrases joined by a space make one. */
  lemma JoinedWordy(w1: string, w2: string)
    requires Wordy(w1) && Wordy(w2)
    ensures Wordy(w1 + (" " + w2))
  {
    var w := w1 + (" " + w2);
    forall k | 0 <= k < |w| ensures !IsDigit(w[k]) {
      if k > |w1| {
        assert w[k] == w2[k - |w1| - 1];
      }
    }
    assert w[|w| - 1] == w2[|w2| - 1];
  }

  /** Where two phrases sit in `H <w1> <w2>`. */
  lemma TwoPhrasesShape(ht: string, w1: string, w2: string)
    requires HourText(ht) && Wordy(w1) && Wordy(w2)
    ensures var s := HourPhrase(ht, w1) + (" " + w2); var e := |HourPhrase(ht, w1)|;
      && HourAt(s, 0, |ht|) && WordBoundary(s, 0) && HourValue(s, 0, |ht|) == DigitsValue(ht)
      && CharAt(s, |ht|, ' ') && WordBoundary(s, |s|)
      && e == |ht| + 1 + |w1| && e < |s|
      && s[..e] == HourPhrase(ht, w1) && s[e..] == " " + w2
      && At(s, |ht| + 1, w1) && CharAt(s, e, ' ') && WordBoundary(s, e)
      && At(s, e + 1, w2) && e + 1 + |w2| == |s|
  {
    var s := HourPhrase(ht, w1) + (" " + w2);
    var c := HourPhrase(ht, w1);
    JoinedWordy(w1, w2);
    assert s == HourPhrase(ht, w1 + (" " + w2));
    HourPhraseShape(ht, w1 + (" " + w2));
    AtConcat(ht + " ", w1, " " + w2);
    assert (ht + " ") + w1 + (" " + w2) == s;
    AtConcat(c + " ", w2, "");
    assert (c + " ") + w2 + "" == s;
    assert s[|c| - 1] == w1[|w1| - 1];
  }

  /**
    Past its start `H <w1> <w2>` gives no pattern anything to match; at its
    start neither clock pattern matches, nor, when `w1` starts with neither
    `d` nor `e`, `periodo` or `en_punto`.
   */
  lemma TwoPhrasesQuiet(ht: string, w1: string, w2: string)
    requires HourText(ht) && Wordy(w1) && Wordy(w2)
    ensures var s := HourPhrase(ht, w1) + (" " + w2);
      && QuietAfterStart(s) && MatchHhmmAlt(s, 0).None? && MatchHhmm(s, 0).None?
      && (w1[0] != 'd' && w1[0] != 'e' ==> MatchPeriodo(s, 0).None? && MatchEnPunto(s, 0).None?)
  {
    var w := w1 + (" " + w2);
    JoinedWordy(w1, w2);
    assert HourPhrase(ht, w1) + (" " + w2) == HourPhrase(ht, w);
    HourPhraseQuiet(ht, w);
    HourPhraseNoClock(ht, w);
    if w1[0] != 'd' && w1[0] != 'e' {
      assert w[0] == w1[0];
      HourPhraseNoPeriodo(ht, w);
    }
  }

  /** Neither `periodo` nor `en_punto` matches a line `H <phrase>` whose phrase starts with neither `d` nor `e`. */
  lemma HourPhraseNoPeriodo(ht: string, w: string)
    requires HourText(ht) && Wordy(w) && w[0] != 'd' && w[0] != 'e'
    ensures MatchPeriodo(HourPhrase(ht, w), 0).None? && MatchEnPunto(HourPhrase(ht, w), 0).None?
  {
    var s := HourPhrase(ht, w);
    HourPhraseShape(ht, w);
    PeriodoAtNone(s, |ht| + 1);
    NotAtFirst(s, |ht| + 1, "en punto");
  }

  /** Where the phrases sit in the quarter+period line. */
  lemma CuartoPeriodoLineShape(ht: string, t: Tipo, p: Periodo)
    requires HourText(ht)
    ensures var s := CuartoPeriodoLine(ht, t, p); var e := |CuartoLine(ht, t)|;
      && HourAt(s, 0, |ht|) && WordBoundary(s, 0) && HourValue(s, 0, |ht|) == DigitsValue(ht)
      && CharAt(s, |ht|, ' ') && WordBoundary(s, |s|)
      && e == |ht| + 1 + |TipoPhrase(t)| && e < |s|
      && s[..e] == CuartoLine(ht, t) && s[e..] == " " + Phrase(p)
      && At(s, |ht| + 1, TipoPhrase(t)) && CharAt(s, e, ' ') && WordBoundary(s, e)
      && At(s, PeriodoStart(0, |ht|, t), Phrase(p)) && PeriodoStart(0, |ht|, t) + |Phrase(p)| == |s|
  {
    TipoWordy(t);
    PhraseWordy(p);
    TwoPhrasesShape(ht, TipoPhrase(t), Phrase(p));
  }

  /** Past its start the quarter+period line gives no pattern anything to match, and at its start only the two quarter patterns can. */
  lemma CuartoPeriodoLineQuiet(ht: string, t: Tipo, p: Periodo)
    requires HourText(ht)
    ensures var s := CuartoPeriodoLine(ht, t, p);
      && QuietAfterStart(s) && MatchHhmmAlt(s, 0).None? && MatchHhmm(s, 0).None?
      && MatchPeriodo(s, 0).None? && MatchEnPunto(s, 0).None?
  {
    TipoWordy(t);
    PhraseWordy(p);
    TwoPhrasesQuiet(ht, TipoPhrase(t), Phrase(p));
  }

  /** The quarter+period line is one `cuarto_periodo` span from end to end. */
  lemma CuartoPeriodoLineFits(ht: string, t: Tipo, p: Periodo)
    requires HourText(ht)
    ensures var s := CuartoPeriodoLine(ht, t, p);
      && CuartoPeriodoFits(s, 0, |ht|, t, p)
      && HourValue(s, 0, |ht|) == DigitsValue(ht) && PeriodoStart(0, |ht|, t) + |Phrase(p)| == |s|
  {
    CuartoPeriodoLineShape(ht, t, p);
  }

  /** A `cuarto_periodo` span covering all of `s` is the match found at its start. */
  lemma CuartoPeriodoWhole(s: string, k: nat, h: nat, t: Tipo, p: Periodo)
    requires CuartoPeriodoFits(s, 0, k, t, p)
    requires HourValue(s, 0, k) == h && PeriodoStart(0, k, t) + |Phrase(p)| == |s|
    ensures MatchCuartoPeriodo(s, 0) == Some(Match(|s|, CuartoPeriodoGroups(h, t, p)))
  {
    assert CuartoPeriodoMatchOf(s, 0, k, t, p) == Match(|s|, CuartoPeriodoGroups(h, t, p));
    MatchCuartoPeriodoComplete(s, 0, k, t, p);
  }

  lemma CuartoPeriodoLineWholeMatch(ht: string, t: Tipo, p: Periodo)
    requires HourText(ht)
    ensures var s := CuartoPeriodoLine(ht, t, p);
      MatchCuartoPeriodo(s, 0) == Some(Match(|s|, CuartoPeriodoGroups(DigitsValue(ht), t, p)))
  {
    CuartoPeriodoLineFits(ht, t, p);
    CuartoPeriodoWhole(CuartoPeriodoLine(ht, t, p), |ht|, DigitsValue(ht), t, p);
  }

  lemma CuartoPeriodoLineCuartoMatch(ht: string, t: Tipo, p: Periodo)
    requires HourText(ht)
    ensures var s := CuartoPeriodoLine(ht, t, p);
      MatchCuarto(s, 0) == Some(Match(|CuartoLine(ht, t)|, CuartoGroups(DigitsValue(ht), t)))
  {
    var s := CuartoPeriodoLine(ht, t, p);
    CuartoPeriodoLineShape(ht, t, p);
    assert CuartoFits(s, 0, |ht|, t);
    assert CuartoMatchOf(s, 0, |ht|, t) == Match(|CuartoLine(ht, t)|, CuartoGroups(DigitsValue(ht), t));
    MatchCuartoComplete(s, 0, |ht|, t);
  }

  /** `cuarto_periodo` matches all of the line; `cuarto` matches the part before the period phrase. */
  lemma CuartoPeriodoLineFacts(ht: string, t: Tipo, p: Periodo)
    requires HourText(ht)
    ensures var s := CuartoPeriodoLine(ht, t, p); var h := DigitsValue(ht);
      && QuietAfterStart(s)
      && Pattern(Order[0])(s, 0) == Some(Match(|s|, CuartoPeriodoGroups(h, t, p)))
      && KeptAt0(Order[1], s)
      && Pattern(Order[2])(s, 0) == Some(Match(|CuartoLine(ht, t)|, CuartoGroups(h, t)))
      && KeptAt0(Order[3], s) && KeptAt0(Order[4], s) && KeptAt0(Order[5], s)
  {
    CuartoPeriodoLineQuiet(ht, t, p);
    CuartoPeriodoLineWholeMatch(ht, t, p);
    CuartoPeriodoLineCuartoMatch(ht, t, p);
    OrderPatterns();
  }

  /** What follows the quarter in the line gives the last three patterns nothing to match. */
  lemma PeriodoTailQuiet(p: Periodo)
    ensures QuietTail(" " + Phrase(p))
  {
    var rest := " " + Phrase(p);
    PhraseShape(p);
    forall k | 0 <= k < |rest| ensures !IsDigit(rest[k]) {
      if k > 0 {
        assert rest[k] == Phrase(p)[k - 1];
      }
    }
  }

  /** When `normalizar_cuarto_periodo` resolves, the line becomes its replacement. */
  lemma CuartoPeriodoLineResolved(ht: string, t: Tipo, p: Periodo)
    requires HourText(ht) && Resolve(CuartoPeriodoGroups(DigitsValue(ht), t, p)).Some?
    ensures var s := CuartoPeriodoLine(ht, t, p);
      Reemplazar(s) == Replacement(s, CuartoPeriodoGroups(DigitsValue(ht), t, p))
  {
    CuartoPeriodoLineFacts(ht, t, p);
    ReemplazarWhole(CuartoPeriodoLine(ht, t, p), 0, CuartoPeriodoGroups(DigitsValue(ht), t, p));
  }

  /** When only `normalizar_cuarto` resolves, the quarter part is rewritten and the period phrase kept. */
  lemma CuartoPeriodoLineFallback(ht: string, t: Tipo, p: Periodo)
    requires HourText(ht)
    requires Resolve(CuartoPeriodoGroups(DigitsValue(ht), t, p)).None?
    requires Resolve(CuartoGroups(DigitsValue(ht), t)).Some?
    ensures Reemplazar(CuartoPeriodoLine(ht, t, p)) == Format(Resolve(CuartoGroups(DigitsValue(ht), t)).value) + (" " + Phrase(p))
  {
    var s := CuartoPeriodoLine(ht, t, p);
    var e := |CuartoLine(ht, t)|;
    CuartoPeriodoLineFacts(ht, t, p);
    assert KeptAt0(Order[0], s);
    PeriodoTailQuiet(p);
    assert s[e..] == " " + Phrase(p);
    ReemplazarTimeLead(s, 2, e, CuartoGroups(DigitsValue(ht), t));
  }

  /** When neither resolves, the line is left as it is. */
  lemma CuartoPeriodoLineKept(ht: string, t: Tipo, p: Periodo)
    requires HourText(ht)
    requires Resolve(CuartoPeriodoGroups(DigitsValue(ht), t, p)).None?
    requires Resolve(CuartoGroups(DigitsValue(ht), t)).None?
    ensures Reemplazar(CuartoPeriodoLine(ht, t, p)) == CuartoPeriodoLine(ht, t, p)
  {
    CuartoPeriodoLineFacts(ht, t, p);
    ReemplazarKept(CuartoPeriodoLine(ht, t, p));
  }

  /**
    A line `H <quarter phrase> <period phrase>` becomes the time
    `normalizar_cuarto_periodo` gives (`4 y media de la tarde` is `16:30`,
    `1 menos cuarto de la mañana` is `00:45`). When that resolver gives up
    but H is in 1..12, the `cuarto` sweep still rewrites the quarter part
    and leaves the period phrase after it; otherwise the line is unchanged.
   */
  lemma ReemplazarCuartoPeriodoLine(ht: string, t: Tipo, p: Periodo)
    requires HourText(ht)
    ensures var h := DigitsValue(ht);
      var r := NormalizarCuartoPeriodo(h, t, p); var q := NormalizarCuarto(h, t);
      Reemplazar(CuartoPeriodoLine(ht, t, p)) ==
        if r.Some? then Format(r.value)
        else if q.Some? then Format(q.value) + (" " + Phrase(p))
        else CuartoPeriodoLine(ht, t, p)
  {
    var h := DigitsValue(ht);
    if Resolve(CuartoPeriodoGroups(h, t, p)).Some? {
      CuartoPeriodoLineResolved(ht, t, p);
    } else if Resolve(CuartoGroups(h, t)).Some? {
      CuartoPeriodoLineFallback(ht, t, p);
    } else {
      CuartoPeriodoLineKept(ht, t, p);
    }
    CuartoPeriodoReplacement(CuartoPeriodoLine(ht, t, p), DigitsValue(ht), t, p);
  }

  /** The resolvers behind the two matches of the quarter+period line. */
  lemma CuartoPeriodoReplacement(span: string, h: nat, t: Tipo, p: Periodo)
    ensures Resolve(CuartoPeriodoGroups(h, t, p)) == NormalizarCuartoPeriodo(h, t, p)
    ensures Resolve(CuartoGroups(h, t)) == NormalizarCuarto(h, t)
    ensures var r := NormalizarCuartoPeriodo(h, t, p);
      r.Some? ==> Replacement(span, CuartoPeriodoGroups(h, t, p)) == Format(r.value)
  {
  }

  // ---------------------------------------------------------------------
  // `Hh` followed by other text, such as `7h de la mañana`.

  /** The line `Hh<rest>`. */
  function HourHLine(ht: string, rest: string): string {
    ht + ("h" + rest)
  }

  lemma HourHLineShape(ht: string, rest: string)
    requires HourText(ht) && PlainTail(rest)
    ensures var s := HourHLine(ht, rest); var k := |ht|;
      && NumberLead(s, k) && QuietAfterStart(s)
      && HourAt(s, 0, k) && WordBoundary(s, 0) && HourValue(s, 0, k) == DigitsValue(ht)
      && DigitRun(s, 0, 2) == k && s[k] == 'h' && s[k + 1..] == rest
      && (k + 1 < |s| ==> !IsWordChar(s[k + 1]))
  {
    var s := HourHLine(ht, rest);
    var tail := "h" + rest;
    forall k | 0 <= k < |tail| ensures !IsDigit(tail[k]) {
      if k > 0 {
        assert tail[k] == rest[k - 1];
      }
    }
    HourTextLead(ht, tail);
    NumberLeadQuiet(s, |ht|);
    assert s[|ht| + 1..] == rest;
  }

  lemma HourHLineMatches(ht: string, rest: string)
    requires HourText(ht) && PlainTail(rest)
    ensures var s := HourHLine(ht, rest);
      && HourSpace(s, 0) == 0
      && MatchHhmmAlt(s, 0) == Some(Match(|ht| + 1, HhmmAltGroups(DigitsValue(ht), None)))
      && MatchHhmm(s, 0).None?
  {
    var s := HourHLine(ht, rest);
    var k := |ht|;
    HourHLineShape(ht, rest);
    assert HhmmAltFits(s, 0, k, 0, 0);
    assert HhmmAltMatchOf(s, 0, k, 0, 0) == Match(|ht| + 1, HhmmAltGroups(DigitsValue(ht), None));
    MatchHhmmAltComplete(s, 0, k, 0, 0);
    // An `HH:MM` colon would sit one or two characters in, where the
    // hour's second digit or the `h` stands.
    assert s[k] == 'h';
    if k == 2 { assert DigitAt(s, 1); }
    if MatchHhmm(s, 0).Some? {
      MatchHhmmSound(s, 0);
    }
  }

  /** Only `hhmm_alt` matches at the start of the line, taking the hour and the `h`. */
  lemma HourHLineFacts(ht: string, rest: string)
    requires HourText(ht) && PlainTail(rest)
    ensures var s := HourHLine(ht, rest);
      && QuietAfterStart(s)
      && KeptAt0(Order[0], s) && KeptAt0(Order[1], s) && KeptAt0(Order[2], s) && KeptAt0(Order[3], s)
      && Pattern(Order[4])(s, 0) == Some(Match(|ht| + 1, HhmmAltGroups(DigitsValue(ht), None)))
      && KeptAt0(Order[5], s)
  {
    HourHLineShape(ht, rest);
    HourHLineMatches(ht, rest);
    OrderPatterns();
  }

  lemma HourHLineResolved(ht: string, rest: string)
    requires HourText(ht) && PlainTail(rest) && Resolve(HhmmAltGroups(DigitsValue(ht), None)).Some?
    ensures Reemplazar(HourHLine(ht, rest)) == Format(Resolve(HhmmAltGroups(DigitsValue(ht), None)).value) + rest
  {
    HourHLineFacts(ht, rest);
    HourHLineShape(ht, rest);
    ReemplazarTimeLead(HourHLine(ht, rest), 4, |ht| + 1, HhmmAltGroups(DigitsValue(ht), None));
  }

  lemma HourHLineKept(ht: string, rest: string)
    requires HourText(ht) && PlainTail(rest) && Resolve(HhmmAltGroups(DigitsValue(ht), None)).None?
    ensures Reemplazar(HourHLine(ht, rest)) == HourHLine(ht, rest)
  {
    HourHLineFacts(ht, rest);
    ReemplazarKept(HourHLine(ht, rest));
  }

  /**
    A line `Hh<rest>` becomes `HH:00<rest>` when H is at most 23 and is left
    as it is otherwise: the minutes default to 0, and the text after the `h`
    is kept (so `7h de la mañana` is `07:00 de la mañana`).
   */
  lemma ReemplazarHourHLine(ht: string, rest: string)
    requires HourText(ht) && PlainTail(rest)
    ensures var h := DigitsValue(ht);
      Reemplazar(HourHLine(ht, rest)) == if h <= 23 then Format(Time(h, 0)) + rest else HourHLine(ht, rest)
  {
    if DigitsValue(ht) <= 23 {
      HourHLineResolved(ht, rest);
    } else {
      HourHLineKept(ht, rest);
    }
  }

  // ---------------------------------------------------------------------
  // `HhM` and `HhMm`, such as `10h30m` and `17h5m`.

  /** The optional `m` after the minutes of `hhmm_alt`. */
  predicate MinuteMark(mark: string) {
    mark == "" || mark == "m"
  }

  /** The line `Hh<minutes><mark>`; the minute group `\d{1,2}` is written like the hour group. */
  function HourMinuteLine(ht: string, mt: string, mark: string): string {
    ht + ("h" + (mt + mark))
  }

  /** The characters of the line, position by position. */
  lemma HourMinuteLineChars(ht: string, mt: string, mark: string)
    requires HourText(ht) && HourText(mt) && MinuteMark(mark)
    ensures var s := HourMinuteLine(ht, mt, mark); var k := |ht|; var n := |mt|;
      && |s| == k + 1 + n + |mark| && s[k] == 'h'
      && (mark == "m" ==> s[k + 1 + n] == 'm')
      && DigitsBetween(s, 0, k) && DigitsBetween(s, k + 1, k + 1 + n)
      && s[0..k] == ht && s[k + 1..k + 1 + n] == mt
  {
    var s := HourMinuteLine(ht, mt, mark);
    var k := |ht|;
    var n := |mt|;
    forall j | 0 <= j < k ensures DigitAt(s, j) {
      assert s[j] == ht[j];
    }
    forall j | k + 1 <= j < k + 1 + n ensures DigitAt(s, j) {
      assert s[j] == mt[j - k - 1];
    }
    assert s[k] == 'h';
    if mark == "m" {
      assert s[k + 1 + n] == 'm';
    }
    assert s[0..k] == ht && s[k + 1..k + 1 + n] == mt;
  }

  /** The whole line is one span of `hhmm_alt`, cut after the hour digits and after the minute digits. */
  lemma HourMinuteLineFits(ht: string, mt: string, mark: string)
    requires HourText(ht) && HourText(mt) && MinuteMark(mark)
    ensures HhmmAltFits(HourMinuteLine(ht, mt, mark), 0, |ht|, |mt|, |mark|)
  {
    var s := HourMinuteLine(ht, mt, mark);
    HourMinuteLineChars(ht, mt, mark);
    assert DigitAt(s, 0) && DigitAt(s, |ht| + |mt|);
    assert IsWordChar(s[|s| - 1]);
  }

  lemma HourMinuteLineShape(ht: string, mt: string, mark: string)
    requires HourText(ht) && HourText(mt) && MinuteMark(mark)
    ensures var s := HourMinuteLine(ht, mt, mark); var k := |ht|; var n := |mt|;
      && |s| == k + 1 + n + |mark| && s[k] == 'h'
      && (mark == "m" ==> s[k + 1 + n] == 'm')
      && HhmmAltFits(s, 0, k, n, |mark|)
      && HourValue(s, 0, k) == DigitsValue(ht) && ValueBetween(s, k + 1, k + 1 + n) == DigitsValue(mt)
      && DigitRun(s, 0, 2) == k
  {
    var s := HourMinuteLine(ht, mt, mark);
    var k := |ht|;
    var n := |mt|;
    HourMinuteLineChars(ht, mt, mark);
    HourMinuteLineFits(ht, mt, mark);
    ValueBetweenSlice(s, 0, k);
    ValueBetweenSlice(s, k + 1, k + 1 + n);
    DigitRunTakes(s, 0, 2, k);
  }

  /** Past position 0 no pattern finds anything: every later digit follows a word character. */
  lemma HourMinuteLineNoMatchAt(ht: string, mt: string, mark: string, r: Rule, j: nat)
    requires HourText(ht) && HourText(mt) && MinuteMark(mark) && 1 <= j < |HourMinuteLine(ht, mt, mark)|
    ensures Pattern(r)(HourMinuteLine(ht, mt, mark), j).None?
  {
    var s := HourMinuteLine(ht, mt, mark);
    var k := |ht|;
    var n := |mt|;
    HourMinuteLineShape(ht, mt, mark);
    if j == k || j == k + 1 + n {
      assert !IsDigit(s[j]);
    } else if j < k {
      assert DigitAt(s, j - 1);
    } else {
      assert IsWordChar(s[j - 1]) && DigitAt(s, j);
    }
    NoMatchOffStart(Pattern(r), s, j);
  }

  /** Only `hhmm_alt` matches at the start of the line, and it takes all of it. */
  lemma HourMinuteLineFacts(ht: string, mt: string, mark: string)
    requires HourText(ht) && HourText(mt) && MinuteMark(mark)
    ensures var s := HourMinuteLine(ht, mt, mark);
      && QuietAfterStart(s)
      && Pattern(Order[0])(s, 0).None? && Pattern(Order[1])(s, 0).None?
      && Pattern(Order[2])(s, 0).None? && Pattern(Order[3])(s, 0).None?
      && Pattern(Order[4])(s, 0) == Some(Match(|s|, HhmmAltGroups(DigitsValue(ht), Some(DigitsValue(mt)))))
      && Pattern(Order[5])(s, 0).None?
  {
    var s := HourMinuteLine(ht, mt, mark);
    var k := |ht|;
    var n := |mt|;
    HourMinuteLineShape(ht, mt, mark);
    forall r: Rule, j | 1 <= j < |s| ensures Pattern(r)(s, j).None? {
      HourMinuteLineNoMatchAt(ht, mt, mark, r, j);
    }
    assert HourSpace(s, 0) == 0;
    assert HhmmAltMatchOf(s, 0, k, n, |mark|) == Match(|s|, HhmmAltGroups(DigitsValue(ht), Some(DigitsValue(mt))));
    MatchHhmmAltComplete(s, 0, k, n, |mark|);
    assert !CharAt(s, 1, ':') && !CharAt(s, 2, ':') by {
      if k == 2 {
        assert DigitAt(s, 1);
      } else {
        assert DigitAt(s, 2);
      }
    }
    HhmmNeedsColon(s, 0);
    OrderPatterns();
    assert MatchCuartoPeriodo(s, 0).None? && MatchPeriodo(s, 0).None?;
    assert MatchCuarto(s, 0).None? && MatchEnPunto(s, 0).None?;
  }

  /**
    A line `HhM`, `HhMM`, `HhMm` or `HhMMm` becomes the zero-padded `HH:MM`
    when it is a 24-hour reading (`17h5m` is `17:05`) and is left as it is
    otherwise.
   */
  lemma ReemplazarHourMinuteLine(ht: string, mt: string, mark: string)
    requires HourText(ht) && HourText(mt) && MinuteMark(mark)
    ensures var h := DigitsValue(ht); var m := DigitsValue(mt);
      Reemplazar(HourMinuteLine(ht, mt, mark)) ==
        if EsValidoHoraMin(h, m) then Format(Time(h, m)) else HourMinuteLine(ht, mt, mark)
  {
    var g := HhmmAltGroups(DigitsValue(ht), Some(DigitsValue(mt)));
    HourMinuteLineFacts(ht, mt, mark);
    ReemplazarWhole(HourMinuteLine(ht, mt, mark), 4, g);
  }

  // ---------------------------------------------------------------------
  // `H:MM` and `HH:MM`.

  /** The minute group as written: two digits. */
  predicate MinuteText(mt: string) {
    |mt| == 2 && AllDigits(mt)
  }

  function HhmmLine(ht: string, mt: string): string {
    ht + (":" + mt)
  }

  lemma HhmmLineShape(ht: string, mt: string)
    requires HourText(ht) && MinuteText(mt)
    ensures var s := HhmmLine(ht, mt); var k := |ht|;
      && |s| == k + 3 && s[k] == ':'
      && DigitsBetween(s, 0, k) && DigitsBetween(s, k + 1, k + 3)
      && ValueBetween(s, 0, k) == DigitsValue(ht) && ValueBetween(s, k + 1, k + 3) == DigitsValue(mt)
      && WordBoundary(s, 0) && WordBoundary(s, |s|)
      && DigitRun(s, 0, 2) == k
  {
    var s := HhmmLine(ht, mt);
    var k := |ht|;
    forall j | 0 <= j < k ensures DigitAt(s, j) {
      assert s[j] == ht[j];
    }
    forall j | k + 1 <= j < k + 3 ensures DigitAt(s, j) {
      assert s[j] == mt[j - k - 1];
    }
    assert DigitAt(s, 0) && DigitAt(s, k + 2);
    ValueBetweenSlice(s, 0, k);
    ValueBetweenSlice(s, k + 1, k + 3);
    assert s[0..k] == ht && s[k + 1..k + 3] == mt;
    DigitRunTakes(s, 0, 2, k);
  }

  /** Past position 0 no pattern finds anything in an `H:MM` line. */
  lemma HhmmLineNoMatchAt(ht: string, mt: string, r: Rule, j: nat)
    requires HourText(ht) && MinuteText(mt) && 1 <= j < |HhmmLine(ht, mt)|
    ensures Pattern(r)(HhmmLine(ht, mt), j).None?
  {
    var s := HhmmLine(ht, mt);
    var k := |ht|;
    HhmmLineShape(ht, mt);
    if j == k + 1 {
      DigitRunTakes(s, k + 1, 2, 2);
      assert HourSpace(s, j) == 0 && MatchHhmmAlt(s, j).None?;
      HhmmNeedsColon(s, j);
      match r
      case CuartoPeriodoRule => assert MatchCuartoPeriodo(s, j).None?;
      case PeriodoRule => assert MatchPeriodo(s, j).None?;
      case CuartoRule => assert MatchCuarto(s, j).None?;
      case EnPuntoRule => assert MatchEnPunto(s, j).None?;
      case HhmmAltRule =>
      case HhmmRule =>
    } else {
      if j == k {
        assert !IsDigit(s[j]);
      } else {
        assert DigitAt(s, j - 1) && DigitAt(s, j);
      }
      NoMatchOffStart(Pattern(r), s, j);
    }
  }

  /** At position 0 only `HH:MM` can match. */
  lemma HhmmLineOthers(ht: string, mt: string)
    requires HourText(ht) && MinuteText(mt)
    ensures var s := HhmmLine(ht, mt);
      && QuietAfterStart(s)
      && HourSpace(s, 0) == 0 && MatchHhmmAlt(s, 0).None?
  {
    var s := HhmmLine(ht, mt);
    HhmmLineShape(ht, mt);
    forall r: Rule, j | 1 <= j < |s| ensures Pattern(r)(s, j).None? {
      HhmmLineNoMatchAt(ht, mt, r, j);
    }
  }

  /** Whatever `HH:MM` finds at the start of the line is a 24-hour reading. */
  lemma HhmmLineMatchSound(ht: string, mt: string)
    requires HourText(ht) && MinuteText(mt) && MatchHhmm(HhmmLine(ht, mt), 0).Some?
    ensures EsValidoHoraMin(DigitsValue(ht), DigitsValue(mt))
  {
    var s := HhmmLine(ht, mt);
    var k := |ht|;
    HhmmLineShape(ht, mt);
    MatchHhmmSound(s, 0);
    var k': nat :| HhmmFits(s, 0, k') && MatchHhmm(s, 0).value == HhmmMatchOf(s, 0, k');
    assert k' == k;
    HhmmRange(s, 0, k);
  }

  /** `HH:MM` matches the whole line exactly when it is a 24-hour reading. */
  lemma HhmmLineMatch(ht: string, mt: string)
    requires HourText(ht) && MinuteText(mt)
    ensures var s := HhmmLine(ht, mt); var h := DigitsValue(ht); var m := DigitsValue(mt);
      && (EsValidoHoraMin(h, m) ==> MatchHhmm(s, 0) == Some(Match(|s|, HhmmGroups(h, m))))
      && (!EsValidoHoraMin(h, m) ==> MatchHhmm(s, 0).None?)
  {
    var s := HhmmLine(ht, mt);
    var k := |ht|;
    if EsValidoHoraMin(DigitsValue(ht), DigitsValue(mt)) {
      HhmmLineShape(ht, mt);
      ShortValueBetween(s, 0, k);
      ShortValueBetween(s, k + 1, k + 3);
      assert HhmmFits(s, 0, k);
      assert HhmmMatchOf(s, 0, k) == Match(|s|, HhmmGroups(DigitsValue(ht), DigitsValue(mt)));
      MatchHhmmComplete(s, 0, k);
    } else if MatchHhmm(s, 0).Some? {
      HhmmLineMatchSound(ht, mt);
    }
  }

  /**
    A line `H:MM` or `HH:MM` becomes the zero-padded `HH:MM` when it is a
    24-hour reading (`8:05` is `08:05`) and is left as it is otherwise
    (`25:99` stays).
   */
  lemma ReemplazarHhmmLine(ht: string, mt: string)
    requires HourText(ht) && MinuteText(mt)
    ensures var h := DigitsValue(ht); var m := DigitsValue(mt);
      Reemplazar(HhmmLine(ht, mt)) == if EsValidoHoraMin(h, m) then Format(Time(h, m)) else HhmmLine(ht, mt)
  {
    if EsValidoHoraMin(DigitsValue(ht), DigitsValue(mt)) {
      HhmmLineResolved(ht, mt);
    } else {
      HhmmLineKept(ht, mt);
    }
  }

  lemma HhmmLineFacts(ht: string, mt: string)
    requires HourText(ht) && MinuteText(mt)
    ensures var s := HhmmLine(ht, mt); var h := DigitsValue(ht); var m := DigitsValue(mt);
      && QuietAfterStart(s)
      && KeptAt0(Order[0], s) && KeptAt0(Order[1], s) && KeptAt0(Order[2], s)
      && KeptAt0(Order[3], s) && KeptAt0(Order[4], s)
      && (EsValidoHoraMin(h, m) ==> Pattern(Order[5])(s, 0) == Some(Match(|s|, HhmmGroups(h, m))))
      && (!EsValidoHoraMin(h, m) ==> KeptAt0(Order[5], s))
  {
    var s := HhmmLine(ht, mt);
    HhmmLineOthers(ht, mt);
    HhmmLineMatch(ht, mt);
    OrderPatterns();
    assert MatchCuartoPeriodo(s, 0).None? && MatchPeriodo(s, 0).None?;
    assert MatchCuarto(s, 0).None? && MatchEnPunto(s, 0).None?;
  }

  lemma HhmmLineResolved(ht: string, mt: string)
    requires HourText(ht) && MinuteText(mt) && EsValidoHoraMin(DigitsValue(ht), DigitsValue(mt))
    ensures Reemplazar(HhmmLine(ht, mt)) == Format(Time(DigitsValue(ht), DigitsValue(mt)))
  {
    var g := HhmmGroups(DigitsValue(ht), DigitsValue(mt));
    HhmmLineFacts(ht, mt);
    ReemplazarWhole(HhmmLine(ht, mt), 5, g);
    assert Resolve(g) == Some(Time(DigitsValue(ht), DigitsValue(mt)));
  }

  lemma HhmmLineKept(ht: string, mt: string)
    requires HourText(ht) && MinuteText(mt) && !EsValidoHoraMin(DigitsValue(ht), DigitsValue(mt))
    ensures Reemplazar(HhmmLine(ht, mt)) == HhmmLine(ht, mt)
  {
    HhmmLineFacts(ht, mt);
    ReemplazarKept(HhmmLine(ht, mt));
  }
}
