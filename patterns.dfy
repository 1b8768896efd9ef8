/**
  The six compiled patterns of `patrones` (horas.py:45-63) as matchers at a
  position. Each `MatchX(s, i)` answers what `pattern.match` answers when the
  search reaches position `i` of `s`: where the match ends and the groups it
  captured (digit groups already passed through `int()`).

  Each pattern also has a declarative reading `XFits`: a way to cut
  `s[i..e]` into the pieces the regex names. `MatchX` returns only spans that
  fit (its `ensures`), and `MatchXComplete` shows that every fitting cut is
  the one `MatchX` returns. So a pattern admits at most one span at a given
  start, and the backtracking order of the regex engine cannot change the
  result.
 */
module Patterns {
  import opened Wrappers
  import opened Text
  import opened Periods
  import opened Resolvers

  /** The groups of one match. */
  datatype Groups =
    | HhmmGroups(hour: nat, minute: nat)
    | HhmmAltGroups(hour: nat, optMinute: Option<nat>)
    | EnPuntoGroups(hour: nat)
    | CuartoGroups(hour: nat, tipo: Tipo)
    | PeriodoGroups(hour: nat, periodo: Periodo)
    | CuartoPeriodoGroups(hour: nat, tipo: Tipo, periodo: Periodo)

  /** A match that starts at the position tried: the position right after it and its groups. */
  datatype Match = Match(end: nat, groups: Groups)

  /** `\d{1,2}` fits `s[i..i + k]`. */
  predicate HourAt(s: string, i: nat, k: nat) {
    1 <= k <= 2 && DigitsBetween(s, i, i + k)
  }

  /** `int()` of the hour group `s[i..i + k]`. */
  function HourValue(s: string, i: nat, k: nat): (h: nat)
    requires HourAt(s, i, k)
    ensures h <= 99
  {
    ShortValueBetween(s, i, i + k);
    ValueBetween(s, i, i + k)
  }

  // ---------------------------------------------------------------------
  // The phrase alternations.

  /** `(y media|y cuarto|menos cuarto)` at position `j`, tried in that order. */
  function TipoAt(s: string, j: nat): (r: Option<Tipo>)
    ensures r.Some? ==> At(s, j, TipoPhrase(r.value))
  {
    if At(s, j, "y media") then Some(YMedia)
    else if At(s, j, "y cuarto") then Some(YCuarto)
    else if At(s, j, "menos cuarto") then Some(MenosCuarto)
    else None
  }

  /** No quarter phrase starts where another one does, so whichever one is present is the one found. */
  lemma TipoAtComplete(s: string, j: nat, t: Tipo)
    requires At(s, j, TipoPhrase(t))
    ensures TipoAt(s, j) == Some(t)
  {
    AtIndex(s, j, TipoPhrase(t), 0);
    AtIndex(s, j, TipoPhrase(t), 2);
    if At(s, j, "y media") { AtIndex(s, j, "y media", 2); }
    if At(s, j, "y cuarto") { AtIndex(s, j, "y cuarto", 2); }
  }

  /** Every quarter phrase starts with `y` or `m`. */
  lemma TipoAtNone(s: string, j: nat)
    requires j < |s| && s[j] != 'y' && s[j] != 'm'
    ensures TipoAt(s, j).None?
  {
    NotAtFirst(s, j, "y media");
    NotAtFirst(s, j, "y cuarto");
    NotAtFirst(s, j, "menos cuarto");
  }

  /** `(de la mañana|del mediodía|de la tarde|de la noche|de la madrugada)` at position `j`, tried in that order. */
  function PeriodoAt(s: string, j: nat): (r: Option<Periodo>)
    ensures r.Some? ==> At(s, j, Phrase(r.value))
  {
    if At(s, j, "de la mañana") then Some(Manana)
    else if At(s, j, "del mediodía") then Some(Mediodia)
    else if At(s, j, "de la tarde") then Some(Tarde)
    else if At(s, j, "de la noche") then Some(Noche)
    else if At(s, j, "de la madrugada") then Some(Madrugada)
    else None
  }

  /** No period phrase starts where another one does, so whichever one is present is the one found. */
  lemma PeriodoAtComplete(s: string, j: nat, p: Periodo)
    requires At(s, j, Phrase(p))
    ensures PeriodoAt(s, j) == Some(p)
  {
    var w := Phrase(p);
    AtIndex(s, j, w, 2);
    AtIndex(s, j, w, 6);
    AtIndex(s, j, w, 8);
    if At(s, j, "de la mañana") { AtIndex(s, j, "de la mañana", 6); AtIndex(s, j, "de la mañana", 8); }
    if At(s, j, "del mediodía") { AtIndex(s, j, "del mediodía", 2); }
    if At(s, j, "de la tarde") { AtIndex(s, j, "de la tarde", 6); }
    if At(s, j, "de la noche") { AtIndex(s, j, "de la noche", 6); }
  }

  /** Every period phrase starts with `d`. */
  lemma PeriodoAtNone(s: string, j: nat)
    requires j < |s| && s[j] != 'd'
    ensures PeriodoAt(s, j).None?
  {
    NotAtFirst(s, j, "de la mañana");
    NotAtFirst(s, j, "del mediodía");
    NotAtFirst(s, j, "de la tarde");
    NotAtFirst(s, j, "de la noche");
    NotAtFirst(s, j, "de la madrugada");
  }

  /** A period phrase at `j` followed by `\b`: the phrase that ends every pattern naming a period. */
  function PeriodoEnd(s: string, j: nat): (r: Option<Periodo>)
    ensures r.Some? ==> At(s, j, Phrase(r.value)) && WordBoundary(s, j + |Phrase(r.value)|)
  {
    match PeriodoAt(s, j)
    case None => None
    case Some(p) => if WordBoundary(s, j + |Phrase(p)|) then Some(p) else None
  }

  lemma PeriodoEndComplete(s: string, j: nat, p: Periodo)
    requires At(s, j, Phrase(p)) && WordBoundary(s, j + |Phrase(p)|)
    ensures PeriodoEnd(s, j) == Some(p)
  {
    PeriodoAtComplete(s, j, p);
  }

  // ---------------------------------------------------------------------
  // 'hhmm': \b([01]?\d|2[0-3]):([0-5]\d)\b   (horas.py:47)

  /** The hour group `[01]?\d|2[0-3]` fits the `k` characters at `i`. */
  predicate HhmmHourAt(s: string, i: nat, k: nat) {
    && i + k <= |s|
    && (|| (k == 1 && IsDigit(s[i]))
        || (k == 2 && (s[i] == '0' || s[i] == '1') && IsDigit(s[i + 1]))
        || (k == 2 && s[i] == '2' && '0' <= s[i + 1] <= '3'))
  }

  predicate HhmmFits(s: string, i: nat, k: nat) {
    && i + k + 3 <= |s|
    && WordBoundary(s, i)
    && HhmmHourAt(s, i, k)
    && s[i + k] == ':'
    && '0' <= s[i + k + 1] <= '5' && IsDigit(s[i + k + 2])
    && WordBoundary(s, i + k + 3)
  }

  function HhmmMatchOf(s: string, i: nat, k: nat): Match
    requires HhmmFits(s, i, k)
  {
    Match(i + k + 3, HhmmGroups(ValueBetween(s, i, i + k), ValueBetween(s, i + k + 1, i + k + 3)))
  }

  /** `:([0-5]\d)\b` after an hour group of `k` characters. */
  function HhmmTail(s: string, i: nat, k: nat): Option<Match>
    requires DigitsBetween(s, i, i + k)
  {
    var c := i + k;
    if c + 3 <= |s| && s[c] == ':' && '0' <= s[c + 1] <= '5' && IsDigit(s[c + 2]) && WordBoundary(s, c + 3)
    then Some(Match(c + 3, HhmmGroups(ValueBetween(s, i, c), ValueBetween(s, c + 1, c + 3))))
    else None
  }

  /**
    The alternatives of the hour group in the regex's order: `[01]\d`, then
    `\d`, then `2[0-3]`. Whatever it matches is a 24-hour reading.
   */
  function MatchHhmm(s: string, i: nat): (r: Option<Match>)
    ensures r.Some? ==> i < r.value.end <= |s| && IsDigit(s[i]) && WordBoundary(s, i)
    ensures r.Some? ==> r.value.groups.HhmmGroups? && r.value.groups.hour <= 23 && r.value.groups.minute <= 59
  {
    if i >= |s| || !WordBoundary(s, i) then None
    else if i + 2 <= |s| && (s[i] == '0' || s[i] == '1') && IsDigit(s[i + 1]) && HhmmTail(s, i, 2).Some? then
      HhmmRange(s, i, 2);
      HhmmTail(s, i, 2)
    else if IsDigit(s[i]) && HhmmTail(s, i, 1).Some? then
      HhmmRange(s, i, 1);
      HhmmTail(s, i, 1)
    else if i + 2 <= |s| && s[i] == '2' && '0' <= s[i + 1] <= '3' && HhmmTail(s, i, 2).Some? then
      HhmmRange(s, i, 2);
      HhmmTail(s, i, 2)
    else None
  }

  /** The captures of a fitting `HH:MM` span are at most 23 and 59. */
  lemma HhmmRange(s: string, i: nat, k: nat)
    requires HhmmFits(s, i, k)
    ensures HhmmTail(s, i, k) == Some(HhmmMatchOf(s, i, k))
    ensures ValueBetween(s, i, i + k) <= 23 && ValueBetween(s, i + k + 1, i + k + 3) <= 59
  {
    ShortValueBetween(s, i, i + k);
    ShortValueBetween(s, i + k + 1, i + k + 3);
  }

  lemma MatchHhmmComplete(s: string, i: nat, k: nat)
    requires HhmmFits(s, i, k)
    ensures MatchHhmm(s, i) == Some(HhmmMatchOf(s, i, k))
  {
    HhmmRange(s, i, k);
  }
  /** Without a ':' one or two characters in, no `HH:MM` span starts at `i`. */
  lemma HhmmNeedsColon(s: string, i: nat)
    requires !CharAt(s, i + 1, ':') && !CharAt(s, i + 2, ':')
    ensures MatchHhmm(s, i).None?
  {
    if MatchHhmm(s, i).Some? {
      MatchHhmmSound(s, i);
    }
  }

  /** Whatever `MatchHhmm` returns is a span the regex admits. */
  lemma MatchHhmmSound(s: string, i: nat)
    requires MatchHhmm(s, i).Some?
    ensures exists k :: HhmmFits(s, i, k) && MatchHhmm(s, i).value == HhmmMatchOf(s, i, k)
  {
    var k :=
      if i + 2 <= |s| && (s[i] == '0' || s[i] == '1') && IsDigit(s[i + 1]) && HhmmTail(s, i, 2).Some? then 2
      else if IsDigit(s[i]) && HhmmTail(s, i, 1).Some? then 1
      else 2;
    assert HhmmHourAt(s, i, k);
    HhmmRange(s, i, k);
  }


  // ---------------------------------------------------------------------
  // 'hhmm_alt': \b(\d{1,2})h(\d{1,2})?m?\b   (horas.py:50)

  /** `(\d{1,2})h(\d{0,2})`: `k` hour digits, the `h`, then `n` minute digits (0 when the group is absent). */
  predicate HhmmAltDigits(s: string, i: nat, k: nat, n: nat) {
    && HourAt(s, i, k)
    && CharAt(s, i + k, 'h')
    && n <= 2 && DigitsBetween(s, i + k + 1, i + k + 1 + n)
  }

  /** The whole pattern, with `mm` = 1 when the optional `m` is there. */
  predicate HhmmAltFits(s: string, i: nat, k: nat, n: nat, mm: nat) {
    && HhmmAltDigits(s, i, k, n)
    && WordBoundary(s, i)
    && mm <= 1 && (mm == 1 ==> CharAt(s, i + k + 1 + n, 'm'))
    && i + k + 1 + n + mm <= |s|
    && WordBoundary(s, i + k + 1 + n + mm)
  }

  function HhmmAltMatchOf(s: string, i: nat, k: nat, n: nat, mm: nat): Match
    requires HhmmAltDigits(s, i, k, n)
  {
    var j := i + k + 1;
    Match(j + n + mm, HhmmAltGroups(HourValue(s, i, k), if n == 0 then None else Some(ValueBetween(s, j, j + n))))
  }

  /** Greedy: the most hour digits, the most minute digits, the `m` when present; then `\b`. */
  function MatchHhmmAlt(s: string, i: nat): (r: Option<Match>)
    ensures r.Some? ==> i < r.value.end <= |s| && IsDigit(s[i]) && WordBoundary(s, i)
  {
    if i >= |s| || !WordBoundary(s, i) then None
    else
      var k := DigitRun(s, i, 2);
      if k == 0 || !CharAt(s, i + k, 'h') then None
      else
        var j := i + k + 1;
        var n := DigitRun(s, j, 2);
        var mm := if CharAt(s, j + n, 'm') then 1 else 0;
        if WordBoundary(s, j + n + mm) then
          Some(HhmmAltMatchOf(s, i, k, n, mm))
        else None
  }

  /** Backing off a digit or the `m` only leaves a word character after the span, so the greedy cut is the only one. */
  lemma MatchHhmmAltComplete(s: string, i: nat, k: nat, n: nat, mm: nat)
    requires HhmmAltFits(s, i, k, n, mm)
    ensures MatchHhmmAlt(s, i) == Some(HhmmAltMatchOf(s, i, k, n, mm))
  {
    var j := i + k + 1;
    DigitRunTakes(s, i, 2, k);
    // The character before `s[j + n]` is a word character: a minute digit or the `h`.
    if n > 0 {
      assert DigitAt(s, j + n - 1);
    }
    assert IsWordChar(s[j + n - 1]);
    if mm == 0 {
      assert !(j + n < |s| && IsWordChar(s[j + n]));
    }
    assert CharAt(s, j + n, 'm') <==> mm == 1;
    DigitRunTakes(s, j, 2, n);
  }
  /** Whatever `MatchHhmmAlt` returns is a span the regex admits. */
  lemma MatchHhmmAltSound(s: string, i: nat)
    requires MatchHhmmAlt(s, i).Some?
    ensures exists k, n, mm :: HhmmAltFits(s, i, k, n, mm) && MatchHhmmAlt(s, i).value == HhmmAltMatchOf(s, i, k, n, mm)
  {
    var k := DigitRun(s, i, 2);
    var n := DigitRun(s, i + k + 1, 2);
    var mm := if CharAt(s, i + k + 1 + n, 'm') then 1 else 0;
    assert HhmmAltFits(s, i, k, n, mm);
  }


  // ---------------------------------------------------------------------
  // The four patterns that start `\b(\d{1,2}) ` and go on with literal phrases.

  /** `\b(\d{1,2}) ` at position `i`: the number of hour digits, or 0 when this prefix is not there. */
  function HourSpace(s: string, i: nat): (k: nat)
    ensures k > 0 ==> HourAt(s, i, k) && WordBoundary(s, i) && CharAt(s, i + k, ' ') && IsDigit(s[i])
  {
    if i >= |s| || !WordBoundary(s, i) then 0
    else
      var k := DigitRun(s, i, 2);
      if k > 0 && CharAt(s, i + k, ' ') then
        k
      else 0
  }

  /** A space after the hour digits ends the digit run, so the prefix is found with exactly those digits. */
  lemma HourSpaceComplete(s: string, i: nat, k: nat)
    requires HourAt(s, i, k) && WordBoundary(s, i) && CharAt(s, i + k, ' ')
    ensures HourSpace(s, i) == k
  {
    DigitRunTakes(s, i, 2, k);
  }

  // ---------------------------------------------------------------------
  // 'en_punto': \b(\d{1,2}) en punto\b   (horas.py:53)

  predicate EnPuntoFits(s: string, i: nat, k: nat) {
    && HourAt(s, i, k)
    && WordBoundary(s, i)
    && CharAt(s, i + k, ' ')
    && At(s, i + k + 1, "en punto")
    && WordBoundary(s, i + k + 9)
  }

  function MatchEnPunto(s: string, i: nat): (r: Option<Match>)
    ensures r.Some? ==> i < r.value.end <= |s| && IsDigit(s[i]) && WordBoundary(s, i)
  {
    var k := HourSpace(s, i);
    if k > 0 && At(s, i + k + 1, "en punto") && WordBoundary(s, i + k + 9) then
      Some(Match(i + k + 9, EnPuntoGroups(HourValue(s, i, k))))
    else None
  }

  lemma MatchEnPuntoComplete(s: string, i: nat, k: nat)
    requires EnPuntoFits(s, i, k)
    ensures MatchEnPunto(s, i) == Some(Match(i + k + 9, EnPuntoGroups(HourValue(s, i, k))))
  {
    HourSpaceComplete(s, i, k);
  }
  /** Whatever `MatchEnPunto` returns is a span the regex admits. */
  lemma MatchEnPuntoSound(s: string, i: nat)
    requires MatchEnPunto(s, i).Some?
    ensures exists k :: EnPuntoFits(s, i, k) && MatchEnPunto(s, i).value == Match(i + k + 9, EnPuntoGroups(HourValue(s, i, k)))
  {
    assert EnPuntoFits(s, i, HourSpace(s, i));
  }


  // ---------------------------------------------------------------------
  // 'cuarto': \b(\d{1,2}) (y media|y cuarto|menos cuarto)\b   (horas.py:56)

  predicate CuartoFits(s: string, i: nat, k: nat, t: Tipo) {
    && HourAt(s, i, k)
    && WordBoundary(s, i)
    && CharAt(s, i + k, ' ')
    && At(s, i + k + 1, TipoPhrase(t))
    && WordBoundary(s, i + k + 1 + |TipoPhrase(t)|)
  }

  function CuartoMatchOf(s: string, i: nat, k: nat, t: Tipo): Match
    requires CuartoFits(s, i, k, t)
  {
    Match(i + k + 1 + |TipoPhrase(t)|, CuartoGroups(HourValue(s, i, k), t))
  }

  function MatchCuarto(s: string, i: nat): (r: Option<Match>)
    ensures r.Some? ==> i < r.value.end <= |s| && IsDigit(s[i]) && WordBoundary(s, i)
  {
    var k := HourSpace(s, i);
    if k == 0 then None
    else
      match TipoAt(s, i + k + 1)
      case None => None
      case Some(t) =>
        if WordBoundary(s, i + k + 1 + |TipoPhrase(t)|) then
          Some(CuartoMatchOf(s, i, k, t))
        else None
  }

  lemma MatchCuartoComplete(s: string, i: nat, k: nat, t: Tipo)
    requires CuartoFits(s, i, k, t)
    ensures MatchCuarto(s, i) == Some(CuartoMatchOf(s, i, k, t))
  {
    HourSpaceComplete(s, i, k);
    TipoAtComplete(s, i + k + 1, t);
    assert HourSpace(s, i) == k;
    assert TipoAt(s, i + k + 1) == Some(t);
    assert WordBoundary(s, i + k + 1 + |TipoPhrase(t)|);
  }
  /** Whatever `MatchCuarto` returns is a span the regex admits. */
  lemma MatchCuartoSound(s: string, i: nat)
    requires MatchCuarto(s, i).Some?
    ensures exists k, t :: CuartoFits(s, i, k, t) && MatchCuarto(s, i).value == CuartoMatchOf(s, i, k, t)
  {
    var k := HourSpace(s, i);
    var t := TipoAt(s, i + k + 1).value;
    CuartoFitsFound(s, i, k, t);
    MatchCuartoComplete(s, i, k, t);
  }

  lemma CuartoFitsFound(s: string, i: nat, k: nat, t: Tipo)
    requires k == HourSpace(s, i) && k > 0 && TipoAt(s, i + k + 1) == Some(t)
    requires WordBoundary(s, i + k + 1 + |TipoPhrase(t)|)
    ensures CuartoFits(s, i, k, t)
  {
  }


  // ---------------------------------------------------------------------
  // 'periodo': \b(\d{1,2}) (de la mañana|del mediodía|de la tarde|de la noche|de la madrugada)\b   (horas.py:59)

  predicate PeriodoFits(s: string, i: nat, k: nat, p: Periodo) {
    && HourAt(s, i, k)
    && WordBoundary(s, i)
    && CharAt(s, i + k, ' ')
    && At(s, i + k + 1, Phrase(p))
    && WordBoundary(s, i + k + 1 + |Phrase(p)|)
  }

  function PeriodoMatchOf(s: string, i: nat, k: nat, p: Periodo): Match
    requires PeriodoFits(s, i, k, p)
  {
    Match(i + k + 1 + |Phrase(p)|, PeriodoGroups(HourValue(s, i, k), p))
  }

  function MatchPeriodo(s: string, i: nat): (r: Option<Match>)
    ensures r.Some? ==> i < r.value.end <= |s| && IsDigit(s[i]) && WordBoundary(s, i)
  {
    var k := HourSpace(s, i);
    if k == 0 then None
    else
      match PeriodoEnd(s, i + k + 1)
      case None => None
      case Some(p) => Some(PeriodoMatchOf(s, i, k, p))
  }

  lemma MatchPeriodoComplete(s: string, i: nat, k: nat, p: Periodo)
    requires PeriodoFits(s, i, k, p)
    ensures MatchPeriodo(s, i) == Some(PeriodoMatchOf(s, i, k, p))
  {
    HourSpaceComplete(s, i, k);
    PeriodoEndComplete(s, i + k + 1, p);
  }
  /** Whatever `MatchPeriodo` returns is a span the regex admits. */
  lemma MatchPeriodoSound(s: string, i: nat)
    requires MatchPeriodo(s, i).Some?
    ensures exists k, p :: PeriodoFits(s, i, k, p) && MatchPeriodo(s, i).value == PeriodoMatchOf(s, i, k, p)
  {
    var k := HourSpace(s, i);
    var p := PeriodoEnd(s, i + k + 1).value;
    PeriodoFitsFound(s, i, k, p);
    MatchPeriodoComplete(s, i, k, p);
  }

  lemma PeriodoFitsFound(s: string, i: nat, k: nat, p: Periodo)
    requires k == HourSpace(s, i) && k > 0 && PeriodoEnd(s, i + k + 1) == Some(p)
    ensures PeriodoFits(s, i, k, p)
  {
  }


  // ---------------------------------------------------------------------
  // 'cuarto_periodo': \b(\d{1,2}) (y media|y cuarto|menos cuarto) (de la mañana|...|de la madrugada)\b   (horas.py:62)

  /** Where the period phrase starts in a quarter+period span with `k` hour digits and quarter `t`. */
  function PeriodoStart(i: nat, k: nat, t: Tipo): nat {
    i + k + 1 + |TipoPhrase(t)| + 1
  }

  predicate CuartoPeriodoFits(s: string, i: nat, k: nat, t: Tipo, p: Periodo) {
    && HourAt(s, i, k)
    && WordBoundary(s, i)
    && CharAt(s, i + k, ' ')
    && At(s, i + k + 1, TipoPhrase(t))
    && CharAt(s, i + k + 1 + |TipoPhrase(t)|, ' ')
    && At(s, PeriodoStart(i, k, t), Phrase(p))
    && WordBoundary(s, PeriodoStart(i, k, t) + |Phrase(p)|)
  }

  function CuartoPeriodoMatchOf(s: string, i: nat, k: nat, t: Tipo, p: Periodo): Match
    requires CuartoPeriodoFits(s, i, k, t, p)
  {
    Match(PeriodoStart(i, k, t) + |Phrase(p)|, CuartoPeriodoGroups(HourValue(s, i, k), t, p))
  }

  function MatchCuartoPeriodo(s: string, i: nat): (r: Option<Match>)
    ensures r.Some? ==> i < r.value.end <= |s| && IsDigit(s[i]) && WordBoundary(s, i)
  {
    var k := HourSpace(s, i);
    if k == 0 then None
    else
      match TipoAt(s, i + k + 1)
      case None => None
      case Some(t) =>
        if !CharAt(s, i + k + 1 + |TipoPhrase(t)|, ' ') then None
        else
          match PeriodoEnd(s, PeriodoStart(i, k, t))
          case None => None
          case Some(p) => Some(CuartoPeriodoMatchOf(s, i, k, t, p))
  }

  lemma MatchCuartoPeriodoComplete(s: string, i: nat, k: nat, t: Tipo, p: Periodo)
    requires CuartoPeriodoFits(s, i, k, t, p)
    ensures MatchCuartoPeriodo(s, i) == Some(CuartoPeriodoMatchOf(s, i, k, t, p))
  {
    var j := PeriodoStart(i, k, t);
    assert At(s, i + k + 1, TipoPhrase(t)) && At(s, j, Phrase(p)) && WordBoundary(s, j + |Phrase(p)|);
    HourSpaceComplete(s, i, k);
    TipoAtComplete(s, i + k + 1, t);
    PeriodoEndComplete(s, j, p);
    MatchCuartoPeriodoFound(s, i, k, t, p);
  }
  /** Whatever `MatchCuartoPeriodo` returns is a span the regex admits. */
  lemma MatchCuartoPeriodoSound(s: string, i: nat)
    requires MatchCuartoPeriodo(s, i).Some?
    ensures exists k, t, p :: CuartoPeriodoFits(s, i, k, t, p) && MatchCuartoPeriodo(s, i).value == CuartoPeriodoMatchOf(s, i, k, t, p)
  {
    var k := HourSpace(s, i);
    var t := TipoAt(s, i + k + 1).value;
    var p := PeriodoEnd(s, PeriodoStart(i, k, t)).value;
    CuartoPeriodoFitsFound(s, i, k, t, p);
    MatchCuartoPeriodoFound(s, i, k, t, p);
  }

  lemma CuartoPeriodoFitsFound(s: string, i: nat, k: nat, t: Tipo, p: Periodo)
    requires k == HourSpace(s, i) && k > 0 && TipoAt(s, i + k + 1) == Some(t)
    requires CharAt(s, i + k + 1 + |TipoPhrase(t)|, ' ') && PeriodoEnd(s, PeriodoStart(i, k, t)) == Some(p)
    ensures CuartoPeriodoFits(s, i, k, t, p)
  {
  }

  lemma MatchCuartoPeriodoFound(s: string, i: nat, k: nat, t: Tipo, p: Periodo)
    requires k == HourSpace(s, i) && k > 0 && TipoAt(s, i + k + 1) == Some(t)
    requires CharAt(s, i + k + 1 + |TipoPhrase(t)|, ' ') && PeriodoEnd(s, PeriodoStart(i, k, t)) == Some(p)
    requires CuartoPeriodoFits(s, i, k, t, p)
    ensures MatchCuartoPeriodo(s, i) == Some(CuartoPeriodoMatchOf(s, i, k, t, p))
  {
  }
}
