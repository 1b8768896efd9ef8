/**
  The six resolvers `normalizar_*` (horas.py:71-160). Each takes the groups
  one pattern captured and gives the time to write, or `None` when the span
  must be left as it is (the source returns `match.group(0)` there).
 */
module Resolvers {
  import opened Wrappers
  import opened Clock
  import opened Periods

  /** The quarter phrase captured as `tipo`. */
  datatype Tipo = YMedia | YCuarto | MenosCuarto

  function TipoPhrase(t: Tipo): string {
    match t
    case YMedia => "y media"
    case YCuarto => "y cuarto"
    case MenosCuarto => "menos cuarto"
  }

  /** How far a quarter phrase moves the clock from `H` o'clock, in minutes. */
  function TipoOffset(t: Tipo): int {
    match t
    case YMedia => 30
    case YCuarto => 15
    case MenosCuarto => -15
  }

  /** Position of a time on the 12-hour dial, in minutes past 12 o'clock. */
  function DialMinutes(t: Time): nat {
    (t.hour * 60 + t.minute) % 720
  }

  /**
    The `tipo` branch shared by `normalizar_cuarto` and
    `normalizar_cuarto_periodo`: `H y media` is H:30, `H y cuarto` H:15, and
    `H menos cuarto` is (H-1):45 with hour 0 shown as 12. Stated on the dial:
    the result is the dial position `H` o'clock moved by the phrase's offset.
   */
  function ApplyTipo(h: nat, t: Tipo): (r: Time)
    requires EsValidoHora12(h)
    ensures EsValidoHora12(r.hour) && r.minute <= 59
    ensures DialMinutes(r) == (h * 60 + TipoOffset(t)) % 720
  {
    match t
    case YMedia => Time(h, 30)
    case YCuarto => Time(h, 15)
    case MenosCuarto => Time(if h - 1 == 0 then 12 else h - 1, 45)
  }

  /** On the dial, 12 o'clock is position 0. */
  lemma DialOfReading(t: Time)
    requires EsValidoHora12(t.hour) && t.minute <= 59
    ensures DialMinutes(t) == (if t.hour == 12 then 0 else t.hour) * 60 + t.minute
  {
    if t.hour == 12 {
      assert t.hour * 60 + t.minute == 720 + t.minute;
    }
  }

  /** Hours and minutes are recovered from minutes past the hour count. */
  lemma ReadingOfMinutes(h: nat, m: nat)
    requires m < 60
    ensures (h * 60 + m) / 60 == h && (h * 60 + m) % 60 == m
  {
  }

  /** Hours twelve apart share a dial position. */
  lemma SameHourOnDial(a: nat, b: nat, m: nat)
    requires a % 12 == b % 12
    ensures DialMinutes(Time(a, m)) == DialMinutes(Time(b, m))
  {
    var x := b * 60 + m;
    var d := a / 12 - b / 12;
    assert a * 60 + m == x + 720 * d;
    assert x == 720 * (x / 720) + x % 720;
    assert x + 720 * d == 720 * (x / 720 + d) + x % 720;
  }

  /** A 12-hour dial reading with hour in 1..12 is fixed by its dial position. */
  lemma DialFixesTime(a: Time, b: Time)
    requires EsValidoHora12(a.hour) && a.minute <= 59
    requires EsValidoHora12(b.hour) && b.minute <= 59
    requires DialMinutes(a) == DialMinutes(b)
    ensures a == b
  {
    DialOfReading(a);
    DialOfReading(b);
    ReadingOfMinutes(if a.hour == 12 then 0 else a.hour, a.minute);
    ReadingOfMinutes(if b.hour == 12 then 0 else b.hour, b.minute);
  }

  /** `normalizar_hhmm`: `HH:MM` is kept, zero-padded, exactly when it is a 24-hour reading. */
  function NormalizarHhmm(h: nat, m: nat): (r: Option<Time>)
    ensures r.Some? <==> EsValidoHoraMin(h, m)
    ensures r.Some? ==> r.value == Time(h, m)
  {
    if EsValidoHoraMin(h, m) then Some(Time(h, m)) else None
  }

  /** `normalizar_hhmm_alt`: `Hh[M][m]`, with minutes 0 when the minute group is absent. */
  function NormalizarHhmmAlt(h: nat, m: Option<nat>): (r: Option<Time>)
    ensures m.None? ==> (r.Some? <==> h <= 23) && (r.Some? ==> r.value == Time(h, 0))
    ensures m.Some? ==> (r.Some? <==> EsValidoHoraMin(h, m.value)) && (r.Some? ==> r.value == Time(h, m.value))
  {
    var minute := if m.Some? then m.value else 0;
    if EsValidoHoraMin(h, minute) then Some(Time(h, minute)) else None
  }

  /** `normalizar_en_punto`: `H en punto` is `H:00`, with the hour taken literally, for H in 1..12 only. */
  function NormalizarEnPunto(h: nat): (r: Option<Time>)
    ensures r.Some? <==> EsValidoHora12(h)
    ensures r.Some? ==> Valid(r.value) && r.value == Time(h, 0)
  {
    if EsValidoHora12(h) then Some(Time(h, 0)) else None
  }

  /**
    `normalizar_cuarto`: for H in 1..12 the result is the 12-hour dial
    reading (hour in 1..12) at `H` o'clock moved by the quarter phrase; any
    other H leaves the span unchanged.
   */
  function NormalizarCuarto(h: nat, t: Tipo): (r: Option<Time>)
    ensures r.Some? <==> EsValidoHora12(h)
    ensures r.Some? ==> Valid(r.value) && EsValidoHora12(r.value.hour)
    ensures r.Some? ==> DialMinutes(r.value) == (h * 60 + TipoOffset(t)) % 720
  {
    if !EsValidoHora12(h) then None else Some(ApplyTipo(h, t))
  }

  /**
    `normalizar_periodo`: for H in 1..12 admitted by the period's row, the
    hour at the same dial position inside the row's window, minutes 00;
    otherwise the span is left unchanged.
   */
  function NormalizarPeriodo(h: nat, p: Periodo): (r: Option<Time>)
    ensures r.Some? <==> EsValidoHora12(h) && Table(p).lo <= h <= Table(p).hi
    ensures r.Some? ==> Valid(r.value) && r.value.minute == 0
    ensures r.Some? ==> r.value.hour % 12 == h % 12 && Table(p).first <= r.value.hour <= Table(p).last
  {
    if !EsValidoHora12(h) then None
    else
      PeriodoMapMatchesTable(p, h);
      match PeriodoMap(p, h)
      case None => None
      case Some(h24) => if 0 <= h24 <= 23 then Some(Time(h24, 0)) else None
  }

  /**
    `normalizar_cuarto_periodo`: the quarter step first (including the
    `menos cuarto` decrement and the wrap from 0 to 12), then the period
    table on the resulting hour. The result keeps the quarter step's dial
    position and lies in the period's window; a failure at either step
    leaves the whole span unchanged.
   */
  function NormalizarCuartoPeriodo(h: nat, t: Tipo, p: Periodo): (r: Option<Time>)
    ensures r.Some? <==> EsValidoHora12(h) && Table(p).lo <= ApplyTipo(h, t).hour <= Table(p).hi
    ensures r.Some? ==> Valid(r.value)
    ensures r.Some? ==> DialMinutes(r.value) == (h * 60 + TipoOffset(t)) % 720
    ensures r.Some? ==> Table(p).first <= r.value.hour <= Table(p).last
  {
    if !EsValidoHora12(h) then None
    else
      var q := ApplyTipo(h, t);
      PeriodoMapMatchesTable(p, q.hour);
      match PeriodoMap(p, q.hour)
      case None => None
      case Some(h24) =>
        if 0 <= h24 <= 23 then
          SameHourOnDial(h24, q.hour, q.minute);
          Some(Time(h24, q.minute))
        else None
  }

  /** The composite resolver is the quarter resolver followed by the period resolver on its hour, keeping the quarter's minutes. */
  lemma CuartoPeriodoIsCuartoThenPeriodo(h: nat, t: Tipo, p: Periodo)
    ensures NormalizarCuartoPeriodo(h, t, p) ==
              match NormalizarCuarto(h, t)
              case None => None
              case Some(q) =>
                match NormalizarPeriodo(q.hour, p)
                case None => None
                case Some(b) => Some(Time(b.hour, q.minute))
  {
  }
}
