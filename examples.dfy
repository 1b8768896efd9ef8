/**
  The worked examples of horas.py's docstring (horas.py:15-29), and the
  cases where the code parts from it, stated on whole lines. The hour (and
  minute) text is a parameter: any one- or two-digit text with the value
  shown, so `5` and `05` are both covered.

  Each example is proved in two steps: the line theorem of `Lines` gives
  the result as `Format` of a time, and `Clock.FormatDigits` spells that
  time out.
 */
module Examples {
  import opened Wrappers
  import opened Text
  import opened Clock
  import opened Periods
  import opened Resolvers
  import opened Normalizer
  import opened Lines
  import opened Context

  // ---------------------------------------------------------------------
  // `18:30 -> 18:30`, `8:05 -> 08:05`, `25:99` left as it is.

  lemma HhmmResult(ht: string, mt: string, h: nat, m: nat)
    requires HourText(ht) && MinuteText(mt) && DigitsValue(ht) == h && DigitsValue(mt) == m
    requires EsValidoHoraMin(h, m)
    ensures Reemplazar(HhmmLine(ht, mt)) == Format(Time(h, m))
  {
    ReemplazarHhmmLine(ht, mt);
  }

  lemma DieciochoTreinta(ht: string, mt: string)
    requires HourText(ht) && MinuteText(mt) && DigitsValue(ht) == 18 && DigitsValue(mt) == 30
    ensures Reemplazar(HhmmLine(ht, mt)) == "18:30"
  {
    HhmmResult(ht, mt, 18, 30);
    FormatDigits(Time(18, 30));
  }

  lemma OchoCero5(ht: string, mt: string)
    requires HourText(ht) && MinuteText(mt) && DigitsValue(ht) == 8 && DigitsValue(mt) == 5
    ensures Reemplazar(HhmmLine(ht, mt)) == "08:05"
  {
    HhmmResult(ht, mt, 8, 5);
    FormatDigits(Time(8, 5));
  }

  lemma VeinticincoNoventaNueve(ht: string, mt: string)
    requires HourText(ht) && MinuteText(mt) && DigitsValue(ht) == 25 && DigitsValue(mt) == 99
    ensures Reemplazar(HhmmLine(ht, mt)) == HhmmLine(ht, mt)
  {
    ReemplazarHhmmLine(ht, mt);
  }

  // ---------------------------------------------------------------------
  // `8h -> 08:00`; `7h de la mañana -> 07:00 de la mañana` (the docstring
  // says `07:00`: the period phrase after `Hh` is left in place).

  lemma HourHResult(ht: string, rest: string, h: nat)
    requires HourText(ht) && PlainTail(rest) && DigitsValue(ht) == h && h <= 23
    ensures Reemplazar(HourHLine(ht, rest)) == Format(Time(h, 0)) + rest
  {
    ReemplazarHourHLine(ht, rest);
  }

  lemma OchoH(ht: string)
    requires HourText(ht) && DigitsValue(ht) == 8
    ensures Reemplazar(HourHLine(ht, "")) == "08:00"
  {
    assert PlainTail("");
    HourHResult(ht, "", 8);
    FormatDigits(Time(8, 0));
  }

  lemma SieteHDeLaManana(ht: string)
    requires HourText(ht) && DigitsValue(ht) == 7
    ensures Reemplazar(HourHLine(ht, " " + Phrase(Manana))) == "07:00" + (" " + Phrase(Manana))
  {
    PeriodoTailQuiet(Manana);
    HourHResult(ht, " " + Phrase(Manana), 7);
    FormatDigits(Time(7, 0));
  }

  /** The tail after `Hh` may even read `en punto`: that sweep has already run. */
  lemma OchoHEnPunto(ht: string)
    requires HourText(ht) && DigitsValue(ht) == 8
    ensures Reemplazar(HourHLine(ht, " en punto")) == "08:00" + " en punto"
  {
    EnPuntoTailPlain();
    HourHResult(ht, " en punto", 8);
    FormatDigits(Time(8, 0));
  }

  lemma EnPuntoTailPlain()
    ensures PlainTail(" en punto")
  {
    var rest := " en punto";
    forall k | 0 <= k < |rest| ensures !IsDigit(rest[k]) {
    }
  }

  // ---------------------------------------------------------------------
  // `10h30m -> 10:30` and `17h5m -> 17:05`.

  lemma HourMinuteResult(ht: string, mt: string, h: nat, m: nat)
    requires HourText(ht) && HourText(mt) && DigitsValue(ht) == h && DigitsValue(mt) == m
    requires EsValidoHoraMin(h, m)
    ensures Reemplazar(HourMinuteLine(ht, mt, "m")) == Format(Time(h, m))
  {
    ReemplazarHourMinuteLine(ht, mt, "m");
  }

  lemma DiezHTreintaM(ht: string, mt: string)
    requires HourText(ht) && HourText(mt) && DigitsValue(ht) == 10 && DigitsValue(mt) == 30
    ensures Reemplazar(HourMinuteLine(ht, mt, "m")) == "10:30"
  {
    HourMinuteResult(ht, mt, 10, 30);
    FormatDigits(Time(10, 30));
  }

  lemma DiecisieteH5M(ht: string, mt: string)
    requires HourText(ht) && HourText(mt) && DigitsValue(ht) == 17 && DigitsValue(mt) == 5
    ensures Reemplazar(HourMinuteLine(ht, mt, "m")) == "17:05"
  {
    HourMinuteResult(ht, mt, 17, 5);
    FormatDigits(Time(17, 5));
  }

  // ---------------------------------------------------------------------
  // `5 menos cuarto -> 04:45`, `1 menos cuarto -> 12:45`.

  lemma CuartoResult(ht: string, t: Tipo, h: nat, r: Time)
    requires HourText(ht) && DigitsValue(ht) == h && NormalizarCuarto(h, t) == Some(r)
    ensures Reemplazar(CuartoLine(ht, t)) == Format(r)
  {
    ReemplazarCuartoLine(ht, t);
  }

  lemma CincoMenosCuarto(ht: string)
    requires HourText(ht) && DigitsValue(ht) == 5
    ensures Reemplazar(CuartoLine(ht, MenosCuarto)) == "04:45"
  {
    assert NormalizarCuarto(5, MenosCuarto) == Some(Time(4, 45));
    CuartoResult(ht, MenosCuarto, 5, Time(4, 45));
    FormatDigits(Time(4, 45));
  }

  lemma UnaMenosCuarto(ht: string)
    requires HourText(ht) && DigitsValue(ht) == 1
    ensures Reemplazar(CuartoLine(ht, MenosCuarto)) == "12:45"
  {
    assert NormalizarCuarto(1, MenosCuarto) == Some(Time(12, 45));
    CuartoResult(ht, MenosCuarto, 1, Time(12, 45));
    FormatDigits(Time(12, 45));
  }

  // ---------------------------------------------------------------------
  // `12 de la noche` and `9 de la tarde` are left as they are (the
  // docstring says `12 de la noche -> 00:00`).

  lemma PeriodoKept(ht: string, p: Periodo, h: nat)
    requires HourText(ht) && DigitsValue(ht) == h && NormalizarPeriodo(h, p).None?
    ensures Reemplazar(PeriodoLine(ht, p)) == PeriodoLine(ht, p)
  {
    ReemplazarPeriodoLine(ht, p);
  }

  lemma DoceDeLaNoche(ht: string)
    requires HourText(ht) && DigitsValue(ht) == 12
    ensures Reemplazar(PeriodoLine(ht, Noche)) == PeriodoLine(ht, Noche)
  {
    PeriodoKept(ht, Noche, 12);
  }

  lemma NueveDeLaTarde(ht: string)
    requires HourText(ht) && DigitsValue(ht) == 9
    ensures Reemplazar(PeriodoLine(ht, Tarde)) == PeriodoLine(ht, Tarde)
  {
    PeriodoKept(ht, Tarde, 9);
  }

  // ---------------------------------------------------------------------
  // `4 y media de la tarde -> 16:30`, `1 menos cuarto de la mañana -> 00:45`.

  lemma CuartoPeriodoResult(ht: string, t: Tipo, p: Periodo, h: nat, r: Time)
    requires HourText(ht) && DigitsValue(ht) == h && NormalizarCuartoPeriodo(h, t, p) == Some(r)
    ensures Reemplazar(CuartoPeriodoLine(ht, t, p)) == Format(r)
  {
    ReemplazarCuartoPeriodoLine(ht, t, p);
  }

  lemma CuatroYMediaDeLaTarde(ht: string)
    requires HourText(ht) && DigitsValue(ht) == 4
    ensures Reemplazar(CuartoPeriodoLine(ht, YMedia, Tarde)) == "16:30"
  {
    assert NormalizarCuartoPeriodo(4, YMedia, Tarde) == Some(Time(16, 30));
    CuartoPeriodoResult(ht, YMedia, Tarde, 4, Time(16, 30));
    FormatDigits(Time(16, 30));
  }

  lemma UnaMenosCuartoDeLaManana(ht: string)
    requires HourText(ht) && DigitsValue(ht) == 1
    ensures Reemplazar(CuartoPeriodoLine(ht, MenosCuarto, Manana)) == "00:45"
  {
    assert NormalizarCuartoPeriodo(1, MenosCuarto, Manana) == Some(Time(0, 45));
    CuartoPeriodoResult(ht, MenosCuarto, Manana, 1, Time(0, 45));
    FormatDigits(Time(0, 45));
  }

  // ---------------------------------------------------------------------
  // `9 y media de la noche -> 09:30 de la noche`: the quarter+period
  // resolver rejects the hour for `de la noche`, so the span is not kept
  // whole; the later `cuarto` sweep rewrites `9 y media` and the period
  // phrase stays behind it.

  lemma CuartoPeriodoPartial(ht: string, t: Tipo, p: Periodo, h: nat, q: Time)
    requires HourText(ht) && DigitsValue(ht) == h
    requires NormalizarCuartoPeriodo(h, t, p).None? && NormalizarCuarto(h, t) == Some(q)
    ensures Reemplazar(CuartoPeriodoLine(ht, t, p)) == Format(q) + (" " + Phrase(p))
  {
    ReemplazarCuartoPeriodoLine(ht, t, p);
  }

  lemma NueveYMediaDeLaNoche(ht: string)
    requires HourText(ht) && DigitsValue(ht) == 9
    ensures Reemplazar(CuartoPeriodoLine(ht, YMedia, Noche)) == "09:30" + (" " + Phrase(Noche))
  {
    assert NormalizarCuartoPeriodo(9, YMedia, Noche).None? && NormalizarCuarto(9, YMedia) == Some(Time(9, 30));
    CuartoPeriodoPartial(ht, YMedia, Noche, 9, Time(9, 30));
    FormatDigits(Time(9, 30));
  }

  // ---------------------------------------------------------------------
  // The docstring's sentence: `La llegada del tren está prevista a las
  // 18:30` is written back unchanged, the time as it would be on a line
  // of its own.

  lemma LlegadaDelTren(ht: string, mt: string)
    requires HourText(ht) && MinuteText(mt) && DigitsValue(ht) == 18 && DigitsValue(mt) == 30
    ensures Reemplazar("La llegada del tren está prevista a las " + HhmmLine(ht, mt))
      == "La llegada del tren está prevista a las " + "18:30"
  {
    LlegadaPreamble();
    ReemplazarInContext("La llegada del tren está prevista a las ", HhmmLine(ht, mt));
    DieciochoTreinta(ht, mt);
  }

  lemma LlegadaPreamble()
    ensures Preamble("La llegada del tren está prevista a las ")
  {
    var a := "La llegada del tren está prevista a las ";
    forall k | 0 <= k < |a| ensures !IsDigit(a[k]) {
    }
  }
}
