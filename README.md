# Normalising written times (`horas.py`)

`normalizaHoras` (horas.py:10-188) reads a text file line by line. It
rewrites every time expression it recognises into the 24-hour form `HH:MM`
and leaves everything else as it is. The work is done by the inner
function `reemplazar` (horas.py:162-183). It makes six `re.sub` sweeps over
the line, in a fixed order. Each sweep pairs one of the six patterns of
`patrones` (horas.py:45-63) with one resolver `normalizar_*`
(horas.py:71-160). A resolver either returns `f"{h:02d}:{m:02d}"` for the
match or hands back the matched text (`match.group(0)`). The resolvers use
the validity tests `es_valido_hora_min` and `es_valido_hora12`
(horas.py:65-69) and the period-of-day table `periodo_map`
(horas.py:36-42).

This project models that core in Dafny as pure functions, with lemmas
about them:

- `Text` covers ASCII digits, `int()` of a digit run, and the `{:d}` and
  `{:02d}` formats. It also defines the regex word boundary `\b` over
  ASCII and Latin-1 word characters.
- `Clock` defines clock times, the two validity tests, and the canonical
  text `HH:MM` with its parse.
- `Periods` holds `periodo_map`, lambda by lambda, plus a reference table
  of the hours each period admits and the 24-hour window it maps them to.
- `Resolvers` holds the six `normalizar_*`. Each one returns `None` where
  the source gives back the matched text.
- `Patterns` gives each of the six regexes as a matcher at a position.
  Beside it is a declarative reading of how the regex may cut the text.
  Lemmas prove the matcher finds exactly the cuts the regex admits.
- `Normalizer` models one `re.sub` sweep, the order of the six sweeps, and
  `reemplazar`, with lemmas about whole lines.
- `Lines` proves what `reemplazar` gives for a line holding one
  expression of each shape the patterns recognise.
- `Context` proves that text without digits in front of a line changes
  nothing: `reemplazar(a + s)` is `a + reemplazar(s)` when `a` has no
  digit and does not end in a word character.
- `Examples` covers the docstring's examples (horas.py:15-29), stated on
  whole lines.

### Where the docstring and the code differ

The model follows the code.

- The docstring gives `12 de la noche -> 00:00` (horas.py:23). The
  `de la noche` lambda admits only hours 1..4 (horas.py:40), so the line
  is left as it is (`Examples.DoceDeLaNoche`).
- The docstring gives `7h de la mañana -> 07:00` (horas.py:20). No pattern
  joins `Hh` with a period phrase. `hhmm_alt` rewrites `7h` alone, and the
  result is `07:00 de la mañana` (`Examples.SieteHDeLaManana`).
- The comment at horas.py:92 speaks of a 0-11h range for `en punto`. The
  code writes `H:00` for every H in 1..12, so `12 en punto` becomes `12:00`
  (`Resolvers.NormalizarEnPunto`).
- The docstring says incorrect expressions stay as they are (horas.py:25).
  When the quarter+period resolver rejects a span, the later `cuarto`
  sweep still rewrites the part it recognises. `9 y media de la noche`
  becomes `09:30 de la noche` (`Examples.NueveYMediaDeLaNoche`,
  `Lines.ReemplazarCuartoPeriodoLine`).

## Model

| member | source | states |
|---|---|---|
| Text.Decimal | horas.py:72 | `str(n)` of a natural number: a digit run whose `int()` value is `n`; one digit exactly below 10, at most two exactly below 100, no leading zero |
| Text.ZeroPad2 | horas.py:75 | `{:02d}`: a digit run whose value is `n`, exactly two characters exactly when `n < 100` |
| Text.ZeroPad2OfDigits | horas.py:75 | every two-digit run is the `{:02d}` form of its own value (the inverse direction of `ZeroPad2`) |
| Text.ShortDigitsValue | horas.py:72 | `int()` of one or two digits, as `\d{1,2}` captures them, is that digit or ten times the first plus the second, and at most 99 |
| Text.ValueBetweenSlice | horas.py:72 | reading a digit run in place gives `int()` of the slice |
| Text.DigitRun | horas.py:50 | greedy `\d{0,max}`: it takes only digits, and stops early only at a non-digit |
| Text.DigitRunTakes | horas.py:50 | a digit run that cannot be extended is exactly what the greedy run takes |
| Text.WordBoundary | horas.py:47-62 | no contract of its own: the regex `\b`, a position where exactly one of the two neighbouring characters is a word character (`IsWordChar`); every Fits predicate of `Patterns` uses it, so the matchers' Sound and Complete lemmas state its use |
| Text.IsWordChar | horas.py:47-62 | no contract of its own: the characters `\w` stands for here, ASCII letters, digits, `_` and Latin-1 letters |
| Text.AtConcat | horas.py:53 | a literal written between two texts is found right after the first |
| Clock.EsValidoHoraMin | horas.py:65-66 | a valid reading is exactly one minute of the day: minutes below 60 and `h * 60 + m` inside 0..1439 |
| Clock.EsValidoHora12 | horas.py:68-69 | an hour of the 12-hour dial is also a valid 24-hour hour, and 12 is the only one of them at dial position 0 |
| Clock.Format | horas.py:75 | `f"{h:02d}:{m:02d}"` of a valid time is canonical `DD:DD` text and parses back to that time |
| Clock.FormatParse | horas.py:75 | every canonical `DD:DD` text parses to a valid time and formats back to itself (the round trip the other way) |
| Clock.FormatDigits | horas.py:84 | the formatted text of a valid time, character by character: tens and units of the hour, `:`, tens and units of the minutes |
| Periods.PeriodoMap | horas.py:36-42 | for H in 1..12 every hour a lambda gives is a valid 24-hour hour at H's position on the 12-hour dial. Which hours each lambda admits, and the window it sends them to, is `PeriodoMapMatchesTable` |
| Periods.Table | horas.py:36-42 | the reference rows are well formed: hours inside 1..12 and a 24-hour window shorter than twelve hours |
| Periods.PeriodoMapMatchesTable | horas.py:36-42 | for H in 1..12 each lambda gives an hour exactly for the hours its row admits (`de la tarde` 1..7, `de la noche` 1..4, `de la madrugada` 1..6, the other two all). That hour keeps H's position on the 12-hour dial and lies in the row's window |
| Periods.WindowFixesHour | horas.py:36-42 | inside one period's window the dial position fixes the 24-hour hour, so the table's answer is the only possible one |
| Resolvers.ApplyTipo | horas.py:103-111 | the `tipo` step for H in 1..12 gives a reading with hour in 1..12. It sits where H o'clock moved by +30, +15 or -15 minutes falls on the 12-hour dial, which covers the `menos cuarto` wrap from 1 to 12 |
| Resolvers.DialFixesTime | horas.py:107-111 | a reading with hour in 1..12 is fixed by its dial position, so the `tipo` step has exactly one possible answer |
| Resolvers.SameHourOnDial | horas.py:156-160 | hours twelve apart share a dial position |
| Resolvers.NormalizarHhmm | horas.py:71-77 | a time is written exactly when `es_valido_hora_min` holds, and it is the captured hour and minutes |
| Resolvers.NormalizarHhmmAlt | horas.py:79-86 | the minutes default to 0 when the group is absent. A time is written exactly when hour and minutes are valid, and it is the captured reading |
| Resolvers.NormalizarEnPunto | horas.py:88-95 | a time is written exactly for H in 1..12, and it is `H:00` with the hour taken literally |
| Resolvers.NormalizarCuarto | horas.py:97-115 | a time is written exactly for H in 1..12. It is a valid 12-hour reading at H o'clock moved by the phrase's offset on the dial (`5 menos cuarto` is 4:45, `1 menos cuarto` is 12:45) |
| Resolvers.NormalizarPeriodo | horas.py:117-130 | a time is written exactly when H is in 1..12 and the period's row admits it. It has minutes 00, keeps H's dial position and lies in the period's window |
| Resolvers.NormalizarCuartoPeriodo | horas.py:132-160 | a time is written exactly when H is in 1..12 and the period admits the hour after the quarter step. It keeps the quarter step's dial position and lies in the period's window |
| Resolvers.CuartoPeriodoIsCuartoThenPeriodo | horas.py:132-160 | the composite resolver equals the quarter resolver, then the period resolver on the resulting hour, keeping the quarter's minutes |
| Patterns.HourValue | horas.py:72 | `int()` of a captured `\d{1,2}` group is at most 99 |
| Patterns.TipoAt | horas.py:56 | the quarter alternation finds only a phrase that is really present at that position |
| Patterns.TipoAtComplete | horas.py:56 | whichever quarter phrase is present is the one the alternation finds |
| Patterns.PeriodoAt | horas.py:59 | the period alternation finds only a phrase that is really present at that position |
| Patterns.PeriodoAtComplete | horas.py:59 | whichever period phrase is present is the one the alternation finds (no two phrases can be present at one position) |
| Patterns.MatchHhmm | horas.py:47 | an `HH:MM` match starts with a digit at a word boundary, ends inside the text, and captures an hour of at most 23 and minutes of at most 59 |
| Patterns.HhmmRange | horas.py:47 | the captures of every span the `HH:MM` regex admits are at most 23 and 59 |
| Patterns.MatchHhmmComplete | horas.py:47 | every way the `HH:MM` regex can cut the text at a position is the match the matcher returns |
| Patterns.MatchHhmmSound | horas.py:47 | every match the `HH:MM` matcher returns is a cut the regex admits |
| Patterns.HhmmNeedsColon | horas.py:47 | without a `:` one or two characters in, no `HH:MM` span starts there |
| Patterns.MatchHhmmAlt | horas.py:50 | an `Hh[M][m]` match starts with a digit at a word boundary and ends inside the text |
| Patterns.MatchHhmmAltComplete | horas.py:50 | every way `\b(\d{1,2})h(\d{1,2})?m?\b` can cut the text is the greedy match the matcher returns, so backtracking finds nothing else |
| Patterns.MatchHhmmAltSound | horas.py:50 | every match the `Hh[M][m]` matcher returns is a cut the regex admits |
| Patterns.HourSpaceComplete | horas.py:53-62 | the prefix `\b(\d{1,2}) ` is found with exactly the digits before the space |
| Patterns.MatchEnPunto | horas.py:53 | an `H en punto` match starts with a digit at a word boundary and ends inside the text |
| Patterns.MatchEnPuntoComplete | horas.py:53 | every way the `en punto` regex can cut the text is the match the matcher returns |
| Patterns.MatchEnPuntoSound | horas.py:53 | every match the `en punto` matcher returns is a cut the regex admits |
| Patterns.MatchCuarto | horas.py:56 | a quarter match starts with a digit at a word boundary and ends inside the text |
| Patterns.MatchCuartoComplete | horas.py:56 | every way the quarter regex can cut the text is the match the matcher returns |
| Patterns.MatchCuartoSound | horas.py:56 | every match the quarter matcher returns is a cut the regex admits |
| Patterns.MatchPeriodo | horas.py:59 | a period match starts with a digit at a word boundary and ends inside the text |
| Patterns.MatchPeriodoComplete | horas.py:59 | every way the period regex can cut the text is the match the matcher returns |
| Patterns.MatchPeriodoSound | horas.py:59 | every match the period matcher returns is a cut the regex admits |
| Patterns.MatchCuartoPeriodo | horas.py:62 | a quarter+period match starts with a digit at a word boundary and ends inside the text |
| Patterns.MatchCuartoPeriodoComplete | horas.py:62 | every way the quarter+period regex can cut the text is the match the matcher returns |
| Patterns.MatchCuartoPeriodoSound | horas.py:62 | every match the quarter+period matcher returns is a cut the regex admits |
| Normalizer.Pattern | horas.py:45-63 | every one of the six patterns matches only non-empty spans that start with a digit at a word boundary |
| Normalizer.Resolve | horas.py:71-160 | every time a resolver writes is a valid 24-hour reading |
| Normalizer.Replacement | horas.py:74-77 | a resolver's return value is the matched text when it gives up. Otherwise it is canonical `HH:MM` text of the resolved time |
| Normalizer.SweepFrom | horas.py:166-181 | no contract of its own. `SweepIsReSub` proves it is `re.sub` as documented, and `SweepKeeps` and `SweepReplaces` give its two kinds of step |
| Normalizer.Sweep | horas.py:166-181 | no contract of its own: one `patrones[r].sub(normalizar_r, texto)`, specified through `SweepFrom` by `SweepIsReSub`, `SweepKeeps` and `SweepReplaces` |
| Normalizer.Reemplazar | horas.py:162-183 | no contract of its own: the six sweeps of `Order` in turn (`OrderPatterns`). Its results are stated by `ReemplazarNoDigit`, `ReemplazarCanonical`, `ReemplazarKept`, `ReemplazarWhole`, `ReemplazarTimeLead`, the line theorems of `Lines` and `Context.ReemplazarInContext` |
| Normalizer.Search | horas.py:166-181 | the search of `re.sub` lands only on a position where the pattern matches |
| Normalizer.SearchLeftmost | horas.py:166-181 | the search finds the leftmost match: nothing matches before it, and nothing anywhere when it finds none |
| Normalizer.SweepIsReSub | horas.py:166-181 | the position-by-position sweep equals `re.sub` as documented: copy the text up to the leftmost match, replace the match, and go on after it |
| Normalizer.SweepKeeps | horas.py:166-181 | where the pattern matches nowhere, a sweep copies the text |
| Normalizer.SweepReplaces | horas.py:166-181 | at a match, a sweep writes the resolver's result and goes on after the match |
| Normalizer.OrderPatterns | horas.py:162-183 | the constant `Order` lists the sweeps as `reemplazar` runs them: quarter+period, period, quarter, `en punto`, `HhMm`, `HH:MM` |
| Normalizer.ReemplazarNoDigit | horas.py:162-183 | a line without digits comes out unchanged |
| Normalizer.ReemplazarCanonical | horas.py:162-183 | a line that is canonical `HH:MM` comes out unchanged |
| Normalizer.ReemplazarKept | horas.py:162-183 | a line whose only candidate match is at its start, and which no sweep rewrites there, comes out unchanged |
| Normalizer.ReemplazarWhole | horas.py:162-183 | when one pattern takes the whole line, the earlier sweeps keep it, and the later sweeps keep it if it is not resolved, the line becomes that pattern's replacement |
| Normalizer.ReemplazarTimeLead | horas.py:162-183 | when one of the last four patterns resolves the start of the line and only a quiet tail follows and the earlier sweeps keep it, the line becomes the written time followed by that tail |
| Lines.ReemplazarHhmmLine | horas.py:47 | a line `H:MM` or `HH:MM` becomes the zero-padded `HH:MM` exactly when it is a 24-hour reading, and is unchanged otherwise |
| Lines.ReemplazarHourHLine | horas.py:50 | a line `Hh` plus any tail without digits that is empty or does not start with a word character becomes `HH:00` plus that tail when H is at most 23, and is unchanged otherwise |
| Lines.ReemplazarHourMinuteLine | horas.py:50 | a line `HhM`, `HhMM`, `HhMm` or `HhMMm` becomes `HH:MM` exactly when it is a 24-hour reading, and is unchanged otherwise |
| Lines.ReemplazarEnPuntoLine | horas.py:53 | a line `H en punto` becomes `HH:00` for H in 1..12, and is unchanged otherwise |
| Lines.ReemplazarCuartoLine | horas.py:56 | a line `H y media` / `H y cuarto` / `H menos cuarto` becomes the quarter resolver's time, or is unchanged when it gives up |
| Lines.ReemplazarPeriodoLine | horas.py:59 | a line `H <period>` becomes the period resolver's time, or is unchanged when it gives up |
| Lines.ReemplazarCuartoPeriodoLine | horas.py:62 | a line `H <quarter> <period>` becomes the composite resolver's time. If that gives up, it is the quarter resolver's time followed by the period phrase. If both give up, it is unchanged |
| Lines.PeriodoLineFacts | horas.py:59 | on a period line the quarter+period pattern finds nothing, the period pattern takes the whole line with its hour and period, and the other sweeps keep it |
| Lines.CuartoLineMatches | horas.py:56 | on a quarter line only the quarter pattern matches at the start, and it takes the whole line with its hour and phrase |
| Lines.EnPuntoLineMatches | horas.py:53 | on an `en punto` line only the `en punto` pattern matches at the start, and it takes the whole line with its hour |
| Lines.CuartoPeriodoLineFacts | horas.py:62 | on a quarter+period line the composite pattern takes the whole line, and the quarter pattern takes the part before the period phrase |
| Lines.HourHLineMatches | horas.py:50 | on an `Hh` line `hhmm_alt` takes the hour and the `h` with no minute group, and `HH:MM` finds nothing |
| Lines.HourMinuteLineFacts | horas.py:50 | on an `HhM[m]` line only `hhmm_alt` matches, taking the whole line with its hour and minutes |
| Lines.HhmmLineMatch | horas.py:47 | `HH:MM` matches the whole `H:MM` line exactly when it is a 24-hour reading |
| Examples.DieciochoTreinta | horas.py:16 | `18:30` stays `18:30` |
| Examples.OchoCero5 | horas.py:71-77 | `8:05` becomes `08:05` |
| Examples.VeinticincoNoventaNueve | horas.py:74-77 | `25:99` is left as it is |
| Examples.OchoH | horas.py:17 | `8h` becomes `08:00` |
| Examples.OchoHEnPunto | horas.py:162-183 | `8h en punto` becomes `08:00 en punto`: the `en punto` sweep runs before `hhmm_alt` and does not see `8h` as an hour |
| Examples.DiezHTreintaM | horas.py:18 | `10h30m` becomes `10:30` |
| Examples.DiecisieteH5M | horas.py:22 | `17h5m` becomes `17:05` |
| Examples.CuatroYMediaDeLaTarde | horas.py:19 | `4 y media de la tarde` becomes `16:30` |
| Examples.SieteHDeLaManana | horas.py:20 | `7h de la mañana` becomes `07:00 de la mañana` (the code's result; the docstring shows `07:00`) |
| Examples.CincoMenosCuarto | horas.py:21 | `5 menos cuarto` becomes `04:45` |
| Examples.UnaMenosCuarto | horas.py:107-111 | `1 menos cuarto` wraps to `12:45` |
| Examples.DoceDeLaNoche | horas.py:23 | `12 de la noche` is left as it is (the code's result; the docstring shows `00:00`) |
| Examples.NueveDeLaTarde | horas.py:39 | `9 de la tarde` is left as it is: `de la tarde` admits only 1..7 |
| Examples.UnaMenosCuartoDeLaManana | horas.py:144-158 | `1 menos cuarto de la mañana` becomes `00:45`: the wrap to 12, then 12 in the morning is hour 0 |
| Examples.NueveYMediaDeLaNoche | horas.py:162-183 | `9 y media de la noche` becomes `09:30 de la noche` |
| Examples.LlegadaDelTren | horas.py:27-29 | `La llegada del tren está prevista a las 18:30` is written back unchanged |
| Context.PatternShift | horas.py:45-63 | each of the six patterns finds at position `d + i` of a text what it finds at `i` of the text that follows a preamble of length `d`, with the same groups and its end moved by `d` |
| Context.SweepFromShift | horas.py:166-181 | a sweep from `d + i` over the longer text writes what the sweep from `i` writes over the text alone |
| Context.SweepShift | horas.py:166-181 | one `re.sub` sweep copies a preamble without digits that does not end in a word character, and then works on the rest as if it stood alone |
| Context.ReemplazarInContext | horas.py:162-183 | `reemplazar(a + s)` is `a + reemplazar(s)` whenever `a` has no digit and does not end in a word character |

## Left out

- Reading `ficText`, writing `ficNorm`, and the loop over lines (horas.py:185-188) are file I/O and are not modelled. `Normalizer.Reemplazar` is the function applied to each line, and it works on any text, including a trailing newline.
- The `doctest` entry point (horas.py:191-194) is not modelled; it runs no example of its own.
- Python's `\d` and `\w` on `str` patterns accept every Unicode decimal digit and alphanumeric character. The model's `\d` is ASCII `0`-`9`, and its `\w` is ASCII letters, digits and `_` plus the Latin-1 letters. `int()` of non-ASCII digits is not modelled.
- Lines.ReemplazarHhmmLine, Lines.ReemplazarHourMinuteLine, Lines.ReemplazarEnPuntoLine, Lines.ReemplazarCuartoLine, Lines.ReemplazarPeriodoLine and Lines.ReemplazarCuartoPeriodoLine are stated for lines made of exactly that one expression. `Lines.ReemplazarHourHLine` also allows a tail without digits after it, and `Context.ReemplazarInContext` extends every line theorem to a line that starts with text without digits. Lines holding several expressions, or text with digits before the expression, are covered only by the general sweep lemmas of `Normalizer`.
- The branches `periodo_map.get(periodo) is None` (horas.py:123-125, 153-155) and the final `else` of the `tipo` test (horas.py:112-113, 149-150) cannot be reached: the regexes capture only keys of the table and the three quarter phrases. The model's `Periodo` and `Tipo` datatypes have no other values. The range test on `h24` (horas.py:127, 157) is modelled as written.
- `reemplazar` is not idempotent, and no lemma claims it. `10h05 de la mañana` gives `10:05 de la mañana`. A second pass reads `05 de la mañana` as a period expression and gives `10:05:00`. Only the single pass is modelled.
