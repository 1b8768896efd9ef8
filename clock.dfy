/**
  Clock times and their canonical text `HH:MM`: what every resolver emits
  through `f"{h:02d}:{m:02d}"`.
 */
module Clock {
  import opened Text

  datatype Time = Time(hour: nat, minute: nat)

  /** `es_valido_hora_min`: a 24-hour clock reading. */
  predicate EsValidoHoraMin(h: int, m: int)
    ensures EsValidoHoraMin(h, m) <==> 0 <= m < 60 && 0 <= h * 60 + m < 24 * 60
  {
    0 <= h <= 23 && 0 <= m <= 59
  }

  /** `es_valido_hora12`: an hour of the 12-hour dial. */
  predicate EsValidoHora12(h: int)
    ensures EsValidoHora12(h) ==> EsValidoHoraMin(h, 0) && (h % 12 == 0 <==> h == 12)
  {
    1 <= h <= 12
  }

  predicate Valid(t: Time) {
    EsValidoHoraMin(t.hour, t.minute)
  }

  /** Canonical text: five characters `DD:DD` whose hour is at most 23 and whose minutes are at most 59. */
  predicate IsCanonical(w: string) {
    && |w| == 5
    && AllDigits(w[..2]) && w[2] == ':' && AllDigits(w[3..])
    && EsValidoHoraMin(DigitsValue(w[..2]), DigitsValue(w[3..]))
  }

  /** `f"{h:02d}:{m:02d}"`. */
  function Format(t: Time): (w: string)
    ensures Valid(t) ==> IsCanonical(w) && Parse(w) == t
  {
    var w := ZeroPad2(t.hour) + ":" + ZeroPad2(t.minute);
    assert |ZeroPad2(t.hour)| == 2 ==> w[..2] == ZeroPad2(t.hour) && w[3..] == ZeroPad2(t.minute);
    w
  }

  /** `{:02d}` of a number below 100 is its tens digit then its units digit. */
  lemma ZeroPad2Digits(n: nat)
    requires n < 100
    ensures ZeroPad2(n) == [DigitChar(n / 10), DigitChar(n % 10)]
  {
    if n >= 10 {
      assert Decimal(n / 10) == [DigitChar(n / 10)];
    }
  }

  /** The canonical text of a valid time, character by character. */
  lemma FormatDigits(t: Time)
    requires Valid(t)
    ensures Format(t) == [DigitChar(t.hour / 10), DigitChar(t.hour % 10), ':', DigitChar(t.minute / 10), DigitChar(t.minute % 10)]
  {
    ZeroPad2Digits(t.hour);
    ZeroPad2Digits(t.minute);
  }

  /** Reads the hour and the minutes back from canonical text. */
  function Parse(w: string): Time
    requires IsCanonical(w)
  {
    Time(DigitsValue(w[..2]), DigitsValue(w[3..]))
  }

  /** Canonical text is exactly the format of the time it denotes: `Format` and `Parse` are inverse bijections. */
  lemma FormatParse(w: string)
    requires IsCanonical(w)
    ensures Valid(Parse(w)) && Format(Parse(w)) == w
  {
    ZeroPad2OfDigits(w[..2]);
    ZeroPad2OfDigits(w[3..]);
    assert w == w[..2] + ":" + w[3..];
  }
}
