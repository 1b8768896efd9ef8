/**
  The period-of-day table `periodo_map` (horas.py:36-42): each phrase maps a
  12-hour hour to a 24-hour hour, or to no hour at all.
 */
module Periods {
  import opened Wrappers
  import opened Clock

  datatype Periodo = Manana | Mediodia | Tarde | Noche | Madrugada

  /** The key of the table, which is also the literal the patterns accept. */
  function Phrase(p: Periodo): string {
    match p
    case Manana => "de la mañana"
    case Mediodia => "del mediodía"
    case Tarde => "de la tarde"
    case Noche => "de la noche"
    case Madrugada => "de la madrugada"
  }

  /** The lambda stored under `Phrase(p)`, as written: `None` where it gives `None`. */
  function PeriodoMap(p: Periodo, h: int): (r: Option<int>)
    ensures EsValidoHora12(h) && r.Some? ==> EsValidoHoraMin(r.value, 0) && r.value % 12 == h % 12
  {
    match p
    case Manana => Some(if h != 12 then h else 0)
    case Mediodia => Some(if h == 12 then 12 else h)
    case Tarde => if 1 <= h <= 7 then Some(h + 12) else None
    case Noche => if 1 <= h <= 4 then Some(h + 12) else None
    case Madrugada => if 1 <= h <= 6 then Some(h) else None
  }

  /**
    A reference form of one row of the table: the 12-hour hours `lo..hi` the
    phrase admits and the 24-hour window `first..last` it sends them to.
   */
  datatype Row = Row(lo: nat, hi: nat, first: nat, last: nat)

  function Table(p: Periodo): (r: Row)
    ensures 1 <= r.lo <= r.hi <= 12 && r.first <= r.last <= 23 && r.last - r.first < 12
  {
    match p
    case Manana => Row(1, 12, 0, 11)
    case Mediodia => Row(1, 12, 1, 12)
    case Tarde => Row(1, 7, 13, 19)
    case Noche => Row(1, 4, 13, 16)
    case Madrugada => Row(1, 6, 1, 6)
  }

  /**
    On the 12-hour dial the lambdas agree with the reference rows: a phrase
    admits exactly the hours `lo..hi`, and it keeps the position on the dial
    (`h24 % 12 == h % 12`) while landing inside the row's window. So
    `de la tarde` admits 1..7 only, `de la noche` 1..4 only, and
    `de la mañana` sends 12 to 0.
   */
  lemma PeriodoMapMatchesTable(p: Periodo, h: int)
    requires 1 <= h <= 12
    ensures PeriodoMap(p, h).Some? <==> Table(p).lo <= h <= Table(p).hi
    ensures PeriodoMap(p, h).Some? ==>
              var h24 := PeriodoMap(p, h).value;
              h24 % 12 == h % 12 && Table(p).first <= h24 <= Table(p).last
  {
  }

  /** A window is shorter than the dial, so the dial position and the row fix the 24-hour hour. */
  lemma WindowFixesHour(p: Periodo, a: int, b: int)
    requires Table(p).first <= a <= Table(p).last && Table(p).first <= b <= Table(p).last
    requires a % 12 == b % 12
    ensures a == b
  {
  }
}
