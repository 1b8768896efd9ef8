/**
  `reemplazar` (horas.py:162-183): six `re.sub` sweeps over one line, in a
  fixed order, each replacing the spans one pattern matches by what its
  resolver returns.
 */
module Normalizer {
  import opened Wrappers
  import opened Text
  import opened Clock
  import opened Resolvers
  import opened Patterns

  /** One entry of `patrones` together with the resolver `reemplazar` pairs it with. */
  datatype Rule = CuartoPeriodoRule | PeriodoRule | CuartoRule | EnPuntoRule | HhmmAltRule | HhmmRule

  /** A compiled pattern tried at one position: `pattern.match(s, i)`. */
  type Matcher = (string, nat) -> Option<Match>

  /** The function given to `re.sub`: from the matched text and its groups to the text that replaces it. */
  type Replacer = (string, Groups) -> string

  /** What each pattern of `patrones` guarantees: a match is a non-empty span that starts with a digit at a word boundary. */
  ghost predicate Anchored(find: Matcher) {
    forall s: string, i: nat {:trigger find(s, i)} :: find(s, i).Some? ==> i < find(s, i).value.end <= |s| && IsDigit(s[i]) && WordBoundary(s, i)
  }

  /** The pattern of each rule. */
  function Pattern(r: Rule): (find: Matcher)
    ensures Anchored(find)
  {
    match r
    case CuartoPeriodoRule => MatchCuartoPeriodo
    case PeriodoRule => MatchPeriodo
    case CuartoRule => MatchCuarto
    case EnPuntoRule => MatchEnPunto
    case HhmmAltRule => MatchHhmmAlt
    case HhmmRule => MatchHhmm
  }

  /** The resolver for the groups of a match; `None` where it returns `match.group(0)`. */
  function Resolve(g: Groups): (t: Option<Time>)
    ensures t.Some? ==> Valid(t.value)
  {
    match g
    case HhmmGroups(h, m) => NormalizarHhmm(h, m)
    case HhmmAltGroups(h, m) => NormalizarHhmmAlt(h, m)
    case EnPuntoGroups(h) => NormalizarEnPunto(h)
    case CuartoGroups(h, t) => NormalizarCuarto(h, t)
    case PeriodoGroups(h, p) => NormalizarPeriodo(h, p)
    case CuartoPeriodoGroups(h, t, p) => NormalizarCuartoPeriodo(h, t, p)
  }

  /**
    What a resolver returns for a match whose text is `span`: the resolved
    time as canonical `HH:MM`, or the matched text itself.
   */
  function Replacement(span: string, g: Groups): (w: string)
    ensures Resolve(g).None? ==> w == span
    ensures Resolve(g).Some? ==> IsCanonical(w) && Parse(w) == Resolve(g).value
  {
    match Resolve(g)
    case None => span
    case Some(t) => Format(t)
  }

  /**
    One `re.sub` sweep over the text from position `i` on: at each position
    the pattern is tried; a match is replaced and the sweep goes on after it,
    otherwise the character is kept. Matching always reads the original
    text, so `\b` looks back at the character before `i` and no replacement
    is ever rescanned.
   */
  function SweepFrom(find: Matcher, repl: Replacer, s: string, i: nat): string
    requires Anchored(find) && i <= |s|
    decreases |s| - i
  {
    if i == |s| then []
    else
      match find(s, i)
      case Some(m) => repl(s[i..m.end], m.groups) + SweepFrom(find, repl, s, m.end)
      case None => [s[i]] + SweepFrom(find, repl, s, i + 1)
  }

  /** `patrones[r].sub(normalizar_r, s)`. */
  function Sweep(r: Rule, s: string): string {
    SweepFrom(Pattern(r), Replacement, s, 0)
  }

  /** The order of the sweeps in `reemplazar`: quarter+period first, then period, quarter, `en punto`, `HhMm`, and `HH:MM` last. */
  const Order: seq<Rule> := [CuartoPeriodoRule, PeriodoRule, CuartoRule, EnPuntoRule, HhmmAltRule, HhmmRule]

  /** The sweeps of `rules` one after the other, each on the text the previous one produced. */
  function SweepAll(rules: seq<Rule>, s: string): string
    decreases |rules|
  {
    if rules == [] then s else SweepAll(rules[1..], Sweep(rules[0], s))
  }

  /** `reemplazar`: the text is reassigned by each sweep of `Order` in turn. */
  function Reemplazar(s: string): string {
    SweepAll(Order, s)
  }

  // ---------------------------------------------------------------------
  // `re.sub` as the Python documentation describes it: find the leftmost
  // match, copy the text before it, replace it, and continue after it.

  /** The leftmost position from `i` on where the pattern matches. */
  function Search(find: Matcher, s: string, i: nat): (p: Option<nat>)
    requires i <= |s|
    ensures p.Some? ==> i <= p.value < |s| && find(s, p.value).Some?
    decreases |s| - i
  {
    if i == |s| then None
    else if find(s, i).Some? then Some(i)
    else Search(find, s, i + 1)
  }

  /** `Search` finds the leftmost match: nothing matches before it, and nothing at all when it finds none. */
  lemma {:induction false} SearchLeftmost(find: Matcher, s: string, i: nat)
    requires i <= |s|
    ensures Search(find, s, i).Some? ==> forall q :: i <= q < Search(find, s, i).value ==> find(s, q).None?
    ensures Search(find, s, i).None? ==> forall q :: i <= q < |s| ==> find(s, q).None?
    decreases |s| - i
  {
    if i < |s| && find(s, i).None? {
      SearchLeftmost(find, s, i + 1);
    }
  }

  function ReSub(find: Matcher, repl: Replacer, s: string, i: nat): string
    requires Anchored(find) && i <= |s|
    decreases |s| - i
  {
    match Search(find, s, i)
    case None => s[i..]
    case Some(p) =>
      var m := find(s, p).value;
      s[i..p] + repl(s[p..m.end], m.groups) + ReSub(find, repl, s, m.end)
  }

  lemma ConsSlice(s: string, i: nat, p: nat)
    requires i < p <= |s|
    ensures s[i..p] == [s[i]] + s[i + 1..p]
  {
  }

  lemma AppendAssoc(a: string, b: string, c: string)
    ensures a + (b + c) == (a + b) + c
  {
  }

  /** A position where nothing matches is copied by `ReSub` as it is. */
  lemma ReSubSkip(find: Matcher, repl: Replacer, s: string, i: nat)
    requires Anchored(find) && i < |s| && find(s, i).None?
    ensures ReSub(find, repl, s, i) == [s[i]] + ReSub(find, repl, s, i + 1)
  {
    assert Search(find, s, i) == Search(find, s, i + 1);
    match Search(find, s, i + 1)
    case None =>
      ConsSlice(s, i, |s|);
      assert s[i..] == s[i..|s|];
    case Some(p) =>
      var m := find(s, p).value;
      var r, t := repl(s[p..m.end], m.groups), ReSub(find, repl, s, m.end);
      assert ReSub(find, repl, s, i + 1) == s[i + 1..p] + r + t;
      ConsSlice(s, i, p);
      AppendAssoc([s[i]], s[i + 1..p], r);
      AppendAssoc([s[i]], s[i + 1..p] + r, t);
  }

  /** The position-by-position sweep is the leftmost, non-overlapping replacement loop of `re.sub`. */
  lemma {:induction false} SweepIsReSub(find: Matcher, repl: Replacer, s: string, i: nat)
    requires Anchored(find) && i <= |s|
    ensures SweepFrom(find, repl, s, i) == ReSub(find, repl, s, i)
    decreases |s| - i
  {
    if i < |s| {
      match find(s, i)
      case Some(m) =>
        assert Search(find, s, i) == Some(i);
        assert s[i..i] == [];
        SweepIsReSub(find, repl, s, m.end);
      case None =>
        SweepIsReSub(find, repl, s, i + 1);
        ReSubSkip(find, repl, s, i);
    }
  }

  // ---------------------------------------------------------------------
  // What the sweeps leave alone.

  /** Positions where the pattern does not match are copied one by one. */
  lemma {:induction false} SweepKeeps(find: Matcher, repl: Replacer, s: string, i: nat, j: nat)
    requires Anchored(find) && i <= j <= |s|
    requires forall k :: i <= k < j ==> find(s, k).None?
    ensures SweepFrom(find, repl, s, i) == s[i..j] + SweepFrom(find, repl, s, j)
    decreases j - i
  {
    if i < j {
      assert find(s, i).None?;
      assert SweepFrom(find, repl, s, i) == [s[i]] + SweepFrom(find, repl, s, i + 1);
      SweepKeeps(find, repl, s, i + 1, j);
      ConsSlice(s, i, j);
      AppendAssoc([s[i]], s[i + 1..j], SweepFrom(find, repl, s, j));
    }
  }

  /** A match is replaced and the sweep resumes where it ends. */
  lemma SweepReplaces(find: Matcher, repl: Replacer, s: string, i: nat, m: Match)
    requires Anchored(find) && i < |s| && find(s, i) == Some(m)
    ensures i < m.end <= |s|
    ensures SweepFrom(find, repl, s, i) == repl(s[i..m.end], m.groups) + SweepFrom(find, repl, s, m.end)
  {
  }

  /** A text that starts with a number of `n` digits and holds no other digit. */
  predicate NumberLead(s: string, n: nat) {
    1 <= n <= |s| && DigitsBetween(s, 0, n) && forall k :: n <= k < |s| ==> !DigitAt(s, k)
  }

  /** In such a text no pattern can match after position 0. */
  lemma NoMatchAfterLead(find: Matcher, s: string, n: nat)
    requires Anchored(find) && NumberLead(s, n)
    ensures forall k :: 1 <= k < |s| ==> find(s, k).None?
  {
    forall k | 1 <= k < |s| ensures find(s, k).None? {
      if k < n {
        assert DigitAt(s, k - 1) && DigitAt(s, k);
      } else {
        assert !DigitAt(s, k);
      }
      NoMatchOffStart(find, s, k);
    }
  }

  /** A non-empty text in which no pattern matches anywhere but at its start. */
  predicate QuietAfterStart(s: string) {
    |s| >= 1 && forall r: Rule, k :: 1 <= k < |s| ==> Pattern(r)(s, k).None?
  }

  /** A number-led text is one. */
  lemma NumberLeadQuiet(s: string, n: nat)
    requires NumberLead(s, n)
    ensures QuietAfterStart(s)
  {
    forall r: Rule {
      NoMatchAfterLead(Pattern(r), s, n);
    }
  }

  /** A sweep over such a text replaces at most the match at position 0 and keeps the rest. */
  lemma SweepLead(find: Matcher, repl: Replacer, s: string)
    requires Anchored(find) && 1 <= |s| && forall k :: 1 <= k < |s| ==> find(s, k).None?
    ensures find(s, 0).None? ==> SweepFrom(find, repl, s, 0) == s
    ensures find(s, 0).Some? ==>
              var m := find(s, 0).value;
              m.end <= |s| && SweepFrom(find, repl, s, 0) == repl(s[..m.end], m.groups) + s[m.end..]
  {
    match find(s, 0)
    case None =>
      SweepKeeps(find, repl, s, 0, |s|);
      assert s[0..|s|] == s;
    case Some(m) =>
      SweepReplaces(find, repl, s, 0, m);
      SweepKeeps(find, repl, s, m.end, |s|);
      assert s[0..m.end] == s[..m.end] && s[m.end..|s|] == s[m.end..];
  }

  /** The same for the sweep of one rule. */
  lemma SweepLeadRule(r: Rule, s: string)
    requires QuietAfterStart(s)
    ensures Pattern(r)(s, 0).None? ==> Sweep(r, s) == s
    ensures Pattern(r)(s, 0).Some? ==>
              var m := Pattern(r)(s, 0).value;
              m.end <= |s| && Sweep(r, s) == Replacement(s[..m.end], m.groups) + s[m.end..]
  {
    SweepLead(Pattern(r), Replacement, s);
  }

  /** The sweep of `r` keeps the start of `s`: its pattern does not match there, or its resolver gives the span back. */
  predicate KeptAt0(r: Rule, s: string) {
    Pattern(r)(s, 0).None? || Resolve(Pattern(r)(s, 0).value.groups).None?
  }

  /** On a number-led text such a sweep changes nothing. */
  lemma LeadKept(r: Rule, s: string)
    requires QuietAfterStart(s) && KeptAt0(r, s)
    ensures Sweep(r, s) == s
  {
    SweepLeadRule(r, s);
    if Pattern(r)(s, 0).Some? {
      var e := Pattern(r)(s, 0).value.end;
      assert s[..e] + s[e..] == s;
    }
  }

  /** A sweep whose pattern matches nowhere in the line leaves it unchanged. */
  lemma SweepUnchanged(r: Rule, s: string)
    requires forall k :: 0 <= k < |s| ==> Pattern(r)(s, k).None?
    ensures Sweep(r, s) == s
  {
    SweepKeeps(Pattern(r), Replacement, s, 0, |s|);
  }

  predicate NoDigit(s: string) {
    forall k :: 0 <= k < |s| ==> !IsDigit(s[k])
  }

  /** Every pattern starts with a digit, so a sweep leaves text without digits as it is. */
  lemma SweepNoDigit(r: Rule, s: string)
    requires NoDigit(s)
    ensures Sweep(r, s) == s
  {
    SweepUnchanged(r, s);
  }

  /** Sweeps that each leave a text unchanged leave it unchanged together. */
  lemma {:induction false} SweepAllFixes(rules: seq<Rule>, s: string)
    requires forall k :: 0 <= k < |rules| ==> Sweep(rules[k], s) == s
    ensures SweepAll(rules, s) == s
    decreases |rules|
  {
    if rules != [] {
      assert Sweep(rules[0], s) == s;
      forall k | 0 <= k < |rules[1..]| ensures Sweep(rules[1..][k], s) == s {
        assert rules[1..][k] == rules[k + 1];
      }
      SweepAllFixes(rules[1..], s);
    }
  }

  /** A line without digits comes out of `reemplazar` unchanged. */
  lemma ReemplazarNoDigit(s: string)
    requires NoDigit(s)
    ensures Reemplazar(s) == s
  {
    forall r: Rule ensures Sweep(r, s) == s {
      SweepNoDigit(r, s);
    }
    SweepAllFixes(Order, s);
  }

  /**
    A number-led text that the first `j` rules keep and rule `j` rewrites at
    its start to `u`: when the remaining rules keep `u`, that is what the
    sweeps give.
   */
  lemma {:induction false} SweepAllLead(rules: seq<Rule>, s: string, j: nat, e: nat, g: Groups)
    requires QuietAfterStart(s) && j < |rules| && e <= |s|
    requires forall k :: 0 <= k < j ==> KeptAt0(rules[k], s)
    requires Pattern(rules[j])(s, 0) == Some(Match(e, g))
    requires SweepAll(rules[j + 1..], Replacement(s[..e], g) + s[e..]) == Replacement(s[..e], g) + s[e..]
    ensures SweepAll(rules, s) == Replacement(s[..e], g) + s[e..]
    decreases j
  {
    if j == 0 {
      SweepLeadRule(rules[0], s);
      assert SweepAll(rules, s) == SweepAll(rules[1..], Sweep(rules[0], s));
    } else {
      LeadKept(rules[0], s);
      assert SweepAll(rules, s) == SweepAll(rules[1..], s);
      forall k | 0 <= k < j - 1 ensures KeptAt0(rules[1..][k], s) {
        assert rules[1..][k] == rules[k + 1];
      }
      assert rules[1..][j - 1] == rules[j];
      assert rules[1..][j..] == rules[j + 1..];
      SweepAllLead(rules[1..], s, j - 1, e, g);
    }
  }

  /** A number-led text that every rule keeps comes out of the sweeps unchanged. */
  lemma SweepAllKept(rules: seq<Rule>, s: string)
    requires QuietAfterStart(s)
    requires forall k :: 0 <= k < |rules| ==> KeptAt0(rules[k], s)
    ensures SweepAll(rules, s) == s
  {
    forall k | 0 <= k < |rules| ensures Sweep(rules[k], s) == s {
      LeadKept(rules[k], s);
    }
    SweepAllFixes(rules, s);
  }

  // ---------------------------------------------------------------------
  // Canonical text on its own is left as it is.

  /** In canonical text the digit pairs sit at 0 and 3, each followed by no space and no `h`. */
  lemma CanonicalDigitPair(w: string, k: nat)
    requires IsCanonical(w) && (k == 0 || k == 3)
    ensures DigitRun(w, k, 2) == 2 && DigitsBetween(w, k, k + 2)
    ensures !CharAt(w, k + 2, ' ') && !CharAt(w, k + 2, 'h')
  {
    var pair := if k == 0 then w[..2] else w[3..];
    assert pair[0] == w[k] && pair[1] == w[k + 1];
    assert DigitAt(w, k) && DigitAt(w, k + 1);
    DigitRunTakes(w, k, 2, 2);
  }

  /** At the digit pairs of canonical text neither `\b(\d{1,2}) ` nor `\b(\d{1,2})h` is found. */
  lemma CanonicalPairNoMatch(w: string, k: nat)
    requires IsCanonical(w) && (k == 0 || k == 3)
    ensures HourSpace(w, k) == 0 && MatchHhmmAlt(w, k).None?
  {
    CanonicalDigitPair(w, k);
  }

  /** None of the first five patterns matches at any position of canonical text. */
  lemma CanonicalNoMatchAt(r: Rule, w: string, k: nat)
    requires IsCanonical(w) && r != HhmmRule && k < |w|
    ensures Pattern(r)(w, k).None?
  {
    if k == 0 || k == 3 {
      CanonicalPairNoMatch(w, k);
      match r
      case CuartoPeriodoRule => assert MatchCuartoPeriodo(w, k).None?;
      case PeriodoRule => assert MatchPeriodo(w, k).None?;
      case CuartoRule => assert MatchCuarto(w, k).None?;
      case EnPuntoRule => assert MatchEnPunto(w, k).None?;
      case HhmmAltRule =>
    } else {
      assert w[2] == ':' && IsDigit(w[0]) && IsDigit(w[3]);
      assert !IsDigit(w[k]) || !WordBoundary(w, k);
      NoMatchOffStart(Pattern(r), w, k);
    }
  }

  /** A pattern cannot match where no digit starts a word. */
  lemma NoMatchOffStart(find: Matcher, s: string, k: nat)
    requires Anchored(find) && k < |s| && (!IsDigit(s[k]) || !WordBoundary(s, k))
    ensures find(s, k).None?
  {
  }

  /** So the first five sweeps leave canonical text unchanged. */
  lemma CanonicalQuiet(r: Rule, w: string)
    requires IsCanonical(w) && r != HhmmRule
    ensures Sweep(r, w) == w
  {
    forall k | 0 <= k < |w| ensures Pattern(r)(w, k).None? {
      CanonicalNoMatchAt(r, w, k);
    }
    SweepUnchanged(r, w);
  }

  /** `HH:MM` matches canonical text as a whole, with the hour and the minutes it denotes. */
  lemma CanonicalHhmmMatch(w: string)
    requires IsCanonical(w)
    ensures MatchHhmm(w, 0) == Some(Match(5, HhmmGroups(Parse(w).hour, Parse(w).minute)))
  {
    ShortDigitsValue(w[..2]);
    ShortDigitsValue(w[3..]);
    assert w[..2][0] == w[0] && w[..2][1] == w[1] && w[3..][0] == w[3] && w[3..][1] == w[4];
    assert HhmmFits(w, 0, 2);
    ValueBetweenSlice(w, 0, 2);
    ValueBetweenSlice(w, 3, 5);
    assert w[0..2] == w[..2] && w[3..5] == w[3..];
    MatchHhmmComplete(w, 0, 2);
  }

  /** `normalizar_hhmm` writes canonical text back as it was. */
  lemma CanonicalReplacement(w: string)
    requires IsCanonical(w)
    ensures Replacement(w, HhmmGroups(Parse(w).hour, Parse(w).minute)) == w
  {
    FormatParse(w);
  }

  /** The last sweep writes canonical text back as it was. */
  lemma CanonicalHhmm(w: string)
    requires IsCanonical(w)
    ensures Sweep(HhmmRule, w) == w
  {
    SweepHhmm(w);
    CanonicalHhmmSweep(w);
  }

  lemma SweepHhmm(s: string)
    ensures Sweep(HhmmRule, s) == SweepFrom(MatchHhmm, Replacement, s, 0)
  {
    assert Pattern(HhmmRule) == MatchHhmm;
  }

  lemma CanonicalHhmmSweep(w: string)
    requires IsCanonical(w)
    ensures SweepFrom(MatchHhmm, Replacement, w, 0) == w
  {
    var m := Match(5, HhmmGroups(Parse(w).hour, Parse(w).minute));
    CanonicalHhmmMatch(w);
    SweepReplaces(MatchHhmm, Replacement, w, 0, m);
    CanonicalReplacement(w);
    assert w[0..5] == w;
  }

  /** Any run of the sweeps leaves canonical `HH:MM` on its own unchanged. */
  lemma {:induction false} SweepAllCanonical(rules: seq<Rule>, w: string)
    requires IsCanonical(w)
    ensures SweepAll(rules, w) == w
  {
    forall k | 0 <= k < |rules| ensures Sweep(rules[k], w) == w {
      if rules[k] == HhmmRule {
        CanonicalHhmm(w);
      } else {
        CanonicalQuiet(rules[k], w);
      }
    }
    SweepAllFixes(rules, w);
  }

  /** In particular `reemplazar` is stable on what it writes for a line holding one time. */
  lemma ReemplazarCanonical(w: string)
    requires IsCanonical(w)
    ensures Reemplazar(w) == w
  {
    SweepAllCanonical(Order, w);
  }

  // ---------------------------------------------------------------------
  // A written time followed by text that gives the last three patterns
  // nothing to match.

  /**
    What may follow a written time so that `HhMm` and `HH:MM` find nothing
    more: no digit, and no word character right after the time.
   */
  predicate PlainTail(rest: string) {
    && NoDigit(rest)
    && (rest == [] || !IsWordChar(rest[0]))
  }

  /**
    What may follow a written time so that `en punto` finds nothing either:
    a plain tail with no `e` after the first character (so no ` en punto`).
   */
  predicate QuietTail(rest: string) {
    PlainTail(rest) && (|rest| >= 2 ==> rest[1] != 'e')
  }

  /** Canonical `HH:MM` followed by a plain tail. */
  predicate ClockLead(s: string) {
    |s| >= 5 && IsCanonical(s[..5]) && PlainTail(s[5..])
  }

  /** Canonical `HH:MM` followed by a quiet tail. */
  predicate TimeLead(s: string) {
    ClockLead(s) && QuietTail(s[5..])
  }

  lemma TimeLeadChars(s: string)
    requires ClockLead(s)
    ensures DigitAt(s, 0) && DigitAt(s, 1) && s[2] == ':' && DigitAt(s, 3) && DigitAt(s, 4)
    ensures forall k :: 5 <= k < |s| ==> !IsDigit(s[k])
    ensures |s| > 5 ==> !IsWordChar(s[5])
    ensures TimeLead(s) && |s| > 6 ==> s[6] != 'e'
  {
    var w := s[..5];
    assert w[..2][0] == s[0] && w[..2][1] == s[1] && w[3..][0] == s[3] && w[3..][1] == s[4];
    forall k | 5 <= k < |s| ensures !IsDigit(s[k]) {
      assert s[5..][k - 5] == s[k];
    }
  }

  /** At the digit pairs neither `\b(\d{1,2}) en punto` nor `\b(\d{1,2})h` is found. */
  lemma TimeLeadPair(s: string, k: nat)
    requires ClockLead(s) && (k == 0 || k == 3)
    ensures MatchHhmmAlt(s, k).None?
    ensures TimeLead(s) ==> MatchEnPunto(s, k).None?
  {
    TimeLeadChars(s);
    DigitRunTakes(s, k, 2, 2);
    if TimeLead(s) && k == 3 && HourSpace(s, 3) > 0 && |s| > 6 {
      NotAtFirst(s, 6, "en punto");
    }
  }

  /** `HH:MM` does not start anywhere but at 0. */
  lemma TimeLeadHhmmAt(s: string, k: nat)
    requires ClockLead(s) && 0 < k < |s|
    ensures MatchHhmm(s, k).None?
  {
    TimeLeadChars(s);
    if k == 3 {
      if MatchHhmm(s, 3).Some? {
        MatchHhmmSound(s, 3);
      }
    } else {
      assert !IsDigit(s[k]) || !WordBoundary(s, k);
      NoMatchOffStart(MatchHhmm, s, k);
    }
  }

  /** The last three patterns find nothing but the time itself. */
  lemma TimeLeadNoMatchAt(r: Rule, s: string, k: nat)
    requires ClockLead(s) && (r == HhmmAltRule || (r == EnPuntoRule && TimeLead(s))) && k < |s|
    ensures Pattern(r)(s, k).None?
  {
    TimeLeadChars(s);
    if k == 0 || k == 3 {
      TimeLeadPair(s, k);
      if r == EnPuntoRule {
        assert Pattern(r) == MatchEnPunto;
      } else {
        assert Pattern(r) == MatchHhmmAlt;
      }
    } else {
      assert !IsDigit(s[k]) || !WordBoundary(s, k);
      NoMatchOffStart(Pattern(r), s, k);
    }
  }

  /** `HH:MM` matches the time at the start, and `normalizar_hhmm` writes it back. */
  lemma TimeLeadHhmmMatch(s: string)
    requires ClockLead(s)
    ensures MatchHhmm(s, 0) == Some(Match(5, HhmmGroups(Parse(s[..5]).hour, Parse(s[..5]).minute)))
  {
    var w := s[..5];
    TimeLeadChars(s);
    ShortDigitsValue(w[..2]);
    ShortDigitsValue(w[3..]);
    assert w[..2][0] == s[0] && w[..2][1] == s[1] && w[3..][0] == s[3] && w[3..][1] == s[4];
    assert HhmmFits(s, 0, 2);
    ValueBetweenSlice(s, 0, 2);
    ValueBetweenSlice(s, 3, 5);
    assert s[0..2] == w[..2] && s[3..5] == w[3..];
    MatchHhmmComplete(s, 0, 2);
  }

  lemma TimeLeadHhmmSweep(s: string)
    requires ClockLead(s)
    ensures SweepFrom(MatchHhmm, Replacement, s, 0) == s
  {
    var w := s[..5];
    var m := Match(5, HhmmGroups(Parse(w).hour, Parse(w).minute));
    TimeLeadHhmmMatch(s);
    SweepReplaces(MatchHhmm, Replacement, s, 0, m);
    CanonicalReplacement(w);
    forall k | 5 <= k < |s| ensures MatchHhmm(s, k).None? {
      TimeLeadHhmmAt(s, k);
    }
    SweepKeeps(MatchHhmm, Replacement, s, 5, |s|);
    assert s[0..5] == w && s[5..|s|] == s[5..];
  }

  /**
    So the sweeps of `HhMm` and `HH:MM` leave such a text unchanged, and so
    does the sweep of `en punto` when the tail is quiet.
   */
  lemma {:induction false} SweepAllTimeLead(rules: seq<Rule>, s: string)
    requires ClockLead(s)
    requires forall k :: 0 <= k < |rules| ==> rules[k] in {EnPuntoRule, HhmmAltRule, HhmmRule}
    requires EnPuntoRule in rules ==> TimeLead(s)
    ensures SweepAll(rules, s) == s
  {
    forall k | 0 <= k < |rules| ensures Sweep(rules[k], s) == s {
      if rules[k] == HhmmRule {
        SweepHhmm(s);
        TimeLeadHhmmSweep(s);
      } else {
        forall i | 0 <= i < |s| ensures Pattern(rules[k])(s, i).None? {
          TimeLeadNoMatchAt(rules[k], s, i);
        }
        SweepUnchanged(rules[k], s);
      }
    }
    SweepAllFixes(rules, s);
  }

  // ---------------------------------------------------------------------
  // `reemplazar` on a line that starts with its only number.

  /** The patterns of `Order`, position by position. */
  lemma OrderPatterns()
    ensures |Order| == 6
    ensures Pattern(Order[0]) == MatchCuartoPeriodo && Pattern(Order[1]) == MatchPeriodo
    ensures Pattern(Order[2]) == MatchCuarto && Pattern(Order[3]) == MatchEnPunto
    ensures Pattern(Order[4]) == MatchHhmmAlt && Pattern(Order[5]) == MatchHhmm
  {
  }

  /** The rules of `Order` before index `j` all keep the start of `s`, stated rule by rule. */
  predicate KeptBefore(s: string, j: nat) {
    && (0 < j ==> KeptAt0(Order[0], s)) && (1 < j ==> KeptAt0(Order[1], s))
    && (2 < j ==> KeptAt0(Order[2], s)) && (3 < j ==> KeptAt0(Order[3], s))
    && (4 < j ==> KeptAt0(Order[4], s)) && (5 < j ==> KeptAt0(Order[5], s))
  }

  /** The rules of `Order` after index `j` all keep the start of `s`, stated rule by rule. */
  predicate KeptAfter(s: string, j: nat) {
    && (j < 1 ==> KeptAt0(Order[1], s)) && (j < 2 ==> KeptAt0(Order[2], s))
    && (j < 3 ==> KeptAt0(Order[3], s)) && (j < 4 ==> KeptAt0(Order[4], s))
    && (j < 5 ==> KeptAt0(Order[5], s))
  }

  lemma KeptBeforeAll(s: string, j: nat)
    requires KeptBefore(s, j)
    ensures forall k :: 0 <= k < j && k < |Order| ==> KeptAt0(Order[k], s)
  {
  }

  lemma KeptAfterAll(s: string, j: nat)
    requires KeptAfter(s, j)
    ensures forall k :: j < k < |Order| ==> KeptAt0(Order[k], s)
  {
  }

  /** When every rule keeps the start of the line, the line is unchanged. */
  lemma ReemplazarKept(s: string)
    requires QuietAfterStart(s)
    requires KeptAt0(Order[0], s) && KeptAt0(Order[1], s) && KeptAt0(Order[2], s)
    requires KeptAt0(Order[3], s) && KeptAt0(Order[4], s) && KeptAt0(Order[5], s)
    ensures Reemplazar(s) == s
  {
    SweepAllKept(Order, s);
  }

  /**
    When the rules before `j` keep the line, rule `j` matches all of it and
    (unless its resolver gives up) the rules after `j` keep it too, the line
    becomes the replacement rule `j` gives for it.
   */
  lemma ReemplazarWhole(s: string, j: nat, g: Groups)
    requires QuietAfterStart(s) && j < |Order| && KeptBefore(s, j)
    requires Pattern(Order[j])(s, 0) == Some(Match(|s|, g))
    requires Resolve(g).None? ==> KeptAfter(s, j)
    ensures Reemplazar(s) == Replacement(s, g)
  {
    KeptBeforeAll(s, j);
    assert s[..|s|] == s && s[|s|..] == [];
    if Resolve(g).Some? {
      SweepAllCanonical(Order[j + 1..], Replacement(s, g));
      assert Replacement(s[..|s|], g) + s[|s|..] == Replacement(s, g);
      SweepAllLead(Order, s, j, |s|, g);
    } else {
      assert KeptAt0(Order[j], s);
      KeptAfterAll(s, j);
      SweepAllKept(Order, s);
    }
  }

  /**
    When the rules before `j` keep the line and rule `j`, one of the last
    four, resolves the text at its start with only a plain tail after it,
    the line becomes the written time followed by that tail. The tail must
    also be quiet when the `en punto` sweep is still to come.
   */
  lemma ReemplazarTimeLead(s: string, j: nat, e: nat, g: Groups)
    requires QuietAfterStart(s) && 2 <= j < |Order| && e <= |s| && KeptBefore(s, j)
    requires Pattern(Order[j])(s, 0) == Some(Match(e, g))
    requires Resolve(g).Some? && PlainTail(s[e..]) && (j < 3 ==> QuietTail(s[e..]))
    ensures Reemplazar(s) == Format(Resolve(g).value) + s[e..]
  {
    KeptBeforeAll(s, j);
    var u := Replacement(s[..e], g) + s[e..];
    assert u[..5] == Replacement(s[..e], g) && u[5..] == s[e..];
    var tail := Order[j + 1..];
    forall k | 0 <= k < |tail| ensures tail[k] in {EnPuntoRule, HhmmAltRule, HhmmRule} && (j >= 3 ==> tail[k] != EnPuntoRule) {
      assert tail[k] == Order[j + 1 + k];
    }
    SweepAllTimeLead(tail, u);
    SweepAllLead(Order, s, j, e, g);
  }
}
