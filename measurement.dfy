/** The measurement a label carries: the first match of the regular expression
    `(\d+,\d+|\d+\.\d+|\d+)\s*(mm²|mm2|mm)` in the label, as the GeoJSON converter
    finds it with `re.findall(...)[0]`.

    The engine below follows the regular-expression matcher: it tries each start
    position from the left, and at one position the three number forms and then the
    three units in the order the pattern lists them. Greedy `\d+` and `\s*` never
    need to give characters back here, because a shorter run is always followed by
    a digit or a white-space character, which neither a separator nor a unit can
    start with; so each run is taken whole. `PatternAt` states the pattern without
    reference to the engine, and the lemmas tie the two together. */
module Measurement {
  import opened Options
  import Text
  import Numbers

  /** The three alternatives of the unit group, in the order the pattern lists them. */
  datatype Unit = SquareMm | Mm2 | Mm

  function UnitText(u: Unit): (t: string)
    ensures |t| >= 2 && t[0] == 'm' && t[1] == 'm'
  {
    match u
    case SquareMm => "mm\U{B2}"
    case Mm2 => "mm2"
    case Mm => "mm"
  }

  /** The pattern's two groups: the number text and the unit. */
  datatype Match = Match(value: string, unit: Unit)

  // ---- the engine ----

  /** The length of the run of digits that starts at `p`. */
  function DigitRun(s: string, p: nat): (n: nat)
    requires p <= |s|
    ensures p + n <= |s|
    ensures forall k :: p <= k < p + n ==> Numbers.IsDigit(s[k])
    ensures p + n == |s| || !Numbers.IsDigit(s[p + n])
    decreases |s| - p
  {
    if p < |s| && Numbers.IsDigit(s[p]) then 1 + DigitRun(s, p + 1) else 0
  }

  /** The length of the run of white space that starts at `p`. */
  function SpaceRun(s: string, p: nat): (n: nat)
    requires p <= |s|
    ensures p + n <= |s|
    ensures Text.AllSpace(s[p..p + n])
    ensures p + n == |s| || !Text.IsSpace(s[p + n])
    decreases |s| - p
  {
    if p < |s| && Text.IsSpace(s[p]) then
      var n := 1 + SpaceRun(s, p + 1);
      assert s[p..p + n] == [s[p]] + s[p + 1..p + n];
      n
    else 0
  }

  /** The unit group at `i`: the first alternative that matches. */
  function UnitAt(s: string, i: nat): Option<Unit>
    requires i <= |s|
  {
    if i + 2 <= |s| && s[i] == 'm' && s[i + 1] == 'm' then
      if i + 2 < |s| && s[i + 2] == '\U{B2}' then Some(SquareMm)
      else if i + 2 < |s| && s[i + 2] == '2' then Some(Mm2)
      else Some(Mm)
    else None
  }

  /** The number ran from `p` to `e`; then `\s*` and the unit group. */
  function UnitAfter(s: string, p: nat, e: nat): Option<Match>
    requires p <= e <= |s|
  {
    match UnitAt(s, e + SpaceRun(s, e))
    case Some(u) => Some(Match(s[p..e], u))
    case None => None
  }

  /** Where the number of the alternative `\d+<sep>\d+` at `p` ends, or -1. */
  function FractionEnd(s: string, p: nat, sep: char): (e: int)
    requires p <= |s|
    ensures e == -1 || p < e <= |s|
  {
    var q := p + DigitRun(s, p);
    if q == p || q >= |s| || s[q] != sep then -1
    else
      var e := q + 1 + DigitRun(s, q + 1);
      if e == q + 1 then -1 else e
  }

  /** Where the number of the alternative `\d+` at `p` ends, or -1. */
  function IntegerEnd(s: string, p: nat): (e: int)
    requires p <= |s|
    ensures e == -1 || p < e <= |s|
  {
    var e := p + DigitRun(s, p);
    if e == p then -1 else e
  }

  /** One alternative: its number (ending at `e`, or failing with -1), then the rest
      of the pattern. */
  function AlternativeAt(s: string, p: nat, e: int): Option<Match>
    requires e == -1 || p <= e <= |s|
  {
    if e == -1 then None else UnitAfter(s, p, e)
  }

  /** The whole pattern at `p`, alternatives in the order written. */
  function MatchAt(s: string, p: nat): Option<Match>
    requires p <= |s|
  {
    match AlternativeAt(s, p, FractionEnd(s, p, ','))
    case Some(m) => Some(m)
    case None =>
      match AlternativeAt(s, p, FractionEnd(s, p, '.'))
      case Some(m) => Some(m)
      case None => AlternativeAt(s, p, IntegerEnd(s, p))
  }

  /** The first position at or after `p0` where the pattern matches, or -1: the
      engine tries start positions from left to right. */
  function FirstMatchAt(s: string, p0: nat): (p: int)
    requires p0 <= |s|
    ensures p == -1 || (p0 <= p <= |s| && MatchAt(s, p).Some?)
    ensures forall q :: p0 <= q <= |s| && (p == -1 || q < p) ==> MatchAt(s, q).None?
    decreases |s| - p0
  {
    if MatchAt(s, p0).Some? then p0
    else if p0 == |s| then -1
    else FirstMatchAt(s, p0 + 1)
  }

  /** The first element of `re.findall(pattern, text)`, if there is one. */
  function Find(text: string): Option<Match> {
    var p := FirstMatchAt(text, 0);
    if p == -1 then None else MatchAt(text, p)
  }

  // ---- the pattern, stated declaratively ----

  /** Digits, or digits, a comma or a point, and digits. */
  predicate IsNumberText(v: string) {
    (v != [] && Numbers.AllDigits(v)) || exists i | 0 < i < |v| - 1 :: SplitNumber(v, i)
  }

  /** `v` is digits, a comma or point at index `i`, then digits. */
  predicate SplitNumber(v: string, i: int) {
    0 < i < |v| - 1 && (v[i] == ',' || v[i] == '.')
    && forall k :: 0 <= k < |v| && k != i ==> Numbers.IsDigit(v[k])
  }

  /** At `p`, `s` holds the number text `v`, then the white space `w`, then the unit `u`. */
  predicate PatternAt(s: string, p: int, v: string, w: string, u: Unit) {
    IsNumberText(v) && Text.AllSpace(w)
    && Text.OccursAt(s, v, p) && Text.OccursAt(s, w, p + |v|)
    && Text.OccursAt(s, UnitText(u), p + |v| + |w|)
  }

  /** Where both `mm²` (or `mm2`) and `mm` fit, the longer one is taken. */
  predicate PreferredUnit(s: string, i: int, u: Unit) {
    match u
    case SquareMm => true
    case Mm2 => !Text.OccursAt(s, UnitText(SquareMm), i)
    case Mm => !Text.OccursAt(s, UnitText(SquareMm), i) && !Text.OccursAt(s, UnitText(Mm2), i)
  }

  /** The white space that starts at `e`, all of it. */
  function SpaceAfter(s: string, e: nat): (w: string)
    requires e <= |s|
    ensures Text.AllSpace(w) && Text.OccursAt(s, w, e)
  {
    s[e..e + SpaceRun(s, e)]
  }

  /** `m` is an occurrence of the pattern at `p` (with all the white space there),
      and its unit is the preferred one. */
  predicate Reports(s: string, p: nat, m: Match) {
    p + |m.value| <= |s|
    && var w := SpaceAfter(s, p + |m.value|);
    PatternAt(s, p, m.value, w, m.unit) && PreferredUnit(s, p + |m.value| + |w|, m.unit)
  }

  // ---- engine against pattern ----

  /** An occurrence, character by character. */
  lemma OccursAtMeans(s: string, t: string, i: int)
    ensures Text.OccursAt(s, t, i) <==>
      0 <= i && i + |t| <= |s| && forall k :: 0 <= k < |t| ==> s[i + k] == t[k]
  {
    if 0 <= i && i + |t| <= |s| {
      if forall k :: 0 <= k < |t| ==> s[i + k] == t[k] {
        assert s[i..i + |t|] == t;
      }
      if Text.OccursAt(s, t, i) {
        forall k | 0 <= k < |t|
          ensures s[i + k] == t[k]
        {
          assert s[i..i + |t|][k] == s[i + k];
        }
      }
    }
  }

  /** A digit run that ends where the digits end is the run the engine takes. */
  lemma DigitRunIs(s: string, p: nat, n: nat)
    requires p + n <= |s|
    requires forall k :: p <= k < p + n ==> Numbers.IsDigit(s[k])
    requires p + n == |s| || !Numbers.IsDigit(s[p + n])
    ensures DigitRun(s, p) == n
  {
  }

  lemma SpaceRunIs(s: string, p: nat, n: nat)
    requires p + n <= |s|
    requires Text.AllSpace(s[p..p + n])
    requires p + n == |s| || !Text.IsSpace(s[p + n])
    ensures SpaceRun(s, p) == n
  {
    var r := SpaceRun(s, p);
    forall k | p <= k < p + n
      ensures Text.IsSpace(s[k])
    {
      assert s[p..p + n][k - p] == s[k];
    }
    forall k | p <= k < p + r
      ensures Text.IsSpace(s[k])
    {
      assert s[p..p + r][k - p] == s[k];
    }
  }

  /** The unit the engine picks occurs there and is the preferred one. */
  lemma UnitAtSound(s: string, i: nat)
    requires i <= |s| && UnitAt(s, i).Some?
    ensures Text.OccursAt(s, UnitText(UnitAt(s, i).value), i)
    ensures PreferredUnit(s, i, UnitAt(s, i).value)
  {
    OccursAtMeans(s, UnitText(SquareMm), i);
    OccursAtMeans(s, UnitText(Mm2), i);
    OccursAtMeans(s, UnitText(Mm), i);
  }

  /** Wherever a unit occurs, the engine finds one. */
  lemma UnitAtComplete(s: string, i: nat, u: Unit)
    requires i <= |s| && Text.OccursAt(s, UnitText(u), i)
    ensures UnitAt(s, i).Some?
  {
    OccursAtMeans(s, UnitText(u), i);
    assert s[i] == UnitText(u)[0] && s[i + 1] == UnitText(u)[1];
  }

  /** When the number text runs from `p` to `e`, what `UnitAfter` finds is reported. */
  lemma UnitAfterSound(s: string, p: nat, e: nat)
    requires p <= e <= |s| && UnitAfter(s, p, e).Some? && IsNumberText(s[p..e])
    ensures Reports(s, p, UnitAfter(s, p, e).value)
  {
    var v := s[p..e];
    var n := SpaceRun(s, e);
    var u := UnitAt(s, e + n).value;
    assert UnitAfter(s, p, e) == Some(Match(v, u));
    UnitAtSound(s, e + n);
    assert Text.OccursAt(s, v, p);
    ReportsIntro(s, p, v, u);
  }

  lemma ReportsIntro(s: string, p: nat, v: string, u: Unit)
    requires p + |v| <= |s| && IsNumberText(v) && Text.OccursAt(s, v, p)
    requires Text.OccursAt(s, UnitText(u), p + |v| + SpaceRun(s, p + |v|))
    requires PreferredUnit(s, p + |v| + SpaceRun(s, p + |v|), u)
    ensures Reports(s, p, Match(v, u))
  {
  }

  /** The number of the alternative `\d+<sep>\d+` is number text. */
  lemma FractionEndSound(s: string, p: nat, sep: char)
    requires p <= |s| && (sep == ',' || sep == '.') && FractionEnd(s, p, sep) != -1
    ensures IsNumberText(s[p..FractionEnd(s, p, sep)])
  {
    var q := p + DigitRun(s, p);
    var v := s[p..FractionEnd(s, p, sep)];
    assert forall k :: 0 <= k < |v| ==> v[k] == s[p + k];
    assert SplitNumber(v, q - p);
  }

  /** The number of the alternative `\d+` is number text. */
  lemma IntegerEndSound(s: string, p: nat)
    requires p <= |s| && IntegerEnd(s, p) != -1
    ensures IsNumberText(s[p..IntegerEnd(s, p)])
  {
    var v := s[p..IntegerEnd(s, p)];
    assert forall k :: 0 <= k < |v| ==> v[k] == s[p + k];
  }

  /** Soundness: every match the engine reports is an occurrence of the pattern,
      with the preferred unit. */
  lemma MatchAtSound(s: string, p: nat)
    requires p <= |s| && MatchAt(s, p).Some?
    ensures Reports(s, p, MatchAt(s, p).value)
  {
    var e1, e2, e3 := FractionEnd(s, p, ','), FractionEnd(s, p, '.'), IntegerEnd(s, p);
    if AlternativeAt(s, p, e1).Some? {
      FractionEndSound(s, p, ',');
      UnitAfterSound(s, p, e1);
    } else if AlternativeAt(s, p, e2).Some? {
      FractionEndSound(s, p, '.');
      UnitAfterSound(s, p, e2);
    } else {
      IntegerEndSound(s, p);
      UnitAfterSound(s, p, e3);
    }
  }

  /** At an occurrence, the number text is followed by the white space and then the
      unit, which starts with `m`; so the character after the number is neither a
      digit nor a separator, and the white space found there is exactly `w`. */
  lemma AfterNumber(s: string, p: nat, v: string, w: string, u: Unit)
    requires PatternAt(s, p, v, w, u)
    ensures p + |v| + |w| + 2 <= |s|
    ensures forall k :: 0 <= k < |v| ==> s[p + k] == v[k]
    ensures !Numbers.IsDigit(s[p + |v|]) && s[p + |v|] != ',' && s[p + |v|] != '.'
    ensures SpaceRun(s, p + |v|) == |w|
  {
    OccursAtMeans(s, v, p);
    OccursAtMeans(s, w, p + |v|);
    OccursAtMeans(s, UnitText(u), p + |v| + |w|);
    assert s[p + |v| + |w|] == 'm';
    if w != [] {
      assert s[p + |v|] == w[0];
    }
    assert s[p + |v|..p + |v| + |w|] == w;
    SpaceRunIs(s, p + |v|, |w|);
  }

  /** At an occurrence, the white space and unit after the number text are found. */
  lemma UnitAfterComplete(s: string, p: nat, v: string, w: string, u: Unit)
    requires PatternAt(s, p, v, w, u)
    ensures p + |v| <= |s|
    ensures UnitAfter(s, p, p + |v|).Some? && UnitAfter(s, p, p + |v|).value.value == v
  {
    AfterNumber(s, p, v, w, u);
    UnitAtComplete(s, p + |v| + |w|, u);
    assert s[p..p + |v|] == v;
  }

  /** Where digits alone run from `p` and are followed by neither a digit nor a
      separator, both fraction alternatives fail and the integer alternative ends
      where the digits do. */
  lemma IntegerComplete(s: string, p: nat, v: string)
    requires v != [] && Numbers.AllDigits(v) && p + |v| < |s|
    requires forall k :: 0 <= k < |v| ==> s[p + k] == v[k]
    requires !Numbers.IsDigit(s[p + |v|]) && s[p + |v|] != ',' && s[p + |v|] != '.'
    ensures FractionEnd(s, p, ',') == -1 && FractionEnd(s, p, '.') == -1
    ensures IntegerEnd(s, p) == p + |v|
  {
    forall k | p <= k < p + |v|
      ensures Numbers.IsDigit(s[k])
    {
      assert s[p + (k - p)] == v[k - p];
    }
    DigitRunIs(s, p, |v|);
  }

  /** Where digits, a separator and digits run from `p` and are followed by a
      non-digit, the alternative for that separator ends where the digits do, and
      the comma alternative fails when the separator is a point. */
  lemma FractionComplete(s: string, p: nat, v: string, i: nat)
    requires SplitNumber(v, i) && p + |v| < |s|
    requires forall k :: 0 <= k < |v| ==> s[p + k] == v[k]
    requires !Numbers.IsDigit(s[p + |v|])
    ensures FractionEnd(s, p, v[i]) == p + |v|
    ensures v[i] == '.' ==> FractionEnd(s, p, ',') == -1
  {
    var e := p + |v|;
    forall k | p <= k < e && k != p + i
      ensures Numbers.IsDigit(s[k])
    {
      assert s[p + (k - p)] == v[k - p];
    }
    assert s[p + i] == v[i];
    DigitRunIs(s, p, i);
    DigitRunIs(s, p + i + 1, e - p - i - 1);
    FractionEndIs(s, p, p + i, e, v[i]);
  }

  lemma FractionEndIs(s: string, p: nat, q: nat, e: nat, sep: char)
    requires p < q && q + 1 < e <= |s| && s[q] == sep
    requires DigitRun(s, p) == q - p && DigitRun(s, q + 1) == e - q - 1
    ensures FractionEnd(s, p, sep) == e
    ensures sep != ',' ==> FractionEnd(s, p, ',') == -1
  {
  }

  /** The engine takes the first alternative whose number ends. */
  lemma MatchAtFromEnds(s: string, p: nat, e: nat)
    requires p < e <= |s|
    requires FractionEnd(s, p, ',') == e
      || (FractionEnd(s, p, ',') == -1 && FractionEnd(s, p, '.') == e)
      || (FractionEnd(s, p, ',') == -1 && FractionEnd(s, p, '.') == -1 && IntegerEnd(s, p) == e)
    ensures MatchAt(s, p) == UnitAfter(s, p, e)
  {
  }

  /** Completeness at one position: wherever the pattern occurs, the engine matches
      there, with the same number text. */
  lemma MatchAtComplete(s: string, p: nat, v: string, w: string, u: Unit)
    requires PatternAt(s, p, v, w, u)
    ensures p <= |s| && MatchAt(s, p).Some? && MatchAt(s, p).value.value == v
  {
    UnitAfterComplete(s, p, v, w, u);
    AfterNumber(s, p, v, w, u);
    if v != [] && Numbers.AllDigits(v) {
      IntegerComplete(s, p, v);
    } else {
      var i :| 0 < i < |v| - 1 && SplitNumber(v, i);
      FractionComplete(s, p, v, i);
    }
    MatchAtFromEnds(s, p, p + |v|);
  }

  /** A text yields a measurement exactly when it contains digits (with an optional
      comma or point and more digits), optional white space and `mm²`, `mm2` or `mm`. */
  lemma FindIff(text: string)
    ensures Find(text).Some? <==> exists p, v, w, u :: PatternAt(text, p, v, w, u)
  {
    if Find(text).Some? {
      FindSound(text);
    }
    if exists q, v, w, u :: PatternAt(text, q, v, w, u) {
      var q, v, w, u :| PatternAt(text, q, v, w, u);
      FindComplete(text, q, v, w, u);
    }
  }

  /** A reported measurement is an occurrence of the pattern. */
  lemma FindSound(text: string)
    requires Find(text).Some?
    ensures exists p, v, w, u :: PatternAt(text, p, v, w, u)
  {
    var p := FirstMatchAt(text, 0);
    MatchAtSound(text, p);
    var m := MatchAt(text, p).value;
    ReportsPattern(text, p, m);
  }

  lemma ReportsPattern(s: string, p: nat, m: Match)
    requires Reports(s, p, m)
    ensures exists v, w, u :: PatternAt(s, p, v, w, u)
  {
    assert PatternAt(s, p, m.value, SpaceAfter(s, p + |m.value|), m.unit);
  }

  /** Any occurrence of the pattern makes the search report a measurement. */
  lemma FindComplete(text: string, q: int, v: string, w: string, u: Unit)
    requires PatternAt(text, q, v, w, u)
    ensures Find(text).Some?
  {
    MatchAtComplete(text, q, v, w, u);
    assert MatchAt(text, q).Some?;
  }

  /** The measurement reported is an occurrence of the pattern, with the preferred
      unit, at the position where the search stops, and no occurrence starts further
      left. */
  lemma FindLeftmost(text: string)
    requires Find(text).Some?
    ensures var p := FirstMatchAt(text, 0);
      p >= 0 && Reports(text, p, Find(text).value)
      && forall q, v, w, u :: q < p ==> !PatternAt(text, q, v, w, u)
  {
    var p := FirstMatchAt(text, 0);
    MatchAtSound(text, p);
    forall q, v, w, u | q < p
      ensures !PatternAt(text, q, v, w, u)
    {
      if PatternAt(text, q, v, w, u) {
        MatchAtComplete(text, q, v, w, u);
      }
    }
  }

  /** The converter only searches labels containing `mm`; every label with a
      measurement contains `mm`, so that test never hides one. */
  lemma MmGuardIsRedundant(text: string)
    requires Find(text).Some?
    ensures Text.Contains(text, "mm")
  {
    FindLeftmost(text);
    ReportsContainsMm(text, FirstMatchAt(text, 0), Find(text).value);
  }

  lemma ReportsContainsMm(s: string, p: nat, m: Match)
    requires Reports(s, p, m)
    ensures Text.Contains(s, "mm")
  {
    var i := p + |m.value| + |SpaceAfter(s, p + |m.value|)|;
    OccursAtMeans(s, UnitText(m.unit), i);
    OccursAtMeans(s, "mm", i);
    assert Text.OccursAt(s, "mm", i);
  }

  /** Digits alone read as the integer they denote. */
  lemma DigitsParse(v: string)
    requires v != [] && Numbers.AllDigits(v)
    ensures Numbers.ParseReal(Text.Replace(v, ',', '.')) == Some(Numbers.DigitsValue(v) as real)
  {
    assert Text.Replace(v, ',', '.') == v;
    Numbers.ParseDigits(v);
  }

  /** The digits on either side of the separator. */
  lemma SplitNumberSides(v: string, i: int)
    requires SplitNumber(v, i)
    ensures Numbers.AllDigits(v[..i]) && Numbers.AllDigits(v[i + 1..])
    ensures v[..i] != [] && v[i + 1..] != []
  {
    var whole, fraction := v[..i], v[i + 1..];
    assert forall k :: 0 <= k < |whole| ==> whole[k] == v[k];
    assert forall k :: 0 <= k < |fraction| ==> fraction[k] == v[i + 1 + k];
  }

  /** Replacing the comma leaves the sides and puts a point between them. */
  lemma ReplaceSeparator(v: string, i: int)
    requires SplitNumber(v, i)
    ensures Text.Replace(v, ',', '.') == v[..i] + "." + v[i + 1..]
  {
    var r := Text.Replace(v, ',', '.');
    var t := v[..i] + "." + v[i + 1..];
    forall k | 0 <= k < |v|
      ensures r[k] == t[k]
    {
      if k != i {
        assert Numbers.IsDigit(v[k]);
      }
    }
  }

  /** Digits, a comma or a point, and digits read as whole plus fraction: the comma
      is a decimal comma. */
  lemma SplitNumberParses(v: string, i: int)
    requires SplitNumber(v, i)
    ensures Numbers.ParseReal(Text.Replace(v, ',', '.')) == Some(Numbers.DecimalValue(v[..i], v[i + 1..]))
  {
    SplitNumberSides(v, i);
    ReplaceSeparator(v, i);
    Numbers.ParseDecimal(v[..i], v[i + 1..]);
  }

  /** `float(value.replace(',', '.'))` never raises on the number text of a match. */
  lemma NumberTextParses(v: string)
    requires IsNumberText(v)
    ensures Numbers.ParseReal(Text.Replace(v, ',', '.')).Some?
  {
    if v != [] && Numbers.AllDigits(v) {
      DigitsParse(v);
    } else {
      var i :| 0 < i < |v| - 1 && SplitNumber(v, i);
      SplitNumberParses(v, i);
    }
  }

  /** The number text of the measurement found in a label always reads as a float, so
      `float(value.replace(',', '.'))` in the converter never raises. */
  lemma FindParses(text: string)
    requires Find(text).Some?
    ensures Numbers.ParseReal(Text.Replace(Find(text).value.value, ',', '.')).Some?
  {
    FindLeftmost(text);
    var m := Find(text).value;
    ReportsNumberText(text, FirstMatchAt(text, 0), m);
    NumberTextParses(m.value);
  }

  lemma ReportsNumberText(s: string, p: nat, m: Match)
    requires Reports(s, p, m)
    ensures IsNumberText(m.value)
  {
  }
}
