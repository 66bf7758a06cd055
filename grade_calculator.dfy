/**
 * The string-level wrappers around the engine: the GPA printed with the scale's decimals, the
 * projected GPA, the printed difference of two GPAs, the up/down/same trend and the five-tier colour.
 */
module GradeCalculator {
  import opened JsNumber
  import opened Types
  import opened Engine

  /**
   * `calculateGPA`: the engine's GPA printed with 4 decimals (weighted) or 2 (standard). The engine
   * has already rounded to those decimals, so the text reads back as the engine's GPA exactly.
   */
  function CalculateGpa(courses: seq<Course>, weighted: bool): (s: string)
    ensures ParseFloat(s) == Finite(Calculate(courses, weighted).gpa)
  {
    ParseToFixed(Calculate(courses, weighted).gpa, Places(weighted));
    CalculatedIsRounded(courses, weighted);
    ToFixed(Calculate(courses, weighted).gpa, Places(weighted))
  }

  /** Every failure of the engine shows as `0.0000` or `0.00`. */
  lemma CalculateGpaOfFailure(courses: seq<Course>, weighted: bool)
    requires !Calculable(courses)
    ensures CalculateGpa(courses, weighted) == ZeroText(weighted)
  {
    ZeroTextIsToFixed(weighted);
  }

  /** The engine's GPA is already rounded to the printed decimals. */
  lemma CalculatedIsRounded(courses: seq<Course>, weighted: bool)
    ensures Round(Calculate(courses, weighted).gpa, Places(weighted)) == Calculate(courses, weighted).gpa
  {
    if Calculable(courses) {
      RoundIdempotent(QualityPoints(courses, weighted) / CreditHours(courses) as real, Places(weighted));
    } else {
      RoundOfInteger(0, Places(weighted));
    }
  }

  /** Reading the printed GPA back gives the engine's GPA exactly, a value on the scale. */
  lemma CalculateGpaReadsBack(courses: seq<Course>, weighted: bool)
    ensures ParseFloat(CalculateGpa(courses, weighted)) == Finite(Calculate(courses, weighted).gpa)
    ensures 0.0 <= Calculate(courses, weighted).gpa <= MaxPoints(weighted) as real
  {
    ParseToFixed(Calculate(courses, weighted).gpa, Places(weighted));
    CalculatedIsRounded(courses, weighted);
  }

  /**
   * `calculateProjectedGPA`: the projected GPA printed with the scale's decimals. It reads back as the
   * projected GPA (`NaN` and the infinities print as words), and negative current credits print as zero.
   */
  function CalculateProjectedGpa(currentGpa: Num, currentCredits: int, newCourses: seq<Course>, weighted: bool)
    : (s: string)
    ensures ParseFloat(s) == CalculateProjected(currentGpa, currentCredits, newCourses, weighted).gpa
    ensures currentCredits < 0 ==> s == ZeroText(weighted)
  {
    ZeroTextIsToFixed(weighted);
    ProjectedGpaReadsBack(currentGpa, currentCredits, newCourses, weighted);
    NumToFixed(CalculateProjected(currentGpa, currentCredits, newCourses, weighted).gpa, Places(weighted))
  }

  /** Negative current credits show as `0.0000` or `0.00`. */
  lemma ProjectedGpaOfNegativeCredits(currentGpa: Num, currentCredits: int, newCourses: seq<Course>, weighted: bool)
    requires currentCredits < 0
    ensures CalculateProjectedGpa(currentGpa, currentCredits, newCourses, weighted) == ZeroText(weighted)
  {
    ZeroTextIsToFixed(weighted);
  }

  /**
   * With no current credits, a finite current GPA drops out and the projection prints as the GPA of
   * the new courses; a `NaN` or infinite one prints `NaN` as soon as the new courses can be calculated.
   */
  lemma ProjectedGpaFromNothing(currentGpa: Num, newCourses: seq<Course>, weighted: bool)
    ensures currentGpa.Finite? ==> CalculateProjectedGpa(currentGpa, 0, newCourses, weighted) == CalculateGpa(newCourses, weighted)
    ensures !currentGpa.Finite? && Calculable(newCourses) ==> CalculateProjectedGpa(currentGpa, 0, newCourses, weighted) == "NaN"
  {
    ProjectedFromNothing(currentGpa, newCourses, weighted);
  }

  /** The projected GPA is already rounded to the printed decimals, so reading it back loses nothing. */
  lemma ProjectedGpaReadsBack(currentGpa: Num, currentCredits: int, newCourses: seq<Course>, weighted: bool)
    ensures ParseFloat(NumToFixed(CalculateProjected(currentGpa, currentCredits, newCourses, weighted).gpa, Places(weighted)))
            == CalculateProjected(currentGpa, currentCredits, newCourses, weighted).gpa
  {
    var d := Places(weighted);
    var r := TryCalculateProjected(currentGpa, currentCredits, newCourses, weighted);
    var g := CalculateProjected(currentGpa, currentCredits, newCourses, weighted).gpa;
    ParseNumToFixed(g, d);
    if r.Ok? {
      ProjectedOk(currentGpa, currentCredits, newCourses, weighted);
      RoundNumIdempotent(ProjectedMean(currentGpa, currentCredits, Calculate(newCourses, weighted)), d);
    } else {
      RoundOfInteger(0, d);
    }
  }

  /** `getGPADifference`: `parseFloat(projected) - parseFloat(current)`, printed with the scale's decimals. */
  function GpaDifference(current: string, projected: string, weighted: bool): (d: string)
    ensures ParseFloat(current).NaN? || ParseFloat(projected).NaN? ==> d == "NaN"
    ensures ParseFloat(current).Finite? && ParseFloat(projected) == ParseFloat(current) ==> d == ZeroText(weighted)
  {
    ZeroTextIsToFixed(weighted);
    NumToFixed(Sub(ParseFloat(projected), ParseFloat(current)), Places(weighted))
  }

  /** A GPA compared with itself differs by zero exactly when it reads as a finite number. */
  lemma GpaDifferenceOfSame(s: string, weighted: bool)
    ensures GpaDifference(s, s, weighted) == ZeroText(weighted) <==> ParseFloat(s).Finite?
  {
    ZeroTextIsToFixed(weighted);
    if ParseFloat(s).Finite? {
      assert Sub(ParseFloat(s), ParseFloat(s)) == Finite(0.0);
    } else {
      assert Sub(ParseFloat(s), ParseFloat(s)).NaN?;
      assert GpaDifference(s, s, weighted) == "NaN";
    }
  }

  /** The difference of two printed values is the difference of the rounded values, printed. */
  lemma GpaDifferenceOfPrinted(current: real, projected: real, weighted: bool)
    ensures GpaDifference(ToFixed(current, Places(weighted)), ToFixed(projected, Places(weighted)), weighted)
            == NumToFixed(Sub(Finite(Round(projected, Places(weighted))), Finite(Round(current, Places(weighted)))),
                          Places(weighted))
  {
    ParseToFixed(current, Places(weighted));
    ParseToFixed(projected, Places(weighted));
  }

  /** Two texts that read as finite values differ by the difference of those values, printed. */
  lemma GpaDifferenceOfFinite(current: string, projected: string, x: real, y: real, weighted: bool)
    requires ParseFloat(current) == Finite(x) && ParseFloat(projected) == Finite(y)
    ensures GpaDifference(current, projected, weighted) == NumToFixed(Finite(y - x), Places(weighted))
  {
    assert Sub(Finite(y), Finite(x)) == Finite(y - x);
  }

  /** Differences smaller than this count as no change. */
  const TrendThreshold: real := 0.001

  function Abs(x: real): (r: real)
    ensures r >= 0.0 && (r == x || r == -x)
  {
    if x < 0.0 then -x else x
  }

  /**
   * `getGPATrend`: `same` when `|new - old| < 0.001`, otherwise `up` when the difference is positive
   * and `down` when it is not (which includes a `NaN` difference).
   */
  function GpaTrend(oldGpa: Num, newGpa: Num): (t: Trend)
    ensures oldGpa.NaN? || newGpa.NaN? ==> t == Down
    ensures oldGpa.Finite? && newGpa.Finite? && t == Same ==> Abs(newGpa.value - oldGpa.value) < TrendThreshold
  {
    match Sub(newGpa, oldGpa)
    case Finite(diff) => if Abs(diff) < TrendThreshold then Same else if diff > 0.0 then Up else Down
    case PosInfinity => Up
    case NegInfinity => Down
    case NaN => Down
  }

  /** On finite values the trend is decided by the difference and the threshold, boundaries excluded from `same`. */
  lemma GpaTrendOfFinite(oldGpa: real, newGpa: real)
    ensures GpaTrend(Finite(oldGpa), Finite(newGpa)) == Same <==> -TrendThreshold < newGpa - oldGpa < TrendThreshold
    ensures GpaTrend(Finite(oldGpa), Finite(newGpa)) == Up <==> newGpa - oldGpa >= TrendThreshold
    ensures GpaTrend(Finite(oldGpa), Finite(newGpa)) == Down <==> newGpa - oldGpa <= -TrendThreshold
  {
    assert Sub(Finite(newGpa), Finite(oldGpa)) == Finite(newGpa - oldGpa);
  }

  /** A finite GPA compared with itself is `same`. */
  lemma GpaTrendReflexive(gpa: real)
    ensures GpaTrend(Finite(gpa), Finite(gpa)) == Same
  {
    GpaTrendOfFinite(gpa, gpa);
  }

  /** Swapping two finite GPAs swaps `up` and `down`, and keeps `same`. */
  lemma GpaTrendAntisymmetric(a: real, b: real)
    ensures GpaTrend(Finite(a), Finite(b)) == Up <==> GpaTrend(Finite(b), Finite(a)) == Down
    ensures GpaTrend(Finite(a), Finite(b)) == Same <==> GpaTrend(Finite(b), Finite(a)) == Same
  {
    GpaTrendOfFinite(a, b);
    GpaTrendOfFinite(b, a);
  }

  const Emerald := "text-emerald-500 dark:text-emerald-400"
  const Blue := "text-blue-500 dark:text-blue-400"
  const Yellow := "text-yellow-500 dark:text-yellow-400"
  const Orange := "text-orange-500 dark:text-orange-400"
  const Red := "text-red-500 dark:text-red-400"

  /**
   * `getGPAColor`: the tier of `gpa` as a percentage of the scale's top (15 or 4.0): at least 93,
   * 85, 77, 70, or below; `NaN` and minus infinity fall in the lowest tier.
   */
  function GpaColor(gpa: Num, weighted: bool): (color: string)
    ensures color == Emerald || color == Blue || color == Yellow || color == Orange || color == Red
    ensures !gpa.Finite? ==> (color == Emerald <==> gpa.PosInfinity?)
  {
    match gpa
    case Finite(g) =>
      var percentage := g / MaxPoints(weighted) as real * 100.0;
      if percentage >= 93.0 then Emerald
      else if percentage >= 85.0 then Blue
      else if percentage >= 77.0 then Yellow
      else if percentage >= 70.0 then Orange
      else Red
    case PosInfinity => Emerald
    case _ => Red
  }

  /** The position of a colour among the tiers, lowest first. */
  function ColorRank(color: string): nat
  {
    if color == Emerald then 4
    else if color == Blue then 3
    else if color == Yellow then 2
    else if color == Orange then 1
    else 0
  }

  /** The tiers, in the scale's own units: each boundary is included in the higher tier. */
  lemma GpaColorTiers(g: real, weighted: bool)
    ensures var m := MaxPoints(weighted) as real;
            && (GpaColor(Finite(g), weighted) == Emerald <==> 100.0 * g >= 93.0 * m)
            && (GpaColor(Finite(g), weighted) == Blue <==> 85.0 * m <= 100.0 * g < 93.0 * m)
            && (GpaColor(Finite(g), weighted) == Yellow <==> 77.0 * m <= 100.0 * g < 85.0 * m)
            && (GpaColor(Finite(g), weighted) == Orange <==> 70.0 * m <= 100.0 * g < 77.0 * m)
            && (GpaColor(Finite(g), weighted) == Red <==> 100.0 * g < 70.0 * m)
  {
    var m := MaxPoints(weighted) as real;
    assert g / m * 100.0 == 100.0 * g / m;
    assert Emerald != Blue && Emerald != Yellow && Emerald != Orange && Emerald != Red;
    assert Blue != Yellow && Blue != Orange && Blue != Red;
    assert Yellow != Orange && Yellow != Red && Orange != Red;
  }

  /** A higher GPA never lands in a lower tier. */
  lemma GpaColorMonotone(a: real, b: real, weighted: bool)
    requires a <= b
    ensures ColorRank(GpaColor(Finite(a), weighted)) <= ColorRank(GpaColor(Finite(b), weighted))
  {
    GpaColorTiers(a, weighted);
    GpaColorTiers(b, weighted);
  }
}
