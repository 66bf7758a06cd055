/**
 * The running totals the export helpers and the cumulative panel keep in their own `forEach`
 * loops, outside the engine. Each course adds the table's points for its grade (`undefined`, so
 * `NaN`, for a grade off the scale); the code as written adds the bare points on the weighted
 * scale and points·credits on the standard one, where the engine multiplies on both.
 */
module ComponentTotals {
  import opened Wrappers
  import opened Lists
  import opened JsNumber
  import opened Types
  import opened Engine

  /** What one course adds as written: bare points (weighted) or points·credits (standard). */
  function WrittenPoints(weighted: bool): Course -> Num
  {
    (c: Course) =>
      match GradePoints(weighted, c.grade)
      case None => NaN
      case Some(p) => if weighted then Finite(p) else Finite(p * c.credits as real)
  }

  /** What one course adds as the engine counts it: points·credits on both scales. */
  function IntendedPoints(weighted: bool): Course -> Num
  {
    (c: Course) =>
      match GradePoints(weighted, c.grade)
      case None => NaN
      case Some(p) => Finite(p * c.credits as real)
  }

  /** `totalPoints` after the loop: `0` plus what each course adds, in order. */
  function Total(courses: seq<Course>, points: Course -> Num): Num
  {
    if courses == [] then Finite(0.0)
    else Add(Total(courses[..|courses| - 1], points), points(courses[|courses| - 1]))
  }

  /** Two ways of counting a course that agree on every course give the same total. */
  lemma {:induction false} TotalAgree(courses: seq<Course>, f: Course -> Num, g: Course -> Num)
    requires forall i :: 0 <= i < |courses| ==> f(courses[i]) == g(courses[i])
    ensures Total(courses, f) == Total(courses, g)
  {
    if courses != [] {
      TotalAgree(courses[..|courses| - 1], f, g);
    }
  }

  /** A single `NaN` poisons the total. */
  lemma {:induction false} TotalOfNaN(courses: seq<Course>, points: Course -> Num, i: nat)
    requires i < |courses| && points(courses[i]).NaN?
    ensures Total(courses, points).NaN?
  {
    if i < |courses| - 1 {
      TotalOfNaN(courses[..|courses| - 1], points, i);
    }
  }

  /** With every grade on the scale, the intended total is the engine's Σ points·credits. */
  lemma {:induction false} IntendedTotalOfKnown(courses: seq<Course>, weighted: bool)
    requires GradesKnown(courses)
    ensures Total(courses, IntendedPoints(weighted)) == Finite(QualityPoints(courses, weighted))
  {
    if courses != [] {
      var prefix := courses[..|courses| - 1];
      assert forall i :: 0 <= i < |prefix| ==> prefix[i] == courses[i];
      IntendedTotalOfKnown(prefix, weighted);
      QualityPointsSnoc(courses, weighted);
    }
  }

  /** A grade off the scale makes both totals `NaN`. */
  lemma TotalsOfUnknown(courses: seq<Course>, weighted: bool)
    requires !GradesKnown(courses)
    ensures Total(courses, WrittenPoints(weighted)).NaN? && Total(courses, IntendedPoints(weighted)).NaN?
  {
    var i :| 0 <= i < |courses| && !OnScale(courses[i].grade);
    TotalOfNaN(courses, WrittenPoints(weighted), i);
    TotalOfNaN(courses, IntendedPoints(weighted), i);
  }

  /** On the standard scale the code as written counts exactly as intended. */
  lemma StandardAsIntended(courses: seq<Course>)
    ensures Total(courses, WrittenPoints(false)) == Total(courses, IntendedPoints(false))
  {
    TotalAgree(courses, WrittenPoints(false), IntendedPoints(false));
  }

  /** A course with one credit counts the same either way, on either scale. */
  lemma OneCreditAsIntended(courses: seq<Course>, weighted: bool)
    requires forall i :: 0 <= i < |courses| ==> courses[i].credits == 1
    ensures Total(courses, WrittenPoints(weighted)) == Total(courses, IntendedPoints(weighted))
  {
    TotalAgree(courses, WrittenPoints(weighted), IntendedPoints(weighted));
  }

  /** The printed GPA of a total over a credit total: `(total / credits).toFixed(d)`. */
  function GpaText(total: Num, credits: int, weighted: bool): string
  {
    NumToFixed(DivByInt(total, credits), Places(weighted))
  }

  /**
   * The printed GPA of courses counted with `points`, guarded against a zero credit total
   * (`if (totalCredits === 0) return "0.00"`).
   */
  function GuardedGpaText(courses: seq<Course>, points: Course -> Num, weighted: bool): string
  {
    if CreditHours(courses) == 0 then ZeroText(weighted)
    else GpaText(Total(courses, points), CreditHours(courses), weighted)
  }

  /** The mean the engine rounds is never negative. */
  lemma MeanNonNegative(courses: seq<Course>, weighted: bool)
    requires Calculable(courses)
    ensures CreditHours(courses) > 0
    ensures QualityPoints(courses, weighted) / CreditHours(courses) as real >= 0.0
  {
    QualityPointsBounds(courses, weighted);
    CreditHoursNonNegative(courses);
    QuotientBounds(QualityPoints(courses, weighted), CreditHours(courses) as real, MaxPoints(weighted) as real);
  }

  /** Counted as intended, the guarded GPA of calculable courses is the engine's printed GPA. */
  lemma IntendedGpaIsEngineGpa(courses: seq<Course>, weighted: bool)
    requires Calculable(courses)
    ensures GpaText(Total(courses, IntendedPoints(weighted)), CreditHours(courses), weighted)
            == ToFixed(Calculate(courses, weighted).gpa, Places(weighted))
  {
    var q := QualityPoints(courses, weighted);
    var h := CreditHours(courses);
    IntendedTotalOfKnown(courses, weighted);
    MeanNonNegative(courses, weighted);
    GpaTextOfFinite(q, h, weighted);
    CalculatedGpa(courses, weighted);
    ToFixedOfRound(q / h as real, Places(weighted));
  }

  /** A finite total over a non-zero credit total prints as the mean. */
  lemma GpaTextOfFinite(q: real, h: int, weighted: bool)
    requires h != 0
    ensures GpaText(Finite(q), h, weighted) == ToFixed(q / h as real, Places(weighted))
  {
  }

  /** Counted as intended, the guarded GPA agrees with the engine whenever the engine succeeds. */
  lemma GuardedIntendedIsEngineGpa(courses: seq<Course>, weighted: bool)
    requires Calculable(courses)
    ensures GuardedGpaText(courses, IntendedPoints(weighted), weighted)
            == ToFixed(Calculate(courses, weighted).gpa, Places(weighted))
  {
    IntendedGpaIsEngineGpa(courses, weighted);
  }

  /** The total of a single course is what that course adds. */
  lemma TotalOfOne(c: Course, points: Course -> Num)
    ensures Total([c], points) == Add(Finite(0.0), points(c))
  {
    assert [c][..0] == [];
  }

  /** A three-credit `A` adds 15 as written and 45 as intended on the weighted scale. */
  lemma PointsOfThreeCreditA(c: Course, weighted: bool)
    requires weighted && c.grade == "A" && c.credits == 3
    ensures WrittenPoints(weighted)(c) == Finite(15.0) && IntendedPoints(weighted)(c) == Finite(45.0)
    ensures Calculable([c]) && CreditHours([c]) == 3
  {
    assert GradePoints(weighted, "A") == Some(15.0);
    assert OnScale(c.grade) by {
      assert Lookup(StandardGradePoints, "A") == Some(4.0);
    }
    assert [c][..0] == [];
    assert CreditHours([c]) == 3;
  }

  /**
   * A single three-credit `A` on the weighted scale: counted as written the mean is 15 / 3 = 5,
   * where the engine's is 15 (the intended total is 45 over the same 3 credits).
   */
  lemma WeightedBarePointsCounterexample(c: Course, weighted: bool)
    requires weighted && c.grade == "A" && c.credits == 3
    ensures Total([c], WrittenPoints(weighted)) == Finite(15.0)
    ensures DivByInt(Total([c], WrittenPoints(weighted)), CreditHours([c])) == Finite(5.0)
    ensures Total([c], IntendedPoints(weighted)) == Finite(45.0)
    ensures Calculate([c], weighted).gpa == 15.0
  {
    PointsOfThreeCreditA(c, weighted);
    TotalOfOne(c, WrittenPoints(weighted));
    TotalOfOne(c, IntendedPoints(weighted));
    EngineOfThreeCreditA(c, weighted);
    MeanOf(15.0, 3, 5.0);
  }

  /** The engine's GPA of a single three-credit `A` on the weighted scale is 15. */
  lemma EngineOfThreeCreditA(c: Course, weighted: bool)
    requires weighted && c.grade == "A" && c.credits == 3
    ensures CreditHours([c]) == 3
    ensures Calculate([c], weighted).gpa == 15.0
  {
    PointsOfThreeCreditA(c, weighted);
    TotalOfOne(c, IntendedPoints(weighted));
    IntendedTotalOfKnown([c], weighted);
    MeanOf(QualityPoints([c], weighted), CreditHours([c]), 15.0);
    CalculatedGpa([c], weighted);
    RoundOfInteger(15, Places(weighted));
  }

  lemma MeanOf(q: real, h: int, m: real)
    requires h != 0 && q == m * h as real
    ensures q / h as real == m
  {
  }
}
