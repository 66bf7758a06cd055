/**
 * The GPA engine: the credit-weighted mean of grade points, Σ(points·credits) / Σcredits,
 * rounded to the scale's decimals, and the projection of a known GPA with new courses.
 * The engine signals a failure by throwing and then catches it into an all-zero result;
 * here the failure reasons are a datatype and the public operations collapse them.
 */
module Engine {
  import opened Wrappers
  import opened Lists
  import opened JsNumber
  import opened Types

  /** Why a calculation is abandoned, in the order the engine checks. */
  datatype CalcError =
    | EmptyInput
    | InvalidGrade(grade: string)
    | NegativeCredits
    | ZeroCreditHours
    | NegativeCurrentCredits

  /** The result every failure is turned into. */
  const ZeroResult := GpaResult(0.0, 0.0, 0, [])

  /** Every course's grade is on the scales. */
  predicate GradesKnown(courses: seq<Course>)
  {
    forall i :: 0 <= i < |courses| ==> OnScale(courses[i].grade)
  }

  /** The points a course contributes: its grade's points times its credits (0 for a grade off the scale). */
  function CoursePoints(c: Course, weighted: bool): real
  {
    match GradePoints(weighted, c.grade)
    case Some(p) => p * c.credits as real
    case None => 0.0
  }

  /** Σ points(grade)·credits over the courses. */
  function QualityPoints(courses: seq<Course>, weighted: bool): real
  {
    Sum(courses, c => CoursePoints(c, weighted))
  }

  /**
   * `calculatePoints`: the running total of points·credits, stopping at the first course whose
   * grade the table does not list.
   */
  function CalculatePoints(courses: seq<Course>, weighted: bool): (r: Result<real, CalcError>)
    ensures r.Ok? <==> GradesKnown(courses)
    ensures r.Ok? ==> r.value == QualityPoints(courses, weighted)
    ensures r.Err? ==> exists i :: 0 <= i < |courses| && !OnScale(courses[i].grade)
                                   && r.error == InvalidGrade(courses[i].grade)
                                   && forall j :: 0 <= j < i ==> OnScale(courses[j].grade)
  {
    if courses == [] then Ok(0.0)
    else
      var prefix := courses[..|courses| - 1];
      var last := courses[|courses| - 1];
      match CalculatePoints(prefix, weighted)
      case Err(e) =>
        assert forall i :: 0 <= i < |prefix| ==> prefix[i] == courses[i];
        Err(e)
      case Ok(total) =>
        match GradePoints(weighted, last.grade)
        case None => Err(InvalidGrade(last.grade))
        case Some(p) => Ok(total + p * last.credits as real)
  }

  /** `sumCreditHours`: the credit total, or a failure when some course has negative credits. */
  function SumCreditHours(courses: seq<Course>): (r: Result<int, CalcError>)
    ensures r.Ok? <==> CreditsNonNegative(courses)
    ensures r.Ok? ==> r.value == CreditHours(courses)
    ensures r.Err? ==> r.error == NegativeCredits
  {
    if courses == [] then Ok(0)
    else
      var last := courses[|courses| - 1];
      match SumCreditHours(courses[..|courses| - 1])
      case Err(e) => Err(e)
      case Ok(total) => if last.credits < 0 then Err(NegativeCredits) else Ok(total + last.credits)
  }

  /** Each course extended with the points its grade is worth on the chosen scale. */
  function Details(courses: seq<Course>, weighted: bool): (d: seq<CourseDetail>)
    ensures |d| == |courses|
    ensures forall i :: 0 <= i < |d| ==> d[i] == CourseDetail(courses[i], GradePoints(weighted, courses[i].grade))
  {
    seq(|courses|, i requires 0 <= i < |courses| => CourseDetail(courses[i], GradePoints(weighted, courses[i].grade)))
  }

  /** The conditions under which `calculate` does not throw. */
  predicate Calculable(courses: seq<Course>)
  {
    courses != [] && GradesKnown(courses) && CreditsNonNegative(courses) && CreditHours(courses) != 0
  }

  /** `calculate` before its `catch`: the result, or the first failure met. */
  function TryCalculate(courses: seq<Course>, weighted: bool): (r: Result<GpaResult, CalcError>)
    ensures r.Ok? <==> Calculable(courses)
    ensures courses == [] ==> r == Err(EmptyInput)
    ensures courses != [] && !GradesKnown(courses) ==> r.Err? && r.error.InvalidGrade?
    ensures courses != [] && GradesKnown(courses) && !CreditsNonNegative(courses) ==> r == Err(NegativeCredits)
    ensures courses != [] && GradesKnown(courses) && CreditsNonNegative(courses) && CreditHours(courses) == 0
            ==> r == Err(ZeroCreditHours)
    ensures r.Ok? ==> var total := QualityPoints(courses, weighted);
                      var hours := CreditHours(courses);
                      r.value == GpaResult(Round(total / hours as real, Places(weighted)), total, hours,
                                           Details(courses, weighted))
  {
    if courses == [] then Err(EmptyInput)
    else
      match CalculatePoints(courses, weighted)
      case Err(e) => Err(e)
      case Ok(totalPoints) =>
        match SumCreditHours(courses)
        case Err(e) => Err(e)
        case Ok(totalHours) =>
          if totalHours == 0 then Err(ZeroCreditHours)
          else
            var gpa := totalPoints / totalHours as real;
            Ok(GpaResult(Round(gpa, Places(weighted)), totalPoints, totalHours, Details(courses, weighted)))
  }

  /** `calculate`: every failure becomes the zero result; the GPA always lies on the scale. */
  function Calculate(courses: seq<Course>, weighted: bool): (r: GpaResult)
    ensures !Calculable(courses) ==> r == ZeroResult
    ensures Calculable(courses) ==> r == TryCalculate(courses, weighted).value
    ensures 0.0 <= r.gpa <= MaxPoints(weighted) as real
  {
    match TryCalculate(courses, weighted)
    case Ok(result) =>
      GpaBounds(courses, weighted);
      result
    case Err(_) => ZeroResult
  }

  lemma ProductBounds(p: real, c: real, m: real)
    requires 0.0 <= p <= m && c >= 0.0
    ensures 0.0 <= p * c <= m * c
  {
  }

  lemma QuotientBounds(t: real, h: real, m: real)
    requires h > 0.0 && 0.0 <= t <= m * h
    ensures 0.0 <= t / h <= m
  {
  }

  /** The points of a non-empty list are those of all but the last course plus the last course's. */
  lemma QualityPointsSnoc(courses: seq<Course>, weighted: bool)
    requires courses != []
    ensures QualityPoints(courses, weighted)
            == QualityPoints(courses[..|courses| - 1], weighted) + CoursePoints(courses[|courses| - 1], weighted)
  {
  }

  /** With known grades and no negative credits the points lie between 0 and the scale's top times the credits. */
  lemma {:induction false} QualityPointsBounds(courses: seq<Course>, weighted: bool)
    requires GradesKnown(courses) && CreditsNonNegative(courses)
    ensures 0.0 <= QualityPoints(courses, weighted)
    ensures QualityPoints(courses, weighted) <= MaxPoints(weighted) as real * CreditHours(courses) as real
  {
    if courses != [] {
      var prefix := courses[..|courses| - 1];
      var last := courses[|courses| - 1];
      PrefixKnown(courses);
      QualityPointsBounds(prefix, weighted);
      QualityPointsSnoc(courses, weighted);
      CoursePointsBounds(last, weighted);
      AddBounds(QualityPoints(prefix, weighted), CreditHours(prefix) as real, CoursePoints(last, weighted),
                last.credits as real, MaxPoints(weighted) as real);
      assert CreditHours(courses) as real == CreditHours(prefix) as real + last.credits as real;
    }
  }

  /** All but the last course keep known grades and non-negative credits, and so does the last one. */
  lemma PrefixKnown(courses: seq<Course>)
    requires courses != [] && GradesKnown(courses) && CreditsNonNegative(courses)
    ensures GradesKnown(courses[..|courses| - 1]) && CreditsNonNegative(courses[..|courses| - 1])
    ensures OnScale(courses[|courses| - 1].grade) && courses[|courses| - 1].credits >= 0
  {
    assert forall i :: 0 <= i < |courses| - 1 ==> courses[..|courses| - 1][i] == courses[i];
  }

  /** A course with a known grade and non-negative credits adds between 0 and top·credits points. */
  lemma CoursePointsBounds(c: Course, weighted: bool)
    requires OnScale(c.grade) && c.credits >= 0
    ensures 0.0 <= CoursePoints(c, weighted) <= MaxPoints(weighted) as real * c.credits as real
  {
    var p := GradePoints(weighted, c.grade).value;
    var m := MaxPoints(weighted) as real;
    var h := c.credits as real;
    ProductBounds(p, h, m);
    assert CoursePoints(c, weighted) == p * h;
    assert CoursePoints(c, weighted) <= m * h;
  }

  /** A successful calculation rounds a mean that lies on the scale, so its GPA does too. */
  lemma GpaBounds(courses: seq<Course>, weighted: bool)
    requires Calculable(courses)
    ensures 0.0 <= TryCalculate(courses, weighted).value.gpa <= MaxPoints(weighted) as real
  {
    QualityPointsBounds(courses, weighted);
    CreditHoursNonNegative(courses);
    var m := MaxPoints(weighted);
    var mean := QualityPoints(courses, weighted) / CreditHours(courses) as real;
    QuotientBounds(QualityPoints(courses, weighted), CreditHours(courses) as real, m as real);
    RoundBetween(mean, 0, m, Places(weighted));
  }

  /**
   * What `calculateProjected` returns. The current GPA it is given is any JavaScript number (`NaN` or an
   * infinity included), so the projected GPA and the combined points are numbers too.
   */
  datatype Projection = Projection(gpa: Num, totalPoints: Num, totalCreditHours: int, details: seq<CourseDetail>)

  /** The result every failed projection is turned into. */
  const ZeroProjection := Projection(Finite(0.0), Finite(0.0), 0, [])

  /** A calculation's result seen as a projection, its GPA and points as finite numbers. */
  function AsProjection(result: GpaResult): Projection
  {
    Projection(Finite(result.gpa), Finite(result.totalPoints), result.totalCreditHours, result.details)
  }

  /** `currentGPA * currentCredits + newPoints`. */
  function ProjectedPoints(currentGpa: Num, currentCredits: int, inner: GpaResult): Num
  {
    Add(MulByInt(currentGpa, currentCredits), Finite(inner.totalPoints))
  }

  /** The unrounded projection: the combined points over the current and the new credits. */
  function ProjectedMean(currentGpa: Num, currentCredits: int, inner: GpaResult): Num
  {
    DivByInt(ProjectedPoints(currentGpa, currentCredits, inner), currentCredits + inner.totalCreditHours)
  }

  /** `calculateProjected` before its `catch`. */
  function TryCalculateProjected(currentGpa: Num, currentCredits: int, newCourses: seq<Course>, weighted: bool)
    : (r: Result<Projection, CalcError>)
    ensures currentCredits < 0 ==> r == Err(NegativeCurrentCredits)
    ensures currentCredits >= 0 ==> (r.Ok? <==> currentCredits + Calculate(newCourses, weighted).totalCreditHours != 0)
    ensures r.Err? ==> r.error == NegativeCurrentCredits || r.error == ZeroCreditHours
    ensures r.Ok? && currentGpa.NaN? ==> r.value.gpa.NaN?
  {
    if currentCredits < 0 then Err(NegativeCurrentCredits)
    else if currentCredits + Calculate(newCourses, weighted).totalCreditHours == 0 then Err(ZeroCreditHours)
    else
      Ok(Projection(RoundNum(ProjectedMean(currentGpa, currentCredits, Calculate(newCourses, weighted)), Places(weighted)),
                    ProjectedPoints(currentGpa, currentCredits, Calculate(newCourses, weighted)),
                    currentCredits + Calculate(newCourses, weighted).totalCreditHours,
                    Details(newCourses, weighted)))
  }

  /**
   * A successful projection adds the current GPA times the current credits to the new courses' points
   * and the current credits to their credits, and its GPA is the combined mean printed and read back.
   */
  lemma ProjectedOk(currentGpa: Num, currentCredits: int, newCourses: seq<Course>, weighted: bool)
    requires TryCalculateProjected(currentGpa, currentCredits, newCourses, weighted).Ok?
    ensures currentCredits >= 0 && currentCredits + Calculate(newCourses, weighted).totalCreditHours != 0
    ensures TryCalculateProjected(currentGpa, currentCredits, newCourses, weighted).value.details
            == Details(newCourses, weighted)
    ensures TryCalculateProjected(currentGpa, currentCredits, newCourses, weighted).value.totalCreditHours
            == currentCredits + Calculate(newCourses, weighted).totalCreditHours
    ensures TryCalculateProjected(currentGpa, currentCredits, newCourses, weighted).value.totalPoints
            == Add(MulByInt(currentGpa, currentCredits), Finite(Calculate(newCourses, weighted).totalPoints))
    ensures TryCalculateProjected(currentGpa, currentCredits, newCourses, weighted).value.gpa
            == RoundNum(ProjectedMean(currentGpa, currentCredits, Calculate(newCourses, weighted)), Places(weighted))
  {
  }

  /**
   * A current GPA that is `NaN` projects to `NaN`; an infinite one does too over 0 current credits
   * (∞·0 is `NaN`), and over positive current credits it passes through the sum and the division unchanged.
   */
  lemma ProjectedOfNonFinite(currentGpa: Num, currentCredits: int, newCourses: seq<Course>, weighted: bool)
    requires !currentGpa.Finite?
    requires TryCalculateProjected(currentGpa, currentCredits, newCourses, weighted).Ok?
    ensures currentGpa.NaN? || currentCredits == 0 ==>
              TryCalculateProjected(currentGpa, currentCredits, newCourses, weighted).value.gpa == NaN
    ensures currentCredits > 0 ==>
              TryCalculateProjected(currentGpa, currentCredits, newCourses, weighted).value.gpa == currentGpa
  {
    CalculateTotalsBounds(newCourses, weighted);
  }

  /** A GPA on the scale over earlier credits joined with totals on the scale gives a rounded mean on the scale. */
  lemma ProjectedMeanBounds(g: real, currentCredits: int, inner: GpaResult, weighted: bool)
    requires 0.0 <= g <= MaxPoints(weighted) as real && currentCredits >= 0
    requires TotalsOnScale(inner, weighted) && currentCredits + inner.totalCreditHours != 0
    ensures RoundNum(ProjectedMean(Finite(g), currentCredits, inner), Places(weighted)).Finite?
    ensures 0.0 <= RoundNum(ProjectedMean(Finite(g), currentCredits, inner), Places(weighted)).value
                <= MaxPoints(weighted) as real
  {
    var m := MaxPoints(weighted);
    var mean := (g * currentCredits as real + inner.totalPoints) / (currentCredits + inner.totalCreditHours) as real;
    MeanBounds(g, currentCredits, inner.totalPoints, inner.totalCreditHours, m as real);
    assert ProjectedMean(Finite(g), currentCredits, inner) == Finite(mean);
    RoundBetween(mean, 0, m, Places(weighted));
  }

  /** `calculateProjected`: every failure becomes the zero result, and a finite current GPA projects to a finite one. */
  function CalculateProjected(currentGpa: Num, currentCredits: int, newCourses: seq<Course>, weighted: bool)
    : (r: Projection)
    ensures TryCalculateProjected(currentGpa, currentCredits, newCourses, weighted).Err? ==> r == ZeroProjection
    ensures currentCredits < 0 ==> r == ZeroProjection
    ensures currentGpa.Finite? ==> r.gpa.Finite? && r.totalPoints.Finite?
  {
    match TryCalculateProjected(currentGpa, currentCredits, newCourses, weighted)
    case Ok(result) =>
      ProjectedOk(currentGpa, currentCredits, newCourses, weighted);
      result
    case Err(_) => ZeroProjection
  }

  /**
   * Projecting from no earlier credits: a finite current GPA drops out and the result is the new
   * courses' own; a `NaN` or infinite one makes the projection `NaN` (0·∞ and 0·`NaN` are `NaN`).
   */
  lemma ProjectedFromNothing(currentGpa: Num, newCourses: seq<Course>, weighted: bool)
    ensures currentGpa.Finite? ==>
              CalculateProjected(currentGpa, 0, newCourses, weighted) == AsProjection(Calculate(newCourses, weighted))
    ensures !currentGpa.Finite? && Calculable(newCourses) ==> CalculateProjected(currentGpa, 0, newCourses, weighted).gpa == NaN
    ensures !Calculable(newCourses) ==> CalculateProjected(currentGpa, 0, newCourses, weighted) == ZeroProjection
  {
    if Calculable(newCourses) {
      if currentGpa.Finite? {
        FromNothingOfFinite(currentGpa.value, newCourses, weighted);
      } else {
        assert TryCalculateProjected(currentGpa, 0, newCourses, weighted).Ok?;
        ProjectedOfNonFinite(currentGpa, 0, newCourses, weighted);
      }
    }
  }

  lemma FromNothingOfFinite(g: real, newCourses: seq<Course>, weighted: bool)
    requires Calculable(newCourses)
    ensures CalculateProjected(Finite(g), 0, newCourses, weighted) == AsProjection(Calculate(newCourses, weighted))
  {
    var inner := Calculate(newCourses, weighted);
    assert ProjectedPoints(Finite(g), 0, inner) == Finite(inner.totalPoints);
    assert ProjectedMean(Finite(g), 0, inner) == Finite(inner.totalPoints / inner.totalCreditHours as real);
    ProjectedOk(Finite(g), 0, newCourses, weighted);
  }

  /** Joining nothing to a finite GPA over positive credits leaves that GPA as the mean. */
  lemma MeanOntoNothing(g: real, currentCredits: int, inner: GpaResult)
    requires currentCredits > 0 && inner == ZeroResult
    ensures ProjectedMean(Finite(g), currentCredits, inner) == Finite(g)
  {
  }

  /** From a finite GPA `g`, a projection over non-zero combined credits is `g·c` plus the new points over them, rounded. */
  lemma ProjectedOfFinite(g: real, currentCredits: int, newCourses: seq<Course>, weighted: bool)
    requires currentCredits >= 0 && currentCredits + Calculate(newCourses, weighted).totalCreditHours != 0
    ensures CalculateProjected(Finite(g), currentCredits, newCourses, weighted).gpa
            == Finite(Round((g * currentCredits as real + Calculate(newCourses, weighted).totalPoints)
                            / (currentCredits + Calculate(newCourses, weighted).totalCreditHours) as real,
                            Places(weighted)))
  {
    var inner := Calculate(newCourses, weighted);
    var d := Places(weighted);
    ProjectedGpaOfOk(Finite(g), currentCredits, newCourses, weighted);
    RoundedMeanOfFinite(g, currentCredits, inner, d);
  }

  /** From a finite GPA `g`, a projection over non-zero combined credits totals `g·c` plus the new points, a finite number. */
  lemma ProjectedPointsOfFinite(g: real, currentCredits: int, newCourses: seq<Course>, weighted: bool)
    requires currentCredits >= 0 && currentCredits + Calculate(newCourses, weighted).totalCreditHours != 0
    ensures CalculateProjected(Finite(g), currentCredits, newCourses, weighted).totalPoints
            == Finite(g * currentCredits as real + Calculate(newCourses, weighted).totalPoints)
  {
    ProjectedGpaOfOk(Finite(g), currentCredits, newCourses, weighted);
    MeanOfFinite(g, currentCredits, Calculate(newCourses, weighted));
  }

  /** Over non-negative current credits and non-zero combined credits, the projection is its mean printed and read back. */
  lemma ProjectedGpaOfOk(currentGpa: Num, currentCredits: int, newCourses: seq<Course>, weighted: bool)
    requires currentCredits >= 0 && currentCredits + Calculate(newCourses, weighted).totalCreditHours != 0
    ensures CalculateProjected(currentGpa, currentCredits, newCourses, weighted).gpa
            == RoundNum(ProjectedMean(currentGpa, currentCredits, Calculate(newCourses, weighted)), Places(weighted))
    ensures CalculateProjected(currentGpa, currentCredits, newCourses, weighted).totalPoints
            == ProjectedPoints(currentGpa, currentCredits, Calculate(newCourses, weighted))
  {
    assert TryCalculateProjected(currentGpa, currentCredits, newCourses, weighted).Ok?;
  }

  /** The rounded projected mean of a finite GPA is the rounded mean of the combined totals. */
  lemma RoundedMeanOfFinite(g: real, currentCredits: int, inner: GpaResult, d: nat)
    requires currentCredits + inner.totalCreditHours != 0
    ensures RoundNum(ProjectedMean(Finite(g), currentCredits, inner), d)
            == Finite(Round((g * currentCredits as real + inner.totalPoints) / (currentCredits + inner.totalCreditHours) as real, d))
  {
    MeanOfFinite(g, currentCredits, inner);
  }

  /** The projected points and mean of a finite GPA are the finite combined totals and their mean. */
  lemma MeanOfFinite(g: real, currentCredits: int, inner: GpaResult)
    requires currentCredits + inner.totalCreditHours != 0
    ensures ProjectedPoints(Finite(g), currentCredits, inner) == Finite(g * currentCredits as real + inner.totalPoints)
    ensures ProjectedMean(Finite(g), currentCredits, inner)
            == Finite((g * currentCredits as real + inner.totalPoints) / (currentCredits + inner.totalCreditHours) as real)
  {
  }

  /** When the new courses cannot be calculated, the projection is the current GPA printed and read back. */
  lemma ProjectedWhenNewCoursesFail(currentGpa: Num, currentCredits: int, newCourses: seq<Course>, weighted: bool)
    requires currentCredits > 0 && !Calculable(newCourses)
    ensures CalculateProjected(currentGpa, currentCredits, newCourses, weighted).gpa
            == RoundNum(currentGpa, Places(weighted))
  {
    assert Calculate(newCourses, weighted) == ZeroResult;
    assert TryCalculateProjected(currentGpa, currentCredits, newCourses, weighted).Ok?;
    ProjectedOk(currentGpa, currentCredits, newCourses, weighted);
    if currentGpa.Finite? {
      MeanOntoNothing(currentGpa.value, currentCredits, Calculate(newCourses, weighted));
    } else {
      ProjectedOfNonFinite(currentGpa, currentCredits, newCourses, weighted);
    }
  }

  /** The points and credits of a concatenation are the sums of the parts. */
  lemma QualityPointsAppend(a: seq<Course>, b: seq<Course>, weighted: bool)
    ensures QualityPoints(a + b, weighted) == QualityPoints(a, weighted) + QualityPoints(b, weighted)
  {
    SumAppend(a, b, c => CoursePoints(c, weighted));
  }

  /** Reordering the courses leaves the points unchanged. */
  lemma QualityPointsPermutation(a: seq<Course>, b: seq<Course>, weighted: bool)
    requires multiset(a) == multiset(b)
    ensures QualityPoints(a, weighted) == QualityPoints(b, weighted)
  {
    SumPermutation(a, b, c => CoursePoints(c, weighted));
  }

  /** Totals within the scale: no negative credits and points between 0 and top·credits. */
  predicate TotalsOnScale(result: GpaResult, weighted: bool)
  {
    && result.totalCreditHours >= 0
    && 0.0 <= result.totalPoints <= MaxPoints(weighted) as real * result.totalCreditHours as real
  }

  /** The totals of a calculation are within the scale. */
  lemma CalculateTotalsBounds(courses: seq<Course>, weighted: bool)
    ensures TotalsOnScale(Calculate(courses, weighted), weighted)
  {
    if Calculable(courses) {
      QualityPointsBounds(courses, weighted);
      CreditHoursNonNegative(courses);
      CalculatedTotals(courses, weighted);
    }
  }

  lemma AddBounds(a: real, ha: real, b: real, hb: real, m: real)
    requires 0.0 <= a <= m * ha && 0.0 <= b <= m * hb
    ensures 0.0 <= a + b <= m * (ha + hb)
  {
  }

  /**
   * With earlier credits worth `points` and calculable new courses, the projection of a finite GPA is
   * the rounded mean of the combined points over the combined credits.
   */
  lemma ProjectedTotals(g: real, currentCredits: int, points: real, newCourses: seq<Course>, weighted: bool)
    requires currentCredits > 0 && Calculable(newCourses) && g * currentCredits as real == points
    ensures CreditHours(newCourses) >= 0
    ensures CalculateProjected(Finite(g), currentCredits, newCourses, weighted).gpa
            == Finite(Round((points + QualityPoints(newCourses, weighted)) / (currentCredits + CreditHours(newCourses)) as real,
                            Places(weighted)))
  {
    CreditHoursNonNegative(newCourses);
    CalculatedTotals(newCourses, weighted);
    ProjectedOfFinite(g, currentCredits, newCourses, weighted);
    SameRoundedMean(g * currentCredits as real + Calculate(newCourses, weighted).totalPoints,
                    points + QualityPoints(newCourses, weighted),
                    currentCredits + Calculate(newCourses, weighted).totalCreditHours,
                    currentCredits + CreditHours(newCourses), Places(weighted));
  }

  lemma SameRoundedMean(a: real, b: real, h: int, k: int, d: nat)
    requires a == b && h == k && h != 0
    ensures Round(a / h as real, d) == Round(b / k as real, d)
  {
  }

  /** A 4.00 GPA over 30 credits plus a three-credit `A` projects to 4.00: 132 points over 33 credits. */
  lemma ProjectedStraightA(c: Course)
    requires c.grade == "A" && c.credits == 3
    ensures CalculateProjected(Finite(4.0), 30, [c], false).gpa == Finite(4.0)
  {
    assert Lookup(StandardGradePoints, "A") == Some(4.0);
    assert [c][..0] == [];
    QualityPointsSnoc([c], false);
    assert QualityPoints([c], false) == 12.0;
    assert CreditHours([c]) == 3;
    ProjectedTotals(4.0, 30, 120.0, [c], false);
    StraightAMean();
    RoundOfInteger(4, 2);
  }

  lemma StraightAMean()
    ensures (120.0 + 12.0) / (30 + 3) as real == 4 as real
  {
  }

  /**
   * Projecting a GPA and credit count that are exactly those of some earlier courses (the GPA times
   * the credits gives their points), plus new courses, gives the GPA of all the courses together.
   */
  lemma ProjectedComposes(g: real, currentCredits: int, earlier: seq<Course>, newCourses: seq<Course>, weighted: bool)
    requires Calculable(earlier) && Calculable(newCourses)
    requires currentCredits == CreditHours(earlier)
    requires g * currentCredits as real == QualityPoints(earlier, weighted)
    ensures CalculateProjected(Finite(g), currentCredits, newCourses, weighted).gpa
            == Finite(Calculate(earlier + newCourses, weighted).gpa)
  {
    CalculableAppend(earlier, newCourses, weighted);
    ProjectedJoins(g, currentCredits, QualityPoints(earlier, weighted), newCourses, earlier + newCourses, weighted);
  }

  /** Two calculable course lists joined are calculable, with the points and credits of both. */
  lemma CalculableAppend(a: seq<Course>, b: seq<Course>, weighted: bool)
    requires Calculable(a) && Calculable(b)
    ensures CreditHours(a) > 0 && Calculable(a + b)
    ensures QualityPoints(a + b, weighted) == QualityPoints(a, weighted) + QualityPoints(b, weighted)
    ensures CreditHours(a + b) == CreditHours(a) + CreditHours(b)
  {
    CreditHoursNonNegative(a);
    CreditHoursNonNegative(b);
    CreditHoursAppend(a, b);
    QualityPointsAppend(a, b, weighted);
    var all := a + b;
    assert forall i :: 0 <= i < |all| ==> all[i] == (if i < |a| then a[i] else b[i - |a|]);
  }

  /** The step of `ProjectedComposes` over the totals alone: earlier credits and points joined with new courses. */
  lemma ProjectedJoins(g: real, currentCredits: int, points: real, newCourses: seq<Course>,
                       all: seq<Course>, weighted: bool)
    requires currentCredits > 0 && g * currentCredits as real == points
    requires Calculable(newCourses) && Calculable(all)
    requires QualityPoints(all, weighted) == points + QualityPoints(newCourses, weighted)
    requires CreditHours(all) == currentCredits + CreditHours(newCourses)
    ensures CalculateProjected(Finite(g), currentCredits, newCourses, weighted).gpa == Finite(Calculate(all, weighted).gpa)
  {
    var p := points + QualityPoints(newCourses, weighted);
    var h := currentCredits + CreditHours(newCourses);
    var joined := Round(p / h as real, Places(weighted));
    assert CalculateProjected(Finite(g), currentCredits, newCourses, weighted).gpa == Finite(joined) by {
      ProjectedTotals(g, currentCredits, points, newCourses, weighted);
    }
    assert Calculate(all, weighted).gpa == joined by {
      CalculatedGpaOfTotals(all, weighted, p, h);
    }
  }

  /** A successful calculation over courses worth `points` in `credits` has the rounded mean of the two as its GPA. */
  lemma CalculatedGpaOfTotals(courses: seq<Course>, weighted: bool, points: real, credits: int)
    requires Calculable(courses) && QualityPoints(courses, weighted) == points && CreditHours(courses) == credits
    ensures Calculate(courses, weighted).gpa == Round(points / credits as real, Places(weighted))
  {
    CalculatedGpa(courses, weighted);
  }

  /** A successful calculation totals the courses' points and credits. */
  lemma CalculatedTotals(courses: seq<Course>, weighted: bool)
    requires Calculable(courses)
    ensures Calculate(courses, weighted).totalPoints == QualityPoints(courses, weighted)
    ensures Calculate(courses, weighted).totalCreditHours == CreditHours(courses)
  {
  }

  /** A successful calculation's GPA is the rounded mean of its points over its credits. */
  lemma CalculatedGpa(courses: seq<Course>, weighted: bool)
    requires Calculable(courses)
    ensures Calculate(courses, weighted).gpa
            == Round(QualityPoints(courses, weighted) / CreditHours(courses) as real, Places(weighted))
  {
  }

  /** The mean of a GPA on the scale weighted by its credits and of points within the scale lies on the scale. */
  lemma MeanBounds(g: real, c: int, p: real, h: int, m: real)
    requires 0.0 <= g <= m && c >= 0 && h >= 0 && 0.0 <= p <= m * h as real && c + h > 0
    ensures 0.0 <= (g * c as real + p) / (c + h) as real <= m
  {
    ProductBounds(g, c as real, m);
    AddBounds(g * c as real, c as real, p, h as real, m);
    assert (c + h) as real == c as real + h as real;
    QuotientBounds(g * c as real + p, (c + h) as real, m);
  }

  /** A finite current GPA on the scale projects to a finite GPA on the scale. */
  lemma ProjectedBounds(g: real, currentCredits: int, newCourses: seq<Course>, weighted: bool)
    requires 0.0 <= g <= MaxPoints(weighted) as real
    ensures CalculateProjected(Finite(g), currentCredits, newCourses, weighted).gpa.Finite?
    ensures 0.0 <= CalculateProjected(Finite(g), currentCredits, newCourses, weighted).gpa.value
                <= MaxPoints(weighted) as real
  {
    if TryCalculateProjected(Finite(g), currentCredits, newCourses, weighted).Ok? {
      ProjectedOkBounds(g, currentCredits, newCourses, weighted);
    }
  }

  lemma ProjectedOkBounds(g: real, currentCredits: int, newCourses: seq<Course>, weighted: bool)
    requires 0.0 <= g <= MaxPoints(weighted) as real
    requires TryCalculateProjected(Finite(g), currentCredits, newCourses, weighted).Ok?
    ensures TryCalculateProjected(Finite(g), currentCredits, newCourses, weighted).value.gpa.Finite?
    ensures 0.0 <= TryCalculateProjected(Finite(g), currentCredits, newCourses, weighted).value.gpa.value
                 <= MaxPoints(weighted) as real
  {
    ProjectedOk(Finite(g), currentCredits, newCourses, weighted);
    CalculateTotalsBounds(newCourses, weighted);
    ProjectedMeanBounds(g, currentCredits, Calculate(newCourses, weighted), weighted);
  }

  /** `getGradeScale`: the table in force, listing every grade with points on the scale. */
  function GetGradeScale(weighted: bool): (table: Table)
    ensures |table| == |Grades| && forall i :: 0 <= i < |table| ==> table[i].0 == Grades[i]
    ensures forall i :: 0 <= i < |table| ==> 0.0 <= table[i].1 <= MaxPoints(weighted) as real
  {
    TablesShareKeys();
    TableBounds(weighted);
    Scale(weighted)
  }
}
