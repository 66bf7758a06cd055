/**
 * The shapes the calculator passes around (courses, results, saved calculations, semesters)
 * and the two constant grade scales: the 4.0 scale and the 15-point weighted scale.
 */
module Types {
  import opened Wrappers
  import opened JsNumber
  import opened Lists

  /** A course row; `semester` is the optional semester label. Credits are whole numbers. */
  datatype Course = Course(id: int, name: string, credits: int, grade: string, semester: Option<string>)

  /** A course extended with the points its grade is worth; `None` where the grade is not on the scale. */
  datatype CourseDetail = CourseDetail(course: Course, points: Option<real>)

  datatype GpaResult = GpaResult(gpa: real, totalPoints: real, totalCreditHours: int, details: seq<CourseDetail>)

  /** One entry of the history list. */
  datatype SavedCalculation = SavedCalculation(
    id: string, timestamp: int, courses: seq<Course>, gpa: string, isWeighted: bool, semester: Option<string>)

  datatype SemesterData = SemesterData(id: string, name: string, courses: seq<Course>, gpa: string)

  datatype Trend = Up | Down | Same

  datatype GpaAnalysis = GpaAnalysis(gpa: Num, totalCredits: int, courseCount: nat, color: string)

  datatype AcademicProgress = AcademicProgress(semester: string, gpa: Num, trend: Trend, analysis: GpaAnalysis)

  /** A grade scale: each letter grade with its points, best grade first. */
  type Table = seq<(string, real)>

  /** The letter grades, best first. */
  const Grades: seq<string> := ["A+", "A", "A-", "B+", "B", "B-", "C+", "C", "C-", "D+", "D", "D-", "F"]

  const StandardGradePoints: Table := [
    ("A+", 4.0), ("A", 4.0), ("A-", 3.7),
    ("B+", 3.3), ("B", 3.0), ("B-", 2.7),
    ("C+", 2.3), ("C", 2.0), ("C-", 1.7),
    ("D+", 1.3), ("D", 1.0), ("D-", 0.7),
    ("F", 0.0)]

  const WeightedGradePoints: Table := [
    ("A+", 15.0), ("A", 15.0), ("A-", 14.0),
    ("B+", 13.0), ("B", 12.0), ("B-", 11.0),
    ("C+", 10.0), ("C", 9.0), ("C-", 8.0),
    ("D+", 7.0), ("D", 6.0), ("D-", 5.0),
    ("F", 0.0)]

  /** `table[grade]`: the points listed for `grade`, `None` (`undefined`) when it is not listed. */
  function Lookup(table: Table, grade: string): (r: Option<real>)
  {
    if table == [] then None
    else if table[0].0 == grade then Some(table[0].1)
    else Lookup(table[1..], grade)
  }

  /** A grade listed only in the last entry of a table is worth that entry's points. */
  lemma {:induction false} LookupOfLast(t: Table, grade: string)
    requires t != [] && t[|t| - 1].0 == grade
    requires forall k :: 0 <= k < |t| - 1 ==> t[k].0 != grade
    ensures Lookup(t, grade) == Some(t[|t| - 1].1)
  {
    if |t| > 1 {
      assert t[0].0 != grade;
      LookupOfLast(t[1..], grade);
    }
  }

  /** Two tables that list the same grades in the same order know the same grades. */
  lemma {:induction false} LookupSameKeys(t: Table, u: Table, grade: string)
    requires |t| == |u| && forall i :: 0 <= i < |t| ==> t[i].0 == u[i].0
    ensures Lookup(t, grade).Some? <==> Lookup(u, grade).Some?
  {
    if t != [] {
      LookupSameKeys(t[1..], u[1..], grade);
    }
  }

  /** The table in force: the weighted one when `weighted` holds. */
  function Scale(weighted: bool): Table
  {
    if weighted then WeightedGradePoints else StandardGradePoints
  }

  /** The top of the scale: 15 points weighted, 4.0 otherwise. */
  function MaxPoints(weighted: bool): int
  {
    if weighted then 15 else 4
  }

  /** The decimals shown: 4 on the weighted scale, 2 on the standard one. */
  function Places(weighted: bool): nat
  {
    if weighted then 4 else 2
  }

  /** What `0` prints as with the scale's decimals. */
  function ZeroText(weighted: bool): string
  {
    if weighted then "0.0000" else "0.00"
  }

  lemma ZeroTextIsToFixed(weighted: bool)
    ensures ZeroText(weighted) == ToFixed(0.0, Places(weighted))
  {
    ToFixedOfZero();
  }

  /** `grade` is one of the letter grades the scales list. */
  predicate OnScale(grade: string)
  {
    Lookup(StandardGradePoints, grade).Some?
  }

  /** The points `grade` is worth on the chosen scale, `None` for a grade off the scale. */
  function GradePoints(weighted: bool, grade: string): (r: Option<real>)
    ensures r.Some? <==> OnScale(grade)
    ensures r.Some? ==> 0.0 <= r.value <= MaxPoints(weighted) as real
  {
    LookupSameKeys(WeightedGradePoints, StandardGradePoints, grade);
    TableBounds(weighted);
    LookupBounded(Scale(weighted), grade, 0.0, MaxPoints(weighted) as real);
    Lookup(Scale(weighted), grade)
  }

  /** A value looked up in a table lies within any bounds every entry respects. */
  lemma {:induction false} LookupBounded(t: Table, grade: string, lo: real, hi: real)
    requires forall i :: 0 <= i < |t| ==> lo <= t[i].1 <= hi
    ensures Lookup(t, grade).Some? ==> lo <= Lookup(t, grade).value <= hi
  {
    if t != [] && t[0].0 != grade {
      LookupBounded(t[1..], grade, lo, hi);
    }
  }

  /** Every value of a table lies between 0 and the top of its scale. */
  lemma TableBounds(weighted: bool)
    ensures forall i :: 0 <= i < |Scale(weighted)| ==> 0.0 <= Scale(weighted)[i].1 <= MaxPoints(weighted) as real
  {
  }

  /** Both tables list exactly the thirteen letter grades, in the same order, each once. */
  lemma TablesShareKeys()
    ensures |Grades| == 13
    ensures forall i, j :: 0 <= i < j < |Grades| ==> Grades[i] != Grades[j]
    ensures |StandardGradePoints| == |WeightedGradePoints| == |Grades|
    ensures forall i :: 0 <= i < |Grades| ==> StandardGradePoints[i].0 == WeightedGradePoints[i].0 == Grades[i]
  {
  }

  /** The standard table lies in [0, 4.0], with A+ = A = 4.0 and F = 0. */
  lemma StandardBounds()
    ensures forall i :: 0 <= i < |StandardGradePoints| ==> 0.0 <= StandardGradePoints[i].1 <= 4.0
    ensures StandardGradePoints[0] == ("A+", 4.0) && StandardGradePoints[1] == ("A", 4.0)
    ensures StandardGradePoints[12] == ("F", 0.0)
  {
  }

  /** The weighted table lies in [0, 15], with A+ = A = 15 and F = 0. */
  lemma WeightedBounds()
    ensures forall i :: 0 <= i < |WeightedGradePoints| ==> 0.0 <= WeightedGradePoints[i].1 <= 15.0
    ensures WeightedGradePoints[0] == ("A+", 15.0) && WeightedGradePoints[1] == ("A", 15.0)
    ensures WeightedGradePoints[12] == ("F", 0.0)
  {
  }

  /** Read in the listed order A+, A, A-, ..., F, both tables never increase. */
  lemma TablesNonIncreasing(weighted: bool)
    ensures forall i :: 0 <= i < |Scale(weighted)| - 1 ==> Scale(weighted)[i].1 >= Scale(weighted)[i + 1].1
  {
  }

  /** Weighted values are whole numbers and standard values are whole tenths. */
  lemma TablesAreExact()
    ensures forall i :: 0 <= i < |WeightedGradePoints| ==>
              WeightedGradePoints[i].1.Floor as real == WeightedGradePoints[i].1
    ensures forall i :: 0 <= i < |StandardGradePoints| ==>
              (StandardGradePoints[i].1 * 10.0).Floor as real == StandardGradePoints[i].1 * 10.0
  {
  }

  /** `courses.reduce((sum, course) => sum + course.credits, 0)` */
  function CreditHours(courses: seq<Course>): int
  {
    if courses == [] then 0 else CreditHours(courses[..|courses| - 1]) + courses[|courses| - 1].credits
  }

  /** No course has negative credits. */
  predicate CreditsNonNegative(courses: seq<Course>)
  {
    forall i :: 0 <= i < |courses| ==> courses[i].credits >= 0
  }

  /** Credits add up to a non-negative total when none is negative. */
  lemma {:induction false} CreditHoursNonNegative(courses: seq<Course>)
    requires CreditsNonNegative(courses)
    ensures CreditHours(courses) >= 0
  {
    if courses != [] {
      CreditHoursNonNegative(courses[..|courses| - 1]);
    }
  }

  function CreditOf(c: Course): real
  {
    c.credits as real
  }

  /** The credit total is the sum of the credits. */
  lemma {:induction false} CreditHoursAsSum(courses: seq<Course>)
    ensures CreditHours(courses) as real == Sum(courses, CreditOf)
  {
    if courses != [] {
      CreditHoursAsSum(courses[..|courses| - 1]);
    }
  }

  /** The credit total of a concatenation is the sum of the totals. */
  lemma CreditHoursAppend(a: seq<Course>, b: seq<Course>)
    ensures CreditHours(a + b) == CreditHours(a) + CreditHours(b)
  {
    CreditHoursAsSum(a);
    CreditHoursAsSum(b);
    CreditHoursAsSum(a + b);
    SumAppend(a, b, CreditOf);
  }

  /** Reordering the courses leaves the credit total unchanged. */
  lemma CreditHoursPermutation(a: seq<Course>, b: seq<Course>)
    requires multiset(a) == multiset(b)
    ensures CreditHours(a) == CreditHours(b)
  {
    CreditHoursAsSum(a);
    CreditHoursAsSum(b);
    SumPermutation(a, b, CreditOf);
  }
}
