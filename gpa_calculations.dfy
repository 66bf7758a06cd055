/**
 * GPA over several semesters: one semester's GPA, the cumulative GPA of all their courses taken
 * together, a per-semester analysis and the semester-by-semester progress with its trend.
 */
module GpaCalculations {
  import opened Lists
  import opened JsNumber
  import opened Types
  import opened Engine
  import opened GradeCalculator

  /** `calculateSemesterGPA`: the printed GPA of the semester's courses, which reads back as the engine's GPA. */
  function SemesterGpa(semester: SemesterData, weighted: bool): (s: string)
    ensures ParseFloat(s) == Finite(Calculate(semester.courses, weighted).gpa)
  {
    CalculateGpa(semester.courses, weighted)
  }

  /** The courses of every semester, in semester order (the `reduce` that spreads each list after the last). */
  function AllCourses(semesters: seq<SemesterData>): seq<Course>
  {
    if semesters == [] then []
    else AllCourses(semesters[..|semesters| - 1]) + semesters[|semesters| - 1].courses
  }

  /** Collecting the courses of two runs of semesters collects each run in turn. */
  lemma {:induction false} AllCoursesAppend(a: seq<SemesterData>, b: seq<SemesterData>)
    ensures AllCourses(a + b) == AllCourses(a) + AllCourses(b)
    decreases |b|
  {
    if b == [] {
      assert a + b == a;
    } else {
      var b' := b[..|b| - 1];
      assert (a + b)[..|a + b| - 1] == a + b';
      AllCoursesAppend(a, b');
    }
  }

  /** The collected courses are exactly the courses of the semesters. */
  lemma {:induction false} AllCoursesMembers(semesters: seq<SemesterData>, c: Course)
    ensures c in AllCourses(semesters) <==> exists i :: 0 <= i < |semesters| && c in semesters[i].courses
  {
    if semesters != [] {
      var prefix := semesters[..|semesters| - 1];
      AllCoursesMembers(prefix, c);
      assert forall i :: 0 <= i < |prefix| ==> prefix[i] == semesters[i];
      if c in semesters[|semesters| - 1].courses {
        assert c in AllCourses(semesters);
      }
    }
  }

  /** Reordering the semesters reorders the collected courses and nothing more. */
  lemma {:induction false} AllCoursesPermutation(a: seq<SemesterData>, b: seq<SemesterData>)
    requires multiset(a) == multiset(b)
    ensures multiset(AllCourses(a)) == multiset(AllCourses(b))
    decreases |a|
  {
    if a == [] {
      assert |b| == |multiset(b)| == 0;
    } else {
      var x := a[|a| - 1];
      var a' := a[..|a| - 1];
      MultisetDropLast(a);
      assert x in multiset(b);
      var j :| 0 <= j < |b| && b[j] == x;
      var b' := b[..j] + b[j + 1..];
      MultisetRemoveAt(b, j);
      SplitAt(b, j);
      AllCoursesPermutation(a', b');
      AllCoursesAppend(b[..j] + [x], b[j + 1..]);
      AllCoursesAppend(b[..j], [x]);
      AllCoursesAppend(b[..j], b[j + 1..]);
      assert AllCourses([x]) == x.courses by {
        assert [x][..0] == [];
      }
    }
  }

  /** `calculateCumulativeGPA`: the GPA of all the semesters' courses taken together. */
  function CumulativeGpa(semesters: seq<SemesterData>, weighted: bool): (s: string)
    ensures ParseFloat(s) == Finite(Calculate(AllCourses(semesters), weighted).gpa)
  {
    CalculateGpa(AllCourses(semesters), weighted)
  }

  /** The cumulative GPA of a single semester is that semester's GPA. */
  lemma CumulativeOfOne(semester: SemesterData, weighted: bool)
    ensures CumulativeGpa([semester], weighted) == SemesterGpa(semester, weighted)
  {
    assert [semester][..0] == [];
    assert AllCourses([semester]) == semester.courses;
  }

  /** Semesters without a single course have the zero cumulative GPA. */
  lemma CumulativeWithoutCourses(semesters: seq<SemesterData>, weighted: bool)
    requires forall i :: 0 <= i < |semesters| ==> semesters[i].courses == []
    ensures CumulativeGpa(semesters, weighted) == ZeroText(weighted)
  {
    if AllCourses(semesters) != [] {
      var c := AllCourses(semesters)[0];
      AllCoursesMembers(semesters, c);
    }
    CalculateGpaOfFailure(AllCourses(semesters), weighted);
  }

  /** Whether the engine succeeds does not depend on the order of the courses, nor does the credit total. */
  lemma CalculablePermutation(a: seq<Course>, b: seq<Course>)
    requires multiset(a) == multiset(b)
    ensures Calculable(a) <==> Calculable(b)
    ensures CreditHours(a) == CreditHours(b)
  {
    assert |a| == |multiset(a)| == |multiset(b)| == |b|;
    forall c
      ensures c in a <==> c in b
    {
      assert c in a <==> c in multiset(a);
      assert c in b <==> c in multiset(b);
    }
    CreditHoursPermutation(a, b);
    AllOfSameMembers(a, b, (c: Course) => OnScale(c.grade));
    AllOfSameMembers(a, b, (c: Course) => c.credits >= 0);
  }

  /** The engine's result does not depend on the order of the courses, except for the order of the details. */
  lemma CalculatePermutation(a: seq<Course>, b: seq<Course>, weighted: bool)
    requires multiset(a) == multiset(b)
    ensures Calculable(a) <==> Calculable(b)
    ensures Calculate(a, weighted).gpa == Calculate(b, weighted).gpa
    ensures Calculate(a, weighted).totalPoints == Calculate(b, weighted).totalPoints
    ensures Calculate(a, weighted).totalCreditHours == Calculate(b, weighted).totalCreditHours
  {
    CalculablePermutation(a, b);
    if Calculable(a) {
      QualityPointsPermutation(a, b, weighted);
      CalculatedGpa(a, weighted);
      CalculatedGpa(b, weighted);
    }
  }

  /** Reordering the semesters leaves the cumulative GPA unchanged. */
  lemma CumulativePermutation(a: seq<SemesterData>, b: seq<SemesterData>, weighted: bool)
    requires multiset(a) == multiset(b)
    ensures CumulativeGpa(a, weighted) == CumulativeGpa(b, weighted)
  {
    AllCoursesPermutation(a, b);
    CalculatePermutation(AllCourses(a), AllCourses(b), weighted);
  }

  /** `analyzeSemesterPerformance`: the semester's GPA read back as a number, its credits, course count and colour. */
  function AnalyzeSemesterPerformance(semester: SemesterData, weighted: bool): (a: GpaAnalysis)
    ensures a.gpa == Finite(Calculate(semester.courses, weighted).gpa)
    ensures a.totalCredits == CreditHours(semester.courses) && a.courseCount == |semester.courses|
  {
    var gpa := ParseFloat(SemesterGpa(semester, weighted));
    GpaAnalysis(gpa, CreditHours(semester.courses), |semester.courses|, GpaColor(gpa, weighted))
  }

  /** The analysed GPA is the engine's GPA exactly, so the colour is that of the engine's GPA. */
  lemma AnalysisOfSemester(semester: SemesterData, weighted: bool)
    ensures var a := AnalyzeSemesterPerformance(semester, weighted);
            var g := Calculate(semester.courses, weighted).gpa;
            && a.gpa == Finite(g) && 0.0 <= g <= MaxPoints(weighted) as real
            && a.color == GpaColor(Finite(g), weighted)
            && a.totalCredits == CreditHours(semester.courses) && a.courseCount == |semester.courses|
  {
    CalculateGpaReadsBack(semester.courses, weighted);
  }

  /** One entry of `calculateAcademicProgress`: semester `i` compared with the one before it (or itself). */
  function ProgressEntry(semesters: seq<SemesterData>, i: nat, weighted: bool): AcademicProgress
    requires i < |semesters|
  {
    var current := ParseFloat(SemesterGpa(semesters[i], weighted));
    var previous := if i > 0 then ParseFloat(SemesterGpa(semesters[i - 1], weighted)) else current;
    AcademicProgress(semesters[i].name, current, GpaTrend(previous, current),
                     AnalyzeSemesterPerformance(semesters[i], weighted))
  }

  /** `calculateAcademicProgress`: one entry per semester, in order, named after its semester. */
  function CalculateAcademicProgress(semesters: seq<SemesterData>, weighted: bool): (r: seq<AcademicProgress>)
    ensures |r| == |semesters|
    ensures forall i :: 0 <= i < |r| ==> r[i].semester == semesters[i].name
                                         && r[i].analysis == AnalyzeSemesterPerformance(semesters[i], weighted)
  {
    seq(|semesters|, i requires 0 <= i < |semesters| => ProgressEntry(semesters, i, weighted))
  }

  /** The first semester's trend is always `same`. */
  lemma ProgressStartsSame(semesters: seq<SemesterData>, weighted: bool)
    requires semesters != []
    ensures CalculateAcademicProgress(semesters, weighted)[0].trend == Same
  {
    CalculateGpaReadsBack(semesters[0].courses, weighted);
    GpaTrendReflexive(Calculate(semesters[0].courses, weighted).gpa);
  }

  /** Every later entry compares the engine's GPA of the semester before with that of its own semester. */
  lemma ProgressTrend(semesters: seq<SemesterData>, weighted: bool, i: nat)
    requires 0 < i < |semesters|
    ensures var r := CalculateAcademicProgress(semesters, weighted)[i];
            && r.gpa == Finite(Calculate(semesters[i].courses, weighted).gpa)
            && r.trend == GpaTrend(Finite(Calculate(semesters[i - 1].courses, weighted).gpa),
                                   Finite(Calculate(semesters[i].courses, weighted).gpa))
  {
    CalculateGpaReadsBack(semesters[i].courses, weighted);
    CalculateGpaReadsBack(semesters[i - 1].courses, weighted);
  }
}
