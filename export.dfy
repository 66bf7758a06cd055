/**
 * The export helpers: the GPA of the current courses and the cumulative GPA of all semesters,
 * each accumulated in its own loop, and the text of the CSV file (semester, GPA, a blank line,
 * the header and one row per course, joined with line breaks).
 */
module Export {
  import opened Wrappers
  import opened Lists
  import opened Text
  import opened JsNumber
  import opened Types
  import opened Engine
  import opened GradeCalculator
  import opened GpaCalculations
  import opened ComponentTotals

  /**
   * `calculateGPA` of the export helpers as written: the zero text for no courses, otherwise the
   * total as written over the credit total, with no guard against a zero credit total.
   */
  function ExportGpaAsWritten(courses: seq<Course>, weighted: bool): (s: string)
    ensures s != [] && '\n' !in s && ',' !in s
  {
    if courses == [] then ZeroText(weighted)
    else
      NumToFixedHasNoBreak(DivByInt(Total(courses, WrittenPoints(weighted)), CreditHours(courses)), Places(weighted));
      GpaText(Total(courses, WrittenPoints(weighted)), CreditHours(courses), weighted)
  }

  /**
   * The body of the `forEach` loops as written: look the grade up (`undefined`, so `NaN`, off the
   * scale), add the bare points on the weighted scale and points·credits on the standard one, and
   * add the credits.
   */
  method CountCourse(totalPoints: Num, totalCredits: int, course: Course, weighted: bool)
    returns (newPoints: Num, newCredits: int)
    ensures newPoints == Add(totalPoints, WrittenPoints(weighted)(course))
    ensures newCredits == totalCredits + course.credits
  {
    var points := match GradePoints(weighted, course.grade) case Some(p) => Finite(p) case None => NaN;
    if weighted {
      newPoints := Add(totalPoints, points);
      newCredits := totalCredits + course.credits;
    } else {
      var scaled := match points case Finite(p) => Finite(p * course.credits as real) case _ => NaN;
      newPoints := Add(totalPoints, scaled);
      newCredits := totalCredits + course.credits;
    }
  }

  /** The `forEach` loop of `calculateGPA`, as written. */
  method CalculateGpaAsWritten(courses: seq<Course>, weighted: bool) returns (gpa: string)
    ensures gpa == ExportGpaAsWritten(courses, weighted)
  {
    if |courses| == 0 {
      return if weighted then "0.0000" else "0.00";
    }
    var totalPoints := Finite(0.0);
    var totalCredits := 0;
    for i := 0 to |courses|
      invariant totalPoints == Total(courses[..i], WrittenPoints(weighted))
      invariant totalCredits == CreditHours(courses[..i])
    {
      totalPoints, totalCredits := CountCourse(totalPoints, totalCredits, courses[i], weighted);
      TotalSnoc(courses[..i], courses[i], WrittenPoints(weighted));
      CreditHoursSnoc(courses[..i], courses[i]);
      TakeNext(courses, i);
    }
    TakeAll(courses);
    gpa := NumToFixed(DivByInt(totalPoints, totalCredits), Places(weighted));
  }

  /** `calculateGPA` of the export helpers with the points multiplied by the credits on both scales. */
  function ExportGpa(courses: seq<Course>, weighted: bool): string
  {
    if courses == [] then ZeroText(weighted)
    else GpaText(Total(courses, IntendedPoints(weighted)), CreditHours(courses), weighted)
  }

  /** Whenever the engine succeeds, the exported GPA is the engine's printed GPA. */
  lemma ExportGpaIsEngineGpa(courses: seq<Course>, weighted: bool)
    requires Calculable(courses)
    ensures ExportGpa(courses, weighted) == CalculateGpa(courses, weighted)
  {
    IntendedGpaIsEngineGpa(courses, weighted);
  }

  /** On the standard scale the code as written already computes the intended GPA. */
  lemma ExportStandardAsWritten(courses: seq<Course>)
    ensures ExportGpaAsWritten(courses, false) == ExportGpa(courses, false)
  {
    StandardAsIntended(courses);
  }

  /** A grade off the scale prints `NaN`, where the engine prints zero. */
  lemma ExportGpaOfUnknownGrade(courses: seq<Course>, weighted: bool)
    requires courses != [] && !GradesKnown(courses)
    ensures ExportGpa(courses, weighted) == "NaN" && ExportGpaAsWritten(courses, weighted) == "NaN"
    ensures CalculateGpa(courses, weighted) == ZeroText(weighted)
  {
    TotalsOfUnknown(courses, weighted);
    CalculateGpaOfFailure(courses, weighted);
  }

  /**
   * Courses that are all worth zero credits divide by zero: there is no zero guard. Counted as
   * intended, and as written on the standard scale, the total is 0 too and the text is `NaN`; as
   * written on the weighted scale the bare points still add up, so any grade above `F` prints `Infinity`.
   */
  lemma ExportGpaOfZeroCredits(courses: seq<Course>, weighted: bool)
    requires courses != [] && GradesKnown(courses) && CreditsNonNegative(courses) && CreditHours(courses) == 0
    ensures ExportGpa(courses, weighted) == "NaN"
    ensures ExportGpaAsWritten(courses, false) == "NaN"
    ensures Total(courses, WrittenPoints(weighted)).Finite? && Total(courses, WrittenPoints(weighted)).value >= 0.0
    ensures Total(courses, WrittenPoints(weighted)).value > 0.0 ==> ExportGpaAsWritten(courses, weighted) == "Infinity"
    ensures Total(courses, WrittenPoints(weighted)).value == 0.0 ==> ExportGpaAsWritten(courses, weighted) == "NaN"
  {
    ZeroCreditsTotal(courses, weighted);
    ZeroCreditsTotal(courses, false);
    StandardAsIntended(courses);
    GpaTextOverNoCredits(Total(courses, IntendedPoints(weighted)), weighted);
    GpaTextOverNoCredits(Total(courses, IntendedPoints(false)), false);
    WrittenTotalNonNegative(courses, weighted);
    GpaTextOverNoCredits(Total(courses, WrittenPoints(weighted)), weighted);
  }

  /** A finite non-negative total over no credits prints `Infinity`, or `NaN` when it is zero. */
  lemma GpaTextOverNoCredits(total: Num, weighted: bool)
    requires total.Finite? && total.value >= 0.0
    ensures total.value > 0.0 ==> GpaText(total, 0, weighted) == "Infinity"
    ensures total.value == 0.0 ==> GpaText(total, 0, weighted) == "NaN"
  {
  }

  /** With every grade on the scale and no negative credits, the total as written is a finite non-negative value. */
  lemma {:induction false} WrittenTotalNonNegative(courses: seq<Course>, weighted: bool)
    requires GradesKnown(courses) && CreditsNonNegative(courses)
    ensures Total(courses, WrittenPoints(weighted)).Finite? && Total(courses, WrittenPoints(weighted)).value >= 0.0
  {
    if courses != [] {
      var prefix := courses[..|courses| - 1];
      var last := courses[|courses| - 1];
      assert forall i :: 0 <= i < |prefix| ==> prefix[i] == courses[i];
      WrittenTotalNonNegative(prefix, weighted);
      var p := GradePoints(weighted, last.grade).value;
      assert last.credits >= 0;
      ProductBounds(p, last.credits as real, MaxPoints(weighted) as real);
    }
  }

  /** A weighted `A` worth zero credits exports as `Infinity`: 15 points over no credits. */
  lemma ExportZeroCreditWeightedA(c: Course, weighted: bool)
    requires weighted && c.grade == "A" && c.credits == 0
    ensures ExportGpaAsWritten([c], weighted) == "Infinity"
  {
    TotalsOfZeroCreditA(c, weighted);
    ExportGpaOfZeroCredits([c], weighted);
  }

  /** A zero-credit `A` adds 15 as written on the weighted scale, and no credits. */
  lemma TotalsOfZeroCreditA(c: Course, weighted: bool)
    requires weighted && c.grade == "A" && c.credits == 0
    ensures Total([c], WrittenPoints(weighted)) == Finite(15.0)
    ensures GradesKnown([c]) && CreditsNonNegative([c]) && CreditHours([c]) == 0
  {
    WeightedPointsOfA(c, weighted);
    TotalOfOne(c, WrittenPoints(weighted));
    CreditHoursOfOne(c);
  }

  /** An `A` is on the scale and adds its bare 15 points as written on the weighted scale. */
  lemma WeightedPointsOfA(c: Course, weighted: bool)
    requires weighted && c.grade == "A"
    ensures OnScale(c.grade) && WrittenPoints(weighted)(c) == Finite(15.0)
  {
    assert GradePoints(weighted, "A") == Some(15.0);
    assert Lookup(StandardGradePoints, "A") == Some(4.0);
  }

  /** A single course is worth its own credits. */
  lemma CreditHoursOfOne(c: Course)
    ensures CreditHours([c]) == c.credits
  {
    assert [c][..0] == [];
  }

  /** With no credits and known grades the intended total is zero. */
  lemma ZeroCreditsTotal(courses: seq<Course>, weighted: bool)
    requires GradesKnown(courses) && CreditsNonNegative(courses) && CreditHours(courses) == 0
    ensures Total(courses, IntendedPoints(weighted)) == Finite(0.0)
  {
    IntendedTotalOfKnown(courses, weighted);
    QualityPointsBounds(courses, weighted);
    assert MaxPoints(weighted) as real * 0.0 == 0.0;
  }

  /** The default course row, three credits of `A`, exports as 5 on the weighted scale where the engine gives 15. */
  lemma ExportWeightedCounterexample(c: Course, weighted: bool)
    requires weighted && c.grade == "A" && c.credits == 3
    ensures ParseFloat(ExportGpaAsWritten([c], weighted)) == Finite(5.0)
    ensures ParseFloat(CalculateGpa([c], weighted)) == Finite(15.0)
    ensures ExportGpaAsWritten([c], weighted) != CalculateGpa([c], weighted)
  {
    WeightedBarePointsCounterexample(c, weighted);
    ParseToFixed(5.0, Places(weighted));
    RoundOfInteger(5, Places(weighted));
    CalculateGpaReadsBack([c], weighted);
  }

  /** `calculateCumulativeGPA` of the export helpers as written: every semester's courses, guarded against zero credits. */
  function ExportCumulativeAsWritten(semesters: seq<SemesterData>, weighted: bool): string
  {
    GuardedGpaText(AllCourses(semesters), WrittenPoints(weighted), weighted)
  }

  /** The nested `forEach` loops of `calculateCumulativeGPA`, as written. */
  method CalculateCumulativeGpaAsWritten(semesters: seq<SemesterData>, weighted: bool) returns (gpa: string)
    ensures gpa == ExportCumulativeAsWritten(semesters, weighted)
  {
    var totalPoints := Finite(0.0);
    var totalCredits := 0;
    for i := 0 to |semesters|
      invariant totalPoints == Total(AllCourses(semesters[..i]), WrittenPoints(weighted))
      invariant totalCredits == CreditHours(AllCourses(semesters[..i]))
    {
      totalPoints, totalCredits :=
        CountCourses(totalPoints, totalCredits, semesters[i].courses, weighted, AllCourses(semesters[..i]));
      AllCoursesStep(semesters, i);
    }
    TakeAll(semesters);
    if totalCredits == 0 {
      return if weighted then "0.0000" else "0.00";
    }
    gpa := NumToFixed(DivByInt(totalPoints, totalCredits), Places(weighted));
  }

  /** The inner `forEach` of `calculateCumulativeGPA`: the running totals carried on over one semester's courses. */
  method CountCourses(totalPoints: Num, totalCredits: int, courses: seq<Course>, weighted: bool,
                      ghost counted: seq<Course>)
    returns (newPoints: Num, newCredits: int)
    requires totalPoints == Total(counted, WrittenPoints(weighted)) && totalCredits == CreditHours(counted)
    ensures newPoints == Total(counted + courses, WrittenPoints(weighted))
    ensures newCredits == CreditHours(counted + courses)
  {
    newPoints, newCredits := totalPoints, totalCredits;
    AppendTakeNone(counted, courses);
    for j := 0 to |courses|
      invariant newPoints == Total(counted + courses[..j], WrittenPoints(weighted))
      invariant newCredits == CreditHours(counted + courses[..j])
    {
      newPoints, newCredits := CountCourse(newPoints, newCredits, courses[j], weighted);
      TotalSnoc(counted + courses[..j], courses[j], WrittenPoints(weighted));
      CreditHoursSnoc(counted + courses[..j], courses[j]);
      AppendTakeNext(counted, courses, j);
    }
    AppendTakeAll(counted, courses);
  }

  /** Counting one more course adds what it counts. */
  lemma TotalSnoc(s: seq<Course>, c: Course, points: Course -> Num)
    ensures Total(s + [c], points) == Add(Total(s, points), points(c))
  {
    assert (s + [c])[..|s|] == s;
  }

  /** Counting one more course adds its credits. */
  lemma CreditHoursSnoc(s: seq<Course>, c: Course)
    ensures CreditHours(s + [c]) == CreditHours(s) + c.credits
  {
    assert (s + [c])[..|s|] == s;
  }

  /** The courses of one more semester come after those collected so far. */
  lemma AllCoursesStep(semesters: seq<SemesterData>, i: nat)
    requires i < |semesters|
    ensures AllCourses(semesters[..i + 1]) == AllCourses(semesters[..i]) + semesters[i].courses
  {
    assert semesters[..i + 1][..i] == semesters[..i];
  }

  /** `calculateCumulativeGPA` of the export helpers with the points multiplied by the credits on both scales. */
  function ExportCumulativeGpa(semesters: seq<SemesterData>, weighted: bool): string
  {
    GuardedGpaText(AllCourses(semesters), IntendedPoints(weighted), weighted)
  }

  /** Whenever the engine succeeds on all the courses, the exported cumulative GPA is the engine's cumulative GPA. */
  lemma ExportCumulativeIsCumulative(semesters: seq<SemesterData>, weighted: bool)
    requires Calculable(AllCourses(semesters))
    ensures ExportCumulativeGpa(semesters, weighted) == CumulativeGpa(semesters, weighted)
  {
    GuardedIntendedIsEngineGpa(AllCourses(semesters), weighted);
  }

  /** Semesters without a course export the zero text, as the engine's cumulative GPA does. */
  lemma ExportCumulativeWithoutCourses(semesters: seq<SemesterData>, weighted: bool)
    requires forall i :: 0 <= i < |semesters| ==> semesters[i].courses == []
    ensures ExportCumulativeGpa(semesters, weighted) == ZeroText(weighted)
    ensures ExportCumulativeAsWritten(semesters, weighted) == ZeroText(weighted)
    ensures CumulativeGpa(semesters, weighted) == ZeroText(weighted)
  {
    CumulativeWithoutCourses(semesters, weighted);
    if AllCourses(semesters) != [] {
      var c := AllCourses(semesters)[0];
      AllCoursesMembers(semesters, c);
    }
  }

  /** `course.name || 'Untitled Course'` */
  function DisplayName(c: Course): (name: string)
    ensures name != []
    ensures c.name != [] ==> name == c.name
  {
    if c.name == "" then "Untitled Course" else c.name
  }

  /** One course row: name, credits and grade joined with `,`, without quoting. */
  function CsvRow(c: Course): string
  {
    Join([DisplayName(c), IntToString(c.credits), c.grade], ",")
  }

  const Header := "Course Name,Credits,Grade"

  function ScaleLabel(weighted: bool): string
  {
    if weighted then "15-Point Scale" else "4.0 Scale"
  }

  /** The lines of the CSV file: semester, GPA with its scale, a blank line, the header, then one row per course in order. */
  function CsvLines(courses: seq<Course>, weighted: bool, semester: string): (lines: seq<string>)
    ensures |lines| == 4 + |courses|
    ensures lines[0] == "Semester: " + semester && lines[2] == "" && lines[3] == Header
    ensures lines[1] == "GPA: " + ExportGpaAsWritten(courses, weighted) + " (" + ScaleLabel(weighted) + ")"
    ensures forall i :: 0 <= i < |courses| ==> lines[4 + i] == CsvRow(courses[i])
  {
    ["Semester: " + semester, "GPA: " + ExportGpaAsWritten(courses, weighted) + " (" + ScaleLabel(weighted) + ")", "",
     Header]
    + seq(|courses|, i requires 0 <= i < |courses| => CsvRow(courses[i]))
  }

  /** Neither the semester nor any course name or grade holds a line break. */
  predicate NoLineBreaks(courses: seq<Course>, semester: string)
  {
    '\n' !in semester && forall i :: 0 <= i < |courses| ==> '\n' !in courses[i].name && '\n' !in courses[i].grade
  }

  /**
   * The text of the CSV file: its lines joined with line breaks. When no name, grade or semester
   * holds a line break, the text splits back into exactly its 4 + n lines.
   */
  function CsvText(courses: seq<Course>, weighted: bool, semester: string): (text: string)
    ensures NoLineBreaks(courses, semester) ==> Split(text, "\n") == CsvLines(courses, weighted, semester)
  {
    if NoLineBreaks(courses, semester) then
      CsvLinesSplitBack(courses, weighted, semester);
      Join(CsvLines(courses, weighted, semester), "\n")
    else
      Join(CsvLines(courses, weighted, semester), "\n")
  }

  /** On the standard scale the file's GPA line shows the engine's printed GPA whenever the engine succeeds. */
  lemma CsvGpaLineOfEngine(courses: seq<Course>, semester: string)
    requires Calculable(courses)
    ensures CsvLines(courses, false, semester)[1] == "GPA: " + CalculateGpa(courses, false) + " (" + ScaleLabel(false) + ")"
  {
    var lines := CsvLines(courses, false, semester);
    ExportStandardAsWritten(courses);
    ExportGpaIsEngineGpa(courses, false);
    assert ExportGpaAsWritten(courses, false) == CalculateGpa(courses, false);
  }

  /** A printed integer holds only digits and a leading minus sign. */
  lemma IntToStringChars(i: int)
    ensures '\n' !in IntToString(i) && ',' !in IntToString(i)
  {
    var s := if i < 0 then NatToString(-i) else NatToString(i);
    assert forall k :: 0 <= k < |s| ==> IsDecimalDigit(s[k]);
  }

  /** A course whose name and grade hold no comma splits back into its three fields. */
  lemma CsvRowFields(c: Course)
    requires ',' !in c.name && ',' !in c.grade
    ensures Split(CsvRow(c), ",") == [DisplayName(c), IntToString(c.credits), c.grade]
  {
    IntToStringChars(c.credits);
    assert ',' !in "Untitled Course";
    SplitJoin([DisplayName(c), IntToString(c.credits), c.grade], ',');
  }

  /** A join of three pieces puts the separator between each pair. */
  lemma JoinThree(a: string, b: string, c: string, sep: string)
    ensures Join([a, b, c], sep) == a + sep + (b + sep + c)
  {
    assert [a, b, c][1..] == [b, c];
    assert [b, c][1..] == [c];
    assert Join([c], sep) == c;
    assert Join([b, c], sep) == b + sep + c;
  }

  /** A course row holds no line break when its name and grade hold none. */
  lemma CsvRowNoBreak(c: Course)
    requires '\n' !in c.name && '\n' !in c.grade
    ensures '\n' !in CsvRow(c)
  {
    IntToStringChars(c.credits);
    assert '\n' !in DisplayName(c);
    JoinThree(DisplayName(c), IntToString(c.credits), c.grade, ",");
  }

  /** The fixed texts of the file hold no line break. */
  lemma LiteralsNoBreak(weighted: bool)
    ensures '\n' !in "Semester: " && '\n' !in "GPA: " && '\n' !in " (" && '\n' !in ")"
    ensures '\n' !in Header && '\n' !in ScaleLabel(weighted)
  {
  }

  /** The GPA line holds no line break. */
  lemma GpaLineNoBreak(courses: seq<Course>, weighted: bool)
    ensures '\n' !in "GPA: " + ExportGpaAsWritten(courses, weighted) + " (" + ScaleLabel(weighted) + ")"
  {
    LiteralsNoBreak(weighted);
  }

  /** One line of the file holds no line break when no name, grade or semester does. */
  lemma CsvLineNoBreak(courses: seq<Course>, weighted: bool, semester: string, i: nat)
    requires '\n' !in semester
    requires forall i :: 0 <= i < |courses| ==> '\n' !in courses[i].name && '\n' !in courses[i].grade
    requires i < 4 + |courses|
    ensures '\n' !in CsvLines(courses, weighted, semester)[i]
  {
    if i == 1 {
      GpaLineNoBreak(courses, weighted);
    } else if i >= 4 {
      CsvRowNoBreak(courses[i - 4]);
    } else {
      LiteralsNoBreak(weighted);
    }
  }

  /** No line of the file holds a line break when no name, grade or semester does. */
  lemma CsvLinesNoBreak(courses: seq<Course>, weighted: bool, semester: string)
    requires '\n' !in semester
    requires forall i :: 0 <= i < |courses| ==> '\n' !in courses[i].name && '\n' !in courses[i].grade
    ensures forall i :: 0 <= i < |CsvLines(courses, weighted, semester)| ==> '\n' !in CsvLines(courses, weighted, semester)[i]
  {
    forall i | 0 <= i < |CsvLines(courses, weighted, semester)|
      ensures '\n' !in CsvLines(courses, weighted, semester)[i]
    {
      CsvLineNoBreak(courses, weighted, semester, i);
    }
  }

  /** When no name, grade or semester holds a line break, the joined lines split back into the 4 + n lines. */
  lemma CsvLinesSplitBack(courses: seq<Course>, weighted: bool, semester: string)
    requires NoLineBreaks(courses, semester)
    ensures Split(Join(CsvLines(courses, weighted, semester), "\n"), "\n") == CsvLines(courses, weighted, semester)
  {
    CsvLinesNoBreak(courses, weighted, semester);
    SplitJoin(CsvLines(courses, weighted, semester), '\n');
  }
}
