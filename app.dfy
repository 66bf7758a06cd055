/**
 * The application state: the grade scale, the course rows being edited, the saved history, the
 * semesters, the active semester's id and the current semester's name, with the handlers that
 * change them (add, edit and remove a course, add and select a semester, save, load, delete, reset).
 */
module App {
  import opened Wrappers
  import opened Lists
  import opened Text
  import opened JsNumber
  import opened Types
  import opened Engine
  import GradeCalculator
  import opened Calendar
  import opened ComponentTotals
  import opened Export

  /** The row every fresh course list starts with: id 1, no name, 3 credits, grade `A`. */
  const DefaultCourse := Course(1, "", 3, "A", None)

  const FirstPeriod := "First Semester"
  const SecondPeriod := "Second Semester"

  /** The name of the semester the application starts in. */
  const InitialSemester := "First Semester - 2024/2025"

  /** The id of the semester created on first start. */
  const InitialSemesterId := "current"

  /** `Y/Z` for two years. */
  function Years(y: nat, z: nat): string
  {
    NatToString(y) + "/" + NatToString(z)
  }

  // ---------------------------------------------------------------------------------------------
  // The application's own `calculateGPA`

  /** What one course adds in the application's own loop: 15, or 4·credits, whatever the grade. */
  function FlatPoints(weighted: bool): Course -> Num
  {
    (c: Course) => if weighted then Finite(15.0) else Finite(4.0 * c.credits as real)
  }

  /**
   * The application's `calculateGPA` as written: the zero text for no courses, no guard against zero
   * credits. On the standard scale it prints 4.00 whatever the grades, once the credits do not add up to zero.
   */
  function AppGpaAsWritten(courses: seq<Course>, weighted: bool): (s: string)
    ensures !weighted && CreditHours(courses) != 0 ==> s == ToFixed(4.0, Places(false))
  {
    if courses == [] then ZeroText(weighted)
    else
      FlatStandardText(courses);
      GpaText(Total(courses, FlatPoints(weighted)), CreditHours(courses), weighted)
  }

  /** On the standard scale the total as written is always four times the credits. */
  lemma {:induction false} FlatStandardTotal(courses: seq<Course>)
    ensures Total(courses, FlatPoints(false)) == Finite(4.0 * CreditHours(courses) as real)
  {
    if courses != [] {
      FlatStandardTotal(courses[..|courses| - 1]);
    }
  }

  /** Four times the credits over the credits prints 4, as soon as the credits do not add up to zero. */
  lemma FlatStandardText(courses: seq<Course>)
    ensures CreditHours(courses) != 0 ==>
              GpaText(Total(courses, FlatPoints(false)), CreditHours(courses), false) == ToFixed(4.0, Places(false))
  {
    FlatStandardTotal(courses);
    if CreditHours(courses) != 0 {
      FlatMeanText(CreditHours(courses));
    }
  }

  /** `4·h / h` prints as 4 for a non-zero credit total `h`. */
  lemma FlatMeanText(h: int)
    requires h != 0
    ensures GpaText(Finite(4.0 * h as real), h, false) == ToFixed(4.0, Places(false))
  {
    var q := 4.0 * h as real;
    MeanOf(q, h, 4.0);
    GpaTextOfFinite(q, h, false);
  }

  /**
   * The standard GPA as written reads back as 4.0 whatever the grades, as soon as the credits do not
   * add up to zero.
   */
  lemma AppStandardIsTop(courses: seq<Course>)
    requires CreditHours(courses) != 0
    ensures ParseFloat(AppGpaAsWritten(courses, false)) == Finite(4.0)
  {
    RoundOfInteger(4, Places(false));
    ParseToFixed(4.0, Places(false));
  }

  /** The grade `F` is worth nothing on the standard scale. */
  lemma FailingGrade(grade: string)
    requires grade == "F"
    ensures GradePoints(false, grade) == Some(0.0)
  {
    assert StandardGradePoints[|StandardGradePoints| - 1] == (grade, 0.0);
    assert forall k :: 0 <= k < |StandardGradePoints| - 1 ==> StandardGradePoints[k].0[0] != 'F';
    LookupOfLast(StandardGradePoints, grade);
  }

  /** A course worth no points gives the engine a GPA of zero. */
  lemma EngineOfFailingCourse(c: Course)
    requires GradePoints(false, c.grade) == Some(0.0) && c.credits > 0
    ensures Calculate([c], false).gpa == 0.0
  {
    assert [c][..0] == [];
    assert GradesKnown([c]) && CreditsNonNegative([c]) && CreditHours([c]) == c.credits;
    QualityPointsSnoc([c], false);
    assert QualityPoints([c], false) == 0.0 * c.credits as real;
    CalculatedGpa([c], false);
    RoundOfInteger(0, Places(false));
  }

  /**
   * A single failed course: the application's loop as written reads back as 4.0, the engine's GPA
   * as 0.
   */
  lemma AppGpaCounterexample(c: Course)
    requires c.grade == "F" && c.credits > 0
    ensures ParseFloat(AppGpaAsWritten([c], false)) == Finite(4.0)
    ensures ParseFloat(GradeCalculator.CalculateGpa([c], false)) == Finite(0.0)
  {
    assert [c][..0] == [];
    AppStandardIsTop([c]);
    FailingGrade(c.grade);
    EngineOfFailingCourse(c);
    GradeCalculator.CalculateGpaReadsBack([c], false);
  }

  /**
   * The projection panel is handed the printed GPA and the credit sum of the courses. When the credits
   * add up to 0, that GPA is `NaN` or an infinity (0/0 or 15/0), and the projection of any calculable new
   * courses prints `NaN`. (The panel multiplies the text, reading it as `Number` does, which agrees with
   * `parseFloat` on every text `toFixed` prints.)
   */
  lemma ProjectionFromZeroCredits(courses: seq<Course>, newCourses: seq<Course>, weighted: bool)
    requires courses != [] && CreditHours(courses) == 0 && Calculable(newCourses)
    ensures !ParseFloat(AppGpaAsWritten(courses, weighted)).Finite?
    ensures GradeCalculator.CalculateProjectedGpa(ParseFloat(AppGpaAsWritten(courses, weighted)), CreditHours(courses),
                                                  newCourses, weighted) == "NaN"
  {
    var quotient := DivByInt(Total(courses, FlatPoints(weighted)), 0);
    assert AppGpaAsWritten(courses, weighted) == NumToFixed(quotient, Places(weighted));
    ParseNumToFixed(quotient, Places(weighted));
    GradeCalculator.ProjectedGpaFromNothing(quotient, newCourses, weighted);
  }

  // ---------------------------------------------------------------------------------------------
  // Course rows

  /** `Math.max(0, ...courses.map(c => c.id))` */
  function MaxId(courses: seq<Course>): (r: int)
    ensures r >= 0
    ensures forall i :: 0 <= i < |courses| ==> courses[i].id <= r
    ensures r == 0 || exists i :: 0 <= i < |courses| && courses[i].id == r
  {
    if courses == [] then 0
    else
      var rest := MaxId(courses[..|courses| - 1]);
      var last := courses[|courses| - 1].id;
      assert forall i :: 0 <= i < |courses| - 1 ==> courses[..|courses| - 1][i] == courses[i];
      if last > rest then last else rest
  }

  /** No two course rows share an id. */
  predicate IdsDistinct(courses: seq<Course>)
  {
    forall i, j :: 0 <= i < j < |courses| ==> courses[i].id != courses[j].id
  }

  /** `handleAddCourse`: a default row whose id is one more than the largest id (and at least 1). */
  function WithNewCourse(courses: seq<Course>): seq<Course>
  {
    courses + [Course(MaxId(courses) + 1, "", 3, "A", None)]
  }

  /** The new row's id is used by no other row, so adding a row keeps the ids distinct. */
  lemma NewCourseFresh(courses: seq<Course>)
    ensures var r := WithNewCourse(courses);
            && |r| == |courses| + 1 && r[|courses|].id >= 1
            && (forall i :: 0 <= i < |courses| ==> r[i] == courses[i] && r[i].id != r[|courses|].id)
            && (IdsDistinct(courses) ==> IdsDistinct(r))
  {
  }

  /** The `field` and `value` of `handleUpdateCourse`, one case per field of a course. */
  datatype CourseField =
    | IdField(id: int)
    | NameField(name: string)
    | CreditsField(credits: int)
    | GradeField(grade: string)
    | SemesterField(semester: string)

  /** `{ ...course, [field]: value }` */
  function WithField(c: Course, f: CourseField): (r: Course)
    ensures f.IdField? ==> r == c.(id := f.id)
    ensures f.NameField? ==> r == c.(name := f.name)
    ensures f.CreditsField? ==> r == c.(credits := f.credits)
    ensures f.GradeField? ==> r == c.(grade := f.grade)
    ensures f.SemesterField? ==> r == c.(semester := Some(f.semester))
  {
    match f
    case IdField(v) => c.(id := v)
    case NameField(v) => c.(name := v)
    case CreditsField(v) => c.(credits := v)
    case GradeField(v) => c.(grade := v)
    case SemesterField(v) => c.(semester := Some(v))
  }

  /** `handleUpdateCourse`: every row with the id gets the field, the others stay as they are. */
  function UpdatedCourses(courses: seq<Course>, id: int, f: CourseField): (r: seq<Course>)
    ensures |r| == |courses|
    ensures forall i :: 0 <= i < |r| ==> r[i] == if courses[i].id == id then WithField(courses[i], f) else courses[i]
  {
    seq(|courses|, i requires 0 <= i < |courses| =>
      if courses[i].id == id then WithField(courses[i], f) else courses[i])
  }

  /** An edit of anything but the id keeps every row's id, so the ids stay distinct. */
  lemma UpdateKeepsIds(courses: seq<Course>, id: int, f: CourseField)
    requires !f.IdField?
    ensures var r := UpdatedCourses(courses, id, f);
            (forall i :: 0 <= i < |r| ==> r[i].id == courses[i].id) && (IdsDistinct(courses) ==> IdsDistinct(r))
  {
  }

  /** An edit of the grade or the name leaves the credit total as it is. */
  lemma {:induction false} UpdateKeepsCredits(courses: seq<Course>, id: int, f: CourseField)
    requires f.GradeField? || f.NameField?
    ensures CreditHours(UpdatedCourses(courses, id, f)) == CreditHours(courses)
  {
    if courses != [] {
      var prefix := courses[..|courses| - 1];
      UpdateKeepsCredits(prefix, id, f);
      assert UpdatedCourses(courses, id, f)[..|courses| - 1] == UpdatedCourses(prefix, id, f);
    }
  }

  /** The test `course => course.id !== id`. */
  function OtherId(id: int): Course -> bool
  {
    (c: Course) => c.id != id
  }

  /** The test `course => course.id === id`. */
  function WithId(id: int): Course -> bool
  {
    (c: Course) => c.id == id
  }

  /** `handleRemoveCourse`: drop the rows with the id, unless only one row is left. */
  function RemovedCourses(courses: seq<Course>, id: int): seq<Course>
  {
    if |courses| > 1 then Filter(courses, OtherId(id)) else courses
  }

  /** Among rows with distinct ids at most one has a given id. */
  lemma {:induction false} AtMostOneWithId(courses: seq<Course>, id: int)
    requires IdsDistinct(courses)
    ensures |Filter(courses, WithId(id))| <= 1
  {
    if courses != [] {
      var rest := courses[1..];
      assert forall i :: 0 <= i < |rest| ==> rest[i] == courses[i + 1];
      if courses[0].id == id {
        FilterNone(rest, WithId(id));
      } else {
        AtMostOneWithId(rest, id);
      }
    }
  }

  /**
   * Removing keeps exactly the rows with another id (all rows when one is left), and with distinct
   * ids it removes at most one row, so a non-empty list never becomes empty.
   */
  lemma RemoveKeepsOthers(courses: seq<Course>, id: int)
    ensures var r := RemovedCourses(courses, id);
            forall c :: c in r <==> c in courses && (|courses| <= 1 || c.id != id)
    ensures IdsDistinct(courses) ==> |RemovedCourses(courses, id)| >= |courses| - 1
    ensures IdsDistinct(courses) && courses != [] ==> RemovedCourses(courses, id) != []
  {
    if |courses| > 1 {
      var r := Filter(courses, OtherId(id));
      forall c | c in courses && c.id != id
        ensures c in r
      {
        var i :| 0 <= i < |courses| && courses[i] == c;
        assert OtherId(id)(courses[i]);
      }
      if IdsDistinct(courses) {
        FilterKeepsAll(courses, (c: Course) => true);
        FilterCountSplit(courses, OtherId(id), WithId(id), (c: Course) => true);
        AtMostOneWithId(courses, id);
      }
    }
  }

  // ---------------------------------------------------------------------------------------------
  // Semester rollover

  /** `x + 1` where `NaN + 1` is `NaN`. */
  function Inc(x: Option<int>): (r: Option<int>)
    ensures r.Some? <==> x.Some?
    ensures x.Some? ==> r.value == x.value + 1
  {
    match x
    case None => None
    case Some(v) => Some(v + 1)
  }

  /** `${parseInt(s.split('/')[0]) + 1}/${parseInt(s.split('/')[1]) + 1}` (a missing piece reads as `NaN`). */
  function RolledYears(s: string): string
  {
    var bounds := Split(s, "/");
    var end := if |bounds| >= 2 then ParseInt(bounds[1]) else None;
    IntOrNaNToString(Inc(ParseInt(bounds[0]))) + "/" + IntOrNaNToString(Inc(end))
  }

  /**
   * The next semester's name as written: `First` becomes `Second`; any other name becomes
   * `First Semester - ` with both years of the WHOLE name read by `parseInt`.
   */
  function NextSemesterNameAsWritten(name: string): (next: string)
    ensures Contains(name, "First") ==> Contains(next, "Second")
    ensures !Contains(name, "First") ==> Contains(next, "First")
  {
    ReplacedContains(name, "First", "Second");
    ContainsPrefix("First", " Semester - " + RolledYears(name));
    if Contains(name, "First") then ReplaceFirst(name, "First", "Second")
    else FirstPeriod + " - " + RolledYears(name)
  }

  /** The next semester's name, with the years read from the text after the last ` - `. */
  function NextSemesterName(name: string): (next: string)
    ensures Contains(name, "First") ==> Contains(next, "Second")
    ensures !Contains(name, "First") ==> Contains(next, "First")
  {
    ReplacedContains(name, "First", "Second");
    if Contains(name, "First") then ReplaceFirst(name, "First", "Second")
    else
      var parts := Split(name, " - ");
      FirstPeriod + " - " + RolledYears(parts[|parts| - 1])
  }

  /** A text without the character `c` has no occurrence of `[c]` before the appended one. */
  lemma NoCharSeparator(a: string, c: char)
    requires c !in a
    ensures forall j :: 0 <= j < |a| ==> !OccursAt(a + [c], [c], j)
  {
    forall j | 0 <= j < |a|
      ensures !OccursAt(a + [c], [c], j)
    {
      assert (a + [c])[j..j + 1][0] == a[j];
    }
  }

  /** A text without `F` does not include `First`. */
  lemma NoFirst(s: string)
    requires 'F' !in s
    ensures !Contains(s, "First")
  {
    forall j | 0 <= j
      ensures !OccursAt(s, "First", j)
    {
      if j + 5 <= |s| {
        assert s[j..j + 5][0] == s[j];
      }
    }
  }

  /** A name that starts with `First` rolls over to the same name starting with `Second`, both ways. */
  lemma NextOfFirst(rest: string)
    ensures NextSemesterName("First" + rest) == "Second" + rest
    ensures NextSemesterNameAsWritten("First" + rest) == "Second" + rest
  {
    var name := "First" + rest;
    assert name[0..5] == "First";
    assert IndexOf(name, "First") == Some(0);
    assert name[5..] == rest;
  }

  /** `Y/Z` rolls over to `Y+1/Z+1`. */
  lemma RolledYearsOf(y: nat, z: nat)
    ensures RolledYears(Years(y, z)) == Years(y + 1, z + 1)
  {
    NoCharSeparator(NatToString(y), '/');
    SplitAfter(NatToString(y), "/", NatToString(z));
    SplitWithoutSeparator(NatToString(z), "/");
    ParseIntOfNatToString(y);
    ParseIntOfNatToString(z);
  }

  /** The period names and the year texts hold none of `F`, `-` or `/` where it matters. */
  lemma PeriodChars()
    ensures 'F' !in SecondPeriod && '-' !in SecondPeriod && '/' !in SecondPeriod && '-' !in FirstPeriod
    ensures 'F' !in " - " && SecondPeriod[0] == 'S'
  {
  }

  /** The years hold only digits and the one `/`. */
  lemma YearsChars(y: nat, z: nat)
    ensures 'F' !in Years(y, z)
  {
    var s := Years(y, z);
    forall i | 0 <= i < |s|
      ensures s[i] != 'F'
    {
      if i < |NatToString(y)| {
        assert s[i] == NatToString(y)[i];
      } else if i > |NatToString(y)| {
        assert s[i] == NatToString(z)[i - |NatToString(y)| - 1];
      }
    }
  }

  /** `Second Semester - Y/Z` rolls over to `First Semester - Y+1/Z+1`. */
  lemma NextOfSecond(y: nat, z: nat)
    ensures NextSemesterName(SecondPeriod + " - " + Years(y, z)) == FirstPeriod + " - " + Years(y + 1, z + 1)
  {
    PeriodChars();
    YearsChars(y, z);
    NoFirst(SecondPeriod + " - " + Years(y, z));
    SemesterNameParts(SecondPeriod, y, z);
    RolledYearsOf(y, z);
  }

  /** `First Semester - Y/Z` is `First` followed by the rest, and `Second` before the same rest is `Second Semester - Y/Z`. */
  lemma PeriodNames(y: nat, z: nat)
    ensures FirstPeriod + " - " + Years(y, z) == "First" + (" Semester" + " - " + Years(y, z))
    ensures "Second" + (" Semester" + " - " + Years(y, z)) == SecondPeriod + " - " + Years(y, z)
  {
  }

  /** Two rollovers from `First Semester - Y/Z` reach `First Semester - Y+1/Z+1`. */
  lemma NextTwice(y: nat, z: nat)
    ensures NextSemesterName(NextSemesterName(FirstPeriod + " - " + Years(y, z)))
            == FirstPeriod + " - " + Years(y + 1, z + 1)
  {
    PeriodNames(y, z);
    NextOfFirst(" Semester" + " - " + Years(y, z));
    NextOfSecond(y, z);
  }

  /** The name two rollovers reach carries the next year for the calendar. */
  lemma NextTwiceYear(y: nat, z: nat)
    ensures YearOf(NextSemesterName(NextSemesterName(FirstPeriod + " - " + Years(y, z)))) == Some(y + 1)
  {
    NextTwice(y, z);
    PeriodChars();
    YearOfName(FirstPeriod, y + 1, z + 1);
  }

  /** A text with a single `c` splits on it into the text before and the text after. */
  lemma SplitOnce(a: string, b: string, c: char)
    requires c !in a && c !in b
    ensures Split(a + [c] + b, [c]) == [a, b]
  {
    NoCharSeparator(a, c);
    SplitAfter(a, [c], b);
    SplitWithoutSeparator(b, [c]);
  }

  /** `Second Semester - Y` holds no `/`. */
  lemma SecondPrefixNoSlash(y: nat)
    ensures '/' !in SecondPeriod + " - " + NatToString(y)
  {
    var a := SecondPeriod + " - " + NatToString(y);
    PeriodChars();
    forall i | 0 <= i < |a|
      ensures a[i] != '/'
    {
      if i >= |SecondPeriod + " - "| {
        assert a[i] == NatToString(y)[i - |SecondPeriod + " - "|];
      }
    }
  }

  /** A numeral holds no `/`. */
  lemma NumeralNoSlash(n: nat)
    ensures '/' !in NatToString(n)
  {
    assert forall i :: 0 <= i < |NatToString(n)| ==> IsDecimalDigit(NatToString(n)[i]);
  }

  /** The name `Second Semester - Y/Z` regrouped around its `/`. */
  lemma SecondNameRegrouped(y: nat, z: nat)
    ensures SecondPeriod + " - " + Years(y, z) == SecondPeriod + " - " + NatToString(y) + "/" + NatToString(z)
  {
  }

  /** How the whole name `Second Semester - Y/Z` splits on `/`. */
  lemma SecondNameSlashes(y: nat, z: nat)
    ensures Split(SecondPeriod + " - " + Years(y, z), "/") == [SecondPeriod + " - " + NatToString(y), NatToString(z)]
  {
    SecondPrefixNoSlash(y);
    NumeralNoSlash(z);
    SplitOnce(SecondPeriod + " - " + NatToString(y), NatToString(z), '/');
    SecondNameRegrouped(y, z);
  }

  /**
   * As written, `Second Semester - Y/Z` rolls over to `First Semester - NaN/Z+1`: `parseInt` of the
   * whole text before the `/` starts at `S`.
   */
  lemma RolloverAsWrittenCounterexample(y: nat, z: nat)
    ensures NextSemesterNameAsWritten(SecondPeriod + " - " + Years(y, z))
            == FirstPeriod + " - " + ("NaN" + "/" + NatToString(z + 1))
  {
    var a := SecondPeriod + " - " + NatToString(y);
    PeriodChars();
    YearsChars(y, z);
    NoFirst(SecondPeriod + " - " + Years(y, z));
    SecondNameSlashes(y, z);
    assert a[0] == 'S';
    ParseIntOfNonNumeral(a);
    ParseIntOfNatToString(z);
  }

  /** `NaN/Z` holds no space. */
  lemma NaNYearsNoSpace(z: nat)
    ensures ' ' !in "NaN" + "/" + NatToString(z)
  {
    var years := "NaN" + "/" + NatToString(z);
    forall i | 0 <= i < |years|
      ensures years[i] != ' '
    {
      if i >= 4 {
        assert years[i] == NatToString(z)[i - 4];
      }
    }
  }

  /** The name the code as written produces carries no year: the calendar can file it under none. */
  lemma RolledOverNameHasNoYear(z: nat)
    ensures YearOf(FirstPeriod + " - " + ("NaN" + "/" + NatToString(z))) == None
  {
    PeriodChars();
    NaNYearsNoSpace(z);
    DashSplit(FirstPeriod, "NaN" + "/" + NatToString(z));
    NumeralNoSlash(z);
    SplitOnce("NaN", NatToString(z), '/');
    ParseIntOfNonNumeral("NaN");
    YearOfParts(FirstPeriod + " - " + ("NaN" + "/" + NatToString(z)), FirstPeriod, "NaN" + "/" + NatToString(z),
                "NaN", NatToString(z));
  }

  /** The application starts in `First Semester - 2024/2025`. */
  lemma InitialSemesterParts(name: string)
    requires name == InitialSemester
    ensures name == FirstPeriod + " - " + Years(2024, 2025)
  {
    DefaultYearNumerals();
    DefaultNameParts();
  }

  // ---------------------------------------------------------------------------------------------
  // Semesters and history

  /** The `map` of `saveCalculation`: the active semester gets the courses and the GPA. */
  function WithSemesterCourses(semesters: seq<SemesterData>, activeId: string, courses: seq<Course>, gpa: string)
    : (r: seq<SemesterData>)
    ensures |r| == |semesters|
    ensures forall i :: 0 <= i < |r| ==>
              r[i] == if semesters[i].id == activeId then semesters[i].(courses := courses, gpa := gpa) else semesters[i]
  {
    seq(|semesters|, i requires 0 <= i < |semesters| =>
      if semesters[i].id == activeId then semesters[i].(courses := courses, gpa := gpa) else semesters[i])
  }

  /** A semester's stored GPA is what the application's own `calculateGPA` gives for its courses. */
  predicate GpaStored(s: SemesterData, weighted: bool)
  {
    s.gpa == AppGpaAsWritten(s.courses, weighted)
  }

  /** Saving stores a consistent GPA in the active semester, and keeps every other semester as it was. */
  lemma SaveStoresGpa(semesters: seq<SemesterData>, activeId: string, courses: seq<Course>, weighted: bool)
    ensures var r := WithSemesterCourses(semesters, activeId, courses, AppGpaAsWritten(courses, weighted));
            forall i :: 0 <= i < |r| ==> r[i].id == semesters[i].id && r[i].name == semesters[i].name
                                         && (semesters[i].id == activeId ==> GpaStored(r[i], weighted))
                                         && (GpaStored(semesters[i], weighted) ==> GpaStored(r[i], weighted))
  {
  }

  /** The test `calc => calc.id !== id`. */
  function OtherCalculation(id: string): SavedCalculation -> bool
  {
    (c: SavedCalculation) => c.id != id
  }

  /** `deleteCalculation`: every entry with the id goes, the others stay. */
  lemma DeleteKeepsOthers(history: seq<SavedCalculation>, id: string)
    ensures forall c :: c in Filter(history, OtherCalculation(id)) <==> c in history && c.id != id
  {
    forall c | c in history && c.id != id
      ensures c in Filter(history, OtherCalculation(id))
    {
      var i :| 0 <= i < |history| && history[i] == c;
      assert OtherCalculation(id)(history[i]);
    }
  }

  /** The test `s => s.id === semesterId`. */
  function SemesterWithId(id: string): SemesterData -> bool
  {
    (s: SemesterData) => s.id == id
  }

  /** The whole state of the application. */
  class GpaApp {
    var isWeighted: bool
    var courses: seq<Course>
    var history: seq<SavedCalculation>
    var semesters: seq<SemesterData>
    var activeSemesterId: string
    var currentSemester: string

    /** The first render: the history and the semesters come from storage, the rest has its defaults. */
    constructor (storedHistory: seq<SavedCalculation>, storedSemesters: seq<SemesterData>)
      ensures !isWeighted && courses == [DefaultCourse]
      ensures history == storedHistory && semesters == storedSemesters
      ensures activeSemesterId == InitialSemesterId && currentSemester == InitialSemester
    {
      isWeighted := false;
      courses := [DefaultCourse];
      history := storedHistory;
      semesters := storedSemesters;
      activeSemesterId := InitialSemesterId;
      currentSemester := InitialSemester;
    }

    /** The mount effect: with no stored semester, the current courses become the semester `current`. */
    method Mount()
      modifies this
      ensures old(semesters) == [] ==> semesters == [SemesterData(InitialSemesterId, currentSemester, courses,
                                                                   AppGpaAsWritten(courses, isWeighted))]
      ensures old(semesters) != [] ==> semesters == old(semesters)
      ensures isWeighted == old(isWeighted) && courses == old(courses) && history == old(history)
      ensures activeSemesterId == old(activeSemesterId) && currentSemester == old(currentSemester)
    {
      if |semesters| == 0 {
        var gpa := CalculateGpaAsWritten();
        semesters := [SemesterData(InitialSemesterId, currentSemester, courses, gpa)];
      }
    }

    /** The application's `calculateGPA` loop as written: it never looks at a grade. */
    method CalculateGpaAsWritten() returns (gpa: string)
      ensures gpa == AppGpaAsWritten(courses, isWeighted)
    {
      if |courses| == 0 {
        return if isWeighted then "0.0000" else "0.00";
      }
      var totalPoints := 0.0;
      var totalCredits := 0;
      for i := 0 to |courses|
        invariant Finite(totalPoints) == Total(courses[..i], FlatPoints(isWeighted))
        invariant totalCredits == CreditHours(courses[..i])
      {
        var course := courses[i];
        var points := if isWeighted then 15.0 else 4.0;
        if isWeighted {
          totalPoints := totalPoints + points;
        } else {
          totalPoints := totalPoints + points * course.credits as real;
        }
        totalCredits := totalCredits + course.credits;
        TakeTake(courses, i);
      }
      TakeAll(courses);
      gpa := NumToFixed(DivByInt(Finite(totalPoints), totalCredits), Places(isWeighted));
    }

    /** The scale toggle. */
    method SetWeighted(weighted: bool)
      modifies this
      ensures isWeighted == weighted && courses == old(courses) && history == old(history)
      ensures semesters == old(semesters) && activeSemesterId == old(activeSemesterId)
      ensures currentSemester == old(currentSemester)
    {
      isWeighted := weighted;
    }

    /** `handleAddCourse` */
    method AddCourse()
      modifies this
      ensures courses == WithNewCourse(old(courses))
      ensures isWeighted == old(isWeighted) && history == old(history) && semesters == old(semesters)
      ensures activeSemesterId == old(activeSemesterId) && currentSemester == old(currentSemester)
    {
      var current := courses;
      var maxId := 0;
      for i := 0 to |current|
        invariant maxId == MaxId(current[..i])
        modifies {}
      {
        if current[i].id > maxId {
          maxId := current[i].id;
        }
        TakeTake(current, i);
      }
      TakeAll(current);
      courses := current + [Course(maxId + 1, "", 3, "A", None)];
    }

    /** `handleUpdateCourse` */
    method UpdateCourse(id: int, f: CourseField)
      modifies this
      ensures courses == UpdatedCourses(old(courses), id, f)
      ensures isWeighted == old(isWeighted) && history == old(history) && semesters == old(semesters)
      ensures activeSemesterId == old(activeSemesterId) && currentSemester == old(currentSemester)
    {
      courses := seq(|courses|, i requires 0 <= i < |courses| reads this =>
        if courses[i].id == id then WithField(courses[i], f) else courses[i]);
    }

    /** `handleRemoveCourse` */
    method RemoveCourse(id: int)
      modifies this
      ensures courses == RemovedCourses(old(courses), id)
      ensures isWeighted == old(isWeighted) && history == old(history) && semesters == old(semesters)
      ensures activeSemesterId == old(activeSemesterId) && currentSemester == old(currentSemester)
    {
      if |courses| > 1 {
        courses := Filter(courses, OtherId(id));
      }
    }

    /**
     * `handleAddSemester`, with the clock reading `now`: a new semester `semester-<now>` with the
     * next name and one default row becomes the active one.
     */
    method AddSemester(now: int)
      modifies this
      ensures semesters == old(semesters) + [SemesterData("semester-" + IntToString(now),
                                                           NextSemesterNameAsWritten(old(currentSemester)), [DefaultCourse],
                                                           "0.00")]
      ensures activeSemesterId == "semester-" + IntToString(now)
      ensures currentSemester == NextSemesterNameAsWritten(old(currentSemester)) && courses == [DefaultCourse]
      ensures isWeighted == old(isWeighted) && history == old(history)
    {
      var newSemesterId := "semester-" + IntToString(now);
      var nextSemester := NextSemesterNameAsWritten(currentSemester);
      var newSemester := SemesterData(newSemesterId, nextSemester, [DefaultCourse], "0.00");
      semesters := semesters + [newSemester];
      activeSemesterId := newSemesterId;
      currentSemester := nextSemester;
      courses := newSemester.courses;
    }

    /**
     * `saveCalculation`, with the clock reading `now`: the calculation goes to the front of the
     * history and the active semester gets the courses and the GPA.
     */
    method SaveCalculation(now: int)
      modifies this
      ensures history == [SavedCalculation(IntToString(now), now, courses, AppGpaAsWritten(courses, isWeighted),
                                           isWeighted, Some(currentSemester))] + old(history)
      ensures semesters == WithSemesterCourses(old(semesters), activeSemesterId, courses,
                                               AppGpaAsWritten(courses, isWeighted))
      ensures isWeighted == old(isWeighted) && courses == old(courses)
      ensures activeSemesterId == old(activeSemesterId) && currentSemester == old(currentSemester)
    {
      var gpa := CalculateGpaAsWritten();
      var calculation := SavedCalculation(IntToString(now), now, courses, gpa, isWeighted, Some(currentSemester));
      history := [calculation] + history;
      semesters := WithSemesterCourses(semesters, activeSemesterId, courses, gpa);
    }

    /**
     * `handleExport`: the text of the CSV file of the current courses. Without line breaks in the
     * names, grades and semester name it splits into the semester line, the GPA line as written,
     * a blank line, the header and one row per course.
     */
    function ExportText(): (text: string)
      reads this
      ensures NoLineBreaks(courses, currentSemester) ==> Split(text, "\n") == CsvLines(courses, isWeighted, currentSemester)
    {
      CsvText(courses, isWeighted, currentSemester)
    }

    /** `handleReset` */
    method Reset()
      modifies this
      ensures courses == [DefaultCourse] && !isWeighted
      ensures history == old(history) && semesters == old(semesters)
      ensures activeSemesterId == old(activeSemesterId) && currentSemester == old(currentSemester)
    {
      courses := [DefaultCourse];
      isWeighted := false;
    }

    /** `loadCalculation` */
    method LoadCalculation(saved: SavedCalculation)
      modifies this
      ensures courses == saved.courses && isWeighted == saved.isWeighted
      ensures history == old(history) && semesters == old(semesters)
      ensures activeSemesterId == old(activeSemesterId) && currentSemester == old(currentSemester)
    {
      courses := saved.courses;
      isWeighted := saved.isWeighted;
    }

    /** `deleteCalculation` */
    method DeleteCalculation(id: string)
      modifies this
      ensures history == Filter(old(history), OtherCalculation(id))
      ensures isWeighted == old(isWeighted) && courses == old(courses) && semesters == old(semesters)
      ensures activeSemesterId == old(activeSemesterId) && currentSemester == old(currentSemester)
    {
      history := Filter(history, OtherCalculation(id));
    }

    /**
     * `handleSemesterSelect`: the id becomes the active one even when no semester has it; the first
     * semester with the id, if any, provides the courses and the name.
     */
    method SelectSemester(semesterId: string)
      modifies this
      ensures activeSemesterId == semesterId
      ensures match Find(old(semesters), SemesterWithId(semesterId))
              case Some(s) => courses == s.courses && currentSemester == s.name
              case None => courses == old(courses) && currentSemester == old(currentSemester)
      ensures isWeighted == old(isWeighted) && history == old(history) && semesters == old(semesters)
    {
      activeSemesterId := semesterId;
      var semester := Find(semesters, SemesterWithId(semesterId));
      if semester.Some? {
        courses := semester.value.courses;
        currentSemester := semester.value.name;
      }
    }
  }
}
