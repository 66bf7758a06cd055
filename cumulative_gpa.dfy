/**
 * The cumulative GPA panel: the semesters it is given, the ids of the semesters the student has
 * ticked (all of them at first), and the GPA, credit total and four-tier colour of the ticked ones.
 */
module CumulativePanel {
  import opened Lists
  import opened JsNumber
  import opened Types
  import opened Engine
  import opened GpaCalculations
  import opened ComponentTotals
  import opened Export

  /** `semesters.map(s => s.id)` */
  function Ids(semesters: seq<SemesterData>): (ids: seq<string>)
    ensures |ids| == |semesters|
    ensures forall i :: 0 <= i < |semesters| ==> ids[i] == semesters[i].id
  {
    seq(|semesters|, i requires 0 <= i < |semesters| => semesters[i].id)
  }

  /** The test `id => id !== semesterId` of the untick branch. */
  function Other(semesterId: string): string -> bool
  {
    (id: string) => id != semesterId
  }

  /** The new selection after clicking the box of `semesterId`: drop every copy of it, or append it. */
  function Toggled(selected: seq<string>, semesterId: string): seq<string>
  {
    if semesterId in selected then Filter(selected, Other(semesterId)) else selected + [semesterId]
  }

  /** Clicking a box flips the membership of that one id and of no other. */
  lemma ToggledMembers(selected: seq<string>, semesterId: string, id: string)
    ensures id in Toggled(selected, semesterId) <==> if id == semesterId then id !in selected else id in selected
  {
    if semesterId in selected && id != semesterId && id in selected {
      var i :| 0 <= i < |selected| && selected[i] == id;
      assert Other(semesterId)(selected[i]);
    }
  }

  /** Clicking the same box twice gives back the same set of ticked ids. */
  lemma ToggleTwice(selected: seq<string>, semesterId: string, id: string)
    ensures id in Toggled(Toggled(selected, semesterId), semesterId) <==> id in selected
  {
    ToggledMembers(selected, semesterId, id);
    ToggledMembers(Toggled(selected, semesterId), semesterId, id);
  }

  /** A selection without repeats keeps none after a click. */
  lemma ToggledDistinct(selected: seq<string>, semesterId: string)
    requires Distinct(selected)
    ensures Distinct(Toggled(selected, semesterId))
  {
    if semesterId in selected {
      FilterDistinct(selected, Other(semesterId));
    }
  }

  /** The test `sem => semesterIds.includes(sem.id)`. */
  function Chosen(semesterIds: seq<string>): SemesterData -> bool
  {
    (s: SemesterData) => s.id in semesterIds
  }

  /** `semesters.filter(sem => semesterIds.includes(sem.id))`: the chosen semesters in the panel's order. */
  function Selection(semesters: seq<SemesterData>, semesterIds: seq<string>): seq<SemesterData>
  {
    Filter(semesters, Chosen(semesterIds))
  }

  /** Choosing every id chooses every semester. */
  lemma SelectionOfAll(semesters: seq<SemesterData>)
    ensures Selection(semesters, Ids(semesters)) == semesters
  {
    FilterKeepsAll(semesters, Chosen(Ids(semesters)));
  }

  /** The nested `reduce` of `getTotalCredits` over a list of semesters. */
  function SemesterCredits(semesters: seq<SemesterData>): int
  {
    if semesters == [] then 0
    else SemesterCredits(semesters[..|semesters| - 1]) + CreditHours(semesters[|semesters| - 1].courses)
  }

  /** Summing semester by semester counts the credits of all their courses. */
  lemma {:induction false} SemesterCreditsOfAll(semesters: seq<SemesterData>)
    ensures SemesterCredits(semesters) == CreditHours(AllCourses(semesters))
  {
    if semesters != [] {
      var prefix := semesters[..|semesters| - 1];
      SemesterCreditsOfAll(prefix);
      CreditHoursAppend(AllCourses(prefix), semesters[|semesters| - 1].courses);
    }
  }

  /** Top, second and third tiers of the panel's colour. */
  const PanelEmerald := "text-emerald-500"
  const PanelBlue := "text-blue-500"
  const PanelYellow := "text-yellow-500"
  const PanelRed := "text-red-500"

  /**
   * The colour rule of `getGPAColor`: at least 90 %, 80 % or 70 % of the scale's top, or below;
   * every comparison with `NaN` is false, so `NaN` is red.
   */
  function PanelColor(gpa: Num, weighted: bool): (color: string)
    ensures color == PanelEmerald || color == PanelBlue || color == PanelYellow || color == PanelRed
    ensures gpa.NaN? || gpa.NegInfinity? ==> color == PanelRed
  {
    var m := MaxPoints(weighted) as real;
    if AtLeast(gpa, m * 0.9) then PanelEmerald
    else if AtLeast(gpa, m * 0.8) then PanelBlue
    else if AtLeast(gpa, m * 0.7) then PanelYellow
    else PanelRed
  }

  /** The position of a panel colour among the tiers, lowest first. */
  function PanelRank(color: string): nat
  {
    if color == PanelEmerald then 3
    else if color == PanelBlue then 2
    else if color == PanelYellow then 1
    else 0
  }

  /** The tiers on finite values, each boundary in the higher tier, and `NaN` in the lowest. */
  lemma PanelColorTiers(g: real, weighted: bool)
    ensures var m := MaxPoints(weighted) as real;
            && (PanelColor(Finite(g), weighted) == PanelEmerald <==> g >= 0.9 * m)
            && (PanelColor(Finite(g), weighted) == PanelBlue <==> 0.8 * m <= g < 0.9 * m)
            && (PanelColor(Finite(g), weighted) == PanelYellow <==> 0.7 * m <= g < 0.8 * m)
            && (PanelColor(Finite(g), weighted) == PanelRed <==> g < 0.7 * m)
    ensures PanelColor(NaN, weighted) == PanelRed
  {
    assert PanelEmerald != PanelBlue && PanelEmerald != PanelYellow && PanelEmerald != PanelRed;
    assert PanelBlue != PanelYellow && PanelBlue != PanelRed && PanelYellow != PanelRed;
  }

  /** A higher GPA never lands in a lower tier. */
  lemma PanelColorMonotone(a: real, b: real, weighted: bool)
    requires a <= b
    ensures PanelRank(PanelColor(Finite(a), weighted)) <= PanelRank(PanelColor(Finite(b), weighted))
  {
    PanelColorTiers(a, weighted);
    PanelColorTiers(b, weighted);
  }

  /**
   * One weighted semester holding a three-credit `A`: the GPA as written reads back as 5, a third of
   * the top, so the panel paints it red, where the engine's 15 would be emerald.
   */
  lemma PanelColorCounterexample(s: SemesterData, c: Course, weighted: bool)
    requires weighted && s.courses == [c] && c.grade == "A" && c.credits == 3
    ensures PanelColor(ParseFloat(ExportCumulativeAsWritten([s], weighted)), weighted) == PanelRed
    ensures PanelColor(ParseFloat(ExportCumulativeGpa([s], weighted)), weighted) == PanelEmerald
  {
    assert AllCourses([s]) == [c] by {
      assert [s][..0] == [];
    }
    ExportWeightedCounterexample(c, weighted);
    PointsOfThreeCreditA(c, weighted);
    assert ExportCumulativeAsWritten([s], weighted) == ExportGpaAsWritten([c], weighted);
    GuardedIntendedIsEngineGpa([c], weighted);
    PanelColorTiers(5.0, weighted);
    PanelColorTiers(15.0, weighted);
  }

  /** On the standard scale, when the engine succeeds, the GPA as written reads back as the engine's cumulative GPA. */
  lemma StandardPanelGpa(chosen: seq<SemesterData>, weighted: bool)
    ensures !weighted && Calculable(AllCourses(chosen)) ==>
              ParseFloat(ExportCumulativeAsWritten(chosen, weighted)) == Finite(Calculate(AllCourses(chosen), weighted).gpa)
  {
    if !weighted && Calculable(AllCourses(chosen)) {
      ExportCumulativeIsCumulative(chosen, weighted);
      StandardAsIntended(AllCourses(chosen));
    }
  }

  /** The panel: the semesters and scale it is given, the ticked ids and whether the list is open. */
  class CumulativeView {
    const semesters: seq<SemesterData>
    const isWeighted: bool
    var selectedSemesters: seq<string>
    var showDetails: bool

    /** Every semester starts ticked and the list starts closed. */
    constructor (semesters: seq<SemesterData>, isWeighted: bool)
      ensures this.semesters == semesters && this.isWeighted == isWeighted
      ensures selectedSemesters == Ids(semesters) && !showDetails
    {
      this.semesters := semesters;
      this.isWeighted := isWeighted;
      selectedSemesters := Ids(semesters);
      showDetails := false;
    }

    /** The Show/Hide Details button. */
    method ToggleDetails()
      modifies this
      ensures showDetails == !old(showDetails) && selectedSemesters == old(selectedSemesters)
    {
      showDetails := !showDetails;
    }

    /** `toggleSemester` */
    method ToggleSemester(semesterId: string)
      modifies this
      ensures selectedSemesters == Toggled(old(selectedSemesters), semesterId)
      ensures showDetails == old(showDetails)
    {
      if semesterId in selectedSemesters {
        selectedSemesters := Filter(selectedSemesters, Other(semesterId));
      } else {
        selectedSemesters := selectedSemesters + [semesterId];
      }
    }

    /**
     * `calculateCumulativeGPA(semesterIds)` as written: the loop of the export helper's cumulative
     * GPA, run over the chosen semesters (bare points on the weighted scale, zero guard included).
     */
    method CalculateCumulativeGpaAsWritten(semesterIds: seq<string>) returns (gpa: string)
      ensures gpa == ExportCumulativeAsWritten(Selection(semesters, semesterIds), isWeighted)
    {
      var chosen := Filter(semesters, Chosen(semesterIds));
      gpa := Export.CalculateCumulativeGpaAsWritten(chosen, isWeighted);
    }

    /** `calculateCumulativeGPA(semesterIds)` with points·credits on both scales, as the engine counts. */
    function IntendedCumulativeGpa(semesterIds: seq<string>): string
    {
      ExportCumulativeGpa(Selection(semesters, semesterIds), isWeighted)
    }

    /** `getTotalCredits(semesterIds)` */
    function TotalCredits(semesterIds: seq<string>): (credits: int)
      ensures credits == CreditHours(AllCourses(Selection(semesters, semesterIds)))
    {
      SemesterCreditsOfAll(Selection(semesters, semesterIds));
      SemesterCredits(Selection(semesters, semesterIds))
    }

    /**
     * `getGPAColor`: the colour of the ticked semesters' GPA as written, read back as a number; one of
     * the four tiers, and on the standard scale the tier of the engine's cumulative GPA when it succeeds.
     */
    function PanelGpaColor(): (color: string)
      reads this
      ensures color == PanelEmerald || color == PanelBlue || color == PanelYellow || color == PanelRed
      ensures !isWeighted && Calculable(AllCourses(Selection(semesters, selectedSemesters))) ==>
                color == PanelColor(Finite(Calculate(AllCourses(Selection(semesters, selectedSemesters)), isWeighted).gpa),
                                    isWeighted)
    {
      StandardPanelGpa(Selection(semesters, selectedSemesters), isWeighted);
      PanelColor(ParseFloat(ExportCumulativeAsWritten(Selection(semesters, selectedSemesters), isWeighted)), isWeighted)
    }

    /** The colour of the ticked semesters' GPA counted as the engine counts. */
    function IntendedPanelGpaColor(): string
      reads this
    {
      PanelColor(ParseFloat(IntendedCumulativeGpa(selectedSemesters)), isWeighted)
    }

    /**
     * Whenever the engine succeeds on the chosen courses, the intended count is their cumulative
     * GPA, and on the standard scale so is the GPA the panel shows.
     */
    lemma CumulativeGpaIsEngine(semesterIds: seq<string>)
      requires Calculable(AllCourses(Selection(semesters, semesterIds)))
      ensures IntendedCumulativeGpa(semesterIds) == CumulativeGpa(Selection(semesters, semesterIds), isWeighted)
      ensures !isWeighted ==> ExportCumulativeAsWritten(Selection(semesters, semesterIds), isWeighted)
                              == CumulativeGpa(Selection(semesters, semesterIds), isWeighted)
    {
      ExportCumulativeIsCumulative(Selection(semesters, semesterIds), isWeighted);
      StandardAsIntended(AllCourses(Selection(semesters, semesterIds)));
    }

    /**
     * With every semester ticked, the intended count is the cumulative GPA of them all, and so is
     * the GPA the panel shows on the standard scale; the credits are those of every course.
     */
    lemma AllTickedIsCumulative()
      requires Calculable(AllCourses(semesters))
      ensures IntendedCumulativeGpa(Ids(semesters)) == CumulativeGpa(semesters, isWeighted)
      ensures !isWeighted ==> ExportCumulativeAsWritten(Selection(semesters, Ids(semesters)), isWeighted)
                              == CumulativeGpa(semesters, isWeighted)
      ensures TotalCredits(Ids(semesters)) == CreditHours(AllCourses(semesters))
    {
      SelectionOfAll(semesters);
      CumulativeGpaIsEngine(Ids(semesters));
    }

    /** With nothing ticked the panel shows the zero text and no credits, counted either way. */
    lemma NothingTicked()
      ensures ExportCumulativeAsWritten(Selection(semesters, []), isWeighted) == ZeroText(isWeighted)
      ensures IntendedCumulativeGpa([]) == ZeroText(isWeighted)
      ensures TotalCredits([]) == 0
    {
      FilterNone(semesters, Chosen([]));
      assert AllCourses([]) == [];
    }

    /**
     * When the engine succeeds, the intended colour is the tier of the engine's cumulative GPA of
     * the ticked semesters, and on the standard scale so is the colour the panel shows.
     */
    lemma GpaColorIsEngineTier()
      requires Calculable(AllCourses(Selection(semesters, selectedSemesters)))
      ensures IntendedPanelGpaColor()
              == PanelColor(Finite(Calculate(AllCourses(Selection(semesters, selectedSemesters)), isWeighted).gpa), isWeighted)
      ensures !isWeighted ==> PanelGpaColor() == IntendedPanelGpaColor()
    {
      var chosen := Selection(semesters, selectedSemesters);
      CumulativeGpaIsEngine(selectedSemesters);
      GradeCalculator.CalculateGpaReadsBack(AllCourses(chosen), isWeighted);
    }
  }
}
