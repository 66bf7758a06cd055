# GPA calculator — a verified model of its core

This project models the part of the GPA calculator that computes and shows grade point averages:

- **The two grade scales.** There is a 4.0 scale and a 15-point weighted scale.
- **The engine.** `GPACalculator` computes the credit-weighted mean Σ(points·credits) / Σcredits, rounded to 2 or 4 decimals, and the projection of a known GPA with new courses. Each of its failures turns into an all-zero result.
- **The string-level wrappers.** These produce the printed GPA, the printed difference, the up/down/same trend and the five-tier colour.
- **Multi-semester helpers.** These give the semester GPA, the cumulative GPA, the per-semester analysis and the academic progress.
- **Calendar helpers.** These read the start year out of a name `<Period> - YYYY/YYYY`, group semesters by that year and list the distinct years.
- **Export helpers.** Each keeps its own GPA loop, and one writes the CSV text.
- **The cumulative GPA panel.** It keeps a selection of ticked semesters and its own GPA loop and colour.
- **The application's state and handlers.** These add, edit and remove a course; add and select a semester; and save, load, delete and reset.

**Numbers.** A JavaScript number is modelled as `Num`: an exact `real`, or `NaN`, or one of the two infinities. `+`, `-` and `/` follow the IEEE rules for the special values:

- `NaN` absorbs.
- `x / 0` is `NaN` for `0`, and an infinity otherwise.
- An infinity times 0 is `NaN`.

The projection takes its current GPA as such a number. The application hands it the printed GPA, which is `NaN` or `Infinity` when the courses' credits add up to 0, so the projected GPA can be `NaN` or infinite too.

`toFixed(d)` is modelled as rounding half away from zero at `d` decimals. `parseFloat` reads an optional sign, digits and an optional fraction.

**Failures.** The engine's `throw … catch` is modelled as a `Result` whose error names the reason: empty input, invalid grade, negative credits, zero credit hours or negative current credits. The public operations collapse every error to the zero result, as the `catch` blocks do.

**Form of the model.** The engine and the helpers are pure functions. The application state and the panel are classes whose handler methods change their fields. The `forEach` loops of the export helpers, of the panel and of the application's own `calculateGPA` are methods with loops, proved against the functions that specify them.

**Three defects**, where the code does not do what it evidently intends, are logged under Findings. They show in four places, and the handlers and the panel keep the code as written in each:

- The semester rollover of `AddSemester`.
- The CSV's GPA line.
- The GPA stored on save and on first start.
- The panel's GPA and colour.

Each of these has a corrected definition beside it, with the intended property proved about it.

## Model

| member | source | states |
|---|---|---|
| Types.GradePoints | src/types/index.ts:56-70 | a grade has points exactly when the tables list it, and those points lie between 0 and the top of the chosen scale |
| Types.TablesShareKeys | src/types/index.ts:56-70 | both tables list the same 13 distinct letter grades in the same order |
| Types.StandardBounds | src/types/index.ts:56-62 | every 4.0-scale entry lies in [0, 4]; `A+` and `A` are worth 4.0 and `F` 0 |
| Types.WeightedBounds | src/types/index.ts:64-70 | every weighted entry lies in [0, 15]; `A+` and `A` are worth 15 and `F` 0 |
| Types.TablesNonIncreasing | src/types/index.ts:56-70 | a better grade is never worth fewer points than a worse one, on either scale |
| Types.TablesAreExact | src/types/index.ts:56-70 | weighted points are whole numbers and standard points have one decimal, so exact reals hold the table values exactly |
| Types.ZeroTextIsToFixed | src/utils/export.ts:43 | the literals `"0.00"` and `"0.0000"` are what `toFixed` prints for 0 at the scale's decimals |
| Types.CreditHoursNonNegative | src/utils/GPACalculator.ts:22-29 | a sum of non-negative credits is non-negative |
| Types.CreditHoursAppend | src/utils/GPACalculator.ts:22-29 | the credit sum of two lists is the sum of their credit sums |
| Types.CreditHoursPermutation | src/utils/GPACalculator.ts:22-29 | reordering the courses does not change the credit sum |
| JsNumber.Add | src/utils/export.ts:10-19 | `+=` adds finite values exactly, and a `NaN` operand gives `NaN` |
| JsNumber.DivByInt | src/utils/export.ts:21 | dividing by a non-zero credit total is exact division; `0 / 0` is `NaN` and a positive total over 0 is +Infinity |
| JsNumber.HalfUp | src/utils/GPACalculator.ts:53 | the scaled value rounds to the integer within half a unit, halves going up |
| JsNumber.RoundIsNearest | src/utils/GPACalculator.ts:53 | `Number(x.toFixed(d))` lies within half a unit of the last place of `x` |
| JsNumber.RoundIdempotent | src/utils/GPACalculator.ts:53 | rounding an already rounded value changes nothing |
| JsNumber.RoundMonotone | src/utils/GPACalculator.ts:53 | rounding keeps the order of two values |
| JsNumber.RoundBetween | src/utils/GPACalculator.ts:53 | rounding keeps a value between two integer bounds |
| JsNumber.RoundOfInteger | src/utils/GPACalculator.ts:61 | a whole number rounds to itself |
| JsNumber.Round | src/utils/GPACalculator.ts:53 | rounding keeps the sign: a non-negative value rounds to a non-negative one and a non-positive value to a non-positive one |
| JsNumber.FixedNumeral | src/utils/gradeCalculator.ts:8 | the digits of a printed magnitude are decimal digits and a point, starting with a digit |
| JsNumber.ParseToFixed | src/utils/gpaCalculations.ts:32 | `parseFloat(x.toFixed(d))` reads back exactly the value `x` rounded to `d` decimals |
| JsNumber.ToFixedOfRound | src/utils/gradeCalculator.ts:6-9 | printing an already rounded non-negative value prints the same text as printing the unrounded one |
| JsNumber.NumToFixedHasNoBreak | src/utils/export.ts:58-64 | a printed number holds no line break and no comma |
| JsNumber.MulByInt | src/utils/GPACalculator.ts:80 | multiplying by a whole number keeps a finite value finite (the product) and `NaN` as `NaN`; an infinity times 0 is `NaN` |
| JsNumber.RoundNum | src/utils/GPACalculator.ts:93 | `Number(x.toFixed(d))` is finite exactly when `x` is, and `NaN` and the infinities come back unchanged |
| JsNumber.RoundNumReadsBack | src/utils/GPACalculator.ts:93 | `Number(x.toFixed(d))` is exactly the printed text read back |
| JsNumber.ParseNumToFixed | src/utils/gradeCalculator.ts:18 | reading a printed number back gives the finite value rounded to `d` decimals; `NaN` and the infinities read back as themselves |
| JsNumber.RoundNumIdempotent | src/utils/gradeCalculator.ts:17-18 | printing and reading back a number that was already printed and read back changes nothing |
| JsNumber.ToFixedOfZero | src/utils/export.ts:4 | 0 prints as `0.00` with 2 decimals and as `0.0000` with 4 |
| Text.JoinSplit | src/utils/calendar.ts:3 | joining the pieces of `split(sep)` with `sep` gives back the text |
| Text.SplitJoin | src/utils/export.ts:58-64 | splitting lines joined with a character none of them holds gives back the lines |
| Text.SplitWithoutSeparator | src/utils/calendar.ts:3-4 | a text without the separator splits into itself alone |
| Text.ParseIntOfNatToString | src/utils/calendar.ts:9 | `parseInt` reads a printed natural number back exactly |
| Text.ParseIntOfNonNumeral | src/utils/calendar.ts:9-10 | `parseInt` of a text that starts with neither a digit, a sign nor a space is `NaN` |
| Text.ParseInt | src/utils/calendar.ts:9 | a number is read only from a text with a non-space character, and a negative one only after a leading minus |
| Engine.CalculatePoints | src/utils/GPACalculator.ts:10-20 | succeeds exactly when every grade is listed, with Σ points·credits; otherwise it fails naming the first unlisted grade |
| Engine.SumCreditHours | src/utils/GPACalculator.ts:22-29 | succeeds exactly when no course has negative credits, with the credit sum; otherwise it fails with the negative-credits error |
| Engine.Details | src/utils/GPACalculator.ts:45-48 | one detail per course, in order, holding the course and its grade's points (`undefined` off the scale) |
| Engine.TryCalculate | src/utils/GPACalculator.ts:31-57 | errors in the code's order: empty input, invalid grade, negative credits, zero credits. Otherwise the GPA is the rounded Σpoints·credits / Σcredits, with both totals and the details |
| Engine.Calculate | src/utils/GPACalculator.ts:31-67 | every failure gives the all-zero result; a success gives the computed result; the GPA always lies in [0, top of scale] |
| Engine.QualityPointsBounds | src/utils/GPACalculator.ts:10-20 | 0 ≤ Σ points·credits ≤ top·Σcredits for listed grades and non-negative credits |
| Engine.GpaBounds | src/utils/GPACalculator.ts:50-53 | a successful GPA lies between 0 and the top of the scale |
| Engine.QualityPointsAppend | src/utils/GPACalculator.ts:10-20 | the points of two lists add up |
| Engine.QualityPointsPermutation | src/utils/GPACalculator.ts:10-20 | reordering the courses does not change the points total |
| Engine.CalculateTotalsBounds | src/utils/GPACalculator.ts:31-67 | the engine's result never has negative credits, and its points stay within top·credits |
| Engine.CalculatedGpa | src/utils/GPACalculator.ts:50-53 | on calculable courses the GPA is the rounded mean of their points over their credits |
| Engine.CalculableAppend | src/utils/GPACalculator.ts:31-57 | two calculable lists together are calculable, with added points and credits |
| Engine.TryCalculateProjected | src/utils/GPACalculator.ts:69-100 | negative current credits fail first. Otherwise the projection succeeds exactly when current plus new credits are non-zero; these are its only errors. A `NaN` current GPA gives a `NaN` projection |
| Engine.ProjectedOk | src/utils/GPACalculator.ts:80-100 | a successful projection has credits c plus the new credits, the new courses' details, and points GPA·c plus the new points, added as JavaScript numbers. Its GPA is the combined mean printed and read back |
| Engine.ProjectedOfNonFinite | src/utils/GPACalculator.ts:80-93 | a `NaN` current GPA projects to `NaN`, and so does an infinite one over 0 current credits (∞·0). Over positive current credits an infinite GPA comes through unchanged |
| Engine.ProjectedPointsOfFinite | src/utils/GPACalculator.ts:80-83 | from a finite current GPA g, a successful projection totals the finite g·c plus the new points |
| Engine.ProjectedOfFinite | src/utils/GPACalculator.ts:80-93 | from a finite current GPA g over non-zero combined credits, the projection is the finite, rounded (g·c + new points) / (c + new credits) |
| Engine.ProjectedMeanBounds | src/utils/GPACalculator.ts:90-93 | the rounded combined mean of a finite GPA on the scale with totals on the scale is finite and stays on the scale |
| Engine.CalculateProjected | src/utils/GPACalculator.ts:69-110 | every failure, and negative current credits in particular, gives the all-zero result. A finite current GPA never projects to `NaN` or an infinity |
| Engine.ProjectedFromNothing | src/utils/GPACalculator.ts:69-110 | projecting from 0 current credits gives the new courses' own result when the current GPA is finite. When it is `NaN` or infinite, calculable new courses project to `NaN`. Uncalculable new courses give the zero result |
| Engine.ProjectedWhenNewCoursesFail | src/utils/GPACalculator.ts:80-93 | when the new courses fail, the caught zero result is folded in, and the projection is the current GPA printed and read back (rounded if finite, unchanged if not) |
| Engine.ProjectedTotals | src/utils/GPACalculator.ts:80-93 | with calculable new courses, a finite current GPA projects to the rounded (current points + new points) / (current + new credits) |
| Engine.ProjectedStraightA | src/utils/GPACalculator.ts:80-93 | 4.00 over 30 credits with a three-credit `A` projects to 4.00 |
| Engine.ProjectedComposes | src/utils/GPACalculator.ts:69-100 | projecting the GPA and credits of earlier courses with new courses gives the GPA of all of them together |
| Engine.ProjectedJoins | src/utils/GPACalculator.ts:80-93 | a projection whose combined totals are those of a course list has that list's GPA |
| Engine.ProjectedBounds | src/utils/GPACalculator.ts:69-110 | a finite current GPA on the scale projects to a finite GPA on the scale, success or failure |
| Engine.ProjectedOkBounds | src/utils/GPACalculator.ts:90-100 | a successful projection of a finite GPA on the scale stays finite and on the scale |
| Engine.GetGradeScale | src/utils/GPACalculator.ts:112-114 | the table lists the 13 grades in order, each worth between 0 and the top of the scale |
| GradeCalculator.CalculateGpaOfFailure | src/utils/gradeCalculator.ts:6-9 | every engine failure prints as `0.00` or `0.0000` |
| GradeCalculator.CalculatedIsRounded | src/utils/gradeCalculator.ts:6-9 | the engine's GPA is already rounded to the printed decimals |
| GradeCalculator.CalculateGpa | src/utils/gradeCalculator.ts:6-9 | the printed GPA reads back as the engine's GPA exactly |
| GradeCalculator.CalculateGpaReadsBack | src/utils/gradeCalculator.ts:6-9 | reading the printed GPA back gives the engine's GPA exactly, a value on the scale |
| GradeCalculator.CalculateProjectedGpa | src/utils/gradeCalculator.ts:11-19 | the printed projection reads back as the projected GPA (`NaN` and the infinities print as words), and negative current credits print as the zero text |
| GradeCalculator.ProjectedGpaOfNegativeCredits | src/utils/gradeCalculator.ts:11-19 | negative current credits print as the zero text |
| GradeCalculator.ProjectedGpaFromNothing | src/utils/gradeCalculator.ts:11-19 | with 0 current credits, a finite current GPA gives the printed GPA of the new courses, and a `NaN` or infinite one prints `NaN` once the new courses can be calculated |
| GradeCalculator.ProjectedGpaReadsBack | src/utils/gradeCalculator.ts:11-19 | printing the projected GPA and reading it back gives it exactly, `NaN` and the infinities included |
| GradeCalculator.GpaDifference | src/utils/gradeCalculator.ts:21-24 | a text that does not read as a number gives `NaN`; a finite value compared with itself gives the zero text |
| GradeCalculator.GpaDifferenceOfSame | src/utils/gradeCalculator.ts:21-24 | a GPA text compared with itself prints a zero difference exactly when it reads as a finite number |
| GradeCalculator.GpaDifferenceOfPrinted | src/utils/gradeCalculator.ts:21-24 | the difference of two printed GPAs is the difference of the rounded values, printed |
| GradeCalculator.GpaDifferenceOfFinite | src/utils/gradeCalculator.ts:21-24 | two texts that read as finite values print the difference of those values |
| GradeCalculator.GpaTrend | src/utils/gradeCalculator.ts:26-32 | a `NaN` on either side gives `down`, and `same` on finite values means a change below 0.001 |
| GradeCalculator.GpaTrendOfFinite | src/utils/gradeCalculator.ts:26-32 | `same` exactly when the change is strictly within 0.001; otherwise `up` exactly for a rise of at least 0.001 and `down` exactly for a fall of at least 0.001 |
| GradeCalculator.GpaTrendReflexive | src/utils/gradeCalculator.ts:26-32 | a finite GPA compared with itself is `same` |
| GradeCalculator.GpaTrendAntisymmetric | src/utils/gradeCalculator.ts:26-32 | swapping the two GPAs swaps `up` and `down` and keeps `same` |
| GradeCalculator.GpaColor | src/utils/gradeCalculator.ts:34-43 | the colour is one of the five tiers; off the finite values only plus infinity is emerald |
| GradeCalculator.GpaColorTiers | src/utils/gradeCalculator.ts:34-43 | each of the five colours holds exactly its band of percentages of the top (93, 85, 77, 70), each boundary in the higher band |
| GradeCalculator.GpaColorMonotone | src/utils/gradeCalculator.ts:34-43 | a higher GPA never gets a lower colour tier |
| GpaCalculations.AllCoursesAppend | src/utils/gpaCalculations.ts:23-26 | collecting the courses of two runs of semesters collects each run in turn |
| GpaCalculations.AllCoursesMembers | src/utils/gpaCalculations.ts:23-26 | a course is collected exactly when some semester holds it |
| GpaCalculations.AllCoursesPermutation | src/utils/gpaCalculations.ts:23-26 | reordering the semesters only reorders the collected courses |
| GpaCalculations.SemesterGpa | src/utils/gpaCalculations.ts:18-20 | the semester GPA reads back as the engine's GPA of its courses |
| GpaCalculations.CumulativeGpa | src/utils/gpaCalculations.ts:22-29 | the cumulative GPA reads back as the engine's GPA of every semester's courses together |
| GpaCalculations.CumulativeOfOne | src/utils/gpaCalculations.ts:18-29 | the cumulative GPA of one semester is that semester's GPA |
| GpaCalculations.CumulativeWithoutCourses | src/utils/gpaCalculations.ts:22-29 | semesters without courses have the zero cumulative GPA |
| GpaCalculations.CalculablePermutation | src/utils/GPACalculator.ts:31-42 | whether the engine succeeds, and the credit total, do not depend on course order |
| GpaCalculations.CalculatePermutation | src/utils/GPACalculator.ts:31-57 | the engine's GPA and totals do not depend on course order |
| GpaCalculations.CumulativePermutation | src/utils/gpaCalculations.ts:22-29 | reordering the semesters leaves the cumulative GPA unchanged |
| GpaCalculations.AnalyzeSemesterPerformance | src/utils/gpaCalculations.ts:31-42 | the analysis holds the engine's GPA of the semester, its credit total and its course count |
| GpaCalculations.AnalysisOfSemester | src/utils/gpaCalculations.ts:31-42 | the analysed GPA is the engine's GPA exactly, on the scale, with that GPA's colour, the semester's credits and its course count |
| GpaCalculations.CalculateAcademicProgress | src/utils/gpaCalculations.ts:44-58 | one entry per semester, in order, carrying the semester's name and analysis |
| GpaCalculations.ProgressStartsSame | src/utils/gpaCalculations.ts:47-54 | the first entry's trend is `same` |
| GpaCalculations.ProgressTrend | src/utils/gpaCalculations.ts:44-58 | each later entry holds its semester's engine GPA and the trend from the previous semester's engine GPA |
| Calendar.SemesterNameParts | src/utils/calendar.ts:3-7 | a name `<Period> - Y/Z` splits on ` - ` into the period and `Y/Z`, and `Y/Z` splits on `/` into the two numerals |
| Calendar.YearOf | src/utils/calendar.ts:1-15 | a year is found only in a name of two ` - ` pieces whose second piece has two `/` pieces |
| Calendar.YearOfParts | src/utils/calendar.ts:1-15 | a name that splits into two pieces, the second into two, carries `parseInt` of the first year piece |
| Calendar.YearOfName | src/utils/calendar.ts:1-15 | a name `<Period> - Y/Z` whose period holds no `-` carries the year `Y` |
| Calendar.YearOfDefaultName | src/utils/calendar.ts:1-15 | `First Semester - 2024/2025` carries 2024 |
| Calendar.YearOfWithoutSeparator | src/utils/calendar.ts:3-4 | a name without a space carries no year |
| Calendar.BucketSnoc | src/utils/calendar.ts:17-26 | adding a semester at the end adds it to the end of its own year's bucket and to no other |
| Calendar.GroupedStep | src/utils/calendar.ts:18-25 | one step of the `reduce` keeps the grouping of the semesters seen so far |
| Calendar.GroupByYear | src/utils/calendar.ts:17-26 | there is a bucket exactly for each year some name carries, holding exactly that year's semesters in their order |
| Calendar.BucketMembers | src/utils/calendar.ts:17-26 | every semester in a bucket carries the bucket's year |
| Calendar.BucketTotalOfDistinct | src/utils/calendar.ts:17-26 | the bucket sizes of distinct years add up to the number of semesters carrying one of those years |
| Calendar.BucketSizes | src/utils/calendar.ts:17-26 | the buckets of all the years together hold every semester with a year exactly once |
| Calendar.InsertDescending | src/utils/calendar.ts:29-35 | inserting into a strictly descending list keeps it strictly descending and adds exactly the new year |
| Calendar.DistinctYears | src/utils/calendar.ts:29-35 | the years the names carry, strictly descending (so without repeats), and nothing else |
| Calendar.UniqueYears | src/utils/calendar.ts:28-42 | a strictly descending, non-empty list. It holds exactly the years the names carry, or only the current year when no name carries one |
| ComponentTotals.TotalAgree | src/utils/export.ts:10-19 | two per-course counts that agree on every course give the same running total |
| ComponentTotals.TotalOfNaN | src/utils/export.ts:10-19 | one `undefined` grade makes the running total `NaN` |
| ComponentTotals.IntendedTotalOfKnown | src/utils/export.ts:10-19 | with every grade listed, points·credits summed in the loop equal the engine's points total |
| ComponentTotals.TotalsOfUnknown | src/utils/export.ts:10-19 | an unlisted grade makes both the as-written and the intended total `NaN` |
| ComponentTotals.StandardAsIntended | src/utils/export.ts:15-17 | on the 4.0 scale the loop as written counts exactly as the engine does |
| ComponentTotals.OneCreditAsIntended | src/utils/export.ts:12-14 | with one credit per course the bare points equal points·credits on either scale |
| ComponentTotals.MeanNonNegative | src/utils/GPACalculator.ts:50 | the mean the engine rounds is never negative |
| ComponentTotals.IntendedGpaIsEngineGpa | src/utils/export.ts:21-22 | counted as intended, the loop's printed GPA is the engine's printed GPA |
| ComponentTotals.GuardedIntendedIsEngineGpa | src/utils/export.ts:43-45 | with the zero guard and the intended count, the printed GPA is the engine's whenever the engine succeeds |
| ComponentTotals.WeightedBarePointsCounterexample | src/utils/export.ts:12-14 | one three-credit `A` on the weighted scale totals 15 as written, so its mean is 5; counted as intended the total is 45 and the engine's GPA is 15 |
| Export.CountCourse | src/utils/export.ts:11-18 | one loop step adds the course's points as written and its credits |
| Export.ExportGpaAsWritten | src/utils/export.ts:3-23 | the export GPA as written is a non-empty text with no line break and no comma, so it fits in one CSV field |
| Export.CalculateGpaAsWritten | src/utils/export.ts:3-23 | the loop computes the export GPA as written: the zero text for no courses, else the total as written over the credits, printed |
| Export.ExportGpaIsEngineGpa | src/utils/export.ts:3-23 | counted as intended, the export GPA equals the engine's printed GPA whenever the engine succeeds |
| Export.ExportStandardAsWritten | src/utils/export.ts:15-18 | on the 4.0 scale the code as written already gives the intended export GPA |
| Export.ExportGpaOfUnknownGrade | src/utils/export.ts:10-22 | an unlisted grade prints `NaN` in both export versions, where the engine prints the zero text |
| Export.ExportGpaOfZeroCredits | src/utils/export.ts:3-22 | with every credit 0 there is no zero guard: the intended count, and the standard count as written, print `NaN` (0 / 0); as written on the weighted scale the bare points still add up to a non-negative total, so the text is `Infinity` when it is positive and `NaN` when it is 0 |
| Export.WrittenTotalNonNegative | src/utils/export.ts:10-19 | with every grade listed and no negative credits, the loop's total as written is finite and non-negative |
| Export.GpaTextOverNoCredits | src/utils/export.ts:21-22 | a positive total over 0 credits prints `Infinity`, a zero total prints `NaN` |
| Export.ExportZeroCreditWeightedA | src/utils/export.ts:3-22 | one zero-credit `A` on the weighted scale exports as `Infinity` (15 / 0) |
| Export.ExportWeightedCounterexample | src/utils/export.ts:12-14 | one three-credit `A` exports as 5 on the weighted scale, while the engine prints 15 |
| Export.CalculateCumulativeGpaAsWritten | src/utils/export.ts:25-46 | the nested loops compute the guarded cumulative GPA as written over all the semesters' courses |
| Export.CountCourses | src/utils/export.ts:31-40 | the inner loop extends the running totals by one semester's courses |
| Export.AllCoursesStep | src/utils/export.ts:30-41 | the courses up to semester `i` inclusive are those before it followed by its own |
| Export.ExportCumulativeIsCumulative | src/utils/export.ts:25-46 | counted as intended, the export's cumulative GPA is the cumulative GPA whenever the engine succeeds |
| Export.ExportCumulativeWithoutCourses | src/utils/export.ts:43 | semesters without courses export the zero text in both versions, as the cumulative GPA does |
| Export.DisplayName | src/utils/export.ts:51 | the shown name is never empty and is the course's own name when it has one |
| Export.CsvLines | src/utils/export.ts:48-64 | the CSV lines hold the semester line, the GPA line (the export GPA as written, with its scale), a blank line, the header, then one row per course in order |
| Export.CsvGpaLineOfEngine | src/utils/export.ts:56-60 | on the 4.0 scale the GPA line shows the engine's printed GPA whenever the engine succeeds |
| Export.CsvRowFields | src/utils/export.ts:50-54 | a row of a course without commas splits back into its name, credits and grade |
| Export.CsvRowNoBreak | src/utils/export.ts:50-54 | a row of a course without line breaks holds no line break |
| Export.CsvLinesNoBreak | src/utils/export.ts:58-64 | no CSV line holds a line break when the semester and courses hold none |
| Export.CsvLinesSplitBack | src/utils/export.ts:58-64 | joining the lines with line breaks and splitting again gives back exactly the lines, when no name, grade or semester holds a line break |
| Export.CsvText | src/utils/export.ts:58-64 | the CSV text splits at line breaks into exactly its 4 + n lines, when no name, grade or semester holds a line break |
| CumulativePanel.Ids | src/components/CumulativeGPA.tsx:12-14 | the initial selection is the ids of the semesters, one each, in order |
| CumulativePanel.ToggledMembers | src/components/CumulativeGPA.tsx:16-22 | a click flips the membership of that one id and of no other |
| CumulativePanel.ToggleTwice | src/components/CumulativeGPA.tsx:16-22 | two clicks on the same box give back the same ticked ids |
| CumulativePanel.ToggledDistinct | src/components/CumulativeGPA.tsx:16-22 | a selection without repeats keeps none after a click |
| CumulativePanel.SelectionOfAll | src/components/CumulativeGPA.tsx:29-30 | with every id ticked every semester is chosen |
| CumulativePanel.SemesterCreditsOfAll | src/components/CumulativeGPA.tsx:48-54 | summing credits semester by semester counts the credits of all their courses |
| CumulativePanel.PanelColorTiers | src/components/CumulativeGPA.tsx:56-64 | each of the four colours holds exactly its band (90, 80, 70 % of the top), boundaries in the higher band, and `NaN` is red |
| CumulativePanel.PanelColorMonotone | src/components/CumulativeGPA.tsx:56-64 | a higher GPA never gets a lower panel colour |
| CumulativePanel.PanelColor | src/components/CumulativeGPA.tsx:56-64 | the colour is one of the four tiers, and a `NaN` or minus-infinity GPA is red |
| CumulativePanel.PanelColorCounterexample | src/components/CumulativeGPA.tsx:24-64 | one weighted semester of a three-credit `A`: the panel's GPA as written reads back as 5 and is painted red, where the intended count is 15 and emerald |
| CumulativePanel.StandardPanelGpa | src/components/CumulativeGPA.tsx:24-46 | on the 4.0 scale, whenever the engine succeeds, the panel's GPA as written reads back as the engine's cumulative GPA |
| CumulativePanel.CumulativeView.constructor | src/components/CumulativeGPA.tsx:10-14 | the panel starts with every semester ticked and the details closed |
| CumulativePanel.CumulativeView.ToggleDetails | src/components/CumulativeGPA.tsx:11 | the details flag flips and the selection stays |
| CumulativePanel.CumulativeView.ToggleSemester | src/components/CumulativeGPA.tsx:16-22 | the selection becomes the toggled selection and the details flag stays |
| CumulativePanel.CumulativeView.CalculateCumulativeGpaAsWritten | src/components/CumulativeGPA.tsx:24-46 | the panel's loop gives the guarded cumulative GPA as written of the chosen semesters |
| CumulativePanel.CumulativeView.TotalCredits | src/components/CumulativeGPA.tsx:48-54 | the credit total is that of all the chosen semesters' courses |
| CumulativePanel.CumulativeView.CumulativeGpaIsEngine | src/components/CumulativeGPA.tsx:24-46 | whenever the engine succeeds on the chosen courses, the intended count is their cumulative GPA, and on the 4.0 scale so is the panel's count as written |
| CumulativePanel.CumulativeView.AllTickedIsCumulative | src/components/CumulativeGPA.tsx:12-54 | with every semester ticked the intended count is the cumulative GPA of them all, so is the count as written on the 4.0 scale, and the credit total is that of all their courses |
| CumulativePanel.CumulativeView.NothingTicked | src/components/CumulativeGPA.tsx:43-54 | with nothing ticked the panel shows the zero text, counted as written or as intended, and 0 credits |
| CumulativePanel.CumulativeView.PanelGpaColor | src/components/CumulativeGPA.tsx:56-64 | the colour of the ticked semesters' GPA as written is one of the four tiers, and on the 4.0 scale it is the tier of the engine's cumulative GPA whenever the engine succeeds |
| CumulativePanel.CumulativeView.GpaColorIsEngineTier | src/components/CumulativeGPA.tsx:56-64 | whenever the engine succeeds, the intended colour is the tier of the engine's cumulative GPA of the ticked semesters, and on the 4.0 scale the colour as written is that same colour |
| App.FlatStandardTotal | src/App.tsx:52-60 | on the 4.0 scale the application's own loop totals 4·credits whatever the grades |
| App.AppGpaAsWritten | src/App.tsx:46-64 | on the 4.0 scale the application's own GPA prints `4.00` whatever the grades, as soon as the credits do not add up to 0 |
| App.ProjectionFromZeroCredits | src/App.tsx:220-224 | when the courses' credits add up to 0, the GPA handed to the projection reads as `NaN` or an infinity, and the projection of calculable new courses from those 0 credits prints `NaN` |
| App.AppStandardIsTop | src/App.tsx:46-64 | on the 4.0 scale the application's own GPA reads as 4.0 for any courses with non-zero credits |
| App.AppGpaCounterexample | src/App.tsx:46-64 | one failing course shows 4.0 in the application's own GPA, where the engine's GPA is 0 |
| App.EngineOfFailingCourse | src/utils/GPACalculator.ts:31-57 | the engine gives a single `F` course with credits the GPA 0 |
| App.MaxId | src/App.tsx:70 | `Math.max(0, …ids)`: at least 0 and every id, and either 0 or one of the ids |
| App.NewCourseFresh | src/App.tsx:66-76 | adding a course appends one default row whose id is at least 1 and used by no other row; the others stay, and distinct ids stay distinct |
| App.WithField | src/App.tsx:78-82 | `{ ...course, [field]: value }` changes the named field and no other |
| App.UpdatedCourses | src/App.tsx:78-82 | every row with the id gets the field, every other row stays, and the order stays |
| App.UpdateKeepsIds | src/App.tsx:78-82 | editing a field other than the id keeps every id, so distinct ids stay distinct |
| App.UpdateKeepsCredits | src/App.tsx:78-82 | editing a name or a grade keeps the credit total |
| App.AtMostOneWithId | src/App.tsx:84-88 | among rows with distinct ids at most one has a given id |
| App.RemoveKeepsOthers | src/App.tsx:84-88 | removing keeps exactly the rows with another id (all rows when only one is left), removes at most one row when ids are distinct, and never empties the list |
| App.Inc | src/App.tsx:94 | `parseInt(…) + 1`, with `NaN + 1` staying `NaN` |
| App.NextSemesterNameAsWritten | src/App.tsx:92-94 | as written, a name with `First` gets `Second`, and any other name gets a `First` name |
| App.NextSemesterName | src/App.tsx:92-94 | corrected, a name with `First` gets `Second`, and any other name gets a `First` name |
| App.NextOfFirst | src/App.tsx:92-93 | a name with `First` becomes the same name with `Second`, both as written and as corrected |
| App.RolledYearsOf | src/App.tsx:94 | `Y/Z` rolls over to `Y+1/Z+1` |
| App.NextOfSecond | src/App.tsx:92-94 | corrected, `Second Semester - Y/Z` rolls over to `First Semester - Y+1/Z+1` |
| App.NextTwice | src/App.tsx:90-107 | corrected, two semesters on from `First Semester - Y/Z` is `First Semester - Y+1/Z+1` |
| App.NextTwiceYear | src/App.tsx:90-107 | corrected, two semesters on from a first semester carries the next start year |
| App.SecondNameSlashes | src/App.tsx:94 | `Second Semester - Y/Z` splits on `/` into `Second Semester - Y` and `Z` |
| App.RolloverAsWrittenCounterexample | src/App.tsx:92-94 | as written, `Second Semester - Y/Z` rolls over to `First Semester - NaN/Z+1` |
| App.RolledOverNameHasNoYear | src/App.tsx:94 | the name rolled over as written carries no year for the calendar helpers |
| App.InitialSemesterParts | src/App.tsx:32 | the starting semester name is `First Semester - 2024/2025` |
| App.WithSemesterCourses | src/App.tsx:120-124 | only the active semester gets the courses and the GPA; the others stay, in order |
| App.SaveStoresGpa | src/App.tsx:109-126 | saving with the application's own GPA leaves ids and names alone, stores in the active semester the GPA its courses give, and keeps every consistent semester consistent |
| App.DeleteKeepsOthers | src/App.tsx:146-148 | deleting removes every entry with the id and keeps every other |
| App.GpaApp.constructor | src/App.tsx:24-32 | the first render: standard scale, one default row, stored history and semesters, and the initial semester's id and name |
| App.GpaApp.Mount | src/App.tsx:34-44 | with no stored semesters the initial semester is created with the current courses and the application's own GPA of them as written; otherwise nothing changes |
| App.GpaApp.CalculateGpaAsWritten | src/App.tsx:46-64 | the loop computes the application's own GPA as written |
| App.GpaApp.SetWeighted | src/App.tsx:25 | only the scale changes |
| App.GpaApp.AddCourse | src/App.tsx:66-76 | the courses become the list with one new default row; nothing else changes |
| App.GpaApp.UpdateCourse | src/App.tsx:78-82 | the courses become the updated list; nothing else changes |
| App.GpaApp.RemoveCourse | src/App.tsx:84-88 | the courses become the list with the row removed (unchanged when only one is left); nothing else changes |
| App.GpaApp.AddSemester | src/App.tsx:90-107 | a semester with the new id, the next name as written, one default row and `0.00` is appended and made active and current, and the courses become its row |
| App.GpaApp.SaveCalculation | src/App.tsx:109-126 | a new entry with the time, courses, the application's own GPA as written, scale and semester goes first in the history, and the active semester gets the courses and that GPA |
| App.GpaApp.ExportText | src/App.tsx:128-130 | the exported text splits into the CSV lines of the current courses, scale and semester name, when none of them holds a line break |
| App.GpaApp.Reset | src/App.tsx:136-139 | one default row on the standard scale; the history and semesters stay |
| App.GpaApp.LoadCalculation | src/App.tsx:141-144 | the courses and scale become the saved ones; nothing else changes |
| App.GpaApp.DeleteCalculation | src/App.tsx:146-148 | the history loses the entries with the id; nothing else changes |
| App.GpaApp.SelectSemester | src/App.tsx:150-157 | the id becomes active. When a semester has it, the first such semester's courses and name become current; otherwise they stay |

## Left out

- **The print report.** `printReport` (src/utils/export.ts:78-231) builds an HTML page in a new window, which is not modelled. `handlePrint` only passes the semesters on to it.
- **The CSV download.** The `Blob`, object URL and hidden link of `exportToCSV` are not modelled; only the CSV text is (`GpaApp.ExportText`, `Export.CsvText`).
- **The clock.** `Date.now()` is the parameter `now` of `AddSemester` and `SaveCalculation`. `saveCalculation` reads the clock twice, once for the id and once for the timestamp (src/App.tsx:111-112). The model uses one `now` for both, so two reads that differ are not modelled. `new Date().getFullYear()` is the parameter `currentYear` of `UniqueYears`.
- **Local storage.** The stored history and semesters are the constructor's parameters. Writing them back is not modelled.
- **The rest of the interface.** Other components, pages, routing, the theme and `showInfo` are not modelled. The panel keeps the semesters and scale it was first given and does not follow later changes to its properties.
- **Floating point.** Numbers are exact reals, so binary rounding of the points, the sums and the halves in `toFixed` is not modelled. Neither are values beyond 2^53 or the exponent form `toFixed` uses from 10^21 up.
- **Exponents in `parseFloat`.** `parseFloat` does not read an exponent part (`1e3`); no text in this core has one.
- **Credits are whole numbers.** Fractional or `NaN` credits that a form could produce are not modelled.
- **The input guard.** `validateInput`'s non-array case cannot arise for a typed list and is not modelled.
- **Inherited keys.** A grade such as `toString` names an inherited property of a JavaScript object rather than `undefined`; such keys are treated as unlisted grades.
- **The projection panel.** `GPAProjection` is not modelled beyond the values the application hands it. It multiplies the printed GPA text, which JavaScript reads as `Number` does. The model reads that text with `parseFloat` (`App.ProjectionFromZeroCredits`), which gives the same value on every text `toFixed` prints.
- **Logging.** `console.error` in the `catch` blocks is not modelled.
- **Key order.** The order of the keys of the object `groupSemestersByYear` builds is not modelled, since the groups are a map.
- CumulativePanel.CumulativeView.AllTickedIsCumulative: ties the panel's GPA as written to the cumulative GPA on the standard scale only; on the weighted scale it adds bare points, so only the intended count is tied there (Findings, second row).
- CumulativePanel.CumulativeView.GpaColorIsEngineTier: ties the panel's colour as written to the engine's tier on the standard scale only; on the weighted scale the colour as written can differ, as `CumulativePanel.PanelColorCounterexample` shows (Findings, second row).

## Findings

| source | as written | input that shows it | evidently intended | confidence | as-written member | corrected member |
|---|---|---|---|---|---|---|
| src/App.tsx:92-94 | the rollover reads both years with `parseInt` of the whole name split at `/`, so the first piece starts with `Second Semester - ` | `Second Semester - 2024/2025` becomes `First Semester - NaN/2026` | `First Semester - 2025/2026` | high; not executed | App.RolloverAsWrittenCounterexample, App.RolledOverNameHasNoYear | App.NextOfSecond, App.NextTwice, App.NextTwiceYear |
| src/utils/export.ts:12-14, src/components/CumulativeGPA.tsx:34-36 | on the weighted scale the bare points are added, but the credits are still the divisor | one three-credit `A`, weighted: 15 / 3 = `5.0000` | the engine's `15.0000` (points·credits on both scales) | high; not executed | ComponentTotals.WeightedBarePointsCounterexample, Export.ExportWeightedCounterexample, CumulativePanel.PanelColorCounterexample | ComponentTotals.IntendedGpaIsEngineGpa, Export.ExportGpaIsEngineGpa, CumulativePanel.CumulativeView.GpaColorIsEngineTier |
| src/App.tsx:46-64 | the application's own `calculateGPA` gives every course the top points, whatever its grade | one three-credit `F`, standard scale: `4.00` | the engine's `0.00` | high; not executed | App.AppGpaCounterexample, App.AppStandardIsTop | GradeCalculator.CalculateGpa |
