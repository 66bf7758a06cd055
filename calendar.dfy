/**
 * Semester names of the form `<Period> - YYYY/YYYY`: the start year they carry, the semesters
 * grouped by start year, and the distinct start years from the latest down.
 */
module Calendar {
  import opened Wrappers
  import opened Lists
  import opened Text
  import opened Types

  /**
   * `getYearFromSemester`: the name must split on ` - ` into exactly two pieces and the second
   * piece on `/` into exactly two; the year is `parseInt` of the text before the `/`, `None` when
   * any of this fails.
   */
  function YearOf(name: string): (year: Option<int>)
    ensures year.Some? ==> |Split(name, " - ")| == 2 && |Split(Split(name, " - ")[1], "/")| == 2
  {
    var parts := Split(name, " - ");
    if |parts| != 2 then None
    else
      var yearParts := Split(parts[1], "/");
      if |yearParts| != 2 then None
      else ParseInt(yearParts[0])
  }

  /** The text ` - ` never occurs in `period` or straddling its end when `period` holds no `-`. */
  lemma NoDashSeparator(period: string)
    requires '-' !in period
    ensures forall j :: 0 <= j < |period| ==> !OccursAt(period + " - ", " - ", j)
  {
    var s := period + " - ";
    forall j | 0 <= j < |period|
      ensures !OccursAt(s, " - ", j)
    {
      assert s[j..j + 3][1] == s[j + 1];
      if j + 1 < |period| {
        assert s[j + 1] == period[j + 1];
      } else {
        assert s[j + 1] == ' ';
      }
    }
  }

  /** A numeral has no `/` before its end. */
  lemma NoSlashSeparator(numeral: string)
    requires forall i :: 0 <= i < |numeral| ==> IsDecimalDigit(numeral[i])
    ensures forall j :: 0 <= j < |numeral| ==> !OccursAt(numeral + "/", "/", j)
  {
    forall j | 0 <= j < |numeral|
      ensures !OccursAt(numeral + "/", "/", j)
    {
      assert (numeral + "/")[j..j + 1][0] == numeral[j];
    }
  }

  /** Two numerals joined by `/` hold no space. */
  lemma NumeralsHaveNoSpace(a: string, b: string)
    requires forall i :: 0 <= i < |a| ==> IsDecimalDigit(a[i])
    requires forall i :: 0 <= i < |b| ==> IsDecimalDigit(b[i])
    ensures ' ' !in a + "/" + b
  {
    var years := a + "/" + b;
    forall i | 0 <= i < |years|
      ensures years[i] != ' '
    {
      if i < |a| {
        assert years[i] == a[i];
      } else if i > |a| {
        assert years[i] == b[i - |a| - 1];
      }
    }
  }

  /** A period without `-` followed by ` - ` and a text without spaces splits into those two. */
  lemma DashSplit(period: string, years: string)
    requires '-' !in period && ' ' !in years
    ensures Split(period + " - " + years, " - ") == [period, years]
  {
    NoDashSeparator(period);
    SplitAfter(period, " - ", years);
    SplitWithoutSeparator(years, " - ");
  }

  /** Two numerals joined by `/` split back into the two. */
  lemma SlashSplit(a: string, b: string)
    requires forall i :: 0 <= i < |a| ==> IsDecimalDigit(a[i])
    requires forall i :: 0 <= i < |b| ==> IsDecimalDigit(b[i])
    ensures Split(a + "/" + b, "/") == [a, b]
  {
    NoSlashSeparator(a);
    SplitAfter(a, "/", b);
    SplitWithoutSeparator(b, "/");
  }

  /** How `Period - Y/Z` splits: first on ` - `, then its year text on `/`. */
  lemma SemesterNameParts(period: string, y: nat, z: nat)
    requires '-' !in period
    ensures Split(period + " - " + (NatToString(y) + "/" + NatToString(z)), " - ")
            == [period, NatToString(y) + "/" + NatToString(z)]
    ensures Split(NatToString(y) + "/" + NatToString(z), "/") == [NatToString(y), NatToString(z)]
  {
    NumeralsHaveNoSpace(NatToString(y), NatToString(z));
    DashSplit(period, NatToString(y) + "/" + NatToString(z));
    SlashSplit(NatToString(y), NatToString(z));
  }

  /** The year read from a name that splits as expected is `parseInt` of the text before the `/`. */
  lemma YearOfParts(name: string, period: string, years: string, start: string, end: string)
    requires Split(name, " - ") == [period, years] && Split(years, "/") == [start, end]
    ensures YearOf(name) == ParseInt(start)
  {
  }

  /** The year of `Period - Y/Z` is `Y`, for any period without a `-`. */
  lemma YearOfName(period: string, y: nat, z: nat)
    requires '-' !in period
    ensures YearOf(period + " - " + (NatToString(y) + "/" + NatToString(z))) == Some(y)
  {
    var years := NatToString(y) + "/" + NatToString(z);
    SemesterNameParts(period, y, z);
    YearOfParts(period + " - " + years, period, years, NatToString(y), NatToString(z));
    ParseIntOfNatToString(y);
  }

  /** The decimal numerals of the default name's two years. */
  lemma DefaultYearNumerals()
    ensures NatToString(2024) == "2024" && NatToString(2025) == "2025"
  {
    assert NatToString(2) == "2";
    assert NatToString(20) == "20";
    assert NatToString(202) == "202";
  }

  /** The default name is its period, the separator and its two years. */
  lemma DefaultNameParts()
    ensures "First Semester" + " - " + ("2024" + "/" + "2025") == "First Semester - 2024/2025"
  {
    assert "2024" + "/" + "2025" == "2024/2025";
    assert "First Semester" + " - " == "First Semester - ";
  }

  /** The program's own default name carries the year 2024. */
  lemma YearOfDefaultName(name: string)
    requires name == "First Semester - 2024/2025"
    ensures YearOf(name) == Some(2024)
  {
    DefaultYearNumerals();
    DefaultNameParts();
    YearOfName("First Semester", 2024, 2025);
  }

  /** A name without a space cannot contain ` - `, so it carries no year. */
  lemma YearOfWithoutSeparator(name: string)
    requires ' ' !in name
    ensures YearOf(name) == None
  {
    SplitWithoutSeparator(name, " - ");
  }

  /** Whether a semester's name carries `year`. */
  function CarriesYear(year: int): SemesterData -> bool
  {
    (s: SemesterData) => YearOf(s.name) == Some(year)
  }

  /** The semesters whose name carries `year`, in their original order (one bucket of `groupSemestersByYear`). */
  function Bucket(semesters: seq<SemesterData>, year: int): seq<SemesterData>
  {
    Filter(semesters, CarriesYear(year))
  }

  /** Adding a semester at the end adds it to the end of its own bucket and to no other. */
  lemma BucketSnoc(semesters: seq<SemesterData>, s: SemesterData, year: int)
    ensures Bucket(semesters + [s], year) == Bucket(semesters, year) + (if CarriesYear(year)(s) then [s] else [])
  {
    FilterAppend(semesters, [s], CarriesYear(year));
    assert [s][1..] == [];
  }

  /** Some semester's name carries `year`. */
  ghost predicate YearOccurs(semesters: seq<SemesterData>, year: int)
  {
    exists i :: 0 <= i < |semesters| && CarriesYear(year)(semesters[i])
  }

  lemma YearOccursSnoc(semesters: seq<SemesterData>, year: int)
    requires semesters != []
    ensures YearOccurs(semesters, year) <==>
              YearOccurs(semesters[..|semesters| - 1], year) || CarriesYear(year)(semesters[|semesters| - 1])
  {
    var prefix := semesters[..|semesters| - 1];
    assert semesters == prefix + [semesters[|semesters| - 1]];
    ExistsSnoc(semesters, prefix, semesters[|semesters| - 1], CarriesYear(year));
  }

  /** The map built so far holds one bucket per year carried by `prefix`, and nothing else. */
  ghost predicate Grouped(groups: map<int, seq<SemesterData>>, prefix: seq<SemesterData>)
  {
    && (forall y :: y in groups <==> YearOccurs(prefix, y))
    && (forall y :: y in groups ==> groups[y] == Bucket(prefix, y))
  }

  /** Pushing a semester onto the bucket of its year (creating it if need be) keeps the map grouped. */
  lemma GroupedStep(groups: map<int, seq<SemesterData>>, prefix: seq<SemesterData>, s: SemesterData,
                    year: Option<int>, next: map<int, seq<SemesterData>>)
    requires Grouped(groups, prefix)
    requires year == YearOf(s.name)
    requires year.None? ==> next == groups
    requires year.Some? ==>
               next == groups[year.value := (if year.value in groups then groups[year.value] else []) + [s]]
    ensures Grouped(next, prefix + [s])
  {
    var longer := prefix + [s];
    assert longer[..|longer| - 1] == prefix;
    forall y
      ensures y in next <==> YearOccurs(longer, y)
      ensures y in next ==> next[y] == Bucket(longer, y)
    {
      YearOccursSnoc(longer, y);
      BucketSnoc(prefix, s, y);
      if y !in groups {
        FilterNone(prefix, CarriesYear(y));
      }
    }
  }

  /**
   * `groupSemestersByYear`: one bucket per year some name carries, each holding exactly the
   * semesters of that year in their original order; names without a year land in no bucket.
   */
  method GroupByYear(semesters: seq<SemesterData>) returns (groups: map<int, seq<SemesterData>>)
    ensures forall y :: y in groups <==> YearOccurs(semesters, y)
    ensures forall y :: y in groups ==> groups[y] == Bucket(semesters, y)
  {
    groups := map[];
    for i := 0 to |semesters|
      invariant Grouped(groups, semesters[..i])
    {
      var s := semesters[i];
      ghost var before := groups;
      var year := YearOf(s.name);
      if year.Some? {
        if year.value !in groups {
          groups := groups[year.value := []];
        }
        groups := groups[year.value := groups[year.value] + [s]];
      }
      GroupedStep(before, semesters[..i], s, year, groups);
      TakeNext(semesters, i);
    }
    TakeAll(semesters);
  }

  /** Every semester in a bucket carries the bucket's year. */
  lemma BucketMembers(semesters: seq<SemesterData>, year: int)
    ensures forall i :: 0 <= i < |Bucket(semesters, year)| ==> CarriesYear(year)(Bucket(semesters, year)[i])
  {
  }

  /** The number of semesters in the buckets of `years`. */
  function BucketTotal(semesters: seq<SemesterData>, years: seq<int>): nat
  {
    if years == [] then 0
    else BucketTotal(semesters, years[..|years| - 1]) + |Bucket(semesters, years[|years| - 1])|
  }

  /** Whether a semester's name carries one of `years`. */
  function CarriesOneOf(years: seq<int>): SemesterData -> bool
  {
    (s: SemesterData) => YearOf(s.name).Some? && YearOf(s.name).value in years
  }

  /** The buckets of distinct years hold, together, the semesters of those years, each once. */
  lemma {:induction false} BucketTotalOfDistinct(semesters: seq<SemesterData>, years: seq<int>)
    requires forall i, j :: 0 <= i < j < |years| ==> years[i] != years[j]
    ensures BucketTotal(semesters, years) == |Filter(semesters, CarriesOneOf(years))|
  {
    if years != [] {
      var rest := years[..|years| - 1];
      var last := years[|years| - 1];
      BucketTotalOfDistinct(semesters, rest);
      assert forall v :: v in years <==> v in rest || v == last;
      assert last !in rest;
      FilterCountSplit(semesters, CarriesOneOf(rest), CarriesYear(last), CarriesOneOf(years));
      assert BucketTotal(semesters, years) == BucketTotal(semesters, rest) + |Bucket(semesters, last)|;
    } else {
      FilterNone(semesters, CarriesOneOf(years));
    }
  }

  /** Whether a semester's name carries a year. */
  predicate HasYear(s: SemesterData)
  {
    YearOf(s.name).Some?
  }

  /** Bucket sizes over all the years the names carry add up to the number of semesters that carry one. */
  lemma BucketSizes(semesters: seq<SemesterData>, years: seq<int>)
    requires forall i, j :: 0 <= i < j < |years| ==> years[i] != years[j]
    requires forall y :: YearOccurs(semesters, y) ==> y in years
    ensures BucketTotal(semesters, years) == |Filter(semesters, HasYear)|
  {
    BucketTotalOfDistinct(semesters, years);
    FilterAgree(semesters, CarriesOneOf(years), HasYear);
  }

  predicate Descending(xs: seq<int>)
  {
    forall i, j :: 0 <= i < j < |xs| ==> xs[i] > xs[j]
  }

  /** The years of a non-empty list are those of all but the last semester and the last one's. */
  lemma YearsOfSnoc(semesters: seq<SemesterData>)
    requires semesters != []
    ensures forall y :: YearOccurs(semesters, y) <==>
                        YearOccurs(semesters[..|semesters| - 1], y) || YearOf(semesters[|semesters| - 1].name) == Some(y)
  {
    forall y
      ensures YearOccurs(semesters, y) <==>
                YearOccurs(semesters[..|semesters| - 1], y) || CarriesYear(y)(semesters[|semesters| - 1])
    {
      YearOccursSnoc(semesters, y);
    }
  }

  /** `y` placed into a strictly descending list, once. */
  function InsertDescending(xs: seq<int>, y: int): (r: seq<int>)
    requires Descending(xs)
    ensures Descending(r)
    ensures forall v :: v in r <==> v in xs || v == y
  {
    if xs == [] then [y]
    else if y > xs[0] then [y] + xs
    else if y == xs[0] then xs
    else
      var rest := InsertDescending(xs[1..], y);
      TailBelowHead(xs);
      ConsDescending(xs[0], rest);
      [xs[0]] + rest
  }

  /** In a strictly descending list everything after the head lies below it. */
  lemma TailBelowHead(xs: seq<int>)
    requires xs != [] && Descending(xs)
    ensures Descending(xs[1..]) && forall v :: v in xs[1..] ==> v < xs[0]
  {
    forall v | v in xs[1..]
      ensures v < xs[0]
    {
      var j :| 0 <= j < |xs[1..]| && xs[1..][j] == v;
      assert xs[j + 1] == v;
    }
  }

  /** A value above every member of a strictly descending list heads a strictly descending list. */
  lemma ConsDescending(x: int, rest: seq<int>)
    requires Descending(rest) && forall v :: v in rest ==> v < x
    ensures Descending([x] + rest)
    ensures forall v :: v in [x] + rest <==> v == x || v in rest
  {
    var r := [x] + rest;
    forall i, j | 0 <= i < j < |r|
      ensures r[i] > r[j]
    {
      assert r[j] == rest[j - 1];
      if i > 0 {
        assert r[i] == rest[i - 1];
      } else {
        assert rest[j - 1] in rest;
      }
    }
  }

  /** The distinct years the names carry, latest first (the `Set` of parsed years, sorted descending). */
  function DistinctYears(semesters: seq<SemesterData>): (r: seq<int>)
    ensures Descending(r)
    ensures forall y :: y in r <==> YearOccurs(semesters, y)
  {
    if semesters == [] then []
    else
      var years := DistinctYears(semesters[..|semesters| - 1]);
      YearsOfSnoc(semesters);
      match YearOf(semesters[|semesters| - 1].name)
      case None => years
      case Some(y) => InsertDescending(years, y)
  }

  /**
   * `getUniqueYears`: the distinct years, latest first, without repeats; when no name carries a
   * year, the current year alone.
   */
  method UniqueYears(semesters: seq<SemesterData>, currentYear: int) returns (years: seq<int>)
    ensures Descending(years) && years != []
    ensures (forall y :: !YearOccurs(semesters, y)) ==> years == [currentYear]
    ensures (exists y :: YearOccurs(semesters, y)) ==> forall y :: y in years <==> YearOccurs(semesters, y)
  {
    years := DistinctYears(semesters);
    if |years| == 0 {
      years := years + [currentYear];
    } else {
      assert years[0] in years;
    }
  }
}
