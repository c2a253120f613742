/** The bands and the eligibility predicates that the dataset scripts repeat
    word for word, defined once: the age band and the year-of-birth band (both
    `case` expressions), the sex, age, alive and registration predicates, the
    population conjunctions built from them, and the time from first
    registration to first migration code. */
module Cohorts {
  import opened Nullable
  import opened CaseWhen
  import opened Calendar
  import opened Patients
  import opened Codelists

  // ---------------------------------------------------------------------
  // Age band
  // ---------------------------------------------------------------------

  /** The lower ends of the age bands after the first. */
  const AgeCuts: seq<int> := [16, 25, 35, 50, 65, 75, 85]

  const AgeBandLabels: seq<string> :=
    ["0-15", "16-24", "25-34", "35-49", "50-64", "65-74", "75-84", "85 plus"]

  /** The clauses of the age-band `case`, in order. */
  function AgeBandClauses(age: Option<int>): (clauses: seq<When<string>>)
    ensures |clauses| == 8
  {
    [
      When(Less(age, 16), "0-15"),
      When(And(AtLeast(age, 16), Less(age, 25)), "16-24"),
      When(And(AtLeast(age, 25), Less(age, 35)), "25-34"),
      When(And(AtLeast(age, 35), Less(age, 50)), "35-49"),
      When(And(AtLeast(age, 50), Less(age, 65)), "50-64"),
      When(And(AtLeast(age, 65), Less(age, 75)), "65-74"),
      When(And(AtLeast(age, 75), Less(age, 85)), "75-84"),
      When(AtLeast(age, 85), "85 plus")
    ]
  }

  /** The number of cut points at or below `a`. */
  function CutsAtMost(cuts: seq<int>, a: int): (k: nat)
    ensures k <= |cuts|
  {
    if |cuts| == 0 then 0
    else (if cuts[0] <= a then 1 else 0) + CutsAtMost(cuts[1..], a)
  }

  predicate Ascending(cuts: seq<int>) {
    forall i, j :: 0 <= i < j < |cuts| ==> cuts[i] < cuts[j]
  }

  /** For ascending cut points the count splits them: those before it are at
      or below `a`, the others above. */
  lemma {:induction false} CutsAtMostSplits(cuts: seq<int>, a: int)
    requires Ascending(cuts)
    ensures forall j :: 0 <= j < CutsAtMost(cuts, a) ==> cuts[j] <= a
    ensures forall j :: CutsAtMost(cuts, a) <= j < |cuts| ==> a < cuts[j]
  {
    if |cuts| > 0 {
      var rest := cuts[1..];
      assert Ascending(rest) by {
        forall i, j | 0 <= i < j < |rest| ensures rest[i] < rest[j] {
          assert rest[i] == cuts[i + 1] && rest[j] == cuts[j + 1];
        }
      }
      CutsAtMostSplits(rest, a);
      if cuts[0] > a {
        // then every cut point is above `a`, and so are those of `rest`
        assert |rest| > 0 ==> rest[0] == cuts[1] > a;
      }
    }
  }

  /** A larger value passes at least as many cut points. */
  lemma {:induction false} CutsAtMostMonotone(cuts: seq<int>, a: int, b: int)
    requires a <= b
    ensures CutsAtMost(cuts, a) <= CutsAtMost(cuts, b)
  {
    if |cuts| > 0 {
      CutsAtMostMonotone(cuts[1..], a, b);
    }
  }

  /** The band an integer age falls in, as an index into `AgeBandLabels`. */
  function AgeBandIndex(a: int): (k: nat)
    ensures k < 8
    ensures forall j :: 0 <= j < k ==> AgeCuts[j] <= a
    ensures forall j :: k <= j < 7 ==> a < AgeCuts[j]
  {
    CutsAtMostSplits(AgeCuts, a);
    CutsAtMost(AgeCuts, a)
  }

  /** Clause `j` of the age-band `case` holds exactly for the ages of band `j`. */
  lemma AgeBandClauseHolds(a: int, j: int)
    requires 0 <= j < 8
    ensures IsTrue(AgeBandClauses(Some(a))[j].cond) <==>
      (j == 0 || AgeCuts[j - 1] <= a) && (j == 7 || a < AgeCuts[j])
  {
  }

  /** Every integer age satisfies exactly one clause of the age-band `case`. */
  lemma AgeBandExactlyOne(a: int)
    ensures forall j :: 0 <= j < 8 ==> (IsTrue(AgeBandClauses(Some(a))[j].cond) <==> j == AgeBandIndex(a))
  {
    var k := AgeBandIndex(a);
    forall j | 0 <= j < 8
      ensures IsTrue(AgeBandClauses(Some(a))[j].cond) <==> j == k
    {
      AgeBandClauseHolds(a, j);
    }
  }

  /** The age band (`age_band` / `dataset.age_band`): the band of the age, and
      "missing" when the age is NULL. */
  function AgeBand(age: Option<int>): (r: string)
    ensures age.None? ==> r == "missing"
    ensures age.Some? ==> r == AgeBandLabels[AgeBandIndex(age.value)]
  {
    AgeBandFirstMatch(age);
    CaseOtherwise(AgeBandClauses(age), "missing")
  }

  lemma AgeBandFirstMatch(age: Option<int>)
    ensures age.None? ==> NoneTaken(AgeBandClauses(age))
    ensures age.Some? ==> FirstTakenAt(AgeBandClauses(age), AgeBandIndex(age.value))
  {
    if age.Some? {
      AgeBandExactlyOne(age.value);
    }
  }

  /** Ages below 16, negative ones included, are "0-15"; from 85 on "85 plus";
      "missing" only for a NULL age. */
  lemma AgeBandEdges(age: Option<int>)
    ensures age.Some? && age.value < 16 ==> AgeBand(age) == "0-15"
    ensures age.Some? && age.value >= 85 ==> AgeBand(age) == "85 plus"
    ensures AgeBand(age) == "missing" <==> age.None?
    ensures AgeBand(age) in AgeBandLabels || AgeBand(age) == "missing"
  {
  }

  /** The band boundaries fall where the labels say. */
  lemma AgeBandBoundaries()
    ensures AgeBand(Some(-3)) == "0-15" && AgeBand(Some(0)) == "0-15" && AgeBand(Some(15)) == "0-15"
    ensures AgeBand(Some(16)) == "16-24" && AgeBand(Some(24)) == "16-24"
    ensures AgeBand(Some(25)) == "25-34" && AgeBand(Some(49)) == "35-49"
    ensures AgeBand(Some(50)) == "50-64" && AgeBand(Some(74)) == "65-74"
    ensures AgeBand(Some(84)) == "75-84" && AgeBand(Some(85)) == "85 plus"
  {
    AgeInBand(-3, 0);
    AgeInBand(0, 0);
    AgeInBand(15, 0);
    AgeInBand(16, 1);
    AgeInBand(24, 1);
    AgeInBand(25, 2);
    AgeInBand(49, 3);
    AgeInBand(50, 4);
    AgeInBand(74, 5);
    AgeInBand(84, 6);
    AgeInBand(85, 7);
  }

  /** An age between the cut points of band `k` gets band `k`'s label. */
  lemma AgeInBand(a: int, k: int)
    requires 0 <= k < 8
    requires (k == 0 || AgeCuts[k - 1] <= a) && (k == 7 || a < AgeCuts[k])
    ensures AgeBand(Some(a)) == AgeBandLabels[k]
  {
  }

  /** An older age never falls in an earlier band. */
  lemma AgeBandIndexMonotone(a: int, b: int)
    requires a <= b
    ensures AgeBandIndex(a) <= AgeBandIndex(b)
  {
    CutsAtMostMonotone(AgeCuts, a, b);
  }

  // ---------------------------------------------------------------------
  // Year-of-birth band
  // ---------------------------------------------------------------------

  /** The ends of the year-of-birth bands: band `j` runs from after
      `YearBounds[j]` (from `YearBounds[0]` itself for the first band) up to
      and including `YearBounds[j + 1]`. */
  const YearBounds: seq<int> := [1900, 1925, 1945, 1965, 1985, 2005, 2025]

  const YearBandLabels: seq<string> :=
    ["1900-1925", "1926-1945", "1946-1965", "1966-1985", "1986-2005", "2006-2025"]

  predicate InYearBand(y: int, j: int)
    requires 0 <= j < 6
  {
    (if j == 0 then YearBounds[0] <= y else YearBounds[j] < y) && y <= YearBounds[j + 1]
  }

  /** The clauses of the `year_of_birth_band` `case`, in order. */
  function YearBandClauses(year: Option<int>): (clauses: seq<When<string>>)
    ensures |clauses| == 6
  {
    [
      When(And(AtLeast(year, 1900), AtMost(year, 1925)), "1900-1925"),
      When(And(Greater(year, 1925), AtMost(year, 1945)), "1926-1945"),
      When(And(Greater(year, 1945), AtMost(year, 1965)), "1946-1965"),
      When(And(Greater(year, 1965), AtMost(year, 1985)), "1966-1985"),
      When(And(Greater(year, 1985), AtMost(year, 2005)), "1986-2005"),
      When(And(Greater(year, 2005), AtMost(year, 2025)), "2006-2025")
    ]
  }

  /** Clause `j` holds exactly for the years of band `j`. */
  lemma YearBandClauseHolds(y: int, j: int)
    requires 0 <= j < 6
    ensures IsTrue(YearBandClauses(Some(y))[j].cond) <==> InYearBand(y, j)
  {
  }

  /** `dataset.year_of_birth_band`: the band of the year of birth; NULL for a
      NULL year and for a year outside 1900..2025 (the `case` has no `otherwise`). */
  function YearOfBirthBand(year: Option<int>): (r: Option<string>)
    ensures r.Some? <==> year.Some? && 1900 <= year.value <= 2025
    ensures forall j :: 0 <= j < 6 && year.Some? && InYearBand(year.value, j) ==> r == Some(YearBandLabels[j])
  {
    var clauses := YearBandClauses(year);
    YearBandFirstMatch(year);
    Case(clauses, None)
  }

  lemma YearBandFirstMatch(year: Option<int>)
    ensures year.None? || year.value < 1900 || year.value > 2025 ==> NoneTaken(YearBandClauses(year))
    ensures forall j :: 0 <= j < 6 && year.Some? && InYearBand(year.value, j) ==>
      FirstTakenAt(YearBandClauses(year), j)
    ensures year.Some? && 1900 <= year.value <= 2025 ==> exists j :: 0 <= j < 6 && InYearBand(year.value, j)
  {
    if year.Some? {
      var y := year.value;
      forall j | 0 <= j < 6 ensures IsTrue(YearBandClauses(year)[j].cond) <==> InYearBand(y, j) {
        YearBandClauseHolds(y, j);
      }
      if 1900 <= y <= 2025 {
        if y <= 1925 { assert InYearBand(y, 0); }
        else if y <= 1945 { assert InYearBand(y, 1); }
        else if y <= 1965 { assert InYearBand(y, 2); }
        else if y <= 1985 { assert InYearBand(y, 3); }
        else if y <= 2005 { assert InYearBand(y, 4); }
        else { assert InYearBand(y, 5); }
      }
    }
  }

  /** The bands do not overlap, and their edges fall where the labels say. */
  lemma YearBandsDisjoint(y: int)
    ensures forall i, j :: 0 <= i < 6 && 0 <= j < 6 && InYearBand(y, i) && InYearBand(y, j) ==> i == j
    ensures YearOfBirthBand(Some(1925)) == Some("1900-1925") && YearOfBirthBand(Some(1926)) == Some("1926-1945")
    ensures YearOfBirthBand(Some(2025)) == Some("2006-2025")
    ensures YearOfBirthBand(Some(1899)).None? && YearOfBirthBand(Some(2026)).None?
  {
    assert InYearBand(1925, 0) && InYearBand(1926, 1) && InYearBand(2025, 5);
  }

  // ---------------------------------------------------------------------
  // Eligibility predicates
  // ---------------------------------------------------------------------

  /** `has_non_disclosive_sex` (`(sex == "male") | (sex == "female")`) and
      `has_recorded_sex` (`sex.is_in(["male", "female"])`): both are this. */
  function HasNonDisclosiveSex(sex: string): (r: Option<bool>)
    ensures r.Some?
    ensures IsTrue(r) <==> sex == "male" || sex == "female"
  {
    Or(Equals(Some(sex), "male"), Equals(Some(sex), "female"))
  }

  /** `has_possible_age`: `(age < 110) & (age > 0)`. */
  function HasPossibleAge(age: Option<int>): (r: Option<bool>)
    ensures r.None? <==> age.None?
    ensures IsTrue(r) <==> age.Some? && 0 < age.value < 110
  {
    And(Less(age, 110), Greater(age, 0))
  }

  /** `is_alive_at_study_start`: neither death date lies before the study start. */
  function AliveAtStudyStart(tppDeath: Option<Date>, onsDeath: Option<Date>): (r: Option<bool>)
    ensures r.Some?
    ensures IsTrue(r) <==>
      (tppDeath.None? || tppDeath.value >= StudyStart) && (onsDeath.None? || onsDeath.value >= StudyStart)
  {
    And(Or(AtLeast(tppDeath, StudyStart), IsNull(tppDeath)),
        Or(AtLeast(onsDeath, StudyStart), IsNull(onsDeath)))
  }

  /** The row condition of `is_registered_during_study` in the full-study,
      row-per-code and denominator scripts: the registration is open, or it
      ended after the study start and no later than the study end. */
  function EndsWithinStudy(reg: Registration): (r: Option<bool>)
    ensures r.Some?
    ensures IsTrue(r) <==> reg.end.None? || StudyStart < reg.end.value <= StudyEnd
  {
    Or(IsNull(reg.end), And(AtMost(reg.end, StudyEnd), Greater(reg.end, StudyStart)))
  }

  /** `is_registered_during_study`: some registration passes the row condition. */
  predicate RegisteredDuringStudy(regs: seq<Registration>) {
    exists i :: 0 <= i < |regs| && IsTrue(EndsWithinStudy(regs[i]))
  }

  /** The start dates are never looked at. */
  lemma RegisteredDuringStudyIgnoresStart(regs: seq<Registration>, regs': seq<Registration>)
    requires |regs| == |regs'| && forall i :: 0 <= i < |regs| ==> regs[i].end == regs'[i].end
    ensures RegisteredDuringStudy(regs) <==> RegisteredDuringStudy(regs')
  {
    if RegisteredDuringStudy(regs) {
      var i :| 0 <= i < |regs| && IsTrue(EndsWithinStudy(regs[i]));
      assert IsTrue(EndsWithinStudy(regs'[i]));
    }
    if RegisteredDuringStudy(regs') {
      var i :| 0 <= i < |regs'| && IsTrue(EndsWithinStudy(regs'[i]));
      assert IsTrue(EndsWithinStudy(regs[i]));
    }
  }

  // ---------------------------------------------------------------------
  // Populations
  // ---------------------------------------------------------------------

  /** The census population of both census scripts: registered on the census
      day, male or female, an age strictly between 0 and 110, and alive, all on
      the census day. */
  function CensusPopulation(p: Patient): (r: Option<bool>)
    ensures IsTrue(r) <==>
      RegisteredOn(p.registrations, CensusDay) &&
      (p.sex == "male" || p.sex == "female") &&
      p.ageOn(CensusDay).Some? && 0 < p.ageOn(CensusDay).value < 110 &&
      p.aliveOn(CensusDay)
  {
    And(And(And(Some(RegisteredOn(p.registrations, CensusDay)),
                HasNonDisclosiveSex(p.sex)),
            HasPossibleAge(p.ageOn(CensusDay))),
        Some(p.aliveOn(CensusDay)))
  }

  /** The five-part population of the full-study and row-per-code scripts. */
  function MigrantCohortPopulation(p: Patient, cl: StudyCodelists): (r: Option<bool>)
    ensures IsTrue(r) <==>
      AnyEvent(p.events, cl.allMigrant) &&
      RegisteredDuringStudy(p.registrations) &&
      (p.sex == "male" || p.sex == "female") &&
      IsTrue(AliveAtStudyStart(p.tppDeath, p.onsDeath)) &&
      p.ageOn(StudyStart).Some? && p.ageOn(StudyStart).value <= 100
  {
    And(And(And(And(Some(AnyEvent(p.events, cl.allMigrant)),
                    Some(RegisteredDuringStudy(p.registrations))),
                HasNonDisclosiveSex(p.sex)),
            AliveAtStudyStart(p.tppDeath, p.onsDeath)),
        AtMost(p.ageOn(StudyStart), 100))
  }

  /** The four-part population of the denominator script. */
  function DenominatorPopulation(p: Patient): (r: Option<bool>)
    ensures IsTrue(r) <==>
      RegisteredDuringStudy(p.registrations) &&
      (p.sex == "male" || p.sex == "female") &&
      IsTrue(AliveAtStudyStart(p.tppDeath, p.onsDeath)) &&
      p.ageOn(StudyStart).Some? && p.ageOn(StudyStart).value <= 100
  {
    And(And(And(Some(RegisteredDuringStudy(p.registrations)),
                HasNonDisclosiveSex(p.sex)),
            AliveAtStudyStart(p.tppDeath, p.onsDeath)),
        AtMost(p.ageOn(StudyStart), 100))
  }

  /** The migrant cohort is the denominator population with a migration code:
      migrants are counted against a population that contains them. */
  lemma MigrantCohortIsDenominatorWithCode(p: Patient, cl: StudyCodelists)
    ensures IsTrue(MigrantCohortPopulation(p, cl)) <==>
      IsTrue(DenominatorPopulation(p)) && AnyEvent(p.events, cl.allMigrant)
  {
  }

  // ---------------------------------------------------------------------
  // First codes and registrations
  // ---------------------------------------------------------------------

  /** `time_to_first_migration_code`: `(date_of_first_migration_code -
      date_of_first_practice_registration).days`. */
  function TimeToFirstMigrationCode(p: Patient, codes: set<Code>): (r: Option<int>)
    ensures r.Some? <==> AnyEvent(p.events, codes) && |p.registrations| > 0
    ensures r.Some? ==> r.value == FirstMatchingDate(p.events, codes).value - FirstRegistrationStart(p.registrations).value
  {
    Minus(FirstMatchingDate(p.events, codes), FirstRegistrationStart(p.registrations))
  }

  /** The time is negative exactly when some code of the list predates every registration. */
  lemma TimeToFirstNegativeIff(p: Patient, codes: set<Code>)
    requires AnyEvent(p.events, codes) && |p.registrations| > 0
    ensures TimeToFirstMigrationCode(p, codes).value < 0 <==>
      exists i :: 0 <= i < |p.events| && p.events[i].code in codes &&
        forall j :: 0 <= j < |p.registrations| ==> p.events[i].date < p.registrations[j].start
  {
    var first := FirstMatchingDate(p.events, codes).value;
    var reg := FirstRegistrationStart(p.registrations).value;
    if first < reg {
      var i :| 0 <= i < |p.events| && p.events[i].code in codes && p.events[i].date == first;
      assert forall j :: 0 <= j < |p.registrations| ==> p.events[i].date < p.registrations[j].start;
    }
    if exists i :: 0 <= i < |p.events| && p.events[i].code in codes &&
        forall j :: 0 <= j < |p.registrations| ==> p.events[i].date < p.registrations[j].start {
      var i :| 0 <= i < |p.events| && p.events[i].code in codes &&
        forall j :: 0 <= j < |p.registrations| ==> p.events[i].date < p.registrations[j].start;
      var j :| 0 <= j < |p.registrations| && p.registrations[j].start == reg;
      assert first <= p.events[i].date < reg;
    }
  }

  /** In the migrant cohort the first migration date and the count are defined, the count at least one. */
  lemma MigrantCohortHasFirstCode(p: Patient, cl: StudyCodelists)
    requires IsTrue(MigrantCohortPopulation(p, cl))
    ensures FirstMatchingDate(p.events, cl.allMigrant).Some?
    ensures CountMatching(p.events, cl.allMigrant) >= 1
  {
  }
}
