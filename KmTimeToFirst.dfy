/** analysis/scrapyard/dataset_definition_km_time_to_first_migration_code.py:
    the cohort for the time from first practice registration to first migration
    code, with its baseline, deregistration, censor and clamped first-code dates. */
module KmTimeToFirst {
  import opened Nullable
  import opened CaseWhen
  import opened Calendar
  import opened Patients
  import opened Codelists
  import opened Cohorts
  import opened Datasets

  /** The row condition of this script's `is_registered_during_study`: started
      on or before the study start or strictly inside the study, and open,
      ended strictly inside the study, or ended on or after the study end. */
  function KmRegistrationCond(reg: Registration): (r: Option<bool>)
    ensures r.Some?
    ensures IsTrue(r) <==>
      (reg.start <= StudyStart || StudyStart < reg.start < StudyEnd) &&
      (reg.end.None? || StudyStart < reg.end.value < StudyEnd || reg.end.value >= StudyEnd)
  {
    And(Or(AtMost(Some(reg.start), StudyStart), BetweenButNotOn(Some(reg.start), StudyStart, StudyEnd)),
        Or(Or(IsNull(reg.end), BetweenButNotOn(reg.end, StudyStart, StudyEnd)), AtLeast(reg.end, StudyEnd)))
  }

  /** The condition says: started before the study end, and open or ended after the study start. */
  lemma KmRegistrationSimplified(reg: Registration)
    ensures IsTrue(KmRegistrationCond(reg)) <==>
      reg.start < StudyEnd && (reg.end.None? || reg.end.value > StudyStart)
  {
    StudyDates();
  }

  predicate KmRegisteredDuringStudy(regs: seq<Registration>) {
    exists i :: 0 <= i < |regs| && IsTrue(KmRegistrationCond(regs[i]))
  }

  /** The population: registered during the study, male or female, alive at the
      study start and at most 100 years old then. No migration code is needed. */
  function KmPopulation(p: Patient): (r: Option<bool>)
    ensures IsTrue(r) <==>
      KmRegisteredDuringStudy(p.registrations) &&
      (p.sex == "male" || p.sex == "female") &&
      IsTrue(AliveAtStudyStart(p.tppDeath, p.onsDeath)) &&
      p.ageOn(StudyStart).Some? && p.ageOn(StudyStart).value <= 100
  {
    And(And(And(Some(KmRegisteredDuringStudy(p.registrations)),
                HasNonDisclosiveSex(p.sex)),
            AliveAtStudyStart(p.tppDeath, p.onsDeath)),
        AtMost(p.ageOn(StudyStart), 100))
  }

  /** The clinical events play no part in the population. */
  lemma KmPopulationIgnoresEvents(p: Patient, events: seq<Event>)
    ensures KmPopulation(p.(events := events)) == KmPopulation(p)
  {
  }

  /** `baseline_date`: the day before the first registration starts. */
  function BaselineDate(regs: seq<Registration>): (r: Option<Date>)
    ensures r.Some? <==> |regs| > 0
    ensures r.Some? ==> forall i :: 0 <= i < |regs| ==> r.value < regs[i].start
    ensures r.Some? ==> exists i :: 0 <= i < |regs| && r.value == regs[i].start - 1
  {
    match FirstRegistrationStart(regs)
    case Some(d) => Some(d - 1)
    case None => None
  }

  /** A `case` whose values are themselves nullable, read as one nullable value. */
  function Flatten<T>(x: Option<Option<T>>): (r: Option<T>)
    ensures r.Some? <==> x.Some? && x.value.Some?
    ensures r.Some? ==> r == x.value
  {
    match x
    case Some(v) => v
    case None => None
  }

  /** `date_deregistered_from_all_supported_practices()`: the latest registration
      end, or NULL when there is none or it is a far-future placeholder. */
  function DeregistrationDate(regs: seq<Registration>): (r: Option<Date>)
    ensures var maxEnd := LatestRegistrationEnd(regs);
      r.Some? <==> maxEnd.Some? && maxEnd.value < FarFuture
    ensures r.Some? ==> r == LatestRegistrationEnd(regs)
  {
    var maxEnd := LatestRegistrationEnd(regs);
    var clauses := [When(Less(maxEnd, FarFuture), maxEnd)];
    assert IsTrue(Less(maxEnd, FarFuture)) ==> FirstTakenAt(clauses, 0);
    Flatten(Case(clauses, None))
  }

  /** A deregistration date is a real end date: before 3000-01-01, the end of
      some registration, and no earlier than any other end. */
  lemma DeregistrationIsLatestEnd(regs: seq<Registration>)
    requires DeregistrationDate(regs).Some?
    ensures var d := DeregistrationDate(regs).value;
      && d < FarFuture
      && (exists i :: 0 <= i < |regs| && regs[i].end == Some(d))
      && forall i :: 0 <= i < |regs| && regs[i].end.Some? ==> regs[i].end.value <= d
  {
  }

  /** `censor_date`: `minimum_of` the two death dates, the deregistration date
      and the study end; NULLs are skipped, so it is never NULL. */
  function CensorDate(tppDeath: Option<Date>, onsDeath: Option<Date>, dereg: Option<Date>): (r: Option<Date>)
    ensures r.Some? && r.value <= StudyEnd
    ensures tppDeath.Some? ==> r.value <= tppDeath.value
    ensures onsDeath.Some? ==> r.value <= onsDeath.value
    ensures dereg.Some? ==> r.value <= dereg.value
    ensures r.value == StudyEnd || r == tppDeath || r == onsDeath || r == dereg
  {
    var candidates := [tppDeath, onsDeath, dereg, Some(StudyEnd)];
    assert candidates[0] == tppDeath && candidates[1] == onsDeath;
    assert candidates[2] == dereg && candidates[3] == Some(StudyEnd);
    MinOf(candidates)
  }

  /** `processed_first_migration_code_date`: the first migration date, moved
      forward to the first registration when it comes before it; NULL when
      either date is NULL. */
  function ProcessedFirstMigrationDate(firstCode: Option<Date>, firstRegistration: Option<Date>): (r: Option<Date>)
    ensures r.Some? <==> firstCode.Some? && firstRegistration.Some?
    ensures r.Some? ==>
      r.value == if firstCode.value < firstRegistration.value then firstRegistration.value else firstCode.value
  {
    var before := LessThan(firstCode, firstRegistration);
    var clauses := [When(Equals(before, false), firstCode), When(Equals(before, true), firstRegistration)];
    assert IsTrue(Equals(before, false)) ==> FirstTakenAt(clauses, 0);
    assert IsTrue(Equals(before, true)) ==> FirstTakenAt(clauses, 1);
    Flatten(Case(clauses, None))
  }

  /** The processed date never precedes the first registration or the first code. */
  lemma ProcessedDateNotBeforeRegistration(firstCode: Option<Date>, firstRegistration: Option<Date>)
    requires firstCode.Some? && firstRegistration.Some?
    ensures ProcessedFirstMigrationDate(firstCode, firstRegistration).value >= firstRegistration.value
    ensures ProcessedFirstMigrationDate(firstCode, firstRegistration).value >= firstCode.value
  {
  }

  /** The script's columns, in the order it sets them. */
  function KmRow(p: Patient, cl: StudyCodelists): Row {
    var firstRegistration := FirstRegistrationStart(p.registrations);
    var dereg := DeregistrationDate(p.registrations);
    var firstCode := FirstMatchingDate(p.events, cl.allMigrant);
    map[]
      ["date_of_first_practice_registration" := OfDate(firstRegistration)]
      ["baseline_date" := OfDate(BaselineDate(p.registrations))]
      ["date_of_deregistration" := OfDate(dereg)]
      ["TPP_death_date" := OfDate(p.tppDeath)]
      ["ons_death_date" := OfDate(p.onsDeath)]
      ["censor_date" := OfDate(CensorDate(p.tppDeath, p.onsDeath, dereg))]
      ["has_a_migration_code" := Bool(AnyEvent(p.events, cl.allMigrant))]
      ["date_of_first_migration_code" := OfDate(firstCode)]
      ["processed_first_migration_code_date" := OfDate(ProcessedFirstMigrationDate(firstCode, firstRegistration))]
      ["number_of_migration_codes" := Int(CountMatching(p.events, cl.allMigrant))]
      ["sex" := Str(p.sex)]
      ["year_of_birth" := OfInt(p.yearOfBirth)]
      ["year_of_birth_band" := OfStr(YearOfBirthBand(p.yearOfBirth))]
  }

  /** The script, for one patient. */
  method BuildDataset(p: Patient, cl: StudyCodelists) returns (ds: Dataset)
    ensures fresh(ds)
    ensures ds.population == KmPopulation(p)
    ensures ds.columns == KmRow(p, cl)
    ensures ds.eventTables == map[]
  {
    ds := new Dataset();
    ds.DefinePopulation(KmPopulation(p));
    var firstRegistration := FirstRegistrationStart(p.registrations);
    ds.SetColumn("date_of_first_practice_registration", OfDate(firstRegistration));
    ds.SetColumn("baseline_date", OfDate(BaselineDate(p.registrations)));
    var dereg := DeregistrationDate(p.registrations);
    ds.SetColumn("date_of_deregistration", OfDate(dereg));
    ds.SetColumn("TPP_death_date", OfDate(p.tppDeath));
    ds.SetColumn("ons_death_date", OfDate(p.onsDeath));
    ds.SetColumn("censor_date", OfDate(CensorDate(p.tppDeath, p.onsDeath, dereg)));
    ds.SetColumn("has_a_migration_code", Bool(AnyEvent(p.events, cl.allMigrant)));
    var firstCode := FirstMatchingDate(p.events, cl.allMigrant);
    ds.SetColumn("date_of_first_migration_code", OfDate(firstCode));
    ds.SetColumn("processed_first_migration_code_date",
      OfDate(ProcessedFirstMigrationDate(firstCode, firstRegistration)));
    ds.SetColumn("number_of_migration_codes", Int(CountMatching(p.events, cl.allMigrant)));
    ds.SetColumn("sex", Str(p.sex));
    ds.SetColumn("year_of_birth", OfInt(p.yearOfBirth));
    ds.SetColumn("year_of_birth_band", OfStr(YearOfBirthBand(p.yearOfBirth)));
  }
}
