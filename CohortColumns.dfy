/** Runs of column assignments that several dataset scripts make word for
    word, in the same order: the migration-code columns (full-study cohort and
    create_cohorts census cohort) and the area columns (full-study cohort,
    create_cohorts census cohort and denominator cohort). */
module CohortColumns {
  import opened Nullable
  import opened Calendar
  import opened Patients
  import opened Codelists
  import opened Cohorts
  import opened Datasets

  /** The patient's year of birth band as a column value. */
  function YearBandValue(p: Patient): Value {
    OfStr(YearOfBirthBand(p.yearOfBirth))
  }

  /** From `date_of_first_migration_code` to `year_of_birth_band`. */
  function WithMigrationCodeColumns(row: Row, p: Patient, cl: StudyCodelists): Row {
    var code := LatestCode(p.events, cl.ethnicity.Keys, None);
    row
      ["date_of_first_migration_code" := OfDate(FirstMatchingDate(p.events, cl.allMigrant))]
      ["number_of_migration_codes" := Int(CountMatching(p.events, cl.allMigrant))]
      ["sex" := Str(p.sex)]
      ["has_cob_migrant_code" := Bool(AnyEvent(p.events, cl.cobMigrant))]
      ["has_asylum_or_refugee_migrant_code" := Bool(AnyEvent(p.events, cl.asylumRefugee))]
      ["has_interpreter_migrant_code" := Bool(AnyEvent(p.events, cl.interpreter))]
      ["date_of_first_practice_registration" := OfDate(FirstRegistrationStart(p.registrations))]
      ["time_to_first_migration_code" := OfInt(TimeToFirstMigrationCode(p, cl.allMigrant))]
      ["latest_ethnicity_code" := OfStr(code)]
      ["latest_ethnicity_group" := OfStr(ToCategory(code, cl.ethnicity))]
      ["year_of_birth" := OfInt(p.yearOfBirth)]
      ["year_of_birth_band" := YearBandValue(p)]
  }

  method SetMigrationCodeColumns(ds: Dataset, p: Patient, cl: StudyCodelists)
    modifies ds
    ensures ds.columns == WithMigrationCodeColumns(old(ds.columns), p, cl)
    ensures ds.population == old(ds.population) && ds.eventTables == old(ds.eventTables)
  {
    var firstCode := FirstMatchingDate(p.events, cl.allMigrant);
    ds.SetColumn("date_of_first_migration_code", OfDate(firstCode));
    ds.SetColumn("number_of_migration_codes", Int(CountMatching(p.events, cl.allMigrant)));
    ds.SetColumn("sex", Str(p.sex));
    ds.SetColumn("has_cob_migrant_code", Bool(AnyEvent(p.events, cl.cobMigrant)));
    ds.SetColumn("has_asylum_or_refugee_migrant_code", Bool(AnyEvent(p.events, cl.asylumRefugee)));
    ds.SetColumn("has_interpreter_migrant_code", Bool(AnyEvent(p.events, cl.interpreter)));
    var firstRegistration := FirstRegistrationStart(p.registrations);
    ds.SetColumn("date_of_first_practice_registration", OfDate(firstRegistration));
    ds.SetColumn("time_to_first_migration_code", OfInt(Minus(firstCode, firstRegistration)));
    var code := LatestCode(p.events, cl.ethnicity.Keys, None);
    ds.SetColumn("latest_ethnicity_code", OfStr(code));
    ds.SetColumn("latest_ethnicity_group", OfStr(ToCategory(code, cl.ethnicity)));
    ds.SetColumn("year_of_birth", OfInt(p.yearOfBirth));
    ds.SetColumn("year_of_birth_band", YearBandValue(p));
  }

  /** `msoa_code`, `imd_decile` and `imd_quintile` from the address on day `d`,
      and `region` from the registration on day `d`. */
  function WithAreaColumns(row: Row, p: Patient, d: Date): Row {
    var address := p.addressOn(d);
    row
      ["msoa_code" := OfStr(if address.Some? then address.value.msoa else None)]
      ["imd_decile" := OfInt(if address.Some? then address.value.imdDecile else None)]
      ["imd_quintile" := OfInt(if address.Some? then address.value.imdQuintile else None)]
      ["region" := OfStr(RegionOn(p.registrations, d))]
  }

  method SetAreaColumns(ds: Dataset, p: Patient, d: Date)
    modifies ds
    ensures ds.columns == WithAreaColumns(old(ds.columns), p, d)
    ensures ds.population == old(ds.population) && ds.eventTables == old(ds.eventTables)
  {
    var address := p.addressOn(d);
    ds.SetColumn("msoa_code", OfStr(if address.Some? then address.value.msoa else None));
    ds.SetColumn("imd_decile", OfInt(if address.Some? then address.value.imdDecile else None));
    ds.SetColumn("imd_quintile", OfInt(if address.Some? then address.value.imdQuintile else None));
    ds.SetColumn("region", OfStr(RegionOn(p.registrations, d)));
  }
}
