/** analysis/create_cohorts/dataset_definition_census_cohorts.py: the
    census-day cohort with migration-code columns over the whole record, first
    registration, ethnicity, year of birth, age and area on the census day. */
module CreateCohortsCensus {
  import opened Nullable
  import opened Calendar
  import opened Patients
  import opened Codelists
  import opened Cohorts
  import opened CohortColumns
  import opened Datasets

  /** The script's columns, in the order it sets them. */
  function CreateCohortsRow(p: Patient, cl: StudyCodelists): Row {
    WithAreaColumns(
      WithMigrationCodeColumns(map[], p, cl)
        ["age_on_census_date" := OfInt(p.ageOn(CensusDay))]
        ["age_band" := Str(AgeBand(p.ageOn(CensusDay)))],
      p, CensusDay)
  }

  /** The script, for one patient. The `--census-date` argument is parsed and
      not used: the census day is always 2021-03-21. */
  method BuildDataset(p: Patient, cl: StudyCodelists, censusDateArg: Option<string>) returns (ds: Dataset)
    ensures fresh(ds)
    ensures ds.population == CensusPopulation(p)
    ensures ds.columns == CreateCohortsRow(p, cl)
    ensures ds.eventTables == map[]
  {
    ds := new Dataset();
    ds.DefinePopulation(CensusPopulation(p));
    SetMigrationCodeColumns(ds, p, cl);
    var age := p.ageOn(CensusDay);
    ds.SetColumn("age_on_census_date", OfInt(age));
    ds.SetColumn("age_band", Str(AgeBand(age)));
    SetAreaColumns(ds, p, CensusDay);
  }
}
