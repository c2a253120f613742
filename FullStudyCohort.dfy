/** analysis/dataset_definition_full_study_cohort.py: everyone with a migration
    code who was registered during 2009-2024, with their first code, code
    counts, first registration, ethnicity, year of birth, area and deaths. */
module FullStudyCohort {
  import opened Nullable
  import opened Calendar
  import opened Patients
  import opened Codelists
  import opened Cohorts
  import opened CohortColumns
  import opened Datasets

  /** The script's columns, in the order it sets them; the area is taken on the study start. */
  function FullStudyRow(p: Patient, cl: StudyCodelists): Row {
    WithAreaColumns(WithMigrationCodeColumns(map[], p, cl), p, StudyStart)
      ["TPP_death_date" := OfDate(p.tppDeath)]
      ["ons_death_date" := OfDate(p.onsDeath)]
  }

  /** The script, for one patient. */
  method BuildDataset(p: Patient, cl: StudyCodelists) returns (ds: Dataset)
    ensures fresh(ds)
    ensures ds.population == MigrantCohortPopulation(p, cl)
    ensures ds.columns == FullStudyRow(p, cl)
    ensures ds.eventTables == map[]
  {
    ds := new Dataset();
    ds.DefinePopulation(MigrantCohortPopulation(p, cl));
    SetMigrationCodeColumns(ds, p, cl);
    SetAreaColumns(ds, p, StudyStart);
    ds.SetColumn("TPP_death_date", OfDate(p.tppDeath));
    ds.SetColumn("ons_death_date", OfDate(p.onsDeath));
  }
}
