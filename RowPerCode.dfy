/** analysis/scrapyard/full_study_cohort_row_per_code.py: only the population
    of the full-study cohort, the same five-part conjunction. */
module RowPerCode {
  import opened Nullable
  import opened Patients
  import opened Codelists
  import opened Cohorts
  import opened Datasets

  /** The script, for one patient: a dataset with a population and no columns. */
  method BuildDataset(p: Patient, cl: StudyCodelists) returns (ds: Dataset)
    ensures fresh(ds)
    ensures ds.population == MigrantCohortPopulation(p, cl)
    ensures ds.columns == map[] && ds.eventTables == map[]
  {
    ds := new Dataset();
    ds.DefinePopulation(MigrantCohortPopulation(p, cl));
  }
}
