/** analysis/scrapyard/population_denominator_cohort.py: the whole registered
    population of 2009-2024, the denominator for migrants as a share of it. */
module DenominatorCohort {
  import opened Nullable
  import opened Calendar
  import opened Patients
  import opened Codelists
  import opened Cohorts
  import opened CohortColumns
  import opened Datasets

  /** The script's columns, in the order it sets them. The ethnicity column is
      the raw code of the latest ethnicity event, not a category. */
  function DenominatorRow(p: Patient, cl: StudyCodelists): Row {
    WithAreaColumns(
      map[]
        ["sex" := Str(p.sex)]
        ["latest_ethnicity_code" := OfStr(LatestCode(p.events, cl.ethnicity.Keys, None))]
        ["year_of_birth" := OfInt(p.yearOfBirth)]
        ["year_of_birth_band" := YearBandValue(p)],
      p, StudyStart)
      ["TPP_death_date" := OfDate(p.tppDeath)]
      ["ons_death_date" := OfDate(p.onsDeath)]
  }

  /** The script, for one patient. */
  method BuildDataset(p: Patient, cl: StudyCodelists) returns (ds: Dataset)
    ensures fresh(ds)
    ensures ds.population == DenominatorPopulation(p)
    ensures ds.columns == DenominatorRow(p, cl)
    ensures ds.eventTables == map[]
  {
    ds := new Dataset();
    ds.DefinePopulation(DenominatorPopulation(p));
    ds.SetColumn("sex", Str(p.sex));
    ds.SetColumn("latest_ethnicity_code", OfStr(LatestCode(p.events, cl.ethnicity.Keys, None)));
    ds.SetColumn("year_of_birth", OfInt(p.yearOfBirth));
    ds.SetColumn("year_of_birth_band", YearBandValue(p));
    SetAreaColumns(ds, p, StudyStart);
    ds.SetColumn("TPP_death_date", OfDate(p.tppDeath));
    ds.SetColumn("ons_death_date", OfDate(p.onsDeath));
  }
}
