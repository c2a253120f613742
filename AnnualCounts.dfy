/** analysis/generate_annual_migrant_counts.py: one measure per migrant
    indicator and subgroup, named `key` or `key_suffix`, over the study's
    yearly intervals. */
module AnnualCounts {
  import opened Nullable
  import opened Calendar
  import opened Patients
  import opened Codelists
  import opened MigrationStatus
  import opened CommonVars
  import opened MeasureNames
  import opened MeasureRegistry

  /** The measures the script defines, in order. */
  function AnnualMeasures(): seq<Measure> {
    PerSubgroup(IndicatorKeys, Exprs(IndicatorNumerators()), "_")
  }

  /** The script: defaults, then the nested loop over indicators and subgroups. */
  method Run() returns (measures: Measures, outcome: Outcome)
    ensures fresh(measures)
    ensures measures.defaults == Some(StudyDefaults)
    ensures outcome == Registered && measures.registered == AnnualMeasures()
  {
    measures := CreateStudyMeasures();
    var nums := IndicatorNumerators();
    var keys := seq(|nums|, i requires 0 <= i < |nums| => nums[i].0);
    assert keys == IndicatorKeys;
    AnnualMeasuresDistinct();
    outcome := RegisterAll(measures, keys, Exprs(nums), "_");
  }

  /** 7 x 6 = 42 measures, with pairwise distinct names. */
  lemma AnnualMeasuresDistinct()
    ensures |AnnualMeasures()| == 42
    ensures DistinctNames(AnnualMeasures())
  {
    IndicatorKeysDiverge();
    PerSubgroupDistinct(IndicatorKeys, Exprs(IndicatorNumerators()), "_");
  }

  /** Measure `6 * i + j` is indicator `i` as numerator, grouped by subgroup `j`,
      and named by the key alone for the "" subgroup or `key_suffix` otherwise. */
  lemma AnnualMeasureAt(i: int, j: int)
    requires 0 <= i < 7 && 0 <= j < 6
    ensures var m := AnnualMeasures()[6 * i + j];
      && m.numerator == IndicatorAt(IndicatorKeys[i])
      && m.groupBy == StudySubgroups[j].1
      && m.name == if SubgroupSuffixes[j] == "" then IndicatorKeys[i] else IndicatorKeys[i] + "_" + SubgroupSuffixes[j]
  {
    SubgroupsShape();
    PerSubgroupAt(IndicatorKeys, Exprs(IndicatorNumerators()), "_", i, j);
  }
}
