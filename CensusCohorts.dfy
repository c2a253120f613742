/** analysis/dataset_definition_census_cohorts.py: the census-day cohort with
    its demographics, the seven migrant indicators on the census day and the
    2-, 3- and 6-category migration status. */
module CensusCohorts {
  import opened Nullable
  import opened Calendar
  import opened Patients
  import opened Codelists
  import opened MigrationStatus
  import opened Cohorts
  import opened Datasets

  /** `row` with the indicator columns of `keys` added in order, as the
      `setattr` loop over `migrant_indicators.items()` adds them. */
  function WithIndicators(row: Row, ind: Indicators, keys: seq<string>): (r: Row)
    ensures forall k :: k in r <==> k in row || k in keys
    ensures forall k :: k in keys ==> r[k] == Bool(Flag(ind, k))
    ensures forall k :: k in row && k !in keys ==> r[k] == row[k]
  {
    if |keys| == 0 then row
    else
      var last := keys[|keys| - 1];
      var init := keys[..|keys| - 1];
      assert forall k :: k in keys <==> k in init || k == last;
      WithIndicators(row, ind, init)[last := Bool(Flag(ind, last))]
  }

  /** `latest_ethnicity_code`: over all ethnicity events, with no date bound. */
  function LatestEthnicityCode(p: Patient, cl: StudyCodelists): Option<Code> {
    LatestCode(p.events, cl.ethnicity16.Keys, None)
  }

  /** `latest_ethnicity_16_level_group` */
  function Ethnicity16Group(p: Patient, cl: StudyCodelists): Option<string> {
    ToCategory(LatestEthnicityCode(p, cl), cl.ethnicity16)
  }

  /** `migrant_indicators`, evaluated on the census day. */
  function CensusIndicators(p: Patient, cl: StudyCodelists): Indicators {
    BuildMigrantIndicators(cl, p.events, CensusDay)
  }

  /** The demographic columns, set before the indicators. */
  function WithDemographics(row: Row, p: Patient, cl: StudyCodelists): Row {
    var address := p.addressOn(CensusDay);
    var code := LatestEthnicityCode(p, cl);
    row
      ["age_band" := Str(AgeBand(p.ageOn(CensusDay)))]
      ["sex" := Str(p.sex)]
      ["region" := OfStr(RegionOn(p.registrations, CensusDay))]
      ["imd_decile" := OfInt(if address.Some? then address.value.imdDecile else None)]
      ["imd_quintile" := OfInt(if address.Some? then address.value.imdQuintile else None)]
      ["latest_ethnicity_code" := OfStr(code)]
      ["latest_ethnicity_16_level_group" := OfStr(ToCategory(code, cl.ethnicity16))]
      ["latest_ethnicity_6_level_group" := OfStr(ToCategory(code, cl.ethnicity6))]
  }

  /** The three migration-status columns, set after the indicators. */
  function WithStatuses(row: Row, ind: Indicators, group16: Option<string>): Row {
    row
      ["mig_status_2_cat" := Str(MigStatus2Cat(ind))]
      ["mig_status_3_cat" := Str(MigStatus3Cat(ind, group16))]
      ["mig_status_6_cat" := Str(MigStatus6Cat(ind, WithEthnicity(group16)))]
  }

  /** The patient's whole row. */
  function CensusRow(p: Patient, cl: StudyCodelists): Row {
    var ind := CensusIndicators(p, cl);
    WithStatuses(WithIndicators(WithDemographics(map[], p, cl), ind, IndicatorKeys), ind, Ethnicity16Group(p, cl))
  }

  /** The script, for one patient. The `--census-date` argument is parsed and
      not used: the census day is always 2021-03-21. */
  method BuildDataset(p: Patient, cl: StudyCodelists, censusDateArg: Option<string>) returns (ds: Dataset)
    ensures fresh(ds)
    ensures ds.population == CensusPopulation(p)
    ensures ds.columns == CensusRow(p, cl)
    ensures ds.eventTables == map[]
  {
    ds := new Dataset();
    ds.DefinePopulation(CensusPopulation(p));
    SetDemographics(ds, p, cl);
    var ind := BuildMigrantIndicators(cl, p.events, CensusDay);
    SetIndicators(ds, ind);
    var group16 := Ethnicity16Group(p, cl);
    ds.SetColumn("mig_status_2_cat", Str(MigStatus2Cat(ind)));
    ds.SetColumn("mig_status_3_cat", Str(MigStatus3Cat(ind, group16)));
    var status6 := BuildMigStatus6Cat(ind, WithEthnicity(group16));
    ds.SetColumn("mig_status_6_cat", Str(status6));
  }

  /** The demographic assignments, in the script's order. */
  method SetDemographics(ds: Dataset, p: Patient, cl: StudyCodelists)
    modifies ds
    ensures ds.columns == WithDemographics(old(ds.columns), p, cl)
    ensures ds.population == old(ds.population) && ds.eventTables == old(ds.eventTables)
  {
    var address := p.addressOn(CensusDay);
    ds.SetColumn("age_band", Str(AgeBand(p.ageOn(CensusDay))));
    ds.SetColumn("sex", Str(p.sex));
    ds.SetColumn("region", OfStr(RegionOn(p.registrations, CensusDay)));
    ds.SetColumn("imd_decile", OfInt(if address.Some? then address.value.imdDecile else None));
    ds.SetColumn("imd_quintile", OfInt(if address.Some? then address.value.imdQuintile else None));
    var code := LatestEthnicityCode(p, cl);
    ds.SetColumn("latest_ethnicity_code", OfStr(code));
    ds.SetColumn("latest_ethnicity_16_level_group", OfStr(ToCategory(code, cl.ethnicity16)));
    ds.SetColumn("latest_ethnicity_6_level_group", OfStr(ToCategory(code, cl.ethnicity6)));
  }

  /** `for name, indicator in migrant_indicators.items(): setattr(dataset, name, indicator)` */
  method SetIndicators(ds: Dataset, ind: Indicators)
    modifies ds
    ensures ds.columns == WithIndicators(old(ds.columns), ind, IndicatorKeys)
    ensures ds.population == old(ds.population) && ds.eventTables == old(ds.eventTables)
  {
    for i := 0 to |IndicatorKeys|
      invariant ds.columns == WithIndicators(old(ds.columns), ind, IndicatorKeys[..i])
      invariant ds.population == old(ds.population) && ds.eventTables == old(ds.eventTables)
    {
      var name := IndicatorKeys[i];
      ds.SetColumn(name, Bool(Flag(ind, name)));
      assert IndicatorKeys[..i + 1][..i] == IndicatorKeys[..i];
    }
    assert IndicatorKeys[..|IndicatorKeys|] == IndicatorKeys;
  }

  /** Each indicator is a column named by its key, holding whether the patient
      has a code of its list on or before the census day. */
  lemma IndicatorColumns(p: Patient, cl: StudyCodelists)
    ensures forall k :: k in IndicatorKeySet ==>
      k in CensusRow(p, cl) &&
      CensusRow(p, cl)[k] == Bool(AnyEventOnOrBefore(p.events, MigrantFlags(cl)[k], CensusDay))
  {
    var ind := CensusIndicators(p, cl);
    var row := WithIndicators(WithDemographics(map[], p, cl), ind, IndicatorKeys);
    forall k | k in IndicatorKeySet
      ensures k in CensusRow(p, cl) &&
        CensusRow(p, cl)[k] == Bool(AnyEventOnOrBefore(p.events, MigrantFlags(cl)[k], CensusDay))
    {
      KeyInIndicatorKeys(k);
      StatusesKeepIndicator(row, ind, Ethnicity16Group(p, cl), k);
    }
  }

  lemma KeyInIndicatorKeys(k: string)
    requires k in IndicatorKeySet
    ensures k in IndicatorKeys
  {
  }

  /** Setting the three status columns leaves an indicator column as it was. */
  lemma StatusesKeepIndicator(row: Row, ind: Indicators, group16: Option<string>, k: string)
    requires k in IndicatorKeySet && k in row
    ensures k in WithStatuses(row, ind, group16) && WithStatuses(row, ind, group16)[k] == row[k]
  {
    StatusColumnsAreNotIndicators();
  }

  lemma StatusColumnsAreNotIndicators()
    ensures "mig_status_2_cat" !in IndicatorKeySet
    ensures "mig_status_3_cat" !in IndicatorKeySet
    ensures "mig_status_6_cat" !in IndicatorKeySet
  {
  }

  /** Without any ethnicity code the 16-level group is NULL, so the 3- and
      6-category statuses never take the White British rule. */
  lemma NoEthnicityNeverWhiteBritish(p: Patient, cl: StudyCodelists)
    requires forall i :: 0 <= i < |p.events| ==> p.events[i].code !in cl.ethnicity16
    ensures Ethnicity16Group(p, cl).None?
    ensures CensusRow(p, cl)["mig_status_3_cat"] == Str(MigStatus3Cat(CensusIndicators(p, cl), None))
    ensures CensusRow(p, cl)["mig_status_6_cat"] != Str("Likely non-migrant")
  {
    assert forall i :: 0 <= i < |p.events| ==> !Eligible(p.events[i], cl.ethnicity16.Keys, None);
    var ind := CensusIndicators(p, cl);
    StatusColumns(WithIndicators(WithDemographics(map[], p, cl), ind, IndicatorKeys), ind, None);
    SixCatLabelsReachable(ind, WithEthnicity(None));
  }

  /** The status columns hold the three statuses. */
  lemma StatusColumns(row: Row, ind: Indicators, group16: Option<string>)
    ensures WithStatuses(row, ind, group16)["mig_status_2_cat"] == Str(MigStatus2Cat(ind))
    ensures WithStatuses(row, ind, group16)["mig_status_3_cat"] == Str(MigStatus3Cat(ind, group16))
    ensures WithStatuses(row, ind, group16)["mig_status_6_cat"] == Str(MigStatus6Cat(ind, WithEthnicity(group16)))
  {
  }
}
