/** `build_common_vars(INTERVAL)` of analysis/utilities.py, for one patient and
    one interval: the denominator shared by the measures scripts, the subgroup
    variables, the subgroups table and the yearly intervals. */
module CommonVars {
  import opened Nullable
  import opened Calendar
  import opened Patients
  import opened Codelists
  import opened Cohorts
  import opened Datasets

  /** `denominator`: alive, registered, male or female and an age strictly
      between 0 and 110, all on the first day of the interval. */
  function Denominator(p: Patient, iv: Interval): (r: Option<bool>)
    ensures IsTrue(r) <==>
      p.aliveOn(iv.start) && RegisteredOn(p.registrations, iv.start) &&
      (p.sex == "male" || p.sex == "female") &&
      p.ageOn(iv.start).Some? && 0 < p.ageOn(iv.start).value < 110
  {
    And(And(And(Some(p.aliveOn(iv.start)),
                Some(RegisteredOn(p.registrations, iv.start))),
            HasNonDisclosiveSex(p.sex)),
        HasPossibleAge(p.ageOn(iv.start)))
  }

  /** `ethnicity`: the 16-level category of the latest ethnicity code recorded
      on or before the last day of the interval, "unknown" when there is none. */
  function Ethnicity(p: Patient, cl: StudyCodelists, iv: Interval): (r: string)
    ensures (forall i :: 0 <= i < |p.events| ==> !Eligible(p.events[i], cl.ethnicity16.Keys, Some(iv.end))) ==>
      r == "unknown"
    ensures var code := LatestCode(p.events, cl.ethnicity16.Keys, Some(iv.end));
      code.Some? ==> r == cl.ethnicity16[code.value]
  {
    WhenNullThen(ToCategory(LatestCode(p.events, cl.ethnicity16.Keys, Some(iv.end)), cl.ethnicity16), "unknown")
  }

  /** `imd_quintile`: from the address the patient has on the first day of the interval. */
  function ImdQuintile(p: Patient, iv: Interval): (r: Option<int>)
    ensures p.addressOn(iv.start).None? ==> r.None?
    ensures p.addressOn(iv.start).Some? ==> r == p.addressOn(iv.start).value.imdQuintile
  {
    match p.addressOn(iv.start)
    case Some(a) => a.imdQuintile
    case None => None
  }

  /** `region`: the region of the registration on the first day of the
      interval, "unknown" when there is no registration or no region. */
  function Region(p: Patient, iv: Interval): (r: string)
    ensures r == "unknown" ||
      exists i :: 0 <= i < |p.registrations| && Spans(p.registrations[i], iv.start) && p.registrations[i].region == Some(r)
    ensures !RegisteredOn(p.registrations, iv.start) ==> r == "unknown"
    ensures RegionOn(p.registrations, iv.start).None? ==> r == "unknown"
    ensures RegionOn(p.registrations, iv.start).Some? ==> r == RegionOn(p.registrations, iv.start).value
  {
    WhenNullThen(RegionOn(p.registrations, iv.start), "unknown")
  }

  /** The subgroup variables a measure can be grouped by. */
  datatype GroupColumn = AgeBandColumn | SexColumn | EthnicityColumn | ImdQuintileColumn | RegionColumn

  /** The value of a subgroup variable for the patient in the interval. */
  function GroupValue(c: GroupColumn, p: Patient, cl: StudyCodelists, iv: Interval): (v: Value)
    ensures c != ImdQuintileColumn ==> v.Str?
    ensures c == AgeBandColumn ==> v == Str(AgeBand(p.ageOn(iv.start)))
    ensures c == SexColumn ==> v == Str(p.sex)
    ensures c == EthnicityColumn ==> v == Str(Ethnicity(p, cl, iv))
    ensures c == ImdQuintileColumn ==> v == OfInt(ImdQuintile(p, iv))
    ensures c == RegionColumn ==> v == Str(Region(p, iv))
  {
    match c
    case AgeBandColumn => Str(AgeBand(p.ageOn(iv.start)))
    case SexColumn => Str(p.sex)
    case EthnicityColumn => Str(Ethnicity(p, cl, iv))
    case ImdQuintileColumn => OfInt(ImdQuintile(p, iv))
    case RegionColumn => Str(Region(p, iv))
  }

  type Subgroups = seq<(string, map<string, GroupColumn>)>

  /** `subgroups`, in the dict's order: suffix to group-by columns. */
  const StudySubgroups: Subgroups := [
    ("", map[]),
    ("age", map["age_band" := AgeBandColumn]),
    ("sex", map["sex" := SexColumn]),
    ("ethnicity", map["ethnicity" := EthnicityColumn]),
    ("imd", map["imd_quintile" := ImdQuintileColumn]),
    ("region", map["region" := RegionColumn])
  ]

  const SubgroupSuffixes: seq<string> := ["", "age", "sex", "ethnicity", "imd", "region"]

  /** Six distinct suffixes; "" groups by nothing, every other suffix by one column. */
  lemma SubgroupsShape()
    ensures |StudySubgroups| == 6
    ensures forall i :: 0 <= i < 6 ==> StudySubgroups[i].0 == SubgroupSuffixes[i]
    ensures forall i, j :: 0 <= i < j < 6 ==> SubgroupSuffixes[i] != SubgroupSuffixes[j]
    ensures StudySubgroups[0].1 == map[]
    ensures forall i :: 1 <= i < 6 ==> |StudySubgroups[i].1| == 1
  {
    assert |map["age_band" := AgeBandColumn]| == 1;
    assert |map["sex" := SexColumn]| == 1;
    assert |map["ethnicity" := EthnicityColumn]| == 1;
    assert |map["imd_quintile" := ImdQuintileColumn]| == 1;
    assert |map["region" := RegionColumn]| == 1;
  }

  /** `years(16).starting_on("2009-01-01")` */
  const StudyIntervals: seq<Interval> := YearlyIntervals(16, 2009)

  /** The sixteen intervals run without gaps from the study start to the study end. */
  lemma IntervalsCoverStudy()
    ensures |StudyIntervals| == 16
    ensures StudyIntervals[0].start == StudyStart && StudyIntervals[15].end == StudyEnd
    ensures forall i :: 0 <= i < 15 ==> StudyIntervals[i].end + 1 == StudyIntervals[i + 1].start
    ensures forall i :: 0 <= i < 16 ==> StudyIntervals[i].start <= StudyIntervals[i].end
  {
    YearlyIntervalsContiguous(16, 2009);
  }

  /** What `build_common_vars` returns, for one patient and interval. */
  datatype Common = Common(
    denominator: Option<bool>,
    intervals: seq<Interval>,
    subgroups: Subgroups,
    ageBand: string,
    ethnicity: string,
    imdQuintile: Option<int>,
    region: string)

  function BuildCommonVars(p: Patient, cl: StudyCodelists, iv: Interval): (c: Common)
    ensures IsTrue(c.denominator) <==> IsTrue(Denominator(p, iv))
    ensures c.intervals == StudyIntervals && c.subgroups == StudySubgroups
    ensures c.ageBand == AgeBand(p.ageOn(iv.start))
    ensures c.ethnicity == Ethnicity(p, cl, iv) && c.imdQuintile == ImdQuintile(p, iv) && c.region == Region(p, iv)
  {
    Common(Denominator(p, iv), StudyIntervals, StudySubgroups, AgeBand(p.ageOn(iv.start)),
           Ethnicity(p, cl, iv), ImdQuintile(p, iv), Region(p, iv))
  }
}
