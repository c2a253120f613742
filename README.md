# Migration short data report: per-patient model

The OpenSAFELY project "migration short data report" uses ehrQL scripts to
describe how migration status is recorded in primary-care records. The
scripts build several things:

- patient-level cohorts: a full-study cohort, two census-day cohorts, a
  denominator cohort, a Kaplan-Meier cohort, and a row-per-code cohort;
- an event-level table of the migration-related codes;
- three sets of annual measures, whose measure names are built in nested loops.

This project models what those scripts compute for one patient:

- the migrant indicators and the 2-, 3- and 6-category migration status;
- the shared denominator, subgroup variables and yearly intervals;
- each dataset definition: its population condition, each column it sets, and its event table;
- the registration of measures in the measures collection, including the names each measure gets.

Here is how the model represents the source.

- **NULL.** ehrQL's nullable values are `Option`s. `&`, `|` and `~` follow
  three-valued (Kleene) logic. A population, a denominator or a `when` clause
  selects only when its condition is TRUE. `CaseWhen.Case` is the generic
  first-match `case(when(...)..., otherwise=...)`.
- **Dates.** Dates are day numbers, with 0001-01-01 as day 1. The study runs
  from 2009-01-01 to 2024-12-31. The census day is 2021-03-21.
- **Patient data.** A patient is a record of:
  - clinical events;
  - practice registrations;
  - sex and year of birth;
  - the two death dates;
  - the engine's per-date answers for `age_on`, `is_alive_on` and `addresses.for_patient_on`.
- **Codelists.** Codelists are abstract sets of codes. A codelist with a
  category column is a partial map from code to category.
- **The `dataset` object.** It is the class `Datasets.Dataset`. Its fields are
  the population condition, the column map and the event tables. Each
  script's `BuildDataset` makes the script's assignments in the script's
  order. Its contract states the whole resulting dataset.
- **The `measures` object.** It is the class `MeasureRegistry.Measures`. Its
  fields are the defaults and the registered measures. Its invariant is that
  no two measures share a name, which ehrQL enforces. Measure numerators are
  symbolic (`BoolExpr`), and `Eval` gives their per-patient value in an
  interval.

## Model

| member | source | states |
|---|---|---|
| Nullable.And | analysis/utilities.py:29-34 | Kleene conjunction: FALSE if either side is FALSE, otherwise NULL if either side is NULL, otherwise TRUE |
| Nullable.Or | analysis/dataset_definition_full_study_cohort.py:47 | Kleene disjunction: TRUE if either side is TRUE, otherwise NULL if either side is NULL, otherwise FALSE |
| Nullable.Not | analysis/migration_status_variables.py:51 | `~`: swaps TRUE and FALSE and keeps NULL |
| Nullable.Equals | analysis/scrapyard/dataset_definition_km_time_to_first_migration_code.py:118-119 | `==` on a nullable value is NULL when the value is NULL, otherwise the comparison |
| Nullable.Less | analysis/utilities.py:41 | `<` is NULL when the operand is NULL, otherwise the comparison |
| Nullable.AtMost | analysis/dataset_definition_full_study_cohort.py:55-57 | `<=` is NULL when the operand is NULL, otherwise the comparison |
| Nullable.AtLeast | analysis/utilities.py:48 | `>=` is NULL when the operand is NULL, otherwise the comparison |
| Nullable.Greater | analysis/utilities.py:26 | `>` is NULL when the operand is NULL, otherwise the comparison |
| Nullable.LessThan | analysis/scrapyard/dataset_definition_km_time_to_first_migration_code.py:115 | `<` between two nullable dates is NULL when either is NULL |
| Nullable.BetweenButNotOn | analysis/scrapyard/dataset_definition_km_time_to_first_migration_code.py:24 | `is_between_but_not_on` is strictly between the bounds, and NULL for a NULL date |
| Nullable.Minus | analysis/dataset_definition_full_study_cohort.py:101 | the difference of two dates in days, NULL when either is NULL |
| Nullable.IsNull | analysis/dataset_definition_full_study_cohort.py:42 | `is_null()` is never NULL, and is TRUE exactly for NULL |
| Nullable.WhenNullThen | analysis/utilities.py:59 | `when_null_then(d)` is `d` for NULL and the value otherwise |
| Nullable.MinOf | analysis/scrapyard/dataset_definition_km_time_to_first_migration_code.py:90-94 | `minimum_of` skips NULLs; it is NULL only if all are NULL, otherwise it is one of the values and at most every non-NULL value |
| Nullable.MaxOf | analysis/scrapyard/dataset_definition_km_time_to_first_migration_code.py:69 | `maximum_for_patient` over NULL-able values: NULL only if all are NULL, otherwise one of them and at least every non-NULL one |
| CaseWhen.Case | analysis/utilities.py:40-50 | `case`: the value of the first clause whose condition is TRUE; the `otherwise` when no clause is TRUE |
| CaseWhen.FirstTakenOrNone | analysis/utilities.py:40-50 | either no clause is taken or exactly one clause is taken first |
| CaseWhen.CaseValueOrigin | analysis/utilities.py:40-50 | a `case` returns its default or the value of one of its clauses |
| CaseWhen.CaseWithDefaultNeverNull | analysis/migration_status_variables.py:36-39 | a `case` with an `otherwise` is never NULL |
| CaseWhen.CaseOtherwise | analysis/migration_status_variables.py:53-57 | the non-NULL value of a `case` with an `otherwise` |
| Calendar.StudyDates | analysis/scrapyard/dataset_definition_km_time_to_first_migration_code.py:18-19 | the study start, study end, census day and the 3000-01-01 cut-off as day numbers, in that order |
| Calendar.YearlyIntervals | analysis/utilities.py:84 | `years(n).starting_on(1 January y)`: n intervals, interval i from 1 January of year y+i to the day before 1 January of year y+i+1 |
| Calendar.YearlyIntervalsContiguous | analysis/utilities.py:84 | each yearly interval is non-empty, each starts the day after the previous one ends, and the ends increase |
| Calendar.NewYearIncreasing | analysis/utilities.py:84 | a later year starts on a later day |
| Patients.MatchingEvents | analysis/dataset_definition_full_study_cohort.py:77-80 | `where(code.is_in(codes))` keeps exactly the events with a code in the list, each as often as it occurs |
| Patients.CountMatching | analysis/dataset_definition_full_study_cohort.py:77-80 | `count_for_patient` is the length of the filtered event list, at most the number of events, and at least 1 exactly when `exists_for_patient` holds |
| Patients.CountMatchingAppend | analysis/dataset_definition_full_study_cohort.py:77-80 | the count over two event lists joined is the sum of their counts |
| Patients.CountIsMatchingPositions | analysis/dataset_definition_full_study_cohort.py:77-80 | over every prefix of the record, the count equals the number of positions whose event code is in the codelist |
| Patients.CountMatchingIsNumberOfMatches | analysis/dataset_definition_full_study_cohort.py:77-80 | the count over the whole record is the number of record positions holding a matching event |
| Patients.MatchingEventsNonEmpty | analysis/dataset_definition_full_study_cohort.py:36-38 | a patient has a matching event exactly when the filtered events are non-empty |
| Patients.FirstMatchingDate | analysis/dataset_definition_full_study_cohort.py:70-75 | the first matching date is NULL exactly when there is no matching event; otherwise it is the date of some matching event and no later than any matching event |
| Patients.LatestMatching | analysis/dataset_definition_census_cohorts.py:81-85 | `sort_by(date).last_for_patient()`: NULL exactly when no event is eligible; otherwise an eligible event whose date is no earlier than any eligible event |
| Patients.LatestCode | analysis/dataset_definition_census_cohorts.py:81-85 | the latest code is in the codelist and belongs to a latest eligible event |
| Patients.RegistrationOn | analysis/dataset_definition_census_cohorts.py:70 | `for_patient_on(d)`: NULL exactly when no registration spans `d`; otherwise a registration spanning `d`, with the latest start among those |
| Patients.RegionOn | analysis/utilities.py:65-70 | NULL when no registration spans the day; otherwise exactly the region (possibly NULL) of a spanning registration with the latest start, the one `for_patient_on` selects |
| Patients.FirstRegistrationStart | analysis/dataset_definition_full_study_cohort.py:92-97 | the earliest start of any registration, NULL exactly when there is none |
| Patients.FirstRegistrationStartFacts | analysis/dataset_definition_full_study_cohort.py:92-97 | the first registration start is `minimum_of` over the starts |
| Patients.LatestRegistrationEnd | analysis/scrapyard/dataset_definition_km_time_to_first_migration_code.py:69 | the latest non-NULL end date, NULL exactly when every end is NULL |
| Patients.LatestRegistrationEndFacts | analysis/scrapyard/dataset_definition_km_time_to_first_migration_code.py:69 | the latest end is `maximum_for_patient` over the ends |
| Patients.AnyEventOnOrBeforeMonotone | analysis/migration_status_variables.py:19-24 | an indicator true on one date stays true on any later date |
| Patients.EmptyCodelistMatchesNothing | analysis/migration_status_variables.py:19-24 | an empty codelist gives a false indicator, a zero count and a NULL first date |
| Codelists.ToCategory | analysis/dataset_definition_census_cohorts.py:88-89 | `to_category` is NULL for a NULL code or a code without a category, and otherwise the code's category |
| MigrationStatus.MigrantFlags | analysis/migration_status_variables.py:6-14 | the seven indicator names, each with its codelist |
| MigrationStatus.BuildMigrantIndicators | analysis/migration_status_variables.py:16-26 | one indicator per flag, TRUE exactly when the patient has an event from that flag's codelist on or before the date |
| MigrationStatus.MigStatus2Cat | analysis/migration_status_variables.py:28-39 | "Migrant" exactly when `any_migrant` holds, otherwise "Non-migrant" |
| MigrationStatus.MigStatus3Cat | analysis/migration_status_variables.py:41-57 | "Migrant" iff `any_migrant`; "Non-migrant" iff not a migrant and (born in the UK, or the ethnicity is "White - British"); "Unknown" iff neither |
| MigrationStatus.SixCatRules | analysis/migration_status_variables.py:82-87 | the four rules in priority order, with the two "either" conditions as Kleene disjunctions |
| MigrationStatus.SixCatCaseArgs | analysis/migration_status_variables.py:89-96 | the `case` arguments: four clauses, and a fifth exactly when an ethnicity argument is passed |
| MigrationStatus.MigStatus6Cat | analysis/migration_status_variables.py:59-101 | the priority chain: definite migrant, highly likely migrant, likely migrant, definite non-migrant, the "White - British" rule when an ethnicity is passed, and "Unknown" otherwise |
| MigrationStatus.SixCatFirstMatch | analysis/migration_status_variables.py:98-101 | each label comes from the first clause the `case` takes |
| MigrationStatus.BuildMigStatus6Cat | analysis/migration_status_variables.py:90-101 | the loop that appends the clauses, followed by the conditional ethnicity clause, gives the 6-category status |
| MigrationStatus.TwoCatTotal | analysis/migration_status_variables.py:34 | the 2-category status is always one of its two labels; a missing `any_migrant` key gives "Non-migrant" |
| MigrationStatus.ThreeCatRefinesTwoCat | analysis/migration_status_variables.py:41-57 | the 3-category status is a label of its own; it is "Migrant" exactly when the 2-category status is; with a NULL ethnicity only `born_in_uk` gives "Non-migrant" |
| MigrationStatus.DefiniteMigrantFirst | analysis/migration_status_variables.py:83 | a code for birth outside the UK always gives "Definite migrant" |
| MigrationStatus.DefiniteNonMigrantIff | analysis/migration_status_variables.py:86 | "Definite non-migrant" exactly when born in the UK and none of the three migrant rules applies |
| MigrationStatus.SixCatLabelsReachable | analysis/migration_status_variables.py:95-96 | the status is one of the six labels; "Likely non-migrant" needs the "White - British" ethnicity and no migrant code, and cannot occur without an ethnicity argument |
| MigrationStatus.IndicatorsMonotone | analysis/migration_status_variables.py:16-26 | an indicator that holds on one date holds on every later date |
| Cohorts.AgeBandIndex | analysis/utilities.py:39-50 | an age's band index is below 8, and the age lies between the band's cut points |
| Cohorts.CutsAtMostSplits | analysis/utilities.py:41-48 | the count of cut points at or below an age splits the ascending cuts at that age |
| Cohorts.CutsAtMostMonotone | analysis/utilities.py:41-48 | a larger age passes at least as many cuts |
| Cohorts.AgeBandClauseHolds | analysis/utilities.py:41-48 | clause j of the age-band `case` is TRUE exactly for ages in band j |
| Cohorts.AgeBandExactlyOne | analysis/utilities.py:41-48 | every age satisfies exactly one age-band clause |
| Cohorts.AgeBand | analysis/utilities.py:40-50 | "missing" for a NULL age, otherwise the label of the age's band |
| Cohorts.AgeBandFirstMatch | analysis/utilities.py:40-50 | a NULL age takes no clause; an age takes its band's clause first |
| Cohorts.AgeBandEdges | analysis/dataset_definition_census_cohorts.py:52-62 | under 16 (negative ages included) gives "0-15"; 85 and over gives "85 plus"; "missing" exactly for NULL |
| Cohorts.AgeBandBoundaries | analysis/dataset_definition_census_cohorts.py:52-62 | each band boundary falls where its label says |
| Cohorts.AgeInBand | analysis/utilities.py:41-48 | an age between the cut points of a band gets that band's label |
| Cohorts.AgeBandIndexMonotone | analysis/utilities.py:41-48 | an older age never falls in an earlier band |
| Cohorts.YearBandClauseHolds | analysis/dataset_definition_full_study_cohort.py:122-129 | year-of-birth clause j is TRUE exactly for the years of band j |
| Cohorts.YearOfBirthBand | analysis/dataset_definition_full_study_cohort.py:122-129 | NULL exactly for a NULL year or one outside 1900-2025; otherwise the label of the year's band |
| Cohorts.YearBandFirstMatch | analysis/dataset_definition_full_study_cohort.py:122-129 | out-of-range years take no clause; an in-range year takes its own band's clause first |
| Cohorts.YearBandsDisjoint | analysis/dataset_definition_full_study_cohort.py:122-129 | the bands do not overlap, and their edge years fall where the labels say |
| Cohorts.HasNonDisclosiveSex | analysis/dataset_definition_full_study_cohort.py:46-48 | never NULL; TRUE exactly for "male" or "female" |
| Cohorts.HasPossibleAge | analysis/dataset_definition_census_cohorts.py:39 | NULL exactly for a NULL age; TRUE exactly for an age strictly between 0 and 110 |
| Cohorts.AliveAtStudyStart | analysis/dataset_definition_full_study_cohort.py:50-53 | TRUE exactly when each death date is NULL or on or after the study start |
| Cohorts.EndsWithinStudy | analysis/dataset_definition_full_study_cohort.py:40-44 | the registration-row condition: the end is NULL, or after the study start and on or before the study end |
| Cohorts.RegisteredDuringStudyIgnoresStart | analysis/dataset_definition_full_study_cohort.py:40-44 | registration during the study depends only on the end dates |
| Cohorts.CensusPopulation | analysis/dataset_definition_census_cohorts.py:27-45 | TRUE exactly for a patient who on the census day is registered, alive, male or female, and aged strictly between 0 and 110 |
| Cohorts.MigrantCohortPopulation | analysis/dataset_definition_full_study_cohort.py:61-66 | TRUE exactly for a patient with a migration code who was registered during the study, is male or female, was alive at the study start and was at most 100 then |
| Cohorts.DenominatorPopulation | analysis/scrapyard/population_denominator_cohort.py:47-51 | the same conditions as the full-study population, without the migration code |
| Cohorts.MigrantCohortIsDenominatorWithCode | analysis/scrapyard/population_denominator_cohort.py:47-51 | the migrant cohort is exactly the denominator population restricted to patients with a migration code |
| Cohorts.TimeToFirstMigrationCode | analysis/dataset_definition_full_study_cohort.py:101-103 | defined exactly when there is a code and a registration; then it is the first code date minus the first registration start |
| Cohorts.TimeToFirstNegativeIff | analysis/dataset_definition_full_study_cohort.py:101-103 | the time is negative exactly when some migration code predates every registration start |
| Cohorts.MigrantCohortHasFirstCode | analysis/dataset_definition_full_study_cohort.py:70-80 | in the migrant cohort the first code date is defined and the count is at least one |
| CommonVars.Denominator | analysis/utilities.py:15-34 | TRUE exactly for a patient who on the interval's first day is alive, registered, male or female, and aged strictly between 0 and 110 |
| CommonVars.Ethnicity | analysis/utilities.py:52-60 | "unknown" when no 16-level ethnicity code is recorded by the interval's end; otherwise the category of a latest such code |
| CommonVars.ImdQuintile | analysis/utilities.py:62-63 | the IMD quintile of the address on the interval's first day, NULL without one |
| CommonVars.Region | analysis/utilities.py:65-70 | the region of the registration on the interval's first day when it is recorded, and "unknown" when it is NULL or the patient is not registered then |
| CommonVars.GroupValue | analysis/utilities.py:72-79 | each subgroup column holds its own variable on the interval's start: the age band of the age then, the sex, the ethnicity, the IMD quintile (an integer) and the region; all but the quintile are strings |
| CommonVars.SubgroupsShape | analysis/utilities.py:72-79 | six distinct suffixes, in order; "" groups by nothing, and every other suffix groups by one column |
| CommonVars.IntervalsCoverStudy | analysis/utilities.py:84 | sixteen contiguous yearly intervals run from the study start to the study end |
| CommonVars.BuildCommonVars | analysis/utilities.py:86-94 | the returned dict holds the denominator, intervals, subgroups, age band, ethnicity, IMD quintile and region as defined above |
| Datasets.OfBool | analysis/dataset_definition_census_cohorts.py:101-102 | a nullable boolean as a column value: NULL stays NULL |
| Datasets.OfInt | analysis/dataset_definition_census_cohorts.py:76-77 | a nullable integer as a column value: NULL stays NULL |
| Datasets.OfStr | analysis/dataset_definition_census_cohorts.py:70 | a nullable string as a column value: NULL stays NULL |
| Datasets.OfDate | analysis/dataset_definition_full_study_cohort.py:75 | a nullable date as a column value: NULL stays NULL |
| Datasets.Dataset.constructor | analysis/dataset_definition_census_cohorts.py:41 | `create_dataset()`: no population, no columns and no event tables |
| Datasets.Dataset.DefinePopulation | analysis/dataset_definition_census_cohorts.py:42-45 | sets the population condition and nothing else |
| Datasets.Dataset.SetColumn | analysis/dataset_definition_census_cohorts.py:66 | sets one column and nothing else |
| Datasets.Dataset.AddEventTable | analysis/scrapyard/generate_migration_event_level_dataset.py:23-31 | adds one event table and nothing else |
| Datasets.Dataset.SetEventColumn | analysis/scrapyard/generate_migration_event_level_dataset.py:33-35 | replaces one column of one event table, row by row, and nothing else |
| Datasets.WithColumn | analysis/scrapyard/generate_migration_event_level_dataset.py:33-35 | the same rows, each with the column set to the matching value |
| CohortColumns.SetMigrationCodeColumns | analysis/dataset_definition_full_study_cohort.py:70-129 | sets the migration-code, registration, ethnicity and year-of-birth columns in order, leaving the population and event tables alone |
| CohortColumns.SetAreaColumns | analysis/dataset_definition_full_study_cohort.py:133-144 | sets the MSOA, IMD decile, IMD quintile and region columns for one day, leaving the rest alone |
| CensusCohorts.WithIndicators | analysis/dataset_definition_census_cohorts.py:101-102 | the `setattr` loop adds a column for each indicator key, holding that indicator, and keeps every other column |
| CensusCohorts.SetDemographics | analysis/dataset_definition_census_cohorts.py:51-94 | sets the age band, sex, region, IMD and ethnicity columns in order |
| CensusCohorts.SetIndicators | analysis/dataset_definition_census_cohorts.py:101-102 | the loop sets one column per indicator, in order |
| CensusCohorts.BuildDataset | analysis/dataset_definition_census_cohorts.py:17-116 | the census population; every column the script sets, on the fixed census date; no event tables |
| CensusCohorts.IndicatorColumns | analysis/dataset_definition_census_cohorts.py:99-102 | each indicator column holds whether the patient has a code from its list on or before the census day |
| CensusCohorts.StatusColumnsAreNotIndicators | analysis/dataset_definition_census_cohorts.py:106-116 | the status columns do not overwrite any indicator column |
| CensusCohorts.StatusesKeepIndicator | analysis/dataset_definition_census_cohorts.py:106-116 | setting the status columns leaves every indicator column as it was |
| CensusCohorts.StatusColumns | analysis/dataset_definition_census_cohorts.py:106-116 | the three status columns hold the 2-, 3- and 6-category statuses of the indicators and the 16-level group |
| CensusCohorts.NoEthnicityNeverWhiteBritish | analysis/dataset_definition_census_cohorts.py:108-116 | without an ethnicity code the 16-level group is NULL; the 3-category status then follows the NULL-ethnicity rule, and the 6-category status is never "Likely non-migrant" |
| FullStudyCohort.BuildDataset | analysis/dataset_definition_full_study_cohort.py:61-149 | the full-study population; every column the script sets, with the area taken at the study start; no event tables |
| CreateCohortsCensus.BuildDataset | analysis/create_cohorts/dataset_definition_census_cohorts.py:34-153 | the census population; every column the script sets, with ages and areas on the census day; no event tables |
| DenominatorCohort.BuildDataset | analysis/scrapyard/population_denominator_cohort.py:47-85 | the denominator population; every column the script sets; no event tables |
| RowPerCode.BuildDataset | analysis/scrapyard/full_study_cohort_row_per_code.py:43-48 | the full-study population, with no columns and no event tables |
| KmTimeToFirst.KmRegistrationCond | analysis/scrapyard/dataset_definition_km_time_to_first_migration_code.py:23-28 | this script's registration-row condition, written out clause by clause; never NULL |
| KmTimeToFirst.KmRegistrationSimplified | analysis/scrapyard/dataset_definition_km_time_to_first_migration_code.py:23-28 | the condition holds exactly when the registration started before the study end and is open or ended after the study start |
| KmTimeToFirst.KmPopulation | analysis/scrapyard/dataset_definition_km_time_to_first_migration_code.py:43-47 | TRUE exactly for a patient registered during the study by this condition, male or female, alive at the study start and at most 100 then |
| KmTimeToFirst.KmPopulationIgnoresEvents | analysis/scrapyard/dataset_definition_km_time_to_first_migration_code.py:43-47 | clinical events do not affect the population |
| KmTimeToFirst.BaselineDate | analysis/scrapyard/dataset_definition_km_time_to_first_migration_code.py:64 | defined exactly when there is a registration; then one day before the earliest start, and before every start |
| KmTimeToFirst.DeregistrationDate | analysis/scrapyard/dataset_definition_km_time_to_first_migration_code.py:68-77 | the latest end date when it is before 3000-01-01, NULL otherwise |
| KmTimeToFirst.DeregistrationIsLatestEnd | analysis/scrapyard/dataset_definition_km_time_to_first_migration_code.py:68-77 | a deregistration date is before 3000-01-01, is the end of some registration, and is no earlier than any end |
| KmTimeToFirst.CensorDate | analysis/scrapyard/dataset_definition_km_time_to_first_migration_code.py:88-96 | never NULL; at most the study end and each known death or deregistration date; equal to one of them |
| KmTimeToFirst.ProcessedFirstMigrationDate | analysis/scrapyard/dataset_definition_km_time_to_first_migration_code.py:115-122 | NULL exactly when either date is NULL; otherwise the first code date moved forward to the first registration when it comes earlier |
| KmTimeToFirst.ProcessedDateNotBeforeRegistration | analysis/scrapyard/dataset_definition_km_time_to_first_migration_code.py:115-122 | the processed date is on or after both the first registration and the first code |
| KmTimeToFirst.BuildDataset | analysis/scrapyard/dataset_definition_km_time_to_first_migration_code.py:43-149 | the script's population; every column the script sets, in order; no event tables |
| EventLevel.InsertByDate | analysis/scrapyard/generate_migration_event_level_dataset.py:17-21 | inserting into a date-sorted list keeps it sorted and adds exactly the one event |
| EventLevel.SortByDate | analysis/scrapyard/generate_migration_event_level_dataset.py:17-21 | `sort_by(date)` gives a date-ordered permutation of the events |
| EventLevel.MigrationRelatedCodes | analysis/scrapyard/generate_migration_event_level_dataset.py:17-21 | the patient's events with a migration code, each as often as it occurs, in date order |
| EventLevel.MigrationCategory | analysis/scrapyard/generate_migration_event_level_dataset.py:27-31 | the first of language, interpreter, asylum or refugee, and country of birth whose list holds the code; NULL when none does |
| EventLevel.FillNull | analysis/scrapyard/generate_migration_event_level_dataset.py:33-35 | `fill_null(d)` is `d` for NULL and the value otherwise |
| EventLevel.FilledCategory | analysis/scrapyard/generate_migration_event_level_dataset.py:27-35 | the filled category is always one of the five labels, and "Other" exactly when none of the four lists holds the code |
| EventLevel.AddMigrationRelatedCodes | analysis/scrapyard/generate_migration_event_level_dataset.py:23-35 | adds the event table with its category column filled, leaving the population and columns alone |
| EventLevel.BuildDataset | analysis/scrapyard/generate_migration_event_level_dataset.py:14-35 | the full-study cohort dataset with one event table, `migration_related_codes` |
| EventLevel.EventTableRows | analysis/scrapyard/generate_migration_event_level_dataset.py:23-35 | row i holds the date and code of the i-th migration-related event; the code is a migration code; the category is never NULL and is the code's filled category |
| EventLevel.FilledEventRow | analysis/scrapyard/generate_migration_event_level_dataset.py:33-35 | a filled row keeps its event's date and code, and gets the filled category |
| EventLevel.EventTableSortedAndComplete | analysis/scrapyard/generate_migration_event_level_dataset.py:17-31 | there is one row per migration-related event, and the rows are in date order |
| MeasureNames.JoinName | analysis/generate_annual_migrant_counts.py:40 | the name starts with its base; it is the base alone exactly for the "" suffix, and otherwise the base, then exactly the separator, then the suffix |
| MeasureNames.DivergentBasesGiveDistinctNames | analysis/generate_annual_migrant_counts.py:38-45 | names on bases that differ at a shared position differ, whatever the suffixes |
| MeasureNames.DistinctSuffixesGiveDistinctNames | analysis/generate_annual_migrant_counts.py:39-40 | one base with two different suffixes gives two different names |
| MeasureNames.DivergeBehindPrefix | analysis/generate_annual_migrant_counts_migration_status_types.py:35-37 | a shared `var_name__` prefix keeps diverging names diverging |
| MeasureNames.PairwiseDivergeBehindPrefix | analysis/generate_annual_migrant_counts_migration_status_types.py:35-37 | a shared prefix keeps a whole list of pairwise diverging bases pairwise diverging |
| MeasureNames.LowerChar | analysis/generate_annual_migrant_counts_migration_status_types.py:31 | `lower()` on one character moves A-Z down to a-z and leaves every other character alone |
| MeasureNames.SafeChar | analysis/generate_annual_migrant_counts_migration_status_types.py:31 | one safe-label character is never a space, a hyphen or an upper-case letter; a space or a hyphen becomes "_", an upper-case ASCII letter its lower-case letter, and any other character is kept |
| MeasureNames.SafeLabel | analysis/generate_annual_migrant_counts_migration_status_types.py:31 | the same length; spaces and hyphens become "_"; upper-case letters become lower-case; every other character is kept |
| MeasureNames.SafeLabelFixes | analysis/generate_annual_migrant_counts_migration_status_types.py:31 | a label without upper-case letters, spaces or hyphens is its own safe label |
| MeasureNames.SafeLabelIdempotent | analysis/generate_annual_migrant_counts_migration_status_types.py:31 | making a label safe twice is the same as making it safe once |
| MeasureRegistry.IndicatorNumerator | analysis/generate_annual_migrant_counts.py:33-35 | an indicator numerator is never NULL, and is TRUE exactly when a code from its list is recorded by the interval's end |
| MeasureRegistry.NumeratorMonotone | analysis/generate_annual_migrant_counts.py:33-35 | an indicator numerator TRUE in one interval is TRUE in every interval ending later |
| MeasureRegistry.NumeratorMonotoneOverStudy | analysis/generate_annual_migrant_counts.py:21-35 | over the sixteen study years, an indicator numerator TRUE for a patient in one year is TRUE in every later year (the shared denominator is not monotone, so this is not a claim about the counts) |
| MeasureRegistry.IntervalEndsIncrease | analysis/utilities.py:84 | the ends of the study intervals never decrease |
| MeasureRegistry.DistinctNamesAppend | analysis/generate_annual_migrant_counts.py:41-45 | appending a measure with a new name keeps the names distinct |
| MeasureRegistry.Measures.constructor | analysis/generate_annual_migrant_counts.py:12 | `create_measures()`: no defaults and no measures |
| MeasureRegistry.Measures.DefineDefaults | analysis/generate_annual_migrant_counts.py:21-24 | sets the defaults and keeps the measures |
| MeasureRegistry.Measures.DefineMeasure | analysis/generate_annual_migrant_counts.py:41-45 | a measure is defined exactly when its name is new, and is then appended; otherwise nothing changes; names stay distinct |
| MeasureRegistry.CreateStudyMeasures | analysis/generate_annual_migrant_counts.py:12-24 | a new collection with the shared denominator and the sixteen yearly intervals as defaults |
| MeasureRegistry.IndicatorNumerators | analysis/generate_annual_migrant_counts.py:33-35 | the indicator numerators, keyed in the order of the flags |
| MeasureRegistry.IndicatorKeysDiverge | analysis/migration_status_variables.py:6-14 | every two indicator names differ at a position both have |
| MeasureRegistry.SubgroupRow | analysis/generate_annual_migrant_counts.py:39-45 | one measure per subgroup, six in all |
| MeasureRegistry.RegisterSubgroups | analysis/generate_annual_migrant_counts.py:39-45 | the inner loop registers the six measures of one base, or stops at the first name already taken |
| MeasureRegistry.PerSubgroup | analysis/generate_annual_migrant_counts.py:38-45 | six measures per base |
| MeasureRegistry.PerSubgroupAt | analysis/generate_annual_migrant_counts.py:38-45 | measure 6i + j pairs base i and its numerator with subgroup j and that subgroup's name |
| MeasureRegistry.PerSubgroupDistinct | analysis/generate_annual_migrant_counts.py:38-45 | pairwise diverging bases give distinct measure names |
| MeasureRegistry.PerSubgroupStep | analysis/generate_annual_migrant_counts.py:38-45 | the first 6(i+1) measures are the first 6i measures followed by base i's row |
| MeasureRegistry.RegisterAll | analysis/generate_annual_migrant_counts.py:38-45 | the nested loops register every measure in order exactly when all names are distinct; otherwise they report the first repeated name |
| MeasureRegistry.DuplicateFound | analysis/generate_annual_migrant_counts.py:38-45 | a name already taken during the loops is repeated in the full measure list |
| AnnualCounts.Run | analysis/generate_annual_migrant_counts.py:12-45 | the script registers every annual measure, in order, under the study defaults, without error |
| AnnualCounts.AnnualMeasuresDistinct | analysis/generate_annual_migrant_counts.py:38-45 | 42 measures with distinct names |
| AnnualCounts.AnnualMeasureAt | analysis/generate_annual_migrant_counts.py:38-45 | measure 6i + j is named by key i alone or by `key_suffix`, counts indicator i, and groups by subgroup j |
| StatusTypeCounts.Bases | analysis/generate_annual_migrant_counts_migration_status_types.py:20-31 | each base is `migration_status_types__` followed by the key's safe label |
| StatusTypeCounts.RegisterStatusTypes | analysis/generate_annual_migrant_counts_migration_status_types.py:22-40 | registers every measure exactly when no numerator is a plain boolean and the names are distinct; a plain boolean raises before any of that key's measures is defined |
| StatusTypeCounts.Run | analysis/generate_annual_migrant_counts_migration_status_types.py:5-40 | the script registers all its measures, in order, under the study defaults, without error |
| StatusTypeCounts.KeysAreSafeLabels | analysis/generate_annual_migrant_counts_migration_status_types.py:31 | every indicator key is already its own safe label |
| StatusTypeCounts.KeyIsSafeLabel | analysis/generate_annual_migrant_counts_migration_status_types.py:31 | each indicator key, one at a time, is its own safe label |
| StatusTypeCounts.StatusTypeMeasuresDistinct | analysis/generate_annual_migrant_counts_migration_status_types.py:22-40 | no numerator is a plain boolean; there are 42 measures with distinct names |
| StatusTypeCounts.StatusTypeMeasureAt | analysis/generate_annual_migrant_counts_migration_status_types.py:33-40 | measure 6i + j is named `migration_status_types__key` followed by `__suffix` unless the suffix is "", counts indicator i, and groups by subgroup j |
| TwoCatCounts.RegisterTwoCat | analysis/generate_annual_migrant_counts_2cat.py:23-32 | the loops register every 2-category measure, in order, without error |
| TwoCatCounts.Run | analysis/generate_annual_migrant_counts_2cat.py:8-32 | the script registers all its measures under the study defaults |
| TwoCatCounts.SafeLabels | analysis/generate_annual_migrant_counts_2cat.py:25 | the safe labels are "migrant" and "non_migrant" |
| TwoCatCounts.TwoCatMeasuresDistinct | analysis/generate_annual_migrant_counts_2cat.py:22-32 | 12 measures with distinct names |
| TwoCatCounts.TwoCatMeasureAt | analysis/generate_annual_migrant_counts_2cat.py:27-32 | measure 6i + j is named `mig_status_2_cat__label` followed by `__suffix` unless the suffix is "", counts the label test, and groups by subgroup j |
| TwoCatCounts.ExactlyOneNumerator | analysis/generate_annual_migrant_counts_2cat.py:19-24 | both numerators are non-NULL and exactly one is TRUE; the "Migrant" numerator is TRUE exactly when the patient has a migration code by the interval's end |

## Left out

- Loading codelists from CSV is file I/O through a library. Codelists are abstract sets and maps, and `create_cohorts/codelists.py` is not part of this model.
- The KM script's local copy of the migration codelist is taken to be the same list as `all_migrant_codes`. The denominator script's ethnicity codelist is `ethnicity`.
- `scrapyard/code_counts.py` only reads files, and is not part of this model.
- The ehrQL engine is not modelled: SQL generation, backend execution, `show`, dummy data and disclosure control. Only the per-patient meaning of the expressions is modelled.
- Measures are registered symbolically. The engine's aggregation of numerator and denominator over patients, intervals and groups is left out.
- The engine's answers for `age_on`, `is_alive_on` and `addresses.for_patient_on` are inputs of the patient record; how they are computed from raw dates is left out.
- Patients.LatestMatching: ties in `last_for_patient` are not broken. The model promises some event of maximal date, not the engine's choice among equal dates.
- Patients.RegistrationOn: ties among spanning registrations with the same start are not broken, for the same reason.
- MeasureNames.LowerChar: models `str.lower` for ASCII letters only, because non-ASCII case mapping is a Unicode table.
- The `--census-date` argument of both census scripts is parsed and then ignored. The fixed census date is used, as in the code. The argument is a parameter of `BuildDataset` that the model does not read.
- The `print` of the numerator keys in `generate_annual_migrant_counts_migration_status_types.py` is output only.
- Commented-out blocks are not live logic.
- Python's `~False == -1` on the `.get(key, False)` fallback is not modelled. Every key is always present, and an absent key reads as FALSE.
- ehrQL's refusal to reassign an existing dataset column is not modelled; the scripts assign each column once. Reassigning an event-table column with `fill_null` is modelled.
- The event-level script imports the full-study cohort from a module path that does not hold it. The model uses the full-study cohort dataset.
- Two comments disagree with the code, and the model follows the code:
  - The 3-category docstring names a `migrant` key, but the code reads `any_migrant`.
  - The full-study header mentions an age limit of 110, but the population uses `<= 100`.
- Negative ages land in "0-15", as the code's first clause says.
