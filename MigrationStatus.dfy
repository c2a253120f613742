/** The migration-status rules of analysis/migration_status_variables.py:
    seven indicators ("has a code of this list on or before the date") and the
    2-, 3- and 6-category first-match classifiers built from them. */
module MigrationStatus {
  import opened Nullable
  import opened CaseWhen
  import opened Calendar
  import opened Patients
  import opened Codelists

  /** The names of `migrant_flags`, in the dict's order. */
  const IndicatorKeys: seq<string> := [
    "any_migrant", "born_in_uk", "not_born_in_uk", "immig_status_excl_refugee_asylum",
    "refugee_asylum_status", "english_not_main_language", "interpreter_required"]

  const IndicatorKeySet: set<string> := {
    "any_migrant", "born_in_uk", "not_born_in_uk", "immig_status_excl_refugee_asylum",
    "refugee_asylum_status", "english_not_main_language", "interpreter_required"}

  /** `migrant_flags`: indicator name to codelist. */
  function MigrantFlags(cl: StudyCodelists): (flags: map<string, set<Code>>)
    ensures flags.Keys == IndicatorKeySet
  {
    map[
      "any_migrant" := cl.allMigrant,
      "born_in_uk" := cl.ukCob,
      "not_born_in_uk" := cl.cobMigrant,
      "immig_status_excl_refugee_asylum" := cl.immigStatusExclRefAsylum,
      "refugee_asylum_status" := cl.asylumRefugee,
      "english_not_main_language" := cl.englishNotMainLanguage,
      "interpreter_required" := cl.interpreter]
  }

  /** One patient's values of the indicators (an `exists_for_patient` is never NULL). */
  type Indicators = map<string, bool>

  /** `build_migrant_indicators(date)`: for each flag, does the patient have an
      event with a code of its list on or before `date`. */
  function BuildMigrantIndicators(cl: StudyCodelists, events: seq<Event>, date: Date): (ind: Indicators)
    ensures ind.Keys == IndicatorKeySet
    ensures forall k :: k in ind ==> (ind[k] <==> AnyEventOnOrBefore(events, MigrantFlags(cl)[k], date))
  {
    var flags := MigrantFlags(cl);
    map k | k in flags :: AnyEventOnOrBefore(events, flags[k], date)
  }

  /** `migrant_indicators.get(key, False)`: an absent indicator is false. */
  function Flag(ind: Indicators, key: string): bool {
    if key in ind then ind[key] else false
  }

  // ---------------------------------------------------------------------
  // 2 categories
  // ---------------------------------------------------------------------

  /** `build_mig_status_2_cat`: "Migrant" exactly when `any_migrant` holds. */
  function MigStatus2Cat(ind: Indicators): (r: string)
    ensures r == if Flag(ind, "any_migrant") then "Migrant" else "Non-migrant"
  {
    var migrant := Flag(ind, "any_migrant");
    var clauses := [When(Some(migrant), "Migrant")];
    assert migrant ==> FirstTakenAt(clauses, 0);
    CaseOtherwise(clauses, "Non-migrant")
  }

  // ---------------------------------------------------------------------
  // 3 categories
  // ---------------------------------------------------------------------

  const WhiteBritish := "White - British"

  /** `build_mig_status_3_cat`; `eth` is the patient's (nullable) ethnicity. */
  function MigStatus3Cat(ind: Indicators, eth: Option<string>): (r: string)
    ensures r == "Migrant" <==> Flag(ind, "any_migrant")
    ensures r == "Non-migrant" <==>
      !Flag(ind, "any_migrant") && (Flag(ind, "born_in_uk") || eth == Some(WhiteBritish))
    ensures r == "Unknown" <==>
      !Flag(ind, "any_migrant") && !Flag(ind, "born_in_uk") && eth != Some(WhiteBritish)
  {
    var migrant := Flag(ind, "any_migrant");
    var bornInUk := Flag(ind, "born_in_uk");
    var nonMigrant := Or(Some(bornInUk), And(Equals(eth, WhiteBritish), Not(Some(migrant))));
    var clauses := [When(Some(migrant), "Migrant"), When(nonMigrant, "Non-migrant")];
    assert migrant ==> FirstTakenAt(clauses, 0);
    assert !migrant && IsTrue(nonMigrant) ==> FirstTakenAt(clauses, 1);
    CaseOtherwise(clauses, "Unknown")
  }

  // ---------------------------------------------------------------------
  // 6 categories
  // ---------------------------------------------------------------------

  /** The optional `latest_ethnicity_expr` argument: not given, or given (and
      then NULL or not for the patient). */
  datatype EthnicityArg = NoEthnicity | WithEthnicity(value: Option<string>)

  /** `clauses` of `build_mig_status_6_cat`, in precedence order. */
  function SixCatRules(ind: Indicators): (rules: seq<(Option<bool>, string)>)
    ensures |rules| == 4
  {
    [
      (Some(Flag(ind, "not_born_in_uk")), "Definite migrant"),
      (Or(Some(Flag(ind, "immig_status_excl_refugee_asylum")), Some(Flag(ind, "refugee_asylum_status"))),
        "Highly likely migrant"),
      (Or(Some(Flag(ind, "english_not_main_language")), Some(Flag(ind, "interpreter_required"))),
        "Likely migrant"),
      (Some(Flag(ind, "born_in_uk")), "Definite non-migrant")
    ]
  }

  /** The clause appended when an ethnicity expression is supplied. */
  function EthnicityClause(ind: Indicators, eth: Option<string>): When<string> {
    When(And(Equals(eth, WhiteBritish), Not(Some(Flag(ind, "any_migrant")))), "Likely non-migrant")
  }

  /** `case_args` as `build_mig_status_6_cat` assembles it. */
  function SixCatCaseArgs(ind: Indicators, eth: EthnicityArg): (args: seq<When<string>>)
    ensures |args| == if eth.WithEthnicity? then 5 else 4
  {
    var rules := SixCatRules(ind);
    seq(|rules|, i requires 0 <= i < |rules| => When(rules[i].0, rules[i].1)) +
    (if eth.WithEthnicity? then [EthnicityClause(ind, eth.value)] else [])
  }

  /** The 6-category status: the first rule that holds, in precedence order. */
  function MigStatus6Cat(ind: Indicators, eth: EthnicityArg): (r: string)
    ensures r ==
      if Flag(ind, "not_born_in_uk") then "Definite migrant"
      else if Flag(ind, "immig_status_excl_refugee_asylum") || Flag(ind, "refugee_asylum_status")
      then "Highly likely migrant"
      else if Flag(ind, "english_not_main_language") || Flag(ind, "interpreter_required")
      then "Likely migrant"
      else if Flag(ind, "born_in_uk") then "Definite non-migrant"
      else if eth.WithEthnicity? && eth.value == Some(WhiteBritish) && !Flag(ind, "any_migrant")
      then "Likely non-migrant"
      else "Unknown"
  {
    var args := SixCatCaseArgs(ind, eth);
    SixCatFirstMatch(ind, eth);
    CaseOtherwise(args, "Unknown")
  }

  /** Which clause of the 6-category case is taken first, if any. */
  lemma SixCatFirstMatch(ind: Indicators, eth: EthnicityArg)
    ensures var args := SixCatCaseArgs(ind, eth);
      && (Flag(ind, "not_born_in_uk") ==> FirstTakenAt(args, 0))
      && (!Flag(ind, "not_born_in_uk") &&
          (Flag(ind, "immig_status_excl_refugee_asylum") || Flag(ind, "refugee_asylum_status"))
          ==> FirstTakenAt(args, 1))
      && (!Flag(ind, "not_born_in_uk") &&
          !(Flag(ind, "immig_status_excl_refugee_asylum") || Flag(ind, "refugee_asylum_status")) &&
          (Flag(ind, "english_not_main_language") || Flag(ind, "interpreter_required"))
          ==> FirstTakenAt(args, 2))
      && (!Flag(ind, "not_born_in_uk") &&
          !(Flag(ind, "immig_status_excl_refugee_asylum") || Flag(ind, "refugee_asylum_status")) &&
          !(Flag(ind, "english_not_main_language") || Flag(ind, "interpreter_required")) &&
          Flag(ind, "born_in_uk")
          ==> FirstTakenAt(args, 3))
      && (!Flag(ind, "not_born_in_uk") &&
          !(Flag(ind, "immig_status_excl_refugee_asylum") || Flag(ind, "refugee_asylum_status")) &&
          !(Flag(ind, "english_not_main_language") || Flag(ind, "interpreter_required")) &&
          !Flag(ind, "born_in_uk") &&
          eth.WithEthnicity? && eth.value == Some(WhiteBritish) && !Flag(ind, "any_migrant")
          ==> FirstTakenAt(args, 4))
      && (!Flag(ind, "not_born_in_uk") &&
          !(Flag(ind, "immig_status_excl_refugee_asylum") || Flag(ind, "refugee_asylum_status")) &&
          !(Flag(ind, "english_not_main_language") || Flag(ind, "interpreter_required")) &&
          !Flag(ind, "born_in_uk") &&
          !(eth.WithEthnicity? && eth.value == Some(WhiteBritish) && !Flag(ind, "any_migrant"))
          ==> NoneTaken(args))
  {
    var args := SixCatCaseArgs(ind, eth);
    assert args[0].cond == Some(Flag(ind, "not_born_in_uk"));
    assert args[1].cond == Or(Some(Flag(ind, "immig_status_excl_refugee_asylum")), Some(Flag(ind, "refugee_asylum_status")));
    assert args[2].cond == Or(Some(Flag(ind, "english_not_main_language")), Some(Flag(ind, "interpreter_required")));
    assert args[3].cond == Some(Flag(ind, "born_in_uk"));
    if eth.WithEthnicity? {
      assert args[4] == EthnicityClause(ind, eth.value);
    }
  }

  /** `build_mig_status_6_cat`: the loop over `clauses` builds `case_args`, the
      ethnicity clause is appended when an ethnicity expression is given, and
      the case expression is evaluated for the patient. */
  method BuildMigStatus6Cat(ind: Indicators, eth: EthnicityArg) returns (r: string)
    ensures r == MigStatus6Cat(ind, eth)
  {
    var clauses := SixCatRules(ind);
    var caseArgs: seq<When<string>> := [];
    for i := 0 to |clauses|
      invariant |caseArgs| == i
      invariant forall j :: 0 <= j < i ==> caseArgs[j] == When(clauses[j].0, clauses[j].1)
    {
      caseArgs := caseArgs + [When(clauses[i].0, clauses[i].1)];
    }
    if eth.WithEthnicity? {
      caseArgs := caseArgs + [EthnicityClause(ind, eth.value)];
    }
    assert caseArgs == SixCatCaseArgs(ind, eth);
    r := CaseOtherwise(caseArgs, "Unknown");
  }

  // ---------------------------------------------------------------------
  // Properties of the classifiers
  // ---------------------------------------------------------------------

  const TwoCatLabels: set<string> := {"Migrant", "Non-migrant"}
  const ThreeCatLabels: set<string> := {"Migrant", "Non-migrant", "Unknown"}
  const SixCatLabels: set<string> := {
    "Definite migrant", "Highly likely migrant", "Likely migrant",
    "Definite non-migrant", "Likely non-migrant", "Unknown"}

  /** The 2-category status is one of two labels, and an absent `any_migrant` means "Non-migrant". */
  lemma TwoCatTotal(ind: Indicators)
    ensures MigStatus2Cat(ind) in TwoCatLabels
    ensures "any_migrant" !in ind ==> MigStatus2Cat(ind) == "Non-migrant"
  {
  }

  /** The 3-category status refines the 2-category one, and a NULL ethnicity never counts as White British. */
  lemma ThreeCatRefinesTwoCat(ind: Indicators, eth: Option<string>)
    ensures MigStatus3Cat(ind, eth) in ThreeCatLabels
    ensures MigStatus3Cat(ind, eth) == "Migrant" <==> MigStatus2Cat(ind) == "Migrant"
    ensures MigStatus3Cat(ind, None) == (if Flag(ind, "any_migrant") then "Migrant"
      else if Flag(ind, "born_in_uk") then "Non-migrant" else "Unknown")
  {
  }

  /** `not_born_in_uk` wins over every later rule, `born_in_uk` included. */
  lemma DefiniteMigrantFirst(ind: Indicators, eth: EthnicityArg)
    requires Flag(ind, "not_born_in_uk")
    ensures MigStatus6Cat(ind, eth) == "Definite migrant"
  {
  }

  /** "Definite non-migrant" exactly when born in the UK and none of the three migrant rules apply. */
  lemma DefiniteNonMigrantIff(ind: Indicators, eth: EthnicityArg)
    ensures MigStatus6Cat(ind, eth) == "Definite non-migrant" <==>
      Flag(ind, "born_in_uk") && !Flag(ind, "not_born_in_uk") &&
      !Flag(ind, "immig_status_excl_refugee_asylum") && !Flag(ind, "refugee_asylum_status") &&
      !Flag(ind, "english_not_main_language") && !Flag(ind, "interpreter_required")
  {
  }

  /** "Likely non-migrant" needs a supplied, White British ethnicity and no migrant code; every
      result is one of the six labels, and without an ethnicity one of the other five. */
  lemma SixCatLabelsReachable(ind: Indicators, eth: EthnicityArg)
    ensures MigStatus6Cat(ind, eth) in SixCatLabels
    ensures MigStatus6Cat(ind, eth) == "Likely non-migrant" ==>
      eth.WithEthnicity? && eth.value == Some(WhiteBritish) && !Flag(ind, "any_migrant") &&
      !Flag(ind, "born_in_uk") && !Flag(ind, "not_born_in_uk")
    ensures MigStatus6Cat(ind, NoEthnicity) in SixCatLabels - {"Likely non-migrant"}
  {
  }

  /** The indicators at a later date include those at an earlier one. */
  lemma IndicatorsMonotone(cl: StudyCodelists, events: seq<Event>, d: Date, d': Date, k: string)
    requires d <= d' && k in IndicatorKeySet
    ensures Flag(BuildMigrantIndicators(cl, events, d), k) ==> Flag(BuildMigrantIndicators(cl, events, d'), k)
  {
    if Flag(BuildMigrantIndicators(cl, events, d), k) {
      AnyEventOnOrBeforeMonotone(events, MigrantFlags(cl)[k], d, d');
    }
  }
}
