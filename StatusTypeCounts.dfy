/** analysis/generate_annual_migrant_counts_migration_status_types.py: one
    measure per migrant indicator and subgroup, named
    `migration_status_types__<safe label>[__<suffix>]`, after checking that no
    numerator is a plain bool. */
module StatusTypeCounts {
  import opened Nullable
  import opened Calendar
  import opened Patients
  import opened Codelists
  import opened MigrationStatus
  import opened CommonVars
  import opened MeasureNames
  import opened MeasureRegistry

  const VarName := "migration_status_types"

  /** The name every measure of one key starts with. */
  function MeasureBase(key: string): string {
    VarName + "__" + SafeLabel(key)
  }

  function Bases(nums: seq<(string, BoolExpr)>): (bases: seq<string>)
    ensures |bases| == |nums| && forall i :: 0 <= i < |nums| ==> bases[i] == MeasureBase(nums[i].0)
  {
    seq(|nums|, i requires 0 <= i < |nums| => MeasureBase(nums[i].0))
  }

  /** The measures the loop defines for `nums` when it runs to the end. */
  function StatusTypeMeasures(nums: seq<(string, BoolExpr)>): seq<Measure> {
    PerSubgroup(Bases(nums), Exprs(nums), "__")
  }

  /** No numerator is a plain Python bool. */
  predicate NoPlainBool(nums: seq<(string, BoolExpr)>) {
    forall i :: 0 <= i < |nums| ==> !nums[i].1.Literal?
  }

  /** The loop over the numerators: a plain-bool numerator raises `TypeError`
      before any measure of its key is defined; otherwise the key's safe label
      is built and one measure is defined per subgroup. */
  method RegisterStatusTypes(measures: Measures, nums: seq<(string, BoolExpr)>) returns (outcome: Outcome)
    requires measures.Valid() && measures.registered == []
    modifies measures
    ensures measures.defaults == old(measures.defaults) && measures.Valid()
    ensures var ms := StatusTypeMeasures(nums);
      outcome.Registered? <==> NoPlainBool(nums) && DistinctNames(ms)
    ensures outcome.Registered? ==> measures.registered == StatusTypeMeasures(nums)
    ensures var ms := StatusTypeMeasures(nums);
      outcome.PlainBoolNumerator? ==>
        exists i :: 0 <= i < |nums| && nums[i].1.Literal? && outcome.key == nums[i].0 &&
          NoPlainBool(nums[..i]) && measures.registered == ms[..6 * i]
    ensures var ms := StatusTypeMeasures(nums);
      outcome.DuplicateName? ==>
        exists k :: 0 <= k < |ms| &&
          measures.registered == ms[..k] && outcome.name == ms[k].name && NameTaken(ms[..k], ms[k].name)
  {
    ghost var bases := Bases(nums);
    ghost var numerators := Exprs(nums);
    ghost var ms := StatusTypeMeasures(nums);
    for i := 0 to |nums|
      invariant measures.defaults == old(measures.defaults) && measures.Valid()
      invariant measures.registered == ms[..6 * i]
      invariant NoPlainBool(nums[..i])
    {
      var (key, expr) := nums[i];
      if expr.Literal? {
        outcome := PlainBoolNumerator(key);
        return;
      }
      var safeLabel := SafeLabel(key);
      outcome := RegisterSubgroups(measures, VarName + "__" + safeLabel, expr, "__");
      PerSubgroupStep(bases, numerators, "__", i);
      if !outcome.Registered? {
        ghost var row := SubgroupRow(bases[i], numerators[i], "__");
        ghost var j :| 0 <= j < |row| && measures.registered == ms[..6 * i] + row[..j] &&
          outcome.name == row[j].name && NameTaken(measures.registered, row[j].name);
        DuplicateFound(bases, numerators, "__", i, j, measures.registered);
        return;
      }
      assert nums[..i + 1] == nums[..i] + [nums[i]];
    }
    assert ms[..6 * |nums|] == ms;
    assert nums[..|nums|] == nums;
    outcome := Registered;
  }

  /** The script: defaults, then the guarded loop over the indicators. */
  method Run() returns (measures: Measures, outcome: Outcome)
    ensures fresh(measures)
    ensures measures.defaults == Some(StudyDefaults)
    ensures outcome == Registered && measures.registered == StatusTypeMeasures(IndicatorNumerators())
  {
    measures := CreateStudyMeasures();
    StatusTypeMeasuresDistinct();
    outcome := RegisterStatusTypes(measures, IndicatorNumerators());
  }

  /** The seven indicator keys are already safe labels. */
  lemma KeysAreSafeLabels()
    ensures forall i :: 0 <= i < |IndicatorKeys| ==> SafeLabel(IndicatorKeys[i]) == IndicatorKeys[i]
  {
    forall i | 0 <= i < |IndicatorKeys| ensures SafeLabel(IndicatorKeys[i]) == IndicatorKeys[i] {
      KeyIsSafeLabel(IndicatorKeys[i]);
    }
  }

  /** One key at a time: each is lower-case letters and underscores. */
  lemma KeyIsSafeLabel(key: string)
    requires key in IndicatorKeySet
    ensures SafeLabel(key) == key
  {
    if key == "any_migrant" { SafeLabelFixes("any_migrant"); }
    else if key == "born_in_uk" { SafeLabelFixes("born_in_uk"); }
    else if key == "not_born_in_uk" { SafeLabelFixes("not_born_in_uk"); }
    else if key == "immig_status_excl_refugee_asylum" { SafeLabelFixes("immig_status_excl_refugee_asylum"); }
    else if key == "refugee_asylum_status" { SafeLabelFixes("refugee_asylum_status"); }
    else if key == "english_not_main_language" { SafeLabelFixes("english_not_main_language"); }
    else { SafeLabelFixes("interpreter_required"); }
  }

  /** The guard never fires for the indicators, and the 42 names are pairwise distinct. */
  lemma StatusTypeMeasuresDistinct()
    ensures NoPlainBool(IndicatorNumerators())
    ensures |StatusTypeMeasures(IndicatorNumerators())| == 42
    ensures DistinctNames(StatusTypeMeasures(IndicatorNumerators()))
  {
    var nums := IndicatorNumerators();
    KeysAreSafeLabels();
    IndicatorKeysDiverge();
    PairwiseDivergeBehindPrefix(VarName + "__", IndicatorKeys, Bases(nums));
    PerSubgroupDistinct(Bases(nums), Exprs(nums), "__");
  }

  /** Measure `6 * i + j` is indicator `i` grouped by subgroup `j`, named
      `migration_status_types__<key>` or `migration_status_types__<key>__<suffix>`. */
  lemma StatusTypeMeasureAt(i: int, j: int)
    requires 0 <= i < 7 && 0 <= j < 6
    ensures var m := StatusTypeMeasures(IndicatorNumerators())[6 * i + j];
      && m.numerator == IndicatorAt(IndicatorKeys[i])
      && m.groupBy == StudySubgroups[j].1
      && m.name == if SubgroupSuffixes[j] == "" then VarName + "__" + IndicatorKeys[i]
                   else VarName + "__" + IndicatorKeys[i] + "__" + SubgroupSuffixes[j]
  {
    var nums := IndicatorNumerators();
    SubgroupsShape();
    KeysAreSafeLabels();
    PerSubgroupAt(Bases(nums), Exprs(nums), "__", i, j);
  }
}
