/** analysis/generate_annual_migrant_counts_2cat.py: for each 2-category
    label, one measure per subgroup counting the patients with that status,
    named `mig_status_2_cat__<safe label>[__<suffix>]`. */
module TwoCatCounts {
  import opened Nullable
  import opened Calendar
  import opened Patients
  import opened Codelists
  import opened MigrationStatus
  import opened CommonVars
  import opened MeasureNames
  import opened MeasureRegistry

  const VarName := "mig_status_2_cat"

  const Labels: seq<string> := ["Migrant", "Non-migrant"]

  function MeasureBase(status: string): string {
    VarName + "__" + SafeLabel(status)
  }

  /** The measures the loop defines, in order. */
  function TwoCatMeasures(): seq<Measure> {
    PerSubgroup([MeasureBase(Labels[0]), MeasureBase(Labels[1])], [TwoCatIs(Labels[0]), TwoCatIs(Labels[1])], "__")
  }

  /** The loop over the labels: the numerator `mig2_expr == label`, the label's
      safe label, then one measure per subgroup. */
  method RegisterTwoCat(measures: Measures) returns (outcome: Outcome)
    requires measures.Valid() && measures.registered == []
    modifies measures
    ensures measures.defaults == old(measures.defaults) && measures.Valid()
    ensures outcome == Registered && measures.registered == TwoCatMeasures()
  {
    ghost var bases := [MeasureBase(Labels[0]), MeasureBase(Labels[1])];
    ghost var numerators := [TwoCatIs(Labels[0]), TwoCatIs(Labels[1])];
    ghost var ms := TwoCatMeasures();
    TwoCatMeasuresDistinct();
    for i := 0 to |Labels|
      invariant measures.defaults == old(measures.defaults) && measures.Valid()
      invariant measures.registered == ms[..6 * i]
    {
      var status := Labels[i];
      var numerator := TwoCatIs(status);
      var safeLabel := SafeLabel(status);
      outcome := RegisterSubgroups(measures, VarName + "__" + safeLabel, numerator, "__");
      PerSubgroupStep(bases, numerators, "__", i);
      if !outcome.Registered? {
        ghost var row := SubgroupRow(bases[i], numerators[i], "__");
        ghost var j :| 0 <= j < |row| && measures.registered == ms[..6 * i] + row[..j] &&
          outcome.name == row[j].name && NameTaken(measures.registered, row[j].name);
        DuplicateFound(bases, numerators, "__", i, j, measures.registered);
        // Dead branch: a duplicate here would be a repeated name in
        // TwoCatMeasures(), which TwoCatMeasuresDistinct rules out.
        assert false;
      }
    }
    assert ms[..6 * |Labels|] == ms;
    outcome := Registered;
  }

  /** The script: defaults, then the loop over the two labels. */
  method Run() returns (measures: Measures, outcome: Outcome)
    ensures fresh(measures)
    ensures measures.defaults == Some(StudyDefaults)
    ensures outcome == Registered && measures.registered == TwoCatMeasures()
  {
    measures := CreateStudyMeasures();
    outcome := RegisterTwoCat(measures);
  }

  /** "Migrant" and "Non-migrant" become "migrant" and "non_migrant". */
  lemma SafeLabels()
    ensures SafeLabel("Migrant") == "migrant"
    ensures SafeLabel("Non-migrant") == "non_migrant"
  {
    assert SafeLabel("Migrant")[0] == 'm';
    assert SafeLabel("Non-migrant")[0] == 'n' && SafeLabel("Non-migrant")[3] == '_';
  }

  /** 2 x 6 = 12 measures with pairwise distinct names. */
  lemma TwoCatMeasuresDistinct()
    ensures |TwoCatMeasures()| == 12
    ensures DistinctNames(TwoCatMeasures())
  {
    var bases := [MeasureBase(Labels[0]), MeasureBase(Labels[1])];
    SafeLabels();
    DivergeAt("migrant", "non_migrant", 0);
    PairwiseDivergeBehindPrefix(VarName + "__", ["migrant", "non_migrant"], bases);
    PerSubgroupDistinct(bases, [TwoCatIs(Labels[0]), TwoCatIs(Labels[1])], "__");
  }

  /** Measure `6 * i + j` counts label `i`, grouped by subgroup `j`, named
      `mig_status_2_cat__<safe label>` or `mig_status_2_cat__<safe label>__<suffix>`. */
  lemma TwoCatMeasureAt(i: int, j: int)
    requires 0 <= i < 2 && 0 <= j < 6
    ensures var m := TwoCatMeasures()[6 * i + j];
      var safe := if i == 0 then "migrant" else "non_migrant";
      && m.numerator == TwoCatIs(Labels[i])
      && m.groupBy == StudySubgroups[j].1
      && m.name == if SubgroupSuffixes[j] == "" then VarName + "__" + safe
                   else VarName + "__" + safe + "__" + SubgroupSuffixes[j]
  {
    SubgroupsShape();
    SafeLabels();
    PerSubgroupAt([MeasureBase(Labels[0]), MeasureBase(Labels[1])], [TwoCatIs(Labels[0]), TwoCatIs(Labels[1])], "__", i, j);
  }

  /** For every patient and interval exactly one of the two numerators is TRUE:
      "Migrant" when `any_migrant` holds on the last day of the interval. */
  lemma ExactlyOneNumerator(p: Patient, cl: StudyCodelists, iv: Interval)
    ensures Eval(TwoCatIs("Migrant"), p, cl, iv).Some? && Eval(TwoCatIs("Non-migrant"), p, cl, iv).Some?
    ensures IsTrue(Eval(TwoCatIs("Migrant"), p, cl, iv)) != IsTrue(Eval(TwoCatIs("Non-migrant"), p, cl, iv))
    ensures IsTrue(Eval(TwoCatIs("Migrant"), p, cl, iv)) <==>
      AnyEventOnOrBefore(p.events, cl.allMigrant, iv.end)
  {
    var ind := BuildMigrantIndicators(cl, p.events, iv.end);
    assert "any_migrant" in ind;
    assert MigrantFlags(cl)["any_migrant"] == cl.allMigrant;
  }
}
