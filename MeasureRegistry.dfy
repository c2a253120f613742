/** The `measures` object of `create_measures()` as the measures scripts use
    it: shared defaults and a list of measures, each with a name that must be
    new, a boolean numerator and the columns it is grouped by. A measure's
    numerator and denominator are ehrQL expressions over the interval being
    measured; here they are symbolic, with `Eval` giving their value for one
    patient and one interval. */
module MeasureRegistry {
  import opened Nullable
  import opened Calendar
  import opened Patients
  import opened Codelists
  import opened MigrationStatus
  import opened CommonVars
  import opened MeasureNames

  /** The boolean expressions the scripts pass as numerators and denominators. */
  datatype BoolExpr =
    | Literal(b: bool)             // a plain Python bool
    | SharedDenominator            // `build_common_vars(INTERVAL)["denominator"]`
    | IndicatorAt(key: string)     // `build_migrant_indicators(INTERVAL.end_date)[key]`
    | TwoCatIs(status: string)     // `build_mig_status_2_cat(...) == status`

  /** The value of an expression for one patient in one interval. */
  function Eval(e: BoolExpr, p: Patient, cl: StudyCodelists, iv: Interval): Option<bool> {
    match e
    case Literal(b) => Some(b)
    case SharedDenominator => Denominator(p, iv)
    case IndicatorAt(key) => Some(Flag(BuildMigrantIndicators(cl, p.events, iv.end), key))
    case TwoCatIs(status) => Some(MigStatus2Cat(BuildMigrantIndicators(cl, p.events, iv.end)) == status)
  }

  /** An indicator numerator is never NULL, and is TRUE exactly when the patient
      has a code of its list on or before the last day of the interval. */
  lemma IndicatorNumerator(key: string, p: Patient, cl: StudyCodelists, iv: Interval)
    requires key in IndicatorKeySet
    ensures Eval(IndicatorAt(key), p, cl, iv).Some?
    ensures IsTrue(Eval(IndicatorAt(key), p, cl, iv)) <==> AnyEventOnOrBefore(p.events, MigrantFlags(cl)[key], iv.end)
  {
  }

  /** An indicator numerator that is TRUE in an interval stays TRUE in every
      interval that ends later. */
  lemma NumeratorMonotone(key: string, p: Patient, cl: StudyCodelists, iv: Interval, later: Interval)
    requires key in IndicatorKeySet && iv.end <= later.end
    ensures IsTrue(Eval(IndicatorAt(key), p, cl, iv)) ==> IsTrue(Eval(IndicatorAt(key), p, cl, later))
  {
    IndicatorsMonotone(cl, p.events, iv.end, later.end, key);
  }

  /** Over the study's sixteen intervals, an indicator numerator never goes
      from TRUE back to FALSE. */
  lemma NumeratorMonotoneOverStudy(key: string, p: Patient, cl: StudyCodelists, i: int, j: int)
    requires key in IndicatorKeySet && 0 <= i <= j < |StudyIntervals|
    ensures IsTrue(Eval(IndicatorAt(key), p, cl, StudyIntervals[i])) ==>
      IsTrue(Eval(IndicatorAt(key), p, cl, StudyIntervals[j]))
  {
    IntervalsCoverStudy();
    IntervalEndsIncrease(i, j);
    NumeratorMonotone(key, p, cl, StudyIntervals[i], StudyIntervals[j]);
  }

  lemma {:induction false} IntervalEndsIncrease(i: int, j: int)
    requires 0 <= i <= j < 16
    ensures |StudyIntervals| == 16 && StudyIntervals[i].end <= StudyIntervals[j].end
    decreases j - i
  {
    IntervalsCoverStudy();
    if i < j {
      IntervalEndsIncrease(i + 1, j);
      assert StudyIntervals[i].end < StudyIntervals[i + 1].start <= StudyIntervals[i + 1].end;
    }
  }

  /** `define_defaults(denominator=..., intervals=...)` */
  datatype Defaults = Defaults(denominator: BoolExpr, intervals: seq<Interval>)

  /** `define_measure(name=..., numerator=..., group_by=...)` */
  datatype Measure = Measure(name: string, numerator: BoolExpr, groupBy: map<string, GroupColumn>)

  predicate NameTaken(ms: seq<Measure>, name: string) {
    exists i :: 0 <= i < |ms| && ms[i].name == name
  }

  predicate DistinctNames(ms: seq<Measure>) {
    forall i, j :: 0 <= i < j < |ms| ==> ms[i].name != ms[j].name
  }

  /** Appending a measure whose name is new keeps the names distinct. */
  lemma DistinctNamesAppend(ms: seq<Measure>, m: Measure)
    requires DistinctNames(ms) && !NameTaken(ms, m.name)
    ensures DistinctNames(ms + [m])
  {
    forall i, j | 0 <= i < j < |ms + [m]| ensures (ms + [m])[i].name != (ms + [m])[j].name {
      if j == |ms| {
        assert (ms + [m])[i] == ms[i];
      }
    }
  }

  class Measures {
    /** The defaults; unset until `define_defaults` is called. */
    var defaults: Option<Defaults>
    /** The measures, in the order they were defined. */
    var registered: seq<Measure>

    /** No two measures share a name. */
    predicate Valid()
      reads this
    {
      DistinctNames(registered)
    }

    /** `create_measures()` */
    constructor ()
      ensures defaults == None && registered == [] && Valid()
    {
      defaults := None;
      registered := [];
    }

    method DefineDefaults(d: Defaults)
      modifies this
      ensures defaults == Some(d) && registered == old(registered)
    {
      defaults := Some(d);
    }

    /** Registers the measure, or refuses it and changes nothing when a measure of
        that name is already defined (ehrQL raises an error then). */
    method DefineMeasure(name: string, numerator: BoolExpr, groupBy: map<string, GroupColumn>) returns (defined: bool)
      requires Valid()
      modifies this
      ensures defined <==> !NameTaken(old(registered), name)
      ensures registered == if defined then old(registered) + [Measure(name, numerator, groupBy)] else old(registered)
      ensures defaults == old(defaults) && Valid()
    {
      defined := !NameTaken(registered, name);
      if defined {
        DistinctNamesAppend(registered, Measure(name, numerator, groupBy));
        registered := registered + [Measure(name, numerator, groupBy)];
      }
    }
  }

  /** What a script's registration loops end in: every measure defined, or
      the error ehrQL or the script raises, which ends the script. */
  datatype Outcome = Registered | DuplicateName(name: string) | PlainBoolNumerator(key: string)

  /** `common["denominator"]` and `common["intervals"]`, as every measures script sets them. */
  const StudyDefaults := Defaults(SharedDenominator, StudyIntervals)

  /** `create_measures()` followed by `define_defaults(...)`. */
  method CreateStudyMeasures() returns (measures: Measures)
    ensures fresh(measures)
    ensures measures.defaults == Some(StudyDefaults) && measures.registered == [] && measures.Valid()
  {
    measures := new Measures();
    measures.DefineDefaults(StudyDefaults);
  }

  /** `build_migrant_indicators(INTERVAL.end_date).items()`: each key with its
      numerator, in the dict's order. */
  function IndicatorNumerators(): (nums: seq<(string, BoolExpr)>)
    ensures |nums| == |IndicatorKeys|
    ensures forall i :: 0 <= i < |nums| ==> nums[i] == (IndicatorKeys[i], IndicatorAt(IndicatorKeys[i]))
  {
    seq(|IndicatorKeys|, i requires 0 <= i < |IndicatorKeys| => (IndicatorKeys[i], IndicatorAt(IndicatorKeys[i])))
  }

  function Exprs(nums: seq<(string, BoolExpr)>): (es: seq<BoolExpr>)
    ensures |es| == |nums| && forall i :: 0 <= i < |nums| ==> es[i] == nums[i].1
  {
    seq(|nums|, i requires 0 <= i < |nums| => nums[i].1)
  }

  /** The seven indicator keys differ within their first two characters. */
  lemma IndicatorKeysDiverge()
    ensures PairwiseDiverge(IndicatorKeys)
  {
    forall i, j | 0 <= i < 7 && 0 <= j < 7 && i != j
      ensures Diverge(IndicatorKeys[i], IndicatorKeys[j])
    {
      if IndicatorKeys[i][0] != IndicatorKeys[j][0] {
        DivergeAt(IndicatorKeys[i], IndicatorKeys[j], 0);
      } else {
        DivergeAt(IndicatorKeys[i], IndicatorKeys[j], 1);
      }
    }
  }

  /** The measures the inner `for suffix, group in subgroups.items()` loop
      defines for one base name and numerator. */
  function SubgroupRow(base: string, numerator: BoolExpr, sep: string): (row: seq<Measure>)
    ensures |row| == |StudySubgroups|
  {
    seq(6, j requires 0 <= j < 6 => Measure(JoinName(base, sep, StudySubgroups[j].0), numerator, StudySubgroups[j].1))
  }

  /** The inner loop of every measures script: one `define_measure` per subgroup. */
  method RegisterSubgroups(measures: Measures, base: string, numerator: BoolExpr, sep: string) returns (outcome: Outcome)
    requires measures.Valid()
    modifies measures
    ensures measures.defaults == old(measures.defaults) && measures.Valid()
    ensures !outcome.PlainBoolNumerator?
    ensures var row := SubgroupRow(base, numerator, sep);
      outcome.Registered? ==> measures.registered == old(measures.registered) + row
    ensures var row := SubgroupRow(base, numerator, sep);
      outcome.DuplicateName? ==>
        exists j :: 0 <= j < |row| &&
          measures.registered == old(measures.registered) + row[..j] &&
          outcome.name == row[j].name && NameTaken(old(measures.registered) + row[..j], row[j].name)
  {
    ghost var row := SubgroupRow(base, numerator, sep);
    for j := 0 to |StudySubgroups|
      invariant measures.defaults == old(measures.defaults) && measures.Valid()
      invariant measures.registered == old(measures.registered) + row[..j]
    {
      var (suffix, group) := StudySubgroups[j];
      var name := JoinName(base, sep, suffix);
      var defined := measures.DefineMeasure(name, numerator, group);
      if !defined {
        return DuplicateName(name);
      }
      assert row[..j + 1] == row[..j] + [row[j]];
    }
    assert row[..|StudySubgroups|] == row;
    outcome := Registered;
  }

  /** The measures of a nested `for` over `bases` (with their numerators) and
      the six subgroups: measure `6 * i + j` pairs base `i` with subgroup `j`. */
  function PerSubgroup(bases: seq<string>, numerators: seq<BoolExpr>, sep: string): (ms: seq<Measure>)
    requires |bases| == |numerators|
    ensures |ms| == |StudySubgroups| * |bases|
  {
    seq(6 * |bases|, k requires 0 <= k < 6 * |bases| =>
      Measure(JoinName(bases[k / 6], sep, StudySubgroups[k % 6].0), numerators[k / 6], StudySubgroups[k % 6].1))
  }

  /** Measure `6 * i + j` of `PerSubgroup`. */
  lemma PerSubgroupAt(bases: seq<string>, numerators: seq<BoolExpr>, sep: string, i: int, j: int)
    requires |bases| == |numerators| && 0 <= i < |bases| && 0 <= j < 6
    ensures 6 * i + j < |PerSubgroup(bases, numerators, sep)|
    ensures PerSubgroup(bases, numerators, sep)[6 * i + j] ==
      Measure(JoinName(bases[i], sep, StudySubgroups[j].0), numerators[i], StudySubgroups[j].1)
  {
    assert (6 * i + j) / 6 == i && (6 * i + j) % 6 == j;
  }

  /** With bases that pairwise diverge, the names of `PerSubgroup` are pairwise distinct. */
  lemma PerSubgroupDistinct(bases: seq<string>, numerators: seq<BoolExpr>, sep: string)
    requires |bases| == |numerators| && PairwiseDiverge(bases)
    ensures DistinctNames(PerSubgroup(bases, numerators, sep))
  {
    var ms := PerSubgroup(bases, numerators, sep);
    SubgroupsShape();
    forall a, b | 0 <= a < b < |ms| ensures ms[a].name != ms[b].name {
      var i1, j1, i2, j2 := a / 6, a % 6, b / 6, b % 6;
      PerSubgroupAt(bases, numerators, sep, i1, j1);
      PerSubgroupAt(bases, numerators, sep, i2, j2);
      if i1 != i2 {
        DivergentBasesGiveDistinctNames(bases[i1], bases[i2], sep, StudySubgroups[j1].0, StudySubgroups[j2].0);
      } else {
        DistinctSuffixesGiveDistinctNames(bases[i1], sep, StudySubgroups[j1].0, StudySubgroups[j2].0);
      }
    }
  }

  /** The first `6 * (i + 1)` measures are the first `6 * i` and then base `i`'s row. */
  lemma PerSubgroupStep(bases: seq<string>, numerators: seq<BoolExpr>, sep: string, i: int)
    requires |bases| == |numerators| && 0 <= i < |bases|
    ensures 6 * i + 6 <= |PerSubgroup(bases, numerators, sep)|
    ensures PerSubgroup(bases, numerators, sep)[..6 * i + 6] ==
      PerSubgroup(bases, numerators, sep)[..6 * i] + SubgroupRow(bases[i], numerators[i], sep)
  {
    var ms := PerSubgroup(bases, numerators, sep);
    var row := SubgroupRow(bases[i], numerators[i], sep);
    forall j | 0 <= j < 6 ensures ms[6 * i + j] == row[j] {
      PerSubgroupAt(bases, numerators, sep, i, j);
    }
    assert ms[..6 * i + 6] == ms[..6 * i] + row;
  }

  /** The outer loop over `bases`: one `RegisterSubgroups` per base, stopping at the first error. */
  method RegisterAll(measures: Measures, bases: seq<string>, numerators: seq<BoolExpr>, sep: string)
    returns (outcome: Outcome)
    requires |bases| == |numerators| && measures.Valid() && measures.registered == []
    modifies measures
    ensures measures.defaults == old(measures.defaults) && measures.Valid()
    ensures !outcome.PlainBoolNumerator?
    ensures var ms := PerSubgroup(bases, numerators, sep);
      outcome.Registered? <==> DistinctNames(ms)
    ensures outcome.Registered? ==> measures.registered == PerSubgroup(bases, numerators, sep)
    ensures var ms := PerSubgroup(bases, numerators, sep);
      outcome.DuplicateName? ==>
        exists k :: 0 <= k < |ms| &&
          measures.registered == ms[..k] && outcome.name == ms[k].name && NameTaken(ms[..k], ms[k].name)
  {
    ghost var ms := PerSubgroup(bases, numerators, sep);
    for i := 0 to |bases|
      invariant measures.defaults == old(measures.defaults) && measures.Valid()
      invariant measures.registered == ms[..6 * i]
    {
      outcome := RegisterSubgroups(measures, bases[i], numerators[i], sep);
      PerSubgroupStep(bases, numerators, sep, i);
      if !outcome.Registered? {
        ghost var row := SubgroupRow(bases[i], numerators[i], sep);
        ghost var j :| 0 <= j < |row| && measures.registered == ms[..6 * i] + row[..j] &&
          outcome.name == row[j].name && NameTaken(measures.registered, row[j].name);
        DuplicateFound(bases, numerators, sep, i, j, measures.registered);
        return;
      }
    }
    assert ms[..6 * |bases|] == ms;
    outcome := Registered;
  }

  /** A duplicate met at subgroup `j` of base `i`'s row is a duplicate of the whole list. */
  lemma DuplicateFound(bases: seq<string>, numerators: seq<BoolExpr>, sep: string, i: int, j: int,
                       registered: seq<Measure>)
    requires |bases| == |numerators| && 0 <= i < |bases| && 0 <= j < 6
    requires var row := SubgroupRow(bases[i], numerators[i], sep);
      registered == PerSubgroup(bases, numerators, sep)[..6 * i] + row[..j] && NameTaken(registered, row[j].name)
    ensures var ms := PerSubgroup(bases, numerators, sep);
      && 6 * i + j < |ms|
      && registered == ms[..6 * i + j]
      && ms[6 * i + j] == SubgroupRow(bases[i], numerators[i], sep)[j]
      && NameTaken(ms[..6 * i + j], ms[6 * i + j].name)
      && !DistinctNames(ms)
  {
    var ms := PerSubgroup(bases, numerators, sep);
    var row := SubgroupRow(bases[i], numerators[i], sep);
    PerSubgroupAt(bases, numerators, sep, i, j);
    PerSubgroupStep(bases, numerators, sep, i);
    var k := 6 * i + j;
    assert ms[..k] == ms[..6 * i + 6][..k] == (ms[..6 * i] + row)[..k] == ms[..6 * i] + row[..j];
    var n :| 0 <= n < |registered| && registered[n].name == row[j].name;
    assert ms[n] == registered[n];
  }
}
