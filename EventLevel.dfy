/** analysis/scrapyard/generate_migration_event_level_dataset.py: the
    full-study cohort with an event table holding each of the patient's
    migration-related codes, sorted by date, with a migration category. */
module EventLevel {
  import opened Nullable
  import opened CaseWhen
  import opened Calendar
  import opened Patients
  import opened Codelists
  import opened Cohorts
  import opened Datasets
  import FullStudyCohort

  predicate SortedByDate(es: seq<Event>) {
    forall i, j :: 0 <= i < j < |es| ==> es[i].date <= es[j].date
  }

  /** `e` put in date order into sorted `es`. */
  function InsertByDate(e: Event, es: seq<Event>): (r: seq<Event>)
    requires SortedByDate(es)
    ensures |r| == |es| + 1
    ensures SortedByDate(r)
    ensures multiset(r) == multiset(es) + multiset{e}
    ensures r[0] == e || (|es| > 0 && r[0] == es[0])
  {
    if |es| == 0 then [e]
    else if e.date <= es[0].date then [e] + es
    else
      var rest := InsertByDate(e, es[1..]);
      assert es == [es[0]] + es[1..];
      assert es[0].date <= rest[0].date;
      assert forall j :: 0 <= j < |rest| ==> rest[0].date <= rest[j].date;
      [es[0]] + rest
  }

  /** `... .sort_by(clinical_events.date)`: the events in date order. */
  function SortByDate(es: seq<Event>): (r: seq<Event>)
    ensures SortedByDate(r)
    ensures multiset(r) == multiset(es)
  {
    if |es| == 0 then []
    else
      assert es == [es[0]] + es[1..];
      InsertByDate(es[0], SortByDate(es[1..]))
  }

  /** `migration_related_codes`: the events with a migrant code, in date order. */
  function MigrationRelatedCodes(p: Patient, cl: StudyCodelists): (r: seq<Event>)
    ensures SortedByDate(r)
    ensures forall i :: 0 <= i < |r| ==> r[i].code in cl.allMigrant
    ensures forall e :: multiset(r)[e] == if e.code in cl.allMigrant then multiset(p.events)[e] else 0
  {
    var matching := MatchingEvents(p.events, cl.allMigrant);
    var r := SortByDate(matching);
    forall i | 0 <= i < |r| ensures r[i].code in cl.allMigrant {
      assert r[i] in multiset(r);
      assert r[i] in multiset(matching);
    }
    r
  }

  const Language := "Main/first language is not English"
  const Interpreter := "Interpreter required"
  const AsylumOrRefugee := "Asylum or refugee status"
  const CountryOfBirth := "Country of birth"
  const OtherCategory := "Other"
  const CategoryLabels: set<string> := {Language, Interpreter, AsylumOrRefugee, CountryOfBirth, OtherCategory}

  /** The clauses of the `migration_category` `case`, in order. */
  function CategoryClauses(code: Code, cl: StudyCodelists): (clauses: seq<When<string>>)
    ensures |clauses| == 4
  {
    [
      When(Some(code in cl.language), Language),
      When(Some(code in cl.interpreter), Interpreter),
      When(Some(code in cl.asylumRefugee), AsylumOrRefugee),
      When(Some(code in cl.cobMigrant), CountryOfBirth)
    ]
  }

  /** `migration_category` as the `case` gives it: the first list that holds
      the code, NULL when none does. */
  function MigrationCategory(code: Code, cl: StudyCodelists): (r: Option<string>)
    ensures r == if code in cl.language then Some(Language)
      else if code in cl.interpreter then Some(Interpreter)
      else if code in cl.asylumRefugee then Some(AsylumOrRefugee)
      else if code in cl.cobMigrant then Some(CountryOfBirth)
      else None
  {
    var clauses := CategoryClauses(code, cl);
    assert code in cl.language ==> FirstTakenAt(clauses, 0);
    assert code !in cl.language && code in cl.interpreter ==> FirstTakenAt(clauses, 1);
    assert code !in cl.language && code !in cl.interpreter && code in cl.asylumRefugee ==> FirstTakenAt(clauses, 2);
    assert code !in cl.language && code !in cl.interpreter && code !in cl.asylumRefugee && code in cl.cobMigrant ==>
      FirstTakenAt(clauses, 3);
    Case(clauses, None)
  }

  /** `.fill_null(v)` on a column value. */
  function FillNull(x: Value, d: Value): (r: Value)
    ensures x.Null? ==> r == d
    ensures !x.Null? ==> r == x
  {
    if x.Null? then d else x
  }

  /** One row of the event table as `add_event_table` makes it. */
  function EventRow(e: Event, cl: StudyCodelists): Row {
    map["date" := Day(e.date), "snomedct_code" := Str(e.code), "migration_category" := OfStr(MigrationCategory(e.code, cl))]
  }

  function EventRows(events: seq<Event>, cl: StudyCodelists): (rows: seq<Row>)
    ensures |rows| == |events| && forall i :: 0 <= i < |events| ==> rows[i] == EventRow(events[i], cl)
  {
    seq(|events|, i requires 0 <= i < |events| => EventRow(events[i], cl))
  }

  /** The `migration_category` column after `fill_null("Other")`. */
  function FilledCategories(rows: seq<Row>): (values: seq<Value>)
    ensures |values| == |rows|
    ensures forall i :: 0 <= i < |rows| ==>
      values[i] == FillNull(if "migration_category" in rows[i] then rows[i]["migration_category"] else Null, Str(OtherCategory))
  {
    seq(|rows|, i requires 0 <= i < |rows| =>
      FillNull(if "migration_category" in rows[i] then rows[i]["migration_category"] else Null, Str(OtherCategory)))
  }

  /** The event table as the script leaves it. */
  function EventTable(p: Patient, cl: StudyCodelists): seq<Row> {
    FilledTable(EventRows(MigrationRelatedCodes(p, cl), cl))
  }

  /** The table after `migration_category` is reassigned with `fill_null("Other")`. */
  function FilledTable(rows: seq<Row>): seq<Row> {
    WithColumn(rows, "migration_category", FilledCategories(rows))
  }

  /** The script, for one patient: the full-study cohort plus the event table. */
  method BuildDataset(p: Patient, cl: StudyCodelists) returns (ds: Dataset)
    ensures fresh(ds)
    ensures ds.population == MigrantCohortPopulation(p, cl)
    ensures ds.columns == FullStudyCohort.FullStudyRow(p, cl)
    ensures ds.eventTables == map["migration_related_codes" := EventTable(p, cl)]
  {
    ds := FullStudyCohort.BuildDataset(p, cl);
    var rows := EventRows(MigrationRelatedCodes(p, cl), cl);
    AddMigrationRelatedCodes(ds, rows);
  }

  /** `add_event_table("migration_related_codes", ...)` followed by the
      `fill_null("Other")` reassignment of its `migration_category` column. */
  method AddMigrationRelatedCodes(ds: Dataset, rows: seq<Row>)
    modifies ds
    ensures ds.eventTables == old(ds.eventTables)["migration_related_codes" := FilledTable(rows)]
    ensures ds.population == old(ds.population) && ds.columns == old(ds.columns)
  {
    ds.AddEventTable("migration_related_codes", rows);
    ds.SetEventColumn("migration_related_codes", "migration_category", FilledCategories(rows));
  }

  /** The filled category of a code: the first list that holds it, "Other" when none does. */
  function FilledCategory(code: Code, cl: StudyCodelists): (r: string)
    ensures r in CategoryLabels
    ensures r == OtherCategory <==>
      code !in cl.language && code !in cl.interpreter && code !in cl.asylumRefugee && code !in cl.cobMigrant
  {
    WhenNullThen(MigrationCategory(code, cl), OtherCategory)
  }

  /** Row `i` of the table is the `i`-th migration-related event in date order:
      its code is a migrant code, its category is never NULL and is its filled category. */
  lemma EventTableRows(p: Patient, cl: StudyCodelists)
    ensures var table := EventTable(p, cl);
      var events := MigrationRelatedCodes(p, cl);
      && |table| == |events|
      && forall i :: 0 <= i < |table| ==>
        && table[i]["date"] == Day(events[i].date)
        && table[i]["snomedct_code"] == Str(events[i].code)
        && events[i].code in cl.allMigrant
        && table[i]["migration_category"] == Str(FilledCategory(events[i].code, cl))
  {
    var events := MigrationRelatedCodes(p, cl);
    var rows := EventRows(events, cl);
    forall i | 0 <= i < |rows|
      ensures FilledTable(rows)[i]["date"] == Day(events[i].date)
      ensures FilledTable(rows)[i]["snomedct_code"] == Str(events[i].code)
      ensures FilledTable(rows)[i]["migration_category"] == Str(FilledCategory(events[i].code, cl))
    {
      FilledEventRow(rows, i, events[i], cl);
    }
  }

  /** A filled row of the table keeps its event's date and code and gets the filled category. */
  lemma FilledEventRow(rows: seq<Row>, i: int, e: Event, cl: StudyCodelists)
    requires 0 <= i < |rows| && rows[i] == EventRow(e, cl)
    ensures FilledTable(rows)[i]["date"] == Day(e.date)
    ensures FilledTable(rows)[i]["snomedct_code"] == Str(e.code)
    ensures FilledTable(rows)[i]["migration_category"] == Str(FilledCategory(e.code, cl))
  {
    assert FilledTable(rows)[i] == rows[i]["migration_category" := FilledCategories(rows)[i]];
  }

  /** The rows are in date order, and there is one per migration-related event. */
  lemma EventTableSortedAndComplete(p: Patient, cl: StudyCodelists)
    ensures |EventTable(p, cl)| == CountMatching(p.events, cl.allMigrant)
    ensures forall i, j :: 0 <= i < j < |EventTable(p, cl)| ==>
      EventTable(p, cl)[i]["date"].d <= EventTable(p, cl)[j]["date"].d
  {
    var events := MigrationRelatedCodes(p, cl);
    EventTableRows(p, cl);
    assert |multiset(events)| == |multiset(MatchingEvents(p.events, cl.allMigrant))|;
  }
}
