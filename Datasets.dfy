/** One patient's row of an ehrQL dataset, as the scripts fill it in.

    `create_dataset()` gives an empty dataset; `define_population` sets the
    condition for including the patient; every `dataset.<name> = <series>`
    (and `setattr(dataset, name, series)`) sets one column; `add_event_table`
    adds a table with one row per selected event, and assigning to one of its
    columns replaces that column in every row. */
module Datasets {
  import opened Nullable

  /** A column value of one patient. */
  datatype Value = Null | Bool(b: bool) | Int(i: int) | Str(s: string) | Day(d: int)

  type Row = map<string, Value>

  function OfBool(x: Option<bool>): (v: Value)
    ensures v.Null? <==> x.None?
    ensures x.Some? ==> v == Bool(x.value)
  {
    match x
    case Some(b) => Bool(b)
    case None => Null
  }

  function OfInt(x: Option<int>): (v: Value)
    ensures v.Null? <==> x.None?
    ensures x.Some? ==> v == Int(x.value)
  {
    match x
    case Some(i) => Int(i)
    case None => Null
  }

  function OfStr(x: Option<string>): (v: Value)
    ensures v.Null? <==> x.None?
    ensures x.Some? ==> v == Str(x.value)
  {
    match x
    case Some(s) => Str(s)
    case None => Null
  }

  function OfDate(x: Option<int>): (v: Value)
    ensures v.Null? <==> x.None?
    ensures x.Some? ==> v == Day(x.value)
  {
    match x
    case Some(d) => Day(d)
    case None => Null
  }

  class Dataset {
    /** The population condition; NULL until `define_population` is called. */
    var population: Option<bool>
    /** The patient-level columns. */
    var columns: Row
    /** The event-level tables, one row per selected event. */
    var eventTables: map<string, seq<Row>>

    /** `create_dataset()` */
    constructor ()
      ensures population == None && columns == map[] && eventTables == map[]
    {
      population := None;
      columns := map[];
      eventTables := map[];
    }

    /** The patient has a row: the population condition is TRUE. */
    predicate Includes()
      reads this
    {
      IsTrue(population)
    }

    /** `dataset.define_population(cond)` */
    method DefinePopulation(cond: Option<bool>)
      modifies this
      ensures population == cond
      ensures columns == old(columns) && eventTables == old(eventTables)
    {
      population := cond;
    }

    /** `dataset.<name> = v` */
    method SetColumn(name: string, v: Value)
      modifies this
      ensures columns == old(columns)[name := v]
      ensures population == old(population) && eventTables == old(eventTables)
    {
      columns := columns[name := v];
    }

    /** `dataset.add_event_table(name, ...)` */
    method AddEventTable(name: string, rows: seq<Row>)
      modifies this
      ensures eventTables == old(eventTables)[name := rows]
      ensures population == old(population) && columns == old(columns)
    {
      eventTables := eventTables[name := rows];
    }

    /** `dataset.<table>.<column> = series`: the column is replaced row by row. */
    method SetEventColumn(table: string, column: string, values: seq<Value>)
      requires table in eventTables && |values| == |eventTables[table]|
      modifies this
      ensures eventTables == old(eventTables)[table := WithColumn(old(eventTables)[table], column, values)]
      ensures population == old(population) && columns == old(columns)
    {
      eventTables := eventTables[table := WithColumn(eventTables[table], column, values)];
    }
  }

  /** The rows with `column` set to the matching entry of `values`. */
  function WithColumn(rows: seq<Row>, column: string, values: seq<Value>): (r: seq<Row>)
    requires |values| == |rows|
    ensures |r| == |rows|
    ensures forall i :: 0 <= i < |rows| ==> r[i] == rows[i][column := values[i]]
  {
    seq(|rows|, i requires 0 <= i < |rows| => rows[i][column := values[i]])
  }
}
