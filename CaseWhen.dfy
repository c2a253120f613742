/** ehrQL's `case(when(c1).then(v1), ..., otherwise=d)` for one patient.

    The clauses are tried in order and the first whose condition is TRUE gives
    the value; a NULL condition is never taken. When no clause is taken the
    result is `otherwise`, which is NULL when the script gives none. Every rule
    table of the study (age bands, year-of-birth bands, the 2-, 3- and
    6-category migration status and the event categories) is an instance. */
module CaseWhen {
  import opened Nullable

  datatype When<T> = When(cond: Option<bool>, value: T)

  /** Clause `i` is taken and no earlier clause is. */
  predicate FirstTakenAt<T>(clauses: seq<When<T>>, i: int) {
    0 <= i < |clauses| && IsTrue(clauses[i].cond) &&
    forall j :: 0 <= j < i ==> !IsTrue(clauses[j].cond)
  }

  /** No clause is taken. */
  predicate NoneTaken<T>(clauses: seq<When<T>>) {
    forall j :: 0 <= j < |clauses| ==> !IsTrue(clauses[j].cond)
  }

  function Case<T>(clauses: seq<When<T>>, otherwise: Option<T>): (r: Option<T>)
    ensures NoneTaken(clauses) ==> r == otherwise
    ensures forall i :: FirstTakenAt(clauses, i) ==> r == Some(clauses[i].value)
  {
    if |clauses| == 0 then otherwise
    else if IsTrue(clauses[0].cond) then Some(clauses[0].value)
    else
      var r := Case(clauses[1..], otherwise);
      assert forall i :: 1 <= i < |clauses| && FirstTakenAt(clauses, i) ==>
        FirstTakenAt(clauses[1..], i - 1);
      r
  }

  /** Exactly one of the two outcomes: some clause is taken first, or none is. */
  lemma {:induction false} FirstTakenOrNone<T>(clauses: seq<When<T>>)
    ensures NoneTaken(clauses) || exists i :: FirstTakenAt(clauses, i)
    ensures forall i :: FirstTakenAt(clauses, i) ==> !NoneTaken(clauses)
    ensures forall i, k :: FirstTakenAt(clauses, i) && FirstTakenAt(clauses, k) ==> i == k
  {
    if |clauses| > 0 {
      if IsTrue(clauses[0].cond) {
        assert FirstTakenAt(clauses, 0);
      } else {
        FirstTakenOrNone(clauses[1..]);
        if !NoneTaken(clauses[1..]) {
          var i :| FirstTakenAt(clauses[1..], i);
          assert FirstTakenAt(clauses, i + 1);
        }
      }
    }
  }

  /** What a case expression returns is the value of a taken clause or the default. */
  lemma CaseValueOrigin<T>(clauses: seq<When<T>>, otherwise: Option<T>)
    ensures Case(clauses, otherwise) == otherwise ||
            exists i :: FirstTakenAt(clauses, i) && Case(clauses, otherwise) == Some(clauses[i].value)
  {
    FirstTakenOrNone(clauses);
  }

  /** With a default, a case expression is never NULL. */
  lemma CaseWithDefaultNeverNull<T>(clauses: seq<When<T>>, d: T)
    ensures Case(clauses, Some(d)).Some?
  {
    FirstTakenOrNone(clauses);
  }

  /** A case expression with an `otherwise`, as the value it always has. */
  function CaseOtherwise<T>(clauses: seq<When<T>>, d: T): (r: T)
    ensures Case(clauses, Some(d)) == Some(r)
  {
    CaseWithDefaultNeverNull(clauses, d);
    Case(clauses, Some(d)).value
  }
}
