/** The abstract patient record the study's queries read, and the per-patient
    meaning of the ehrQL table queries the scripts use on it. */
module Patients {
  import opened Nullable
  import opened Calendar

  type Code = string

  /** A coded clinical event (`clinical_events`: date and SNOMED CT code). */
  datatype Event = Event(date: Date, code: Code)

  /** A practice registration (`practice_registrations`); a NULL end means still registered. */
  datatype Registration = Registration(start: Date, end: Option<Date>, region: Option<string>)

  /** The area attributes of the address a patient has on some date (`addresses`). */
  datatype Address = Address(imdQuintile: Option<int>, imdDecile: Option<int>, msoa: Option<string>)

  /** One patient. `ageOn`, `aliveOn` and `addressOn` are what the engine computes
      for a date (`age_on`, `is_alive_on`, `addresses.for_patient_on`); they are
      inputs of the model. */
  datatype Patient = Patient(
    events: seq<Event>,
    registrations: seq<Registration>,
    sex: string,
    ageOn: Date -> Option<int>,
    aliveOn: Date -> bool,
    yearOfBirth: Option<int>,
    tppDeath: Option<Date>,
    onsDeath: Option<Date>,
    addressOn: Date -> Option<Address>)

  // ---------------------------------------------------------------------
  // Events
  // ---------------------------------------------------------------------

  /** `clinical_events.where(code.is_in(codes)).exists_for_patient()` */
  predicate AnyEvent(events: seq<Event>, codes: set<Code>) {
    exists i :: 0 <= i < |events| && events[i].code in codes
  }

  /** `... .where(code.is_in(codes)).where(date.is_on_or_before(d)).exists_for_patient()` */
  predicate AnyEventOnOrBefore(events: seq<Event>, codes: set<Code>, d: Date) {
    exists i :: 0 <= i < |events| && events[i].code in codes && events[i].date <= d
  }

  /** `clinical_events.where(code.is_in(codes))`, in record order. */
  function MatchingEvents(events: seq<Event>, codes: set<Code>): (r: seq<Event>)
    ensures |r| <= |events|
    ensures forall i :: 0 <= i < |r| ==> r[i].code in codes
    ensures forall e {:trigger multiset(r)[e]} :: multiset(r)[e] == if e.code in codes then multiset(events)[e] else 0
  {
    if |events| == 0 then []
    else
      var rest := MatchingEvents(events[1..], codes);
      assert events == [events[0]] + events[1..];
      if events[0].code in codes then [events[0]] + rest else rest
  }

  /** `... .where(code.is_in(codes)).count_for_patient()` */
  function CountMatching(events: seq<Event>, codes: set<Code>): (n: nat)
    ensures n == |MatchingEvents(events, codes)|
    ensures n <= |events|
    ensures n >= 1 <==> AnyEvent(events, codes)
  {
    MatchingEventsNonEmpty(events, codes);
    |MatchingEvents(events, codes)|
  }

  /** The positions of the events whose code is in `codes`, among the first `k`. */
  function MatchingPositions(events: seq<Event>, codes: set<Code>, k: int): set<int> {
    set i | 0 <= i < k && i < |events| && events[i].code in codes
  }

  /** Counting splits over a concatenation of event lists. */
  lemma {:induction false} CountMatchingAppend(a: seq<Event>, b: seq<Event>, codes: set<Code>)
    ensures CountMatching(a + b, codes) == CountMatching(a, codes) + CountMatching(b, codes)
  {
    if |a| == 0 {
      assert a + b == b;
    } else {
      assert (a + b)[1..] == a[1..] + b;
      assert (a + b)[0] == a[0];
      CountMatchingAppend(a[1..], b, codes);
    }
  }

  /** Extending the prefix by one event adds one position exactly when that event matches. */
  lemma PositionsStep(events: seq<Event>, codes: set<Code>, k: nat)
    requires 0 < k <= |events|
    ensures |MatchingPositions(events, codes, k)| ==
      |MatchingPositions(events, codes, k - 1)| + (if events[k - 1].code in codes then 1 else 0)
  {
    var below := MatchingPositions(events, codes, k - 1);
    if events[k - 1].code in codes {
      assert MatchingPositions(events, codes, k) == below + {k - 1};
    } else {
      assert MatchingPositions(events, codes, k) == below;
    }
  }

  /** Extending the prefix by one event adds one to the count exactly when that event matches. */
  lemma CountStep(events: seq<Event>, codes: set<Code>, k: nat)
    requires 0 < k <= |events|
    ensures CountMatching(events[..k], codes) ==
      CountMatching(events[..k - 1], codes) + (if events[k - 1].code in codes then 1 else 0)
  {
    assert events[..k] == events[..k - 1] + [events[k - 1]];
    CountMatchingAppend(events[..k - 1], [events[k - 1]], codes);
    assert [events[k - 1]][1..] == [];
  }

  /** Count and positions grow together when the prefix is extended by one event. */
  lemma CountAndPositionsStep(events: seq<Event>, codes: set<Code>, k: nat)
    requires 0 < k <= |events|
    ensures CountMatching(events[..k], codes) - |MatchingPositions(events, codes, k)| ==
      CountMatching(events[..k - 1], codes) - |MatchingPositions(events, codes, k - 1)|
  {
    CountStep(events, codes, k);
    PositionsStep(events, codes, k);
  }

  /** The empty prefix has no matches and no matching positions. */
  lemma NoPositionsInEmptyPrefix(events: seq<Event>, codes: set<Code>)
    ensures CountMatching(events[..0], codes) == 0
    ensures MatchingPositions(events, codes, 0) == {}
  {
    assert events[..0] == [];
  }

  /** `count_for_patient` is the number of positions holding a matching event. */
  lemma {:induction false} CountIsMatchingPositions(events: seq<Event>, codes: set<Code>, k: nat)
    requires k <= |events|
    ensures CountMatching(events[..k], codes) == |MatchingPositions(events, codes, k)|
  {
    if k == 0 {
      NoPositionsInEmptyPrefix(events, codes);
    } else {
      CountIsMatchingPositions(events, codes, k - 1);
      CountAndPositionsStep(events, codes, k);
    }
  }

  /** The count over the whole record. */
  lemma CountMatchingIsNumberOfMatches(events: seq<Event>, codes: set<Code>)
    ensures CountMatching(events, codes) == |MatchingPositions(events, codes, |events|)|
  {
    CountIsMatchingPositions(events, codes, |events|);
    assert events[..|events|] == events;
  }

  lemma MatchingEventsNonEmpty(events: seq<Event>, codes: set<Code>)
    ensures |MatchingEvents(events, codes)| >= 1 <==> AnyEvent(events, codes)
  {
    var m := MatchingEvents(events, codes);
    if AnyEvent(events, codes) {
      var i :| 0 <= i < |events| && events[i].code in codes;
      assert multiset(events)[events[i]] > 0;
      assert multiset(m)[events[i]] > 0;
    }
  }

  /** The dates of the events whose code is in `codes`, NULL for the others. */
  function MatchingDates(events: seq<Event>, codes: set<Code>): (ds: seq<Option<Date>>)
    ensures |ds| == |events|
    ensures forall i :: 0 <= i < |events| ==>
      ds[i] == if events[i].code in codes then Some(events[i].date) else None
  {
    seq(|events|, i requires 0 <= i < |events| =>
      if events[i].code in codes then Some(events[i].date) else None)
  }

  /** `... .where(code.is_in(codes)).sort_by(date).first_for_patient().date` */
  function FirstMatchingDate(events: seq<Event>, codes: set<Code>): (r: Option<Date>)
    ensures r.None? <==> !AnyEvent(events, codes)
    ensures r.Some? ==> exists i :: 0 <= i < |events| && events[i].code in codes && events[i].date == r.value
    ensures r.Some? ==> forall i :: 0 <= i < |events| && events[i].code in codes ==> r.value <= events[i].date
  {
    FirstMatchingDateFacts(events, codes);
    MinOf(MatchingDates(events, codes))
  }

  lemma FirstMatchingDateFacts(events: seq<Event>, codes: set<Code>)
    ensures var r := MinOf(MatchingDates(events, codes));
      && (r.None? <==> !AnyEvent(events, codes))
      && (r.Some? ==> exists i :: 0 <= i < |events| && events[i].code in codes && events[i].date == r.value)
  {
    var ds := MatchingDates(events, codes);
    var r := MinOf(ds);
    if r.Some? {
      var i :| 0 <= i < |ds| && ds[i] == Some(r.value);
      assert events[i].code in codes && events[i].date == r.value;
    }
    if AnyEvent(events, codes) {
      var i :| 0 <= i < |events| && events[i].code in codes;
      assert ds[i].Some?;
    }
  }

  /** The events `sort_by(date).last_for_patient()` may pick: those of `codes`
      dated on or before `bound` (when there is a bound). */
  predicate Eligible(e: Event, codes: set<Code>, bound: Option<Date>) {
    e.code in codes && (bound.None? || e.date <= bound.value)
  }

  /** `... .where(code.is_in(codes))[.where(date.is_on_or_before(bound))].sort_by(date).last_for_patient()`:
      an eligible event with the latest date; between events of the same date
      the later record is taken (ehrQL leaves that tie open). */
  function LatestMatching(events: seq<Event>, codes: set<Code>, bound: Option<Date>): (r: Option<Event>)
    ensures r.None? <==> forall i :: 0 <= i < |events| ==> !Eligible(events[i], codes, bound)
    ensures r.Some? ==> r.value in events && Eligible(r.value, codes, bound)
    ensures r.Some? ==> forall i :: 0 <= i < |events| && Eligible(events[i], codes, bound) ==>
      events[i].date <= r.value.date
  {
    if |events| == 0 then None
    else
      var init := events[..|events| - 1];
      var last := events[|events| - 1];
      var rest := LatestMatching(init, codes, bound);
      assert forall i :: 0 <= i < |events| - 1 ==> events[i] == init[i];
      assert rest.Some? ==> rest.value in events;
      if Eligible(last, codes, bound) && (rest.None? || rest.value.date <= last.date) then Some(last)
      else rest
  }

  /** `... .sort_by(date).last_for_patient().snomedct_code`: the code of a latest eligible event. */
  function LatestCode(events: seq<Event>, codes: set<Code>, bound: Option<Date>): (r: Option<Code>)
    ensures r.None? <==> forall i :: 0 <= i < |events| ==> !Eligible(events[i], codes, bound)
    ensures r.Some? ==> r.value in codes
    ensures r.Some? ==>
      exists i :: 0 <= i < |events| && Eligible(events[i], codes, bound) && events[i].code == r.value &&
        forall j :: 0 <= j < |events| && Eligible(events[j], codes, bound) ==> events[j].date <= events[i].date
  {
    match LatestMatching(events, codes, bound)
    case Some(e) => Some(e.code)
    case None => None
  }

  // ---------------------------------------------------------------------
  // Registrations
  // ---------------------------------------------------------------------

  /** A registration in force on day `d`: started on or before `d` and not ended before `d`. */
  predicate Spans(r: Registration, d: Date) {
    r.start <= d && (r.end.None? || r.end.value >= d)
  }

  /** `practice_registrations.for_patient_on(d).exists_for_patient()`,
      also `exists_for_patient_on(d)`. */
  predicate RegisteredOn(regs: seq<Registration>, d: Date) {
    exists i :: 0 <= i < |regs| && Spans(regs[i], d)
  }

  /** `regs[i]` spans `d` and no registration spanning `d` starts later. */
  predicate LatestSpanning(regs: seq<Registration>, d: Date, i: int) {
    0 <= i < |regs| && Spans(regs[i], d) &&
    forall k :: 0 <= k < |regs| && Spans(regs[k], d) ==> regs[k].start <= regs[i].start
  }

  /** `practice_registrations.for_patient_on(d)`: a registration in force on `d`
      with the latest start; later records win ties. */
  function RegistrationOn(regs: seq<Registration>, d: Date): (r: Option<Registration>)
    ensures r.None? <==> !RegisteredOn(regs, d)
    ensures r.Some? ==> r.value in regs && Spans(r.value, d)
    ensures r.Some? ==> forall i :: 0 <= i < |regs| && Spans(regs[i], d) ==> regs[i].start <= r.value.start
  {
    if |regs| == 0 then None
    else
      var init := regs[..|regs| - 1];
      var last := regs[|regs| - 1];
      var rest := RegistrationOn(init, d);
      assert forall i :: 0 <= i < |regs| - 1 ==> regs[i] == init[i];
      assert rest.Some? ==> rest.value in regs;
      if Spans(last, d) && (rest.None? || rest.value.start <= last.start) then Some(last)
      else rest
  }

  /** `practice_registrations.for_patient_on(d).practice_nuts1_region_name` */
  function RegionOn(regs: seq<Registration>, d: Date): (r: Option<string>)
    ensures !RegisteredOn(regs, d) ==> r.None?
    ensures RegisteredOn(regs, d) ==> exists i :: LatestSpanning(regs, d, i) && r == regs[i].region
    ensures r.Some? ==> exists i :: 0 <= i < |regs| && Spans(regs[i], d) && regs[i].region == r
  {
    match RegistrationOn(regs, d)
    case Some(reg) => reg.region
    case None => None
  }

  /** `practice_registrations.sort_by(start_date).first_for_patient().start_date` */
  function FirstRegistrationStart(regs: seq<Registration>): (r: Option<Date>)
    ensures r.None? <==> |regs| == 0
    ensures r.Some? ==> exists i :: 0 <= i < |regs| && regs[i].start == r.value
    ensures r.Some? ==> forall i :: 0 <= i < |regs| ==> r.value <= regs[i].start
  {
    FirstRegistrationStartFacts(regs);
    MinOf(Starts(regs))
  }

  function Starts(regs: seq<Registration>): (starts: seq<Option<Date>>)
    ensures |starts| == |regs| && forall i :: 0 <= i < |regs| ==> starts[i] == Some(regs[i].start)
  {
    seq(|regs|, i requires 0 <= i < |regs| => Some(regs[i].start))
  }

  lemma FirstRegistrationStartFacts(regs: seq<Registration>)
    ensures var r := MinOf(Starts(regs));
      && (r.None? <==> |regs| == 0)
      && (r.Some? ==> exists i :: 0 <= i < |regs| && regs[i].start == r.value)
  {
    var starts := Starts(regs);
    var r := MinOf(starts);
    if |regs| > 0 {
      assert starts[0].Some?;
    }
    if r.Some? {
      var i :| 0 <= i < |starts| && starts[i] == Some(r.value);
      assert regs[i].start == r.value;
    }
  }

  /** `practice_registrations.end_date.maximum_for_patient()`: NULL ends are ignored. */
  function LatestRegistrationEnd(regs: seq<Registration>): (r: Option<Date>)
    ensures r.None? <==> forall i :: 0 <= i < |regs| ==> regs[i].end.None?
    ensures r.Some? ==> exists i :: 0 <= i < |regs| && regs[i].end == r
    ensures r.Some? ==> forall i :: 0 <= i < |regs| && regs[i].end.Some? ==> regs[i].end.value <= r.value
  {
    LatestRegistrationEndFacts(regs);
    MaxOf(Ends(regs))
  }

  function Ends(regs: seq<Registration>): (ends: seq<Option<Date>>)
    ensures |ends| == |regs| && forall i :: 0 <= i < |regs| ==> ends[i] == regs[i].end
  {
    seq(|regs|, i requires 0 <= i < |regs| => regs[i].end)
  }

  lemma LatestRegistrationEndFacts(regs: seq<Registration>)
    ensures var r := MaxOf(Ends(regs));
      r.Some? ==> exists i :: 0 <= i < |regs| && regs[i].end == r
  {
    var ends := Ends(regs);
    var r := MaxOf(ends);
    if r.Some? {
      var i :| 0 <= i < |ends| && ends[i] == Some(r.value);
      assert regs[i].end == r;
    }
  }

  // ---------------------------------------------------------------------
  // Properties of the event queries
  // ---------------------------------------------------------------------

  /** An indicator never turns off as its reference date moves later. */
  lemma AnyEventOnOrBeforeMonotone(events: seq<Event>, codes: set<Code>, d: Date, d': Date)
    requires d <= d' && AnyEventOnOrBefore(events, codes, d)
    ensures AnyEventOnOrBefore(events, codes, d')
  {
  }

  /** An empty codelist matches nothing. */
  lemma EmptyCodelistMatchesNothing(events: seq<Event>, d: Date)
    ensures !AnyEventOnOrBefore(events, {}, d) && !AnyEvent(events, {})
    ensures CountMatching(events, {}) == 0 && FirstMatchingDate(events, {}).None?
  {
  }
}
