/** Nullable values as ehrQL evaluates them for one patient.

    Every ehrQL series may be NULL for a patient. Booleans combine with the
    three-valued (Kleene, SQL) logic, comparisons with a NULL operand are NULL,
    and a population or a `when` condition counts only when it is TRUE. The
    aggregations `minimum_of` and `maximum_for_patient` ignore NULLs. */
module Nullable {

  datatype Option<+T> = None | Some(value: T)

  /** A condition that selects: only TRUE counts, NULL behaves like FALSE. */
  predicate IsTrue(b: Option<bool>) {
    b == Some(true)
  }

  /** `a & b`: FALSE wins over NULL, NULL wins over TRUE. */
  function And(a: Option<bool>, b: Option<bool>): (r: Option<bool>)
    ensures r == Some(true) <==> a == Some(true) && b == Some(true)
    ensures r == Some(false) <==> a == Some(false) || b == Some(false)
  {
    match (a, b)
    case (Some(false), _) => Some(false)
    case (_, Some(false)) => Some(false)
    case (Some(true), Some(true)) => Some(true)
    case _ => None
  }

  /** `a | b`: TRUE wins over NULL, NULL wins over FALSE. */
  function Or(a: Option<bool>, b: Option<bool>): (r: Option<bool>)
    ensures r == Some(true) <==> a == Some(true) || b == Some(true)
    ensures r == Some(false) <==> a == Some(false) && b == Some(false)
  {
    match (a, b)
    case (Some(true), _) => Some(true)
    case (_, Some(true)) => Some(true)
    case (Some(false), Some(false)) => Some(false)
    case _ => None
  }

  /** `~a`: NULL stays NULL. */
  function Not(a: Option<bool>): (r: Option<bool>)
    ensures r == Some(true) <==> a == Some(false)
    ensures r == Some(false) <==> a == Some(true)
  {
    match a
    case Some(b) => Some(!b)
    case None => None
  }

  /** `x == v` for a nullable series and a literal. */
  function Equals<T(==)>(x: Option<T>, v: T): (r: Option<bool>)
    ensures r == Some(true) <==> x == Some(v)
    ensures r.None? <==> x.None?
  {
    match x
    case Some(y) => Some(y == v)
    case None => None
  }

  /** `x < c` */
  function Less(x: Option<int>, c: int): (r: Option<bool>)
    ensures r == Some(true) <==> x.Some? && x.value < c
    ensures r.None? <==> x.None?
  {
    match x
    case Some(y) => Some(y < c)
    case None => None
  }

  /** `x <= c` */
  function AtMost(x: Option<int>, c: int): (r: Option<bool>)
    ensures r == Some(true) <==> x.Some? && x.value <= c
    ensures r.None? <==> x.None?
  {
    match x
    case Some(y) => Some(y <= c)
    case None => None
  }

  /** `x > c` */
  function Greater(x: Option<int>, c: int): (r: Option<bool>)
    ensures r == Some(true) <==> x.Some? && x.value > c
    ensures r.None? <==> x.None?
  {
    match x
    case Some(y) => Some(y > c)
    case None => None
  }

  /** `x >= c` */
  function AtLeast(x: Option<int>, c: int): (r: Option<bool>)
    ensures r == Some(true) <==> x.Some? && x.value >= c
    ensures r.None? <==> x.None?
  {
    match x
    case Some(y) => Some(y >= c)
    case None => None
  }

  /** `x < y` for two nullable series. */
  function LessThan(x: Option<int>, y: Option<int>): (r: Option<bool>)
    ensures r == Some(true) <==> x.Some? && y.Some? && x.value < y.value
    ensures r.None? <==> x.None? || y.None?
  {
    if x.Some? && y.Some? then Some(x.value < y.value) else None
  }

  /** `x.is_between_but_not_on(a, b)`: strictly between the two bounds. */
  function BetweenButNotOn(x: Option<int>, a: int, b: int): (r: Option<bool>)
    ensures r == Some(true) <==> x.Some? && a < x.value < b
    ensures r.None? <==> x.None?
  {
    match x
    case Some(y) => Some(a < y < b)
    case None => None
  }

  /** `x - y` for two nullable numbers (dates: the difference in days). */
  function Minus(x: Option<int>, y: Option<int>): (r: Option<int>)
    ensures r.Some? <==> x.Some? && y.Some?
    ensures r.Some? ==> r.value + y.value == x.value
  {
    if x.Some? && y.Some? then Some(x.value - y.value) else None
  }

  /** `x.is_null()`: never NULL itself. */
  function IsNull<T>(x: Option<T>): (r: Option<bool>)
    ensures r == Some(true) <==> x.None?
    ensures r.Some?
  {
    Some(x.None?)
  }

  /** `x.when_null_then(d)` (and `fill_null`). */
  function WhenNullThen<T>(x: Option<T>, d: T): (r: T)
    ensures x.Some? ==> r == x.value
    ensures x.None? ==> r == d
  {
    match x
    case Some(y) => y
    case None => d
  }

  /** True when `v` is one of the non-NULL entries of `xs`. */
  predicate Occurs(xs: seq<Option<int>>, v: int) {
    exists i :: 0 <= i < |xs| && xs[i] == Some(v)
  }

  /** The least non-NULL entry of `xs`, NULL when all are NULL
      (`minimum_of`, and the date picked by `sort_by(...).first_for_patient()`). */
  function MinOf(xs: seq<Option<int>>): (r: Option<int>)
    ensures r.None? <==> forall i :: 0 <= i < |xs| ==> xs[i].None?
    ensures r.Some? ==> Occurs(xs, r.value)
    ensures r.Some? ==> forall i :: 0 <= i < |xs| && xs[i].Some? ==> r.value <= xs[i].value
  {
    if |xs| == 0 then None
    else
      var rest := MinOf(xs[1..]);
      assert forall i :: 1 <= i < |xs| ==> xs[i] == xs[1..][i - 1];
      match xs[0]
      case None => rest
      case Some(x) =>
        if rest.Some? && rest.value < x then rest else Some(x)
  }

  /** The greatest non-NULL entry of `xs`, NULL when all are NULL
      (`maximum_for_patient`). */
  function MaxOf(xs: seq<Option<int>>): (r: Option<int>)
    ensures r.None? <==> forall i :: 0 <= i < |xs| ==> xs[i].None?
    ensures r.Some? ==> Occurs(xs, r.value)
    ensures r.Some? ==> forall i :: 0 <= i < |xs| && xs[i].Some? ==> xs[i].value <= r.value
  {
    if |xs| == 0 then None
    else
      var rest := MaxOf(xs[1..]);
      assert forall i :: 1 <= i < |xs| ==> xs[i] == xs[1..][i - 1];
      match xs[0]
      case None => rest
      case Some(x) =>
        if rest.Some? && rest.value > x then rest else Some(x)
  }
}
