/** The mock component's time clause: a predicate that holds when a message
    was received within a configured window of a neighbouring message.

    The clause is an immutable value. Each DSL call returns the updated clause
    and each evaluation returns its verdict and diagnostic, so nothing is
    written back into a clause that concurrent evaluations share. */
module TimeClause {
  import opened Wrappers
  import opened TimeValue
  import Decimal

  /** Which neighbour the current message is compared with. */
  datatype Direction = AfterPrevious | BeforeNext

  /** The configured window: an optional lower bound, an upper bound that must
      be set before evaluation, and the direction. */
  datatype Clause = Clause(timeFrom: Option<Time>, timeTo: Option<Time>, direction: Direction)

  /** The two ways an evaluation aborts instead of answering. */
  datatype EvalError =
    | PeriodNotSet              // no unit was ever selected, so there is no upper bound
    | MissingReceivedTimestamp  // the exchange carries no received timestamp

  /** A pending window, created by `noLaterThan` or `between` and completed by
      choosing a unit. A `from` of zero or less sets no lower bound. */
  datatype TimeClassUnit = TimeClassUnit(from: Int32, to: Int32)

  /** The outcome of one evaluation: either no neighbour existed, or the two
      timestamps were `delta` milliseconds apart. */
  datatype Verdict = BoundaryPass | Compared(delta: nat, inWindow: bool)

  /** The failure report: the two neighbour values and the operator text. */
  datatype FailureMessage = FailureMessage(left: Option<int>, operator: string, right: Option<int>)

  /** A freshly constructed clause: no bounds, direction "after previous". */
  function NewClause(): (c: Clause)
    ensures c.timeFrom.None? && c.timeTo.None?
    ensures c.direction == AfterPrevious
  {
    Clause(None, None, AfterPrevious)
  }

  // DSL
  // ---------------------------------------------------------------------------

  /** `noLaterThan(period)`: an upper bound only (-1 marks the lower bound unset). */
  function NoLaterThan(period: Int32): (p: TimeClassUnit)
    ensures p.to == period && p.from <= 0
  {
    TimeClassUnit(-1, period)
  }

  /** `between(from, to)`: both bounds, in the unit chosen next. */
  function Between(from: Int32, to: Int32): (p: TimeClassUnit)
    ensures p.to == to && p.from == from
  {
    TimeClassUnit(from, to)
  }

  /** Completing a pending window with a unit (`millis()`, `seconds()`,
      `minutes()`): the upper bound is always replaced, the lower bound only
      when `from` is positive, and the direction is kept. */
  function Period(c: Clause, p: TimeClassUnit, unit: TimeUnit): (r: Clause)
    ensures r.timeTo == Some(Time(p.to, unit))
    ensures p.from > 0 ==> r.timeFrom == Some(Time(p.from, unit))
    ensures p.from <= 0 ==> r.timeFrom == c.timeFrom
    ensures r.direction == c.direction
  {
    var withFrom := if p.from > 0 then c.(timeFrom := Some(Time(p.from, unit))) else c;
    withFrom.(timeTo := Some(Time(p.to, unit)))
  }

  /** `beforeNext()`: compare with the previous message, leaving the bounds alone. */
  function SetBeforeNext(c: Clause): (r: Clause)
    ensures r.direction == BeforeNext
    ensures r.timeFrom == c.timeFrom && r.timeTo == c.timeTo
  {
    c.(direction := BeforeNext)
  }

  /** `afterPrevious()`: compare with the next message, leaving the bounds alone. */
  function SetAfterPrevious(c: Clause): (r: Clause)
    ensures r.direction == AfterPrevious
    ensures r.timeFrom == c.timeFrom && r.timeTo == c.timeTo
  {
    c.(direction := AfterPrevious)
  }

  /** The operator text used in failure reports. */
  function OperationText(c: Clause): (s: string)
    ensures s == "before next" <==> c.direction == BeforeNext
    ensures s == "after previous" <==> c.direction == AfterPrevious
  {
    assert "before next"[0] != "after previous"[0];
    match c.direction
    case BeforeNext => "before next"
    case AfterPrevious => "after previous"
  }

  // Evaluation
  // ---------------------------------------------------------------------------

  /** The timestamp to compare with: the preferred neighbour for the
      direction, falling back to the other one when it is absent. */
  function OtherDate(direction: Direction, left: Option<int>, right: Option<int>): (r: Option<int>)
    ensures r.None? <==> left.None? && right.None?
    ensures left.Some? && right.None? ==> r == left
    ensures left.None? && right.Some? ==> r == right
    ensures left.Some? && right.Some? ==> r == (if direction == BeforeNext then left else right)
  {
    if direction == BeforeNext then
      if left.Some? then left else right
    else
      if right.Some? then right else left
  }

  /** The distance in milliseconds between two timestamps, whichever came first. */
  function Delta(current: int, other: int): (d: nat)
    ensures d == other - current || d == current - other
    ensures d >= other - current && d >= current - other
  {
    var diff := ToMillis(Time(other, Milliseconds)) - ToMillis(Time(current, Milliseconds));
    if diff < 0 then -diff else diff
  }

  /** The declared window: at least the lower bound when there is one, and at
      most the upper bound, both inclusive. */
  predicate InWindow(timeFrom: Option<Time>, timeTo: Time, delta: int) {
    && (timeFrom.None? || delta >= ToMillis(timeFrom.value))
    && delta <= ToMillis(timeTo)
  }

  /** The window test in the order the clause performs it: the lower bound
      first, and the upper bound only when the lower bound was met. */
  function CheckWindow(timeFrom: Option<Time>, timeTo: Time, delta: nat): (answer: bool)
    ensures answer <==> InWindow(timeFrom, timeTo, delta)
  {
    var afterFrom := if timeFrom.Some? then delta >= ToMillis(timeFrom.value) else true;
    if afterFrom then delta <= ToMillis(timeTo) else afterFrom
  }

  /** One evaluation of the clause against the previous (`left`) and next
      (`right`) received timestamps and the current message's timestamp. */
  function Evaluate(c: Clause, left: Option<int>, right: Option<int>, current: Option<int>)
    : (r: Result<Verdict, EvalError>)
    ensures c.timeTo.None? ==> r == Failure(PeriodNotSet)
    ensures c.timeTo.Some? && left.None? && right.None? ==> r == Success(BoundaryPass)
    ensures c.timeTo.Some? && (left.Some? || right.Some?) && current.None? ==>
              r == Failure(MissingReceivedTimestamp)
    ensures c.timeTo.Some? && current.Some? && OtherDate(c.direction, left, right).Some? ==>
              && r.Success? && r.value.Compared?
              && r.value.delta == Delta(current.value, OtherDate(c.direction, left, right).value)
              && (r.value.inWindow <==> InWindow(c.timeFrom, c.timeTo.value, r.value.delta))
  {
    if c.timeTo.None? then Failure(PeriodNotSet)
    else
      var other := OtherDate(c.direction, left, right);
      if other.None? then Success(BoundaryPass)
      else if current.None? then Failure(MissingReceivedTimestamp)
      else
        var delta := Delta(current.value, other.value);
        Success(Compared(delta, CheckWindow(c.timeFrom, c.timeTo.value, delta)))
  }

  /** Whether a verdict lets the expectation pass. */
  predicate Passed(v: Verdict) {
    v.BoundaryPass? || v.inWindow
  }

  // Diagnostics
  // ---------------------------------------------------------------------------

  const DeltaPrefix: string := "delta: "
  const DeltaSuffix: string := " millis"

  /** The delta description recorded for a comparison, e.g. "delta: 1500 millis". */
  function DeltaText(delta: nat): (s: string) {
    DeltaPrefix + Decimal.Digits(delta) + DeltaSuffix
  }

  /** Reads the number back out of a delta description. */
  function ParseDeltaText(s: string): (n: Option<nat>) {
    var lo := |DeltaPrefix|;
    var hi := |s| - |DeltaSuffix|;
    if lo < hi && s[..lo] == DeltaPrefix && s[hi..] == DeltaSuffix && Decimal.Canonical(s[lo..hi])
    then Some(Decimal.ParseDigits(s[lo..hi]))
    else None
  }

  /** The diagnostic of an evaluation: nothing at a boundary pass, otherwise a
      description from which the measured delta can be read back. */
  function Diagnostic(v: Verdict): (d: Option<string>)
    ensures d.None? <==> v.BoundaryPass?
    ensures v.Compared? ==> ParseDeltaText(d.value) == Some(v.delta)
  {
    match v
    case BoundaryPass => None
    case Compared(delta, _) =>
      DeltaTextRoundTrip(delta);
      Some(DeltaText(delta))
  }

  lemma DeltaTextRoundTrip(delta: nat)
    ensures ParseDeltaText(DeltaText(delta)) == Some(delta)
  {
    var s := DeltaText(delta);
    var digits := Decimal.Digits(delta);
    var lo := |DeltaPrefix|;
    var hi := |s| - |DeltaSuffix|;
    assert s[..lo] == DeltaPrefix;
    assert s[hi..] == DeltaSuffix;
    assert s[lo..hi] == digits;
    Decimal.ParseDigitsOfDigits(delta);
  }

  // The predicate interface
  // ---------------------------------------------------------------------------

  /** `matchesReturningFailureMessage`: no message when the clause holds, the
      neighbours and the operator text when it does not, and the evaluation's
      error when it aborts. */
  function MatchesReturningFailureMessage(c: Clause, left: Option<int>, right: Option<int>, current: Option<int>)
    : (r: Result<Option<FailureMessage>, EvalError>)
    ensures Evaluate(c, left, right, current).Failure? <==> r.Failure?
    ensures r.Failure? ==> r.error == Evaluate(c, left, right, current).error
    ensures r.Success? ==> (r.value.None? <==> Passed(Evaluate(c, left, right, current).value))
    ensures r.Success? && r.value.Some? ==> r.value.value == FailureMessage(left, OperationText(c), right)
  {
    match Evaluate(c, left, right, current)
    case Failure(e) => Failure(e)
    case Success(v) =>
      if Passed(v) then Success(None) else Success(Some(FailureMessage(left, OperationText(c), right)))
  }

  /** `matches(exchange)`: true exactly when no failure message is produced. */
  function Matches(c: Clause, left: Option<int>, right: Option<int>, current: Option<int>)
    : (r: Result<bool, EvalError>)
    ensures r.Success? <==> MatchesReturningFailureMessage(c, left, right, current).Success?
    ensures r.Failure? ==> r.error == MatchesReturningFailureMessage(c, left, right, current).error
    ensures r.Success? ==> (r.value <==> MatchesReturningFailureMessage(c, left, right, current).value.None?)
    ensures r.Success? ==> (r.value <==> Passed(Evaluate(c, left, right, current).value))
  {
    match MatchesReturningFailureMessage(c, left, right, current)
    case Failure(e) => Failure(e)
    case Success(msg) => Success(msg.None?)
  }
}
