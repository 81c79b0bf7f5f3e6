/** Properties of the time clause that relate several calls: the builder's
    bound-setting rules, the direction rules, the window's shape, and the
    concrete scenarios the clause is meant to decide. */
module TimeClauseProperties {
  import opened Wrappers
  import opened TimeValue
  import opened TimeClause

  // Builder
  // ---------------------------------------------------------------------------

  /** On a fresh clause, `noLaterThan(n).<unit>` yields an upper bound only. */
  lemma FreshNoLaterThan(n: Int32, u: TimeUnit)
    ensures Period(NewClause(), NoLaterThan(n), u) == Clause(None, Some(Time(n, u)), AfterPrevious)
  {
  }

  /** On a fresh clause, `between(f, t).<unit>` yields a lower bound exactly
      when `f` is positive, both in the same unit. */
  lemma FreshBetween(f: Int32, t: Int32, u: TimeUnit)
    ensures f > 0 ==> Period(NewClause(), Between(f, t), u) == Clause(Some(Time(f, u)), Some(Time(t, u)), AfterPrevious)
    ensures f <= 0 ==> Period(NewClause(), Between(f, t), u) == Clause(None, Some(Time(t, u)), AfterPrevious)
  {
  }

  /** `between(f, t)` with a non-positive `f` is indistinguishable from `noLaterThan(t)`. */
  lemma NonPositiveFromIsNoLaterThan(c: Clause, f: Int32, t: Int32, u: TimeUnit)
    requires f <= 0
    ensures Period(c, Between(f, t), u) == Period(c, NoLaterThan(t), u)
  {
  }

  /** Re-configuring with `noLaterThan` keeps a lower bound an earlier
      `between` set: the clause becomes "between 2-3 seconds". */
  lemma EarlierLowerBoundSurvivesNoLaterThan()
    ensures Period(Period(NewClause(), Between(2, 5), Seconds), NoLaterThan(3), Seconds)
            == Clause(Some(Time(2, Seconds)), Some(Time(3, Seconds)), AfterPrevious)
  {
  }

  /** The direction setters are last-write-wins. */
  lemma DirectionLastWriteWins(c: Clause)
    ensures SetBeforeNext(SetAfterPrevious(c)) == SetBeforeNext(c)
    ensures SetAfterPrevious(SetBeforeNext(c)) == SetAfterPrevious(c)
    ensures SetBeforeNext(SetBeforeNext(c)) == SetBeforeNext(c)
    ensures SetAfterPrevious(SetAfterPrevious(c)) == SetAfterPrevious(c)
  {
  }

  /** Direction and bounds may be configured in either order. */
  lemma DirectionCommutesWithPeriod(c: Clause, p: TimeClassUnit, u: TimeUnit)
    ensures Period(SetBeforeNext(c), p, u) == SetBeforeNext(Period(c, p, u))
    ensures Period(SetAfterPrevious(c), p, u) == SetAfterPrevious(Period(c, p, u))
  {
  }

  /** A fresh clause compares with the next message and says so. */
  lemma DefaultDirection()
    ensures NewClause().direction == AfterPrevious
    ensures OperationText(NewClause()) == "after previous"
    ensures OperationText(SetBeforeNext(NewClause())) == "before next"
  {
  }

  // Resolution of the other timestamp
  // ---------------------------------------------------------------------------

  /** The direction decides only when both neighbours exist and differ. */
  lemma DirectionMattersOnlyWithBothNeighbours(left: Option<int>, right: Option<int>)
    ensures !(left.Some? && right.Some?) ==>
              OtherDate(BeforeNext, left, right) == OtherDate(AfterPrevious, left, right)
    ensures left.Some? && right.Some? && left != right ==>
              OtherDate(BeforeNext, left, right) != OtherDate(AfterPrevious, left, right)
  {
  }

  // Evaluation
  // ---------------------------------------------------------------------------

  /** Without an upper bound every evaluation is a configuration error, never a verdict. */
  lemma UnsetPeriodFailsForEveryInput(c: Clause, left: Option<int>, right: Option<int>, current: Option<int>)
    requires c.timeTo.None?
    ensures Matches(c, left, right, current) == Failure(PeriodNotSet)
    ensures MatchesReturningFailureMessage(c, left, right, current) == Failure(PeriodNotSet)
  {
  }

  /** With no neighbour at all the clause holds, whatever the window, and even
      when the current message carries no timestamp. */
  lemma BoundaryPassWhateverWindow(c: Clause, current: Option<int>)
    requires c.timeTo.Some?
    ensures Matches(c, None, None, current) == Success(true)
    ensures MatchesReturningFailureMessage(c, None, None, current) == Success(None)
    ensures Diagnostic(Evaluate(c, None, None, current).value).None?
  {
  }

  /** Once there is a neighbour, the current timestamp is required. */
  lemma MissingTimestampFailsWithNeighbour(c: Clause, left: Option<int>, right: Option<int>)
    requires c.timeTo.Some? && (left.Some? || right.Some?)
    ensures Matches(c, left, right, None) == Failure(MissingReceivedTimestamp)
  {
  }

  /** The clause holds exactly when the absolute delta lies in the inclusive window. */
  lemma MatchesIffWithinWindow(c: Clause, left: Option<int>, right: Option<int>, current: int)
    requires c.timeTo.Some? && OtherDate(c.direction, left, right).Some?
    ensures var d := Delta(current, OtherDate(c.direction, left, right).value);
            Matches(c, left, right, Some(current))
            == Success((c.timeFrom.None? || d >= ToMillis(c.timeFrom.value)) && d <= ToMillis(c.timeTo.value))
  {
  }

  /** Without a lower bound the clause holds exactly when the delta is at most the upper bound. */
  lemma NoLowerBoundIsUpperBoundOnly(c: Clause, left: Option<int>, right: Option<int>, current: int)
    requires c.timeTo.Some? && c.timeFrom.None? && OtherDate(c.direction, left, right).Some?
    ensures var d := Delta(current, OtherDate(c.direction, left, right).value);
            Matches(c, left, right, Some(current)) == Success(d <= ToMillis(c.timeTo.value))
  {
  }

  /** Both ends of a non-empty window are accepted. */
  lemma BoundsAreInclusive(c: Clause, left: Option<int>, right: Option<int>, current: int)
    requires c.timeTo.Some? && c.timeFrom.Some? && OtherDate(c.direction, left, right).Some?
    requires ToMillis(c.timeFrom.value) <= ToMillis(c.timeTo.value)
    ensures var d := Delta(current, OtherDate(c.direction, left, right).value);
            d == ToMillis(c.timeFrom.value) || d == ToMillis(c.timeTo.value) ==>
              Matches(c, left, right, Some(current)) == Success(true)
  {
  }

  /** Raising the upper bound within its unit never turns a pass into a failure. */
  lemma RaisingUpperBoundKeepsPass(c: Clause, n: int, left: Option<int>, right: Option<int>, current: Option<int>)
    requires c.timeTo.Some? && c.timeTo.value.number <= n
    requires Matches(c, left, right, current) == Success(true)
    ensures Matches(c.(timeTo := Some(Time(n, c.timeTo.value.unit))), left, right, current) == Success(true)
  {
  }

  /** Which of the two timestamps came first does not change the outcome. */
  lemma SwappingTimestampsKeepsOutcome(c: Clause, a: int, b: int)
    requires c.timeTo.Some?
    ensures Delta(a, b) == Delta(b, a)
    ensures Evaluate(c, None, Some(b), Some(a)) == Evaluate(c, None, Some(a), Some(b))
    ensures Evaluate(c, Some(b), None, Some(a)) == Evaluate(c, Some(a), None, Some(b))
  {
  }

  /** For timestamps after the epoch, the difference and the delta fit in a
      Java `long`, so unbounded arithmetic computes what the clause computes. */
  lemma DeltaFitsLongForEpochTimestamps(current: int, other: int)
    requires 0 <= current <= LongMax && 0 <= other <= LongMax
    ensures IsLong(other - current)
    ensures IsLong(Delta(current, other))
  {
  }

  // Scenarios
  // ---------------------------------------------------------------------------

  /** `noLaterThan(2).seconds()`: a next message 1500 ms later passes. */
  lemma ScenarioWithinUpperBound()
    ensures var c := Period(NewClause(), NoLaterThan(2), Seconds);
            && Evaluate(c, None, Some(2500), Some(1000)) == Success(Compared(1500, true))
            && Matches(c, None, Some(2500), Some(1000)) == Success(true)
  {
  }

  /** `noLaterThan(2).seconds()`: a next message 3000 ms later fails, and the
      report names the neighbours and "after previous". */
  lemma ScenarioBeyondUpperBound()
    ensures var c := Period(NewClause(), NoLaterThan(2), Seconds);
            && Evaluate(c, None, Some(4000), Some(1000)) == Success(Compared(3000, false))
            && MatchesReturningFailureMessage(c, None, Some(4000), Some(1000))
               == Success(Some(FailureMessage(None, "after previous", Some(4000))))
  {
  }

  /** `between(1, 3).seconds()` with `beforeNext()`: a previous message 2000 ms
      earlier passes. */
  lemma ScenarioBetweenBeforeNext()
    ensures var c := SetBeforeNext(Period(NewClause(), Between(1, 3), Seconds));
            Evaluate(c, Some(3000), None, Some(5000)) == Success(Compared(2000, true))
  {
  }

  /** A lone message passes even against an empty window. */
  lemma ScenarioLoneMessage()
    ensures var c := Period(NewClause(), Between(5, 1), Milliseconds);
            Matches(c, None, None, Some(0)) == Success(true)
  {
  }
}
