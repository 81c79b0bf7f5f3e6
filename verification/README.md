# Time clause of the mock component

A model of `TimeClause`, the time-based expectation of Camel's mock
component. It decides whether a message was received within a configured
window of a neighbouring message: the previous one (`beforeNext()`) or the
next one (`afterPrevious()`, the default). The window is configured with a
small DSL: `noLaterThan(n)` or `between(f, t)`, followed by `millis()`,
`seconds()` or `minutes()`.

The model is functional. A `Clause` is an immutable record with an optional
lower bound, an upper bound that must be set before evaluation, and a
direction. Each DSL call is a function from clause to clause. An evaluation
receives the previous and next timestamps and the current message's received
timestamp as `Option<int>` milliseconds. It returns a `Result`: either a
`Verdict` (a boundary pass, or the measured delta and whether it is in the
window) or an `EvalError`.

The source writes its per-call diagnostic (`was`) into a field of the shared
clause, even though its own comment says evaluation must not store state.
The model never does this. `Diagnostic` derives the "delta: N millis" text
from the verdict that the call returns.

Modules:

- `Wrappers` defines `Option` and `Result`.
- `TimeValue` defines the (number, unit) time value and its conversion to
  milliseconds. The `Time` class is not part of this model. Its conversion is
  assumed to be `number × {1, 1000, 60000}` for milliseconds, seconds and
  minutes.
- `Decimal` renders non-negative numbers in decimal and parses them back.
- `TimeClause` holds the DSL, the resolution of the other timestamp, the
  window check, the evaluation, the diagnostic and the predicate interface.
  `NewClause` is the constructor: no bounds, direction "after previous".
- `TimeClauseProperties` holds lemmas that relate several calls.

Three behaviours of the code that are easy to misread:

- A unit selection replaces the lower bound only when `from > 0`. Otherwise
  it keeps whatever lower bound was there. So `noLaterThan` after an earlier
  `between` does not clear the earlier lower bound
  (`EarlierLowerBoundSurvivesNoLaterThan`).
- The received timestamp is read before the neighbours are resolved, but it
  is dereferenced only when a comparison happens. So a lone message passes
  even without a received timestamp. Only with a neighbour does a missing
  timestamp become an error (`MissingReceivedTimestamp`).
- The delta text is recorded only when a comparison happens. A boundary pass
  leaves it null.

## Model

| member | source | states |
|---|---|---|
| TimeValue.ToMillis | components/camel-mock/src/main/java/org/apache/camel/component/mock/TimeClause.java:164-175 | a millisecond time converts to itself; the conversion is positive, zero or negative exactly as the number is |
| TimeValue.UnitLadder | components/camel-mock/src/main/java/org/apache/camel/component/mock/TimeClause.java:69-82 | n minutes are 60·n seconds, and n seconds are 1000·n milliseconds |
| TimeValue.ToMillisMonotone | components/camel-mock/src/main/java/org/apache/camel/component/mock/TimeClause.java:175-176 | within one unit, a larger number never gives a shorter bound in milliseconds |
| TimeValue.Int32MillisFitLong | components/camel-mock/src/main/java/org/apache/camel/component/mock/TimeClause.java:56-57 | every Java `int` bound in every unit converts to a millisecond count within Java `long` range |
| Decimal.Digits | components/camel-mock/src/main/java/org/apache/camel/component/mock/TimeClause.java:168 | the rendered delta is a non-empty digit string with no leading zero, and it starts with '0' only for zero |
| Decimal.ParseDigitsOfDigits | components/camel-mock/src/main/java/org/apache/camel/component/mock/TimeClause.java:168 | parsing a rendered number gives back the number |
| Decimal.DigitsOfParseDigits | components/camel-mock/src/main/java/org/apache/camel/component/mock/TimeClause.java:168 | rendering the value of a canonical numeral gives back the numeral, so rendering is a bijection onto canonical numerals |
| TimeClause.NewClause | components/camel-mock/src/main/java/org/apache/camel/component/mock/TimeClause.java:40-48 | a new clause has neither bound set and compares with the next message ("after previous") |
| TimeClause.NoLaterThan | components/camel-mock/src/main/java/org/apache/camel/component/mock/TimeClause.java:59-61 | `noLaterThan(period)` carries `period` as the upper bound and a `from` that sets no lower bound |
| TimeClause.Between | components/camel-mock/src/main/java/org/apache/camel/component/mock/TimeClause.java:63-67 | `between(from, to)` carries both values unchanged to the unit selection |
| TimeClause.Period | components/camel-mock/src/main/java/org/apache/camel/component/mock/TimeClause.java:84-89 | choosing a unit always sets the upper bound to `to` in that unit; it sets the lower bound to `from` in the same unit only when `from > 0` and otherwise keeps it; the direction is unchanged |
| TimeClause.SetBeforeNext | components/camel-mock/src/main/java/org/apache/camel/component/mock/TimeClause.java:103-105 | the direction becomes "before next" and both bounds are unchanged |
| TimeClause.SetAfterPrevious | components/camel-mock/src/main/java/org/apache/camel/component/mock/TimeClause.java:107-109 | the direction becomes "after previous" and both bounds are unchanged |
| TimeClause.OperationText | components/camel-mock/src/main/java/org/apache/camel/component/mock/TimeClause.java:210-217 | the operator text is "before next" exactly for that direction, and "after previous" exactly for the other |
| TimeClause.OtherDate | components/camel-mock/src/main/java/org/apache/camel/component/mock/TimeClause.java:187-208 | the result is absent only when both neighbours are; a lone neighbour is chosen whatever the direction; with both, "before next" picks the previous and "after previous" picks the next |
| TimeClause.Delta | components/camel-mock/src/main/java/org/apache/camel/component/mock/TimeClause.java:164-167 | the delta is non-negative, equals one of the two differences, and is at least both of them (the absolute difference) |
| TimeClause.CheckWindow | components/camel-mock/src/main/java/org/apache/camel/component/mock/TimeClause.java:170-177 | the sequential test (lower bound first, upper bound only when it passed) holds exactly when the delta is in the inclusive window |
| TimeClause.Evaluate | components/camel-mock/src/main/java/org/apache/camel/component/mock/TimeClause.java:146-185 | no upper bound gives a configuration error for every input; no neighbour gives a boundary pass; a neighbour without a received timestamp gives an input error; otherwise the verdict carries the absolute delta to the resolved neighbour and whether it lies in the window |
| TimeClause.Diagnostic | components/camel-mock/src/main/java/org/apache/camel/component/mock/TimeClause.java:147-168 | a boundary pass records no delta text; a comparison records a text from which its delta is read back exactly |
| TimeClause.DeltaTextRoundTrip | components/camel-mock/src/main/java/org/apache/camel/component/mock/TimeClause.java:168 | parsing "delta: N millis" gives back N |
| TimeClause.MatchesReturningFailureMessage | components/camel-mock/src/main/java/org/apache/camel/component/mock/TimeClause.java:129-144 | errors propagate unchanged; no message exactly when the evaluation passes; a message holds both neighbour values and the operator text |
| TimeClause.Matches | components/camel-mock/src/main/java/org/apache/camel/component/mock/TimeClause.java:124-127 | true exactly when no failure message is produced, which is exactly when the evaluation passes; errors propagate |
| TimeClauseProperties.FreshNoLaterThan | components/camel-mock/src/main/java/org/apache/camel/component/mock/TimeClause.java:59-61 | on a fresh clause `noLaterThan(n).<unit>` gives an upper bound of n in that unit, no lower bound, and the default direction |
| TimeClauseProperties.FreshBetween | components/camel-mock/src/main/java/org/apache/camel/component/mock/TimeClause.java:84-89 | on a fresh clause `between(f, t).<unit>` gives a lower bound of f only when f > 0, and always an upper bound of t, in the same unit |
| TimeClauseProperties.NonPositiveFromIsNoLaterThan | components/camel-mock/src/main/java/org/apache/camel/component/mock/TimeClause.java:84-89 | `between(f, t)` with f ≤ 0 configures exactly what `noLaterThan(t)` does |
| TimeClauseProperties.EarlierLowerBoundSurvivesNoLaterThan | components/camel-mock/src/main/java/org/apache/camel/component/mock/TimeClause.java:84-89 | `between(2, 5).seconds()` then `noLaterThan(3).seconds()` leaves the window "between 2-3 seconds" |
| TimeClauseProperties.DirectionLastWriteWins | components/camel-mock/src/main/java/org/apache/camel/component/mock/TimeClause.java:103-109 | of two direction calls, only the last has an effect |
| TimeClauseProperties.DirectionCommutesWithPeriod | components/camel-mock/src/main/java/org/apache/camel/component/mock/TimeClause.java:84-109 | setting the direction before or after choosing the window gives the same clause |
| TimeClauseProperties.DefaultDirection | components/camel-mock/src/main/java/org/apache/camel/component/mock/TimeClause.java:42 | a fresh clause compares with the next message and its operator text is "after previous" |
| TimeClauseProperties.DirectionMattersOnlyWithBothNeighbours | components/camel-mock/src/main/java/org/apache/camel/component/mock/TimeClause.java:187-208 | both directions resolve the same timestamp unless both neighbours exist, and then they resolve different ones when the neighbours differ |
| TimeClauseProperties.UnsetPeriodFailsForEveryInput | components/camel-mock/src/main/java/org/apache/camel/component/mock/TimeClause.java:150-152 | without an upper bound every evaluation is the configuration error, never a match result |
| TimeClauseProperties.BoundaryPassWhateverWindow | components/camel-mock/src/main/java/org/apache/camel/component/mock/TimeClause.java:156-161 | with neither neighbour the clause holds for every configured window, gives no failure message and records no delta |
| TimeClauseProperties.MissingTimestampFailsWithNeighbour | components/camel-mock/src/main/java/org/apache/camel/component/mock/TimeClause.java:154-164 | with a neighbour but no received timestamp the evaluation fails with the input error |
| TimeClauseProperties.MatchesIffWithinWindow | components/camel-mock/src/main/java/org/apache/camel/component/mock/TimeClause.java:164-177 | the clause holds iff (no lower bound or delta ≥ lower) and delta ≤ upper, for the absolute delta to the resolved neighbour |
| TimeClauseProperties.NoLowerBoundIsUpperBoundOnly | components/camel-mock/src/main/java/org/apache/camel/component/mock/TimeClause.java:170-177 | without a lower bound the clause holds iff delta ≤ upper |
| TimeClauseProperties.BoundsAreInclusive | components/camel-mock/src/main/java/org/apache/camel/component/mock/TimeClause.java:170-177 | a delta equal to the lower or to the upper bound passes |
| TimeClauseProperties.RaisingUpperBoundKeepsPass | components/camel-mock/src/main/java/org/apache/camel/component/mock/TimeClause.java:174-177 | a clause that holds still holds after its upper bound is raised within the same unit |
| TimeClauseProperties.SwappingTimestampsKeepsOutcome | components/camel-mock/src/main/java/org/apache/camel/component/mock/TimeClause.java:166-167 | exchanging the current and the neighbour timestamp gives the same delta and the same verdict |
| TimeClauseProperties.DeltaFitsLongForEpochTimestamps | components/camel-mock/src/main/java/org/apache/camel/component/mock/TimeClause.java:164-167 | for non-negative `long` timestamps the difference and its absolute value stay within `long` range |
| TimeClauseProperties.ScenarioWithinUpperBound | components/camel-mock/src/main/java/org/apache/camel/component/mock/TimeClause.java:146-185 | `noLaterThan(2).seconds()`, current 1000, next 2500: delta 1500, passes |
| TimeClauseProperties.ScenarioBeyondUpperBound | components/camel-mock/src/main/java/org/apache/camel/component/mock/TimeClause.java:129-185 | `noLaterThan(2).seconds()`, current 1000, next 4000: delta 3000, fails with a message naming the neighbours and "after previous" |
| TimeClauseProperties.ScenarioBetweenBeforeNext | components/camel-mock/src/main/java/org/apache/camel/component/mock/TimeClause.java:146-208 | `between(1, 3).seconds()` with `beforeNext()`, current 5000, previous 3000: delta 2000, passes |
| TimeClauseProperties.ScenarioLoneMessage | components/camel-mock/src/main/java/org/apache/camel/component/mock/TimeClause.java:156-161 | a message with no neighbours passes even against an empty window |

## Left out

- Evaluating the `Exchange` and the two `Expression`s (TimeClause.java:137-138, :154) is outside the model. The previous and next values and the received timestamp are passed in as `Option<int>` millisecond timestamps.
- A neighbour value that is not a `java.util.Date` would raise a `ClassCastException` at TimeClause.java:193-204. Neighbours are typed as timestamps, so this case does not arise.
- `Time` and `java.util.Date` internals are reduced to the millisecond conversion stated above. The `Time` class is not part of this model.
- TimeClause.Delta: timestamps and deltas are unbounded integers, not Java `long`s. The subtraction at TimeClause.java:167 wraps for timestamps 2^63 ms or more apart, and `Math.abs(Long.MIN_VALUE)` stays negative; neither is modelled. `DeltaFitsLongForEpochTimestamps` shows that neither happens for timestamps at or after the epoch.
- `toString` (TimeClause.java:219-228) is left out. It depends on `Time.toString`, which is not part of this model, and on `TimeUnit` names. The delta text it embeds is modelled by `Diagnostic`.
- The `was` field is replaced by the returned verdict and `Diagnostic`. The model has no shared mutable state.
- The failure message is kept as its parts (both neighbour values and the operator text). Rendering them depends on `Date.toString`.
- Debug logging (TimeClause.java:179-182) has no semantic effect.
- `getLeft`, `getRight` and `getOperator` are plain accessors. `getOperator` returns `OperationText`.
- `PropertyTrait` (dsl/camel-dsl-modeline) delegates its only parsing to `StringHelper`, which is not part of this model. The rest of it is resource loading and property I/O.
- `ActiveMQEndpointConfigurer` (components/camel-activemq) is a generated name-to-setter table with no algorithm.
