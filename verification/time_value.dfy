/** A time value: a magnitude paired with a unit, convertible to milliseconds.
    Only the three units the time-clause DSL can select are modelled. */
module TimeValue {

  /** The `java.util.concurrent.TimeUnit` constants the DSL uses. */
  datatype TimeUnit = Milliseconds | Seconds | Minutes

  /** An immutable (number, unit) pair. */
  datatype Time = Time(number: int, unit: TimeUnit)

  /** Largest value of a Java `long`. */
  const LongMax: int := 0x7fff_ffff_ffff_ffff
  /** Smallest value of a Java `long`. */
  const LongMin: int := -0x8000_0000_0000_0000

  /** Java `int`, the type of the DSL's `period`, `from` and `to` arguments. */
  type Int32 = x: int | -0x8000_0000 <= x <= 0x7fff_ffff

  predicate IsLong(x: int) {
    LongMin <= x <= LongMax
  }

  /** How many milliseconds one unit holds. */
  function UnitFactor(u: TimeUnit): (f: nat)
    ensures f > 0
  {
    match u
    case Milliseconds => 1
    case Seconds => 1000
    case Minutes => 60_000
  }

  /** The time value as a millisecond count. */
  function ToMillis(t: Time): (ms: int)
    ensures t.unit == Milliseconds ==> ms == t.number
    ensures ms > 0 <==> t.number > 0
    ensures ms == 0 <==> t.number == 0
  {
    t.number * UnitFactor(t.unit)
  }

  /** A minute is sixty seconds and a second is a thousand milliseconds. */
  lemma UnitLadder(n: int)
    ensures ToMillis(Time(n, Minutes)) == ToMillis(Time(60 * n, Seconds))
    ensures ToMillis(Time(n, Seconds)) == ToMillis(Time(1000 * n, Milliseconds))
  {
  }

  /** Within one unit, a larger number is never a shorter time. */
  lemma ToMillisMonotone(a: Time, b: Time)
    requires a.unit == b.unit && a.number <= b.number
    ensures ToMillis(a) <= ToMillis(b)
  {
  }

  /** Any bound the DSL can configure (a Java `int` in any unit) converts to
      milliseconds without leaving the range of a Java `long`. */
  lemma Int32MillisFitLong(n: Int32, u: TimeUnit)
    ensures IsLong(ToMillis(Time(n, u)))
  {
  }
}
