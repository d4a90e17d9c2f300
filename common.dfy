/** Values shared by the dashboard, the two cloud handlers and the sensor firmware. */
module Common {

  datatype Option<T> = None | Some(value: T)

  /** One sensor reading as the store keeps it and the dashboard receives it:
      `device_id`, `timestamp` in epoch milliseconds, temperature in °C and
      relative humidity in percent. Floating-point numbers are modelled as reals. */
  datatype Measurement = Measurement(deviceId: string, timestamp: int, temperature: real, humidity: real)

  /** A value a JavaScript handler throws: an `Error` with its message, or anything else. */
  datatype Failure = ErrorObject(message: string) | OtherValue

  /** The time values a JavaScript `Date` can hold (ECMAScript's TimeClip):
      at most 8.64e15 ms either side of the epoch. `new Date(t).toISOString()`
      throws a `RangeError` outside this range. */
  predicate ValidTimeValue(t: int) {
    -8640000000000000 <= t <= 8640000000000000
  }

  /** A non-empty sequence is its front followed by its last element. */
  lemma SnocSplit<T>(s: seq<T>)
    requires s != []
    ensures s[..|s| - 1] + [s[|s| - 1]] == s
  {
  }

  lemma AppendAssoc<T>(x: seq<T>, y: seq<T>, z: seq<T>)
    ensures x + (y + z) == (x + y) + z
  {
  }

  lemma MulAtLeast(k: int, d: int)
    requires k >= 1 && d > 0
    ensures k * d >= d
  {
  }

  /** Euclidean division is determined by its quotient and remainder. */
  lemma DivUnique(x: int, d: int, q: int, r: int)
    requires d > 0 && 0 <= r < d && x == q * d + r
    ensures x / d == q && x % d == r
  {
    var q0 := x / d;
    if q0 > q {
      MulAtLeast(q0 - q, d);
    } else if q0 < q {
      MulAtLeast(q - q0, d);
    }
  }
}
