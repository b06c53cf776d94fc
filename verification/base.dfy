/** Optional values and the hour arithmetic every other module shares. */
module Base {
  datatype Option<+T> = None | Some(value: T)

  // Times are microseconds since the Unix epoch, the precision of timestamptz.
  const MINUTE: int := 60_000_000
  const HOUR: int := 3_600_000_000

  /** date_trunc('hour', t, 'UTC'). */
  function TruncHour(t: int): (h: int)
    ensures h % HOUR == 0 && h <= t < h + HOUR
  {
    t - t % HOUR
  }

  predicate InHour(t: int, hour: int) {
    hour <= t < hour + HOUR
  }

  // Go truncates time since year 1; in milliseconds before the Unix epoch.
  const ZERO_MILLIS: int := 62_135_596_800_000

  /** Time.Truncate, for times and durations that count so many units to the millisecond. */
  function TruncateUnits(t: int, d: int, perMilli: int): int {
    if d <= 0 then t else t - (t + ZERO_MILLIS * perMilli) % d
  }

  /** An instant lies in exactly one aligned hour. */
  lemma HourOfInstant(t: int, hour: int)
    requires hour % HOUR == 0
    ensures InHour(t, hour) <==> hour == TruncHour(t)
  {
    if InHour(t, hour) {
      var k, j := hour / HOUR, TruncHour(t) / HOUR;
      assert hour == k * HOUR && TruncHour(t) == j * HOUR;
      assert -HOUR < (k - j) * HOUR < HOUR;
    }
  }

  lemma AlignedGap(a: int, b: int)
    requires a % HOUR == 0 && b % HOUR == 0 && a < b
    ensures a + HOUR <= b
  {
    if b < a + HOUR {
      HourOfInstant(b, a);
      HourOfInstant(b, b);
    }
  }

  function Max(a: int, b: int): int {
    if a < b then b else a
  }

  function Min(a: int, b: int): int {
    if a < b then a else b
  }

  // ---- division facts ----

  lemma NonzeroMultiple(k: int, d: int)
    requires d > 0
    ensures k >= 1 ==> k * d >= d
    ensures k <= -1 ==> k * d <= -d
  {
    if k >= 1 { assert (k - 1) * d >= 0; }
    if k <= -1 { assert (-k - 1) * d >= 0; }
  }

  lemma DivUnique(t: int, d: int, q: int, r: int)
    requires d > 0 && t == q * d + r && 0 <= r < d
    ensures t / d == q && t % d == r
  {
    var k := q - t / d;
    assert t / d * d + t % d == t;
    assert k * d == t % d - r;
    NonzeroMultiple(k, d);
  }

  lemma SignOfProduct(x: real, n: real)
    requires n > 0.0
    ensures x * n >= 0.0 <==> x >= 0.0
  {
  }
}
