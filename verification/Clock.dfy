/** The Windows clock: a counter and its frequency turned into seconds and nanoseconds. */
module Clock {
  import opened Words

  const NANOS: int := 1_000_000_000
  const INT64_MAX: int := 0x7fff_ffff_ffff_ffff

  /** The largest frequency for which no remainder overflows when scaled to nanoseconds. */
  const MAX_FREQUENCY: int := 9_223_372_037

  type Frequency = f: int | 0 < f <= INT64_MAX witness 1
  type Counter = c: int | 0 <= c <= INT64_MAX

  datatype Query<T> = Refused | Answered(value: T)

  /** What a 64-bit signed operation leaves of an exact result. */
  function Signed64(x: int): (r: int)
    ensures -INT64_MAX - 1 <= r <= INT64_MAX
  {
    var m := x % WORD64;
    if m <= INT64_MAX then m else m - WORD64
  }

  function Seconds(counter: Counter, frequency: Frequency): int {
    counter / frequency
  }

  function Nanoseconds(counter: Counter, frequency: Frequency): int {
    Truncated(Signed64(counter % frequency * NANOS), frequency)
  }

  /** The pair is the counter's value in nanoseconds, rounded down, in normal form. */
  predicate Exact(counter: Counter, frequency: Frequency, sec: int, nsec: int) {
    0 <= nsec < NANOS && sec * NANOS + nsec == counter * NANOS / frequency
  }

  lemma QuotientMonotone(a: int, b: int, m: int)
    requires 0 <= a <= b && m > 0
    ensures a / m <= b / m
  {
    assert b == m * (b / m) + b % m < m * (b / m + 1);
    QuotientBelow(a, m, b / m + 1);
  }

  lemma Recombine(f: int, q: int, r: int, k: int, n: int, rest: int)
    requires r * k == n * f + rest
    ensures (q * f + r) * k == (q * k + n) * f + rest
  {
    assert q * f * k == q * k * f;
  }

  /** Multiplying only the remainder loses nothing of the exact quotient. */
  lemma SplitDivision(counter: int, frequency: int)
    requires counter >= 0 && frequency > 0
    ensures counter * NANOS / frequency == counter / frequency * NANOS + counter % frequency * NANOS / frequency
    ensures 0 <= counter % frequency * NANOS / frequency < NANOS
  {
    var q, r := counter / frequency, counter % frequency;
    var n, rest := r * NANOS / frequency, r * NANOS % frequency;
    QuotientBelow(r * NANOS, frequency, NANOS);
    Recombine(frequency, q, r, NANOS, n, rest);
    QuotientIs(counter * NANOS, frequency, q * NANOS + n, rest);
  }

  predicate ExactAt(counter: Counter, frequency: Frequency) {
    Exact(counter, frequency, Seconds(counter, frequency), Nanoseconds(counter, frequency))
  }

  /** Whatever a wrapped product leaves, its quotient by a frequency this large is too small. */
  lemma WrappedQuotientSmall(w: int, frequency: int)
    requires w <= INT64_MAX && frequency > 0
    requires w > 0 ==> frequency > 18_446_744_073
    ensures Truncated(w, frequency) < NANOS - 1
  {
    if w > 0 {
      assert w < frequency * (NANOS - 1);
      QuotientBelow(w, frequency, NANOS - 1);
    }
  }

  /** The counter just below a large frequency is converted wrongly. */
  lemma LargeFrequencyFails(frequency: Frequency)
    requires frequency > MAX_FREQUENCY
    ensures !ExactAt(frequency - 1, frequency)
  {
    var p := (frequency - 1) * NANOS;
    QuotientIs(frequency - 1, frequency, 0, frequency - 1);
    QuotientIs(p, frequency, NANOS - 1, frequency - NANOS);
    if p < WORD64 {
      QuotientIs(p, WORD64, 0, p);
    }
    WrappedQuotientSmall(Signed64(p), frequency);
  }

  /** The conversion is right for every counter exactly when the frequency is at most MAX_FREQUENCY. */
  lemma ExactIff(frequency: Frequency)
    ensures (forall counter: Counter :: ExactAt(counter, frequency)) <==> frequency <= MAX_FREQUENCY
  {
    if frequency <= MAX_FREQUENCY {
      forall counter: Counter
        ensures ExactAt(counter, frequency)
      {
        ExactWhenSlow(counter, frequency);
      }
    } else {
      LargeFrequencyFails(frequency);
    }
  }

  lemma ExactWhenSlow(counter: Counter, frequency: Frequency)
    requires frequency <= MAX_FREQUENCY
    ensures ExactAt(counter, frequency)
  {
    SplitDivision(counter, frequency);
    var p := counter % frequency * NANOS;
    assert 0 <= p <= (MAX_FREQUENCY - 1) * NANOS <= INT64_MAX;
    assert Signed64(p) == p;
  }

  /** Scaling the counter itself would already overflow after MAX_FREQUENCY ticks. */
  lemma DirectProductOverflows(counter: Counter)
    ensures counter * NANOS <= INT64_MAX <==> counter < MAX_FREQUENCY
  {
  }

  /** Time never goes backwards: later counters give the same or a later time. */
  lemma Monotone(c: Counter, d: Counter, frequency: Frequency)
    requires c <= d && frequency <= MAX_FREQUENCY
    ensures Seconds(c, frequency) <= Seconds(d, frequency)
    ensures Seconds(c, frequency) == Seconds(d, frequency) ==> Nanoseconds(c, frequency) <= Nanoseconds(d, frequency)
  {
    QuotientMonotone(c, d, frequency);
    ExactWhenSlow(c, frequency);
    ExactWhenSlow(d, frequency);
    QuotientMonotone(c * NANOS, d * NANOS, frequency);
  }

  class Timespec {
    var sec: int
    var nsec: int
  }

  /** The static variables of the clock: the frequency is asked for until it is first answered. */
  class PerformanceClock {
    var frequency: Frequency
    var initialized: bool

    constructor ()
      ensures !initialized
    {
      frequency, initialized := 1, false;
    }

    /** A failed call leaves the time as it was; the first frequency answered is kept for good. */
    method GetTime(ts: Timespec?, asked: Query<Frequency>, counter: Query<Counter>) returns (r: int)
      modifies this, ts
      ensures r == 0 <==> ts != null && (old(initialized) || asked.Answered?) && counter.Answered?
      ensures r == 0 || r == -1
      ensures initialized <==> old(initialized) || (ts != null && asked.Answered?)
      ensures frequency == if !old(initialized) && initialized then asked.value else old(frequency)
      ensures r != 0 && ts != null ==> ts.sec == old(ts.sec) && ts.nsec == old(ts.nsec)
      ensures r == 0 && frequency <= MAX_FREQUENCY ==> Exact(counter.value, frequency, ts.sec, ts.nsec)
      ensures r == 0 ==> ts.sec == Seconds(counter.value, frequency)
      ensures r == 0 ==> ts.nsec == Nanoseconds(counter.value, frequency)
    {
      if ts == null {
        return -1;
      }
      if !initialized {
        if asked.Refused? {
          return -1;
        }
        frequency := asked.value;
        initialized := true;
      }
      if counter.Refused? {
        return -1;
      }
      var seconds := counter.value / frequency;
      var remainder := counter.value % frequency;
      var nanoseconds := Truncated(Signed64(remainder * NANOS), frequency);
      ts.sec := seconds;
      ts.nsec := nanoseconds;
      if frequency <= MAX_FREQUENCY {
        ExactWhenSlow(counter.value, frequency);
      }
      return 0;
    }
  }
}
