/** RTP timestamps, which wrap around, and the conversion between milliseconds and NTP time. */
module Time {
  import opened Common

  const WRAP: int := 0x1_0000_0000
  const HALF: int := 0x8000_0000

  /** Unsigned 32-bit subtraction. */
  function Ahead(a: u32, b: u32): u32 { (a - b) % WRAP }

  predicate IsNewerTimestamp(timestamp: u32, previous: u32) {
    if Ahead(timestamp, previous) == HALF then timestamp > previous
    else timestamp != previous && Ahead(timestamp, previous) < HALF
  }

  function LatestTimestamp(a: u32, b: u32): u32 { if IsNewerTimestamp(a, b) then a else b }

  /** Of two different timestamps exactly one is newer, at distance 2^31 too. */
  lemma ExactlyOneNewer(a: u32, b: u32)
    ensures a != b ==> (IsNewerTimestamp(a, b) <==> !IsNewerTimestamp(b, a))
    ensures a == b ==> !IsNewerTimestamp(a, b) && !IsNewerTimestamp(b, a)
    ensures LatestTimestamp(a, b) == LatestTimestamp(b, a)
    ensures a - b == 0x8000_0000 || b - a == 0x8000_0000 ==> (IsNewerTimestamp(a, b) <==> a > b)
  {
    assert a != b ==> Ahead(a, b) + Ahead(b, a) == WRAP;
  }

  /** Comparing wrapped timestamps is comparing the unwrapped ones, if these are close. */
  lemma NewerIsGreater(x: nat, y: nat)
    requires -HALF < x - y < HALF
    ensures IsNewerTimestamp(x % WRAP, y % WRAP) <==> x > y
  {
    AheadUnwrapped(x, y);
    AheadUnwrapped(y, x);
  }

  lemma AheadUnwrapped(x: nat, y: nat)
    requires -HALF < x - y < HALF
    ensures Ahead(x % WRAP, y % WRAP) == if x >= y then x - y else x - y + WRAP
    ensures x % WRAP == y % WRAP <==> x == y
  {
  }

  function Max(x: nat, y: nat): nat { if x > y then x else y }

  /** The running maximum of a stream of unwrapped timestamps. */
  function Highest(first: nat, stream: seq<nat>): nat {
    if stream == [] then first else Max(Highest(first, Init(stream)), Last(stream))
  }

  /** The same kept on wrapped timestamps only. */
  function HighestWrapped(first: u32, stream: seq<nat>): u32 {
    if stream == [] then first else LatestTimestamp(Last(stream) % WRAP, HighestWrapped(first, Init(stream)))
  }

  /** As long as every timestamp is less than 2^31 away from the highest so far, keeping the latest of the wrapped
      timestamps keeps track of the highest one, through any number of wrap-arounds. */
  lemma {:induction false} LatestTracksHighest(first: nat, stream: seq<nat>)
    requires forall n :: 0 <= n < |stream| ==> -HALF < stream[n] - Highest(first, stream[..n]) < HALF
    ensures HighestWrapped(first % WRAP, stream) == Highest(first, stream) % WRAP
  {
    if stream != [] {
      var before := Init(stream);
      forall n | 0 <= n < |before|
        ensures -HALF < before[n] - Highest(first, before[..n]) < HALF
      {
        assert before[..n] == stream[..n] && before[n] == stream[n];
      }
      LatestTracksHighest(first, before);
      assert stream[..|stream| - 1] == before;
      NewerIsGreater(Last(stream), Highest(first, before));
    }
  }

  // ----- NTP -----

  datatype Ntp = Ntp(seconds: u32, fractions: u32)

  const NTP_UNIT: real := 4294967296.0

  /** `q` is what double division gives for r / 1000: within one part in 2^52 of it, in any rounding mode. */
  ghost predicate IsQuotient(q: real, r: int) {
    var exact := r as real / 1000.0;
    -exact <= 4503599627370496.0 * (q - exact) <= exact
  }

  /** `q` is the double quotient of the milliseconds; scaling it by 2^32 is exact. */
  function TimeMs2Ntp(ms: nat, q: real): Ntp
    requires IsQuotient(q, ms % 1000)
  {
    FractionBounds(ms % 1000, q);
    Ntp(ms / 1000 % WRAP, (q * NTP_UNIT).Floor)
  }

  /** Both operations on doubles are exact here: the product is below 2^42 and the divisor is a power of two. */
  function Ntp2TimeMs(ntp: Ntp): int {
    ntp.seconds * 1000 + (ntp.fractions as real * 1000.0 / NTP_UNIT + 0.5).Floor
  }

  lemma FractionBounds(r: int, q: real)
    requires 0 <= r < 1000 && IsQuotient(q, r)
    ensures 0 <= (q * NTP_UNIT).Floor < WRAP
  {
    assert 0.0 <= q < 1.0;
  }

  lemma MillisecondsRestored(r: int, q: real)
    requires 0 <= r < 1000 && IsQuotient(q, r)
    ensures ((q * NTP_UNIT).Floor as real * 1000.0 / NTP_UNIT + 0.5).Floor == r
  {
    var scaled := q * NTP_UNIT;
    var f := scaled.Floor as real;
    assert scaled - 1.0 < f <= scaled;
    var y := f * 1000.0 / NTP_UNIT;
    assert q * 1000.0 - 1000.0 / NTP_UNIT < y <= q * 1000.0;
    assert r as real - 0.01 < q * 1000.0 < r as real + 0.01;
    assert r as real <= y + 0.5 < r as real + 1.0;
  }

  /** The fraction is that of the milliseconds to less than a unit and a bit, and the seconds are whole and wrap. */
  lemma NtpExact(ms: nat, q: real)
    requires IsQuotient(q, ms % 1000)
    ensures var ntp, exact := TimeMs2Ntp(ms, q), (ms % 1000) as real * NTP_UNIT / 1000.0;
            && ntp.seconds == (ms / 1000) % WRAP
            && exact - 1.000001 < ntp.fractions as real < exact + 0.000001
  {
    var r := ms % 1000;
    var exact := r as real / 1000.0;
    var scaled := q * NTP_UNIT;
    assert scaled - 1.0 < scaled.Floor as real <= scaled;
    assert 0.0 <= exact < 1.0;
    assert 4503599627370496.0 == 1048576.0 * NTP_UNIT;
    assert -1.0 < 1048576.0 * (scaled - exact * NTP_UNIT) < 1.0;
    assert exact * NTP_UNIT == r as real * NTP_UNIT / 1000.0;
  }

  /** The conversion round-trips exactly as long as the seconds fit 32 bits, whatever the rounding. */
  lemma NtpRoundTrip(ms: nat, q: real)
    requires IsQuotient(q, ms % 1000)
    ensures Ntp2TimeMs(TimeMs2Ntp(ms, q)) == ms <==> ms / 1000 < WRAP
  {
    MillisecondsRestored(ms % 1000, q);
  }
}
