/** Token renewal: the interval computed from the TTL, the start-up backoff, and runs of the renewal ticker. */
module Renewal {
  import opened Text

  // Durations and times are in nanoseconds.
  const SECOND: int := 1_000_000_000
  const TWO63: int := 0x8000_0000_0000_0000
  const TWO64: int := 0x1_0000_0000_0000_0000

  /** The longest whole number of seconds that a 64-bit nanosecond count holds. */
  const MAX_SECONDS: int := 9_223_372_036

  /** The `ttl` field by its dynamic type. Any other type, `json.Number` included, is not recognised. */
  datatype Ttl = Float(seconds: real) | Int(count: int) | Unrecognised

  function TtlSeconds(ttl: Ttl): real {
    match ttl
    case Float(s) => s
    case Int(n) => n as real
    case Unrecognised => 0.0
  }

  /** Conversion to an integer drops the fraction. */
  function Truncate(x: real): int { if x >= 0.0 then x.Floor else -((-x).Floor) }

  /** Two's-complement wrap-around of a 64-bit product. */
  function Wrap64(n: int): int { (n + TWO63) % TWO64 - TWO63 }

  /** A count of whole seconds as a duration of at least 30 s. */
  function AtLeastFloor(seconds: int): int {
    var candidate := Wrap64(seconds * SECOND);
    if candidate < 30 * SECOND then 30 * SECOND else candidate
  }

  function Interval(ttl: Ttl): int { AtLeastFloor(Truncate(TtlSeconds(ttl) / 3.0)) }

  function Max(a: int, b: int): int { if a < b then b else a }

  lemma ThirdFloor(n: int)
    requires n >= 0
    ensures (n as real / 3.0).Floor == n / 3
  {
    var q := n / 3;
    assert 3.0 * (q as real) <= n as real < 3.0 * (q as real) + 3.0;
    var x := n as real / 3.0;
    assert q as real <= x < q as real + 1.0;
  }

  lemma WrapFits(n: int)
    requires -TWO63 <= n < TWO63
    ensures Wrap64(n) == n
  {}

  lemma WrapRange(n: int)
    ensures -TWO63 <= Wrap64(n) < TWO63
  {}

  /**
   For an integer TTL the interval is a third of it, but at least 30 s, exactly when that fits a duration; for a
   negative one it is 30 s as long as the third fits, and after that exactly when the wrapped product is no more.
   */
  lemma IntervalExact(n: int)
    requires -TWO63 <= n < TWO63
    ensures n >= 0 ==> (Interval(Int(n)) == Max(30, n / 3) * SECOND <==> n / 3 <= MAX_SECONDS)
    ensures n < 0 ==> (Interval(Int(n)) == 30 * SECOND <==> Wrap64(-((-n) / 3) * SECOND) <= 30 * SECOND)
    ensures -3 * MAX_SECONDS <= n < 0 ==> Interval(Int(n)) == 30 * SECOND
  {
    if n >= 0 {
      ThirdFloor(n);
      if n / 3 <= MAX_SECONDS { WrapFits(n / 3 * SECOND); } else { WrapRange(n / 3 * SECOND); }
    } else {
      ThirdFloor(-n);
      assert -(n as real / 3.0) == (-n) as real / 3.0;
      if -3 * MAX_SECONDS <= n { WrapFits(-((-n) / 3) * SECOND); }
    }
  }

  /** The first negative TTL whose third does not fit wraps round to an interval of centuries. */
  lemma NegativeTtlWraps()
    ensures Interval(Int(-3 * (MAX_SECONDS + 1))) == TWO64 - (MAX_SECONDS + 1) * SECOND > MAX_SECONDS * SECOND
  {
    var n := 3 * (MAX_SECONDS + 1);
    ThirdFloor(n);
    assert -((-n) as real / 3.0) == n as real / 3.0;
  }

  /** A float TTL, of either sign: the same with the fraction of the third dropped. */
  lemma FloatInterval(x: real)
    requires -MAX_SECONDS <= Truncate(x / 3.0) <= MAX_SECONDS
    ensures Interval(Float(x)) == Max(30, Truncate(x / 3.0)) * SECOND
  {
    WrapFits(Truncate(x / 3.0) * SECOND);
  }

  // ------------------------------------------------------------------ rounding

  const TWO53: int := 0x20_0000_0000_0000

  /**
   Rounding to 64-bit floats. Integers up to 2^53 are kept; between a quarter and 2^64 the relative error is at most
   2^-53; and the sign does not matter.
   */
  ghost predicate Rounds(fl: real -> real) {
    && (forall x: real :: x.Floor as real == x && 0 <= x.Floor <= TWO53 ==> fl(x) == x)
    && (forall x: real :: 0.25 <= x <= TWO64 as real ==>
          x - x / (TWO53 as real) <= fl(x) <= x + x / (TWO53 as real))
    && (forall x: real :: x < 0.0 ==> fl(x) == -fl(-x))
  }

  /** The third with the conversion to a float and the division by three both rounded. */
  function RoundedThird(fl: real -> real, n: int): int { Truncate(fl(fl(n as real) / 3.0)) }

  /** A rounded third has the same whole part: its distance to the next integer is more than the rounding. */
  lemma RoundedThirdWhole(fl: real -> real, n: int)
    requires Rounds(fl) && 0 <= n < 4 * MAX_SECONDS
    ensures RoundedThird(fl, n) == n / 3
  {
    var x, q := n as real / 3.0, n / 3;
    assert (n as real).Floor == n && fl(n as real) == n as real;
    assert x < 2.0 * (MAX_SECONDS as real);
    var e := x / (TWO53 as real);
    assert 0.0 <= e < 0.1;
    if n % 3 == 0 {
      assert x == q as real && x.Floor == q;
    } else {
      assert q as real + 0.3 <= x <= q as real + 0.7;
    }
  }

  lemma RoundedThirdNegative(fl: real -> real, n: int)
    requires Rounds(fl) && -3 * MAX_SECONDS <= n < 0
    ensures RoundedThird(fl, n) == -((-n) / 3)
  {
    RoundedThirdWhole(fl, -n);
    assert ((-n) as real).Floor == -n && fl((-n) as real) == (-n) as real;
    assert -(n as real) == (-n) as real && fl(n as real) == n as real;
    assert -(n as real / 3.0) == (-n) as real / 3.0;
  }

  lemma DurationBounded(seconds: int)
    ensures AtLeastFloor(seconds) < TWO63
  {}

  /** The interval from the rounded third. */
  function RoundedInterval(fl: real -> real, n: int): int { AtLeastFloor(RoundedThird(fl, n)) }

  function WholeThird(n: int): int { if n >= 0 then n / 3 else -((-n) / 3) }

  lemma TruncatedThird(n: int)
    ensures Truncate(TtlSeconds(Int(n)) / 3.0) == WholeThird(n)
  {
    if n >= 0 {
      ThirdFloor(n);
    } else {
      ThirdFloor(-n);
      assert -(n as real / 3.0) == (-n) as real / 3.0;
    }
  }

  lemma RoundedThirdExact(fl: real -> real, n: int)
    requires Rounds(fl) && -3 * MAX_SECONDS <= n && n / 3 <= MAX_SECONDS
    ensures RoundedThird(fl, n) == WholeThird(n)
  {
    if n >= 0 { RoundedThirdWhole(fl, n); } else { RoundedThirdNegative(fl, n); }
  }

  /** Rounding changes nothing where the interval is the one promised, for every 64-bit integer TTL. */
  lemma RoundedIntervalExact(fl: real -> real, n: int)
    requires Rounds(fl) && -TWO63 <= n < TWO63
    ensures n >= 0 ==> (RoundedInterval(fl, n) == Max(30, n / 3) * SECOND <==> n / 3 <= MAX_SECONDS)
    ensures -3 * MAX_SECONDS <= n && n / 3 <= MAX_SECONDS ==> RoundedInterval(fl, n) == Interval(Int(n))
  {
    if -3 * MAX_SECONDS <= n && n / 3 <= MAX_SECONDS {
      RoundedThirdExact(fl, n);
      TruncatedThird(n);
      IntervalExact(n);
    } else {
      DurationBounded(RoundedThird(fl, n));
    }
  }

  /** Whole seconds, small enough that the interval does not wrap. */
  predicate InRange(n: int) { 0 <= n && n / 3 <= MAX_SECONDS }

  /** How a lookup shows a TTL: as an integer, as a float, or in a form that is not recognised. */
  predicate Shows(n: int, shown: Ttl) { shown == Int(n) || shown == Float(n as real) || shown == Unrecognised }

  /** The interval of a TTL as it is shown: in a form that is not recognised, 30 s whatever it was. */
  lemma ShownInterval(n: int, shown: Ttl)
    requires InRange(n) && Shows(n, shown)
    ensures Interval(shown) == (if shown.Unrecognised? then 30 else Max(30, n / 3)) * SECOND
  {
    if shown.Unrecognised? {
      assert 0.0 / 3.0 == 0.0;
      WrapFits(0);
    } else {
      assert TtlSeconds(shown) == TtlSeconds(Int(n));
      IntervalExact(n);
    }
  }

  /** After a grant: the next tick comes before expiry exactly when the TTL is over 30 s. */
  lemma NextTickBeforeExpiry(n: int, shown: Ttl)
    requires InRange(n) && Shows(n, shown)
    ensures Interval(shown) < n * SECOND <==> n > 30
  {
    ShownInterval(n, shown);
  }

  /** Three ticks fit into the TTL exactly when it is at least 90 s. */
  lemma ThreeTicksFit(n: int, shown: Ttl)
    requires InRange(n) && Shows(n, shown)
    ensures 3 * Interval(shown) <= n * SECOND <==> n >= 90
  {
    ShownInterval(n, shown);
  }

  // ------------------------------------------------------------------ runs of the ticker

  /**
   One tick: renewal and lookup succeed, renewal fails, or the renewal succeeds and the lookup after it fails. The
   TTL is the one granted by the renewal; only a successful lookup shows it to the client, in some form.
   */
  datatype Tick = Renewed(granted: int, shown: Ttl) | RenewFails | LookupFails(granted: int)

  /** The time of the last tick, the ticker's interval, and when the token expires. */
  datatype Clock = Clock(now: int, interval: int, expiry: int)

  function Started(start: int, ttl: int, shown: Ttl): Clock { Clock(start, Interval(shown), start + ttl * SECOND) }

  /** Ticks are exact and calls take no time. */
  function After(c: Clock, tick: Tick): Clock {
    var now := c.now + c.interval;
    match tick
    case Renewed(n, shown) => Clock(now, Interval(shown), now + n * SECOND)
    case RenewFails => Clock(now, c.interval, c.expiry)
    case LookupFails(n) => Clock(now, c.interval, now + n * SECOND)
  }

  /** The clock after a run of ticks. */
  function RunClock(c: Clock, ticks: seq<Tick>): Clock
    decreases |ticks|
  {
    if ticks == [] then c else After(RunClock(c, ticks[..|ticks| - 1]), ticks[|ticks| - 1])
  }

  /** How many ticks in a row have failed to renew. */
  function Failing(ticks: seq<Tick>): nat
    decreases |ticks|
  {
    if ticks == [] || !ticks[|ticks| - 1].RenewFails? then 0 else Failing(ticks[..|ticks| - 1]) + 1
  }

  predicate Grants(n: int, shown: Ttl) { InRange(n) && n >= 90 && Shows(n, shown) }

  /**
   Never three failures in a row, every grant at least 90 s, and a grant that the client does not learn of at least
   three of the intervals it goes on using.
   */
  ghost predicate Tolerable(c: Clock, ticks: seq<Tick>)
    decreases |ticks|
  {
    ticks != [] ==>
      var before := ticks[..|ticks| - 1];
      && Tolerable(c, before)
      && Failing(ticks) <= 2
      && match ticks[|ticks| - 1]
         case Renewed(n, shown) => Grants(n, shown)
         case RenewFails => true
         case LookupFails(n) => 3 * RunClock(c, before).interval <= n * SECOND
  }

  /** Room for `room` more ticks. */
  predicate Room(c: Clock, room: int) { c.interval > 0 && c.now + room * c.interval <= c.expiry }

  lemma RoomAfterGrant(now: int, n: int, shown: Ttl)
    requires Grants(n, shown)
    ensures Room(Clock(now, Interval(shown), now + n * SECOND), 3)
  {
    ThreeTicksFit(n, shown);
    ShownInterval(n, shown);
  }

  lemma RoomAfterFailure(c: Clock, room: int)
    requires Room(c, room)
    ensures Room(After(c, RenewFails), room - 1)
  {
    assert room * c.interval == (room - 1) * c.interval + c.interval;
  }

  /** After `f` failures in a row there is still room for `3 - f` ticks. */
  lemma {:induction false} RoomLeft(start: int, ttl: int, shown: Ttl, ticks: seq<Tick>)
    requires Grants(ttl, shown) && Tolerable(Started(start, ttl, shown), ticks)
    ensures Room(RunClock(Started(start, ttl, shown), ticks), 3 - Failing(ticks))
    decreases |ticks|
  {
    if ticks == [] {
      RoomAfterGrant(start, ttl, shown);
    } else {
      var before := ticks[..|ticks| - 1];
      var c := RunClock(Started(start, ttl, shown), before);
      RoomLeft(start, ttl, shown, before);
      match ticks[|ticks| - 1]
      case Renewed(n, seen) => RoomAfterGrant(c.now + c.interval, n, seen);
      case RenewFails => RoomAfterFailure(c, 3 - Failing(before));
      case LookupFails(_) =>
    }
  }

  /**
   Over any such run the token never expires before an attempt to renew it: the tick after any stretch of the run, of
   which the last two may have failed, is no later than the expiry.
   */
  lemma AttemptBeforeExpiry(start: int, ttl: int, shown: Ttl, ticks: seq<Tick>)
    requires Grants(ttl, shown) && Tolerable(Started(start, ttl, shown), ticks)
    ensures var c := RunClock(Started(start, ttl, shown), ticks); c.now + c.interval <= c.expiry
  {
    RoomLeft(start, ttl, shown, ticks);
    var c := RunClock(Started(start, ttl, shown), ticks);
    assert Failing(ticks) <= 2;
    RoomForOne(c, 3 - Failing(ticks));
  }

  lemma RoomForOne(c: Clock, room: int)
    requires room >= 1 && Room(c, room)
    ensures c.now + c.interval <= c.expiry
  {
    assert (room - 1) * c.interval >= 0;
    assert room * c.interval == (room - 1) * c.interval + c.interval;
  }

  /** The tick after a grant that the client knows of precedes expiry exactly when the grant is over 30 s. */
  lemma TickAfterGrant(start: int, ttl: int, shown: Ttl, ticks: seq<Tick>)
    requires if ticks == [] then InRange(ttl) && Shows(ttl, shown)
             else
               var last := ticks[|ticks| - 1];
               last.Renewed? && InRange(last.granted) && Shows(last.granted, last.shown)
    ensures var c := RunClock(Started(start, ttl, shown), ticks);
            var granted := if ticks == [] then ttl else ticks[|ticks| - 1].granted;
            c.now + c.interval < c.expiry <==> granted > 30
  {
    if ticks == [] {
      NextTickBeforeExpiry(ttl, shown);
    } else {
      NextTickBeforeExpiry(ticks[|ticks| - 1].granted, ticks[|ticks| - 1].shown);
    }
  }

  /** When the lookup fails, the tick after it precedes expiry exactly when the old interval is below the new TTL. */
  lemma TickAfterUnseenGrant(start: int, ttl: int, shown: Ttl, ticks: seq<Tick>, granted: int)
    ensures var before := RunClock(Started(start, ttl, shown), ticks);
            var c := RunClock(Started(start, ttl, shown), ticks + [LookupFails(granted)]);
            c.now + c.interval < c.expiry <==> before.interval < granted * SECOND
  {
    assert (ticks + [LookupFails(granted)])[..|ticks|] == ticks;
  }

  /** A grant of ten minutes after one of an hour, not seen by the client: the next tick comes after expiry. */
  lemma UnseenShorterGrant()
    ensures var c := RunClock(Started(0, 3600, Int(3600)), [LookupFails(600)]); c.expiry < c.now + c.interval
  {
    IntervalExact(3600);
    TickAfterUnseenGrant(0, 3600, Int(3600), [], 600);
    assert [] + [LookupFails(600)] == [LookupFails(600)];
    assert RunClock(Started(0, 3600, Int(3600)), [LookupFails(600)][..0]) == Started(0, 3600, Int(3600));
  }

  /** The loop: `interval` changes when a lookup brings a different one. */
  method RenewalLoop(start: int, ttl: int, shown: Ttl, ticks: seq<Tick>)
    returns (now: int, interval: int, failures: nat)
    ensures now == RunClock(Started(start, ttl, shown), ticks).now
    ensures interval == RunClock(Started(start, ttl, shown), ticks).interval
    ensures failures == |set i | 0 <= i < |ticks| && (ticks[i].RenewFails? || ticks[i].LookupFails?)|
  {
    now, interval, failures := start, Interval(shown), 0;
    for i := 0 to |ticks|
      invariant now == RunClock(Started(start, ttl, shown), ticks[..i]).now
      invariant interval == RunClock(Started(start, ttl, shown), ticks[..i]).interval
      invariant failures == |Failures(ticks, i)|
    {
      assert ticks[..i + 1][..i] == ticks[..i];
      assert Failures(ticks, i + 1) == Failures(ticks, i) + if ticks[i].Renewed? then {} else {i};
      now := now + interval;
      match ticks[i] {
        case RenewFails => failures := failures + 1;
        case LookupFails(_) => failures := failures + 1;
        case Renewed(_, seen) =>
          var next := Interval(seen);
          if next != interval { interval := next; }
      }
    }
    assert ticks[..|ticks|] == ticks;
  }

  /** The ticks among the first `n` at which renewal or lookup failed. */
  ghost function Failures(ticks: seq<Tick>, n: nat): set<int>
    requires n <= |ticks|
  {
    set i | 0 <= i < n && (ticks[i].RenewFails? || ticks[i].LookupFails?)
  }

  // ------------------------------------------------------------------ start-up

  const BACKOFFS := [1, 2, 4, 8, 16, 30]

  function Pow2(n: nat): nat { if n == 0 then 1 else 2 * Pow2(n - 1) }

  /** Doubling, capped at 30 s. */
  function Backoff(attempt: nat): int { if Pow2(attempt) < 30 then Pow2(attempt) * SECOND else 30 * SECOND }

  lemma {:induction false} Pow2Grows(i: nat, j: nat)
    requires i <= j
    ensures 1 <= Pow2(i) <= Pow2(j)
  {
    if j > 0 {
      if i < j { Pow2Grows(i, j - 1); } else { Pow2Grows(i - 1, j - 1); }
    }
  }

  /** Delays never shrink and never exceed 30 s. */
  lemma BackoffSteady(i: nat, j: nat)
    requires i <= j
    ensures SECOND <= Backoff(i) <= Backoff(j) <= 30 * SECOND
  {
    Pow2Grows(i, j);
  }

  /** One second, then twice the last delay, never over 30 s. */
  lemma BackoffDoubles(attempt: nat)
    ensures Backoff(0) == SECOND
    ensures Backoff(attempt + 1) == if 2 * Backoff(attempt) < 30 * SECOND then 2 * Backoff(attempt) else 30 * SECOND
  {
    assert Pow2(attempt + 1) == 2 * Pow2(attempt);
  }

  lemma TableIsDoubling(attempt: nat)
    ensures Backoff(attempt) == (if attempt < |BACKOFFS| then BACKOFFS[attempt] else 30) * SECOND
  {
    assert Pow2(0) == 1 && Pow2(1) == 2 && Pow2(2) == 4 && Pow2(3) == 8 && Pow2(4) == 16 && Pow2(5) == 32;
    if attempt >= 5 { Pow2Grows(5, attempt); }
  }

  /**
   The start-up loop: lookups until one succeeds or the context ends, here when `lookups` runs out. A missing entry is
   a failed lookup.
   */
  method FirstLookup(lookups: seq<Option<Ttl>>) returns (info: Option<Ttl>, delays: seq<int>)
    ensures forall i :: 0 <= i < |delays| ==> delays[i] == Backoff(i)
    ensures |delays| <= |lookups| && forall i :: 0 <= i < |delays| ==> lookups[i].None?
    ensures info.Some? ==> |delays| < |lookups| && lookups[|delays|] == info
    ensures info.None? ==> |delays| == |lookups|
    ensures forall i, j :: 0 <= i <= j < |delays| ==> SECOND <= delays[i] <= delays[j] <= 30 * SECOND
  {
    info, delays := None, [];
    var attempt := 0;
    while attempt < |lookups| && info.None?
      invariant info.None? ==> |delays| == attempt <= |lookups|
      invariant info.Some? ==> |delays| < |lookups| && lookups[|delays|] == info
      invariant forall i :: 0 <= i < |delays| ==> delays[i] == Backoff(i) && i < |lookups| && lookups[i].None?
      decreases |lookups| - attempt, if info.None? then 1 else 0
    {
      if lookups[attempt].Some? {
        info := lookups[attempt];
      } else {
        var delay := BACKOFFS[|BACKOFFS| - 1];
        if attempt < |BACKOFFS| { delay := BACKOFFS[attempt]; }
        TableIsDoubling(attempt);
        delays := delays + [delay * SECOND];
        attempt := attempt + 1;
      }
    }
    forall i, j | 0 <= i <= j < |delays| ensures SECOND <= delays[i] <= delays[j] <= 30 * SECOND {
      BackoffSteady(i, j);
    }
  }
}
