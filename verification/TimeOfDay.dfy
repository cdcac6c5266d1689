// settimeofday and gettimeofday on top of the tick counter.
module TimeOfDay {
  import opened MachineInts
  import opened Wrappers

  const ALT_US: nat := 1_000_000

  // A value that was stored into a 32-bit signed variable.
  function Stored(x: int): (r: int)
    ensures -0x8000_0000 <= r < 0x8000_0000
    ensures -0x8000_0000 <= x < 0x8000_0000 ==> r == x
  {
    Signed32(Wrap32(x))
  }

  datatype Time = Time(sec: int, usec: int)

  datatype Zone = Zone(minuteswest: int, dsttime: int)

  function Micros(t: Time): int {
    t.sec * 1_000_000 + t.usec
  }

  // Microseconds in one tick.
  function TickMicros(rate: u32): nat
    requires rate > 0
  {
    1_000_000 / rate
  }

  function Times(n: nat, k: nat): nat {
    n * k
  }

  // Microseconds in n ticks.
  function Span(n: nat, rate: u32): nat
    requires rate > 0
  {
    Times(n, TickMicros(rate))
  }

  // Microseconds of n ticks beyond whole seconds: settimeofday multiplies in 32 bits,
  // gettimeofday in 64.
  function Fraction32(n: u32, rate: u32): nat
    requires rate > 0
  {
    Wrap32(Span(n, rate)) % 1_000_000
  }

  function Fraction64(n: u32, rate: u32): nat
    requires rate > 0
  {
    Span(n, rate) % 1_000_000
  }

  function ResetTime(t: Time, n: u32, rate: u32): Time
    requires rate > 0
  {
    Time(Stored(t.sec - n / rate), Stored(t.usec - Fraction32(n, rate)))
  }

  // The two loops of gettimeofday.
  function Raise(t: Time): (r: Time)
    decreases -t.usec
    ensures r.usec >= 0
  {
    if t.usec >= 0 then t
    else if t.sec <= 0 then Time(0, 0)
    else Raise(Time(t.sec - 1, t.usec + 1_000_000))
  }

  function Lower(t: Time): (r: Time)
    requires t.usec >= 0
    decreases t.usec
    ensures 0 <= r.usec < 1_000_000
  {
    if t.usec >= 1_000_000 then Lower(Time(Stored(t.sec + 1), t.usec - 1_000_000)) else t
  }

  function Now(reset: Time, n: u32, rate: u32): Time
    requires rate > 0
  {
    Lower(Raise(Time(Stored(reset.sec + n / rate), Stored(reset.usec + Fraction64(n, rate)))))
  }

  class SystemClock {
    const tickRate: u32
    var nticks: u32
    var resettime: Time
    var timezone: Zone

    constructor (tickRate: u32)
      ensures this.tickRate == tickRate && nticks == 0
      ensures resettime == Time(0, 0) && timezone == Zone(0, 0)
    {
      this.tickRate, nticks := tickRate, 0;
      resettime, timezone := Time(0, 0), Zone(0, 0);
    }

    method SetTimeOfDay(t: Time, tz: Zone) returns (rc: int)
      modifies this`resettime, this`timezone
      ensures tickRate == 0 ==> rc == -1 && resettime == old(resettime) && timezone == old(timezone)
      ensures tickRate != 0 ==> rc == 0 && resettime == ResetTime(t, nticks, tickRate) && timezone == tz
    {
      if tickRate != 0 {
        var sec := Stored(t.sec - nticks / tickRate);
        var usec := Stored(t.usec - Wrap32(nticks * (ALT_US / tickRate)) % ALT_US);
        resettime := Time(sec, usec);
        timezone := tz;
        return 0;
      }
      return -1;
    }

    // None stands for -ENOTSUP: without a system clock there is no time.
    method GetTimeOfDay() returns (r: Option<(Time, Zone)>)
      ensures tickRate == 0 ==> r == None
      ensures tickRate != 0 ==> r == Some((Now(resettime, nticks, tickRate), timezone))
    {
      if tickRate == 0 {
        return None;
      }
      var sec := Stored(resettime.sec + nticks / tickRate);
      var usec := Stored(resettime.usec + (nticks * (ALT_US / tickRate)) % ALT_US);
      ghost var start := Time(sec, usec);
      while usec < 0
        invariant Raise(Time(sec, usec)) == Raise(start)
        decreases -usec
      {
        if sec <= 0 {
          sec, usec := 0, 0;
          break;
        } else {
          sec := sec - 1;
          usec := usec + ALT_US;
        }
      }
      assert Time(sec, usec) == Raise(start);
      while usec >= ALT_US
        invariant usec >= 0 && Lower(Time(sec, usec)) == Lower(Raise(start))
        decreases usec
      {
        sec := Stored(sec + 1);
        usec := usec - ALT_US;
      }
      return Some((Time(sec, usec), timezone));
    }
  }

  // ----- arithmetic -----

  lemma SameRemainder(x: int, k: int)
    ensures (1_000_000 * k + x) % 1_000_000 == x % 1_000_000
  {
  }

  // 2^26 is prime to 5^6: its inverse is 12659.
  lemma Coprime(w: int, q: int)
    requires 67108864 * w == 15625 * q
    ensures w % 15625 == 0
  {
    assert 67108864 * 12659 == 15625 * 54369991 + 1;
    assert w == 15625 * (12659 * q - 54369991 * w);
  }

  // The 32-bit product loses nothing that matters exactly when the number of wraps is a
  // multiple of 5^6: 10^6 is 2^6 * 5^6, and 2^32 is divisible by 2^6 and prime to 5.
  lemma WrapIsHarmless(p: nat)
    ensures Wrap32(p) % 1_000_000 == p % 1_000_000 <==> (p / 0x1_0000_0000) % 15625 == 0
  {
    var w, low := p / 0x1_0000_0000, p % 0x1_0000_0000;
    assert p == 0x1_0000_0000 * w + low;
    if w % 15625 == 0 {
      var j := w / 15625;
      assert p == 1_000_000 * (67108864 * j) + low;
      SameRemainder(low, 67108864 * j);
    }
    if low % 1_000_000 == p % 1_000_000 {
      var q := p / 1_000_000 - low / 1_000_000;
      assert 0x1_0000_0000 * w == 1_000_000 * q;
      Coprime(w, q);
    }
  }

  lemma StoredTwice(x: int, y: int)
    ensures Stored(Stored(x) + y) == Stored(x + y)
  {
    var k := (Stored(x) - x) / 0x1_0000_0000;
    assert Stored(x) == x + 0x1_0000_0000 * k;
    WrapShift(x + y, k);
  }

  // The tick rate divides a million.
  predicate Divides(rate: u32) {
    rate > 0 && rate * TickMicros(rate) == 1_000_000
  }

  // Whole seconds and the rest are all of the ticks.
  lemma SecondsAndFraction(n: u32, rate: u32)
    requires Divides(rate)
    ensures 1_000_000 * (n / rate) + Fraction64(n, rate) == Span(n, rate)
  {
    var k, q, r := TickMicros(rate), n / rate, n % rate;
    assert n == q * rate + r;
    assert n * k == q * (rate * k) + r * k;
    assert 0 <= r * k < rate * k;
    SameRemainder(r * k, q);
  }

  lemma {:induction false} RaiseKeeps(t: Time)
    requires -1_000_000 < t.usec
    ensures Micros(Raise(t)) == if t.usec < 0 && t.sec <= 0 then 0 else Micros(t)
    ensures Raise(t).sec <= Max(t.sec, 0)
    ensures t.usec < 2_000_000 ==> Raise(t).usec < 2_000_000
  {
    if t.usec < 0 && t.sec > 0 {
      var once := Time(t.sec - 1, t.usec + 1_000_000);
      assert Raise(once) == once && Raise(t) == Raise(once);
    }
  }

  lemma {:induction false} LowerKeeps(t: Time)
    requires 0 <= t.usec < 2_000_000 && -0x8000_0000 <= t.sec < 0x7FFF_FFFF
    ensures Micros(Lower(t)) == Micros(t)
  {
    if t.usec >= 1_000_000 {
      var once := Time(t.sec + 1, t.usec - 1_000_000);
      assert Lower(once) == once && Lower(t) == Lower(once);
    }
  }

  // ----- set, then get -----

  // Microseconds since the epoch of `t`, n1 - n0 ticks later.
  function Later(t: Time, n0: u32, n1: u32, rate: u32): int
    requires rate > 0 && n0 <= n1
  {
    Micros(t) + Span(n1 - n0, rate)
  }

  // A valid time to set, no wrap of the tick counter after it, and a time to read that is at
  // least two seconds before the end of 32-bit time.
  predicate Settable(t: Time, n0: u32, n1: u32, rate: u32)
    requires rate > 0 && n0 <= n1
  {
    && Divides(rate) && 0 <= t.sec && 0 <= t.usec < 1_000_000
    && Later(t, n0, n1, rate) < 0x7FFF_FFFD * 1_000_000
  }

  lemma SpanAdd(n0: nat, n1: nat, rate: u32)
    requires rate > 0 && n0 <= n1
    ensures Span(n1, rate) == Span(n0, rate) + Span(n1 - n0, rate)
  {
  }

  lemma FractionRange(n: u32, rate: u32)
    requires rate > 0
    ensures 0 <= Fraction32(n, rate) < 1_000_000 && 0 <= Fraction64(n, rate) < 1_000_000
  {
  }

  lemma QuotientRange(n: nat, rate: nat, q: nat)
    requires rate > 0 && q == n / rate
    ensures q * rate <= n < (q + 1) * rate
  {
  }

  lemma SecondsGrow(n0: u32, n1: u32, rate: u32)
    requires rate > 0 && n0 <= n1
    ensures n0 / rate <= n1 / rate
  {
    var q0, q1 := n0 / rate, n1 / rate;
    QuotientRange(n0, rate, q0);
    QuotientRange(n1, rate, q1);
    assert q0 > q1 ==> q0 * rate >= (q1 + 1) * rate;
  }

  // What gettimeofday says in terms of the two products.
  lemma GetAfterSet(t: Time, n0: u32, n1: u32, rate: u32)
    requires rate > 0 && n0 <= n1 && Settable(t, n0, n1, rate)
    ensures var now := Now(ResetTime(t, n0, rate), n1, rate);
            var us := Later(t, n0, n1, rate) + Fraction64(n0, rate) - Fraction32(n0, rate);
            && 0 <= now.usec < 1_000_000 && Later(t, n0, n1, rate) >= 0
            && Micros(now) == Max(us, 0)
  {
    hide Stored, Fraction32, Fraction64, Raise, Lower, Span;
    SecondsAndFraction(n0, rate);
    SecondsAndFraction(n1, rate);
    var f, f0, f1 := Fraction32(n0, rate), Fraction64(n0, rate), Fraction64(n1, rate);
    FractionRange(n0, rate);
    FractionRange(n1, rate);
    var raw := Time(t.sec - n0 / rate + n1 / rate, t.usec - f + f1);
    StoredTwice(t.sec - n0 / rate, n1 / rate);
    StoredTwice(t.usec - f, f1);
    SpanAdd(n0, n1, rate);
    assert Micros(raw) == Later(t, n0, n1, rate) + f0 - f;
    SecondsGrow(n0, n1, rate);
    assert 0 <= raw.sec < 0x7FFF_FFFF;
    assert Now(ResetTime(t, n0, rate), n1, rate) == Lower(Raise(raw));
    RaiseKeeps(raw);
    LowerKeeps(Raise(raw));
  }

  // How often the product in settimeofday wraps around.
  function Wraps(n: u32, rate: u32): nat
    requires rate > 0
  {
    Span(n, rate) / 0x1_0000_0000
  }

  lemma FractionsAgree(n: u32, rate: u32)
    requires rate > 0
    ensures Fraction32(n, rate) == Fraction64(n, rate) <==> Wraps(n, rate) % 15625 == 0
  {
    hide Span;
    WrapIsHarmless(Span(n, rate));
  }

  lemma Decide(now: Time, us: int, error: int)
    requires 0 <= now.usec < 1_000_000 && Micros(now) == Max(us + error, 0) && us >= 0
    ensures now == Time(us / 1_000_000, us % 1_000_000) <==> error == 0 || (us == 0 && error <= 0)
  {
  }

  // gettimeofday returns the time that was set plus the ticks since then, normalised, if and
  // only if the product in settimeofday wrapped a multiple of 5^6 times (not at all, for
  // one), or the time is zero and the error would make it negative, which is cut off.
  lemma SetThenGet(t: Time, n0: u32, n1: u32, rate: u32)
    requires rate > 0 && n0 <= n1 && Settable(t, n0, n1, rate)
    ensures var us := Later(t, n0, n1, rate);
            Now(ResetTime(t, n0, rate), n1, rate) == Time(us / 1_000_000, us % 1_000_000)
            <==> Wraps(n0, rate) % 15625 == 0 || (us == 0 && Fraction64(n0, rate) <= Fraction32(n0, rate))
  {
    hide Now, ResetTime, Settable, Later, Fraction32, Fraction64, Wraps;
    GetAfterSet(t, n0, n1, rate);
    FractionsAgree(n0, rate);
    Decide(Now(ResetTime(t, n0, rate), n1, rate), Later(t, n0, n1, rate), Fraction64(n0, rate) - Fraction32(n0, rate));
  }

  lemma LaterGrows(t: Time, n0: u32, n1: u32, n2: u32, rate: u32)
    requires rate > 0 && n0 <= n1 <= n2
    ensures Later(t, n0, n1, rate) <= Later(t, n0, n2, rate)
  {
  }

  // So the time that is read never runs backwards, and is always normalised.
  lemma TimeIsMonotone(t: Time, n0: u32, n1: u32, n2: u32, rate: u32)
    requires rate > 0 && n0 <= n1 <= n2 && Settable(t, n0, n1, rate) && Settable(t, n0, n2, rate)
    ensures var a, b := Now(ResetTime(t, n0, rate), n1, rate), Now(ResetTime(t, n0, rate), n2, rate);
            0 <= a.usec < 1_000_000 && 0 <= b.usec < 1_000_000 && Micros(a) <= Micros(b)
  {
    hide Now, ResetTime, Fraction32, Fraction64, Settable, Later;
    GetAfterSet(t, n0, n1, rate);
    GetAfterSet(t, n0, n2, rate);
    LaterGrows(t, n0, n1, n2, rate);
  }

  // With a clock of 1 kHz: some 4295 seconds after reset the product has wrapped once, and
  // a time that is set then and read at once comes back 967 ms ahead.
  lemma SetLateIsWrong()
    ensures Settable(Time(1, 0), 4_294_968, 4_294_968, 1000)
    ensures Micros(Now(ResetTime(Time(1, 0), 4_294_968, 1000), 4_294_968, 1000)) == 1_967_296
  {
    assert 1_000_000 / 1000 == 1000;
    assert 4_294_968 * 1000 == 4_294_968_000 == 0x1_0000_0000 + 704;
    assert Wrap32(4_294_968_000) == 704;
    assert Fraction32(4_294_968, 1000) == 704;
    assert Fraction64(4_294_968, 1000) == 968_000;
    GetAfterSet(Time(1, 0), 4_294_968, 4_294_968, 1000);
  }
}
