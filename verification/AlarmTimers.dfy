// The time stored in one alarm: 32 bits and a rollover flag, and the tick of the unbounded
// timeline that they stand for.
module AlarmTimers {
  import opened MachineInts

  datatype Timer = Timer(time: u32, rollover: bool)

  // alt_alarm_start at a moment when the tick counter shows `nticks`.
  function Started(request: u32, nticks: u32): Timer {
    var time := Wrap32(request + nticks + 1);
    Timer(time, time < nticks)
  }

  // alt_tick for one alarm, with the counter already incremented.
  function Cleared(t: Timer, nticks: u32): Timer {
    if t.rollover && nticks == 0 then t.(rollover := false) else t
  }

  predicate Expired(t: Timer, nticks: u32) {
    t.time <= nticks && !t.rollover
  }

  // The callback of an expired alarm has asked for another call after `interval` ticks.
  function Rearmed(t: Timer, nticks: u32, interval: u32): Timer {
    var time := Wrap32(t.time + interval);
    Timer(time, time < nticks || t.rollover)
  }

  function Counter(now: nat): u32 { now % 0x1_0000_0000 }

  function EpochStart(now: nat): nat { now - now % 0x1_0000_0000 }

  // The first tick after `now` at which a timer expires, on the unbounded timeline.
  function Due(t: Timer, now: nat): (d: nat)
    ensures d > now
  {
    if t.rollover then EpochStart(now) + 0x1_0000_0000 + t.time
    else if t.time > Counter(now) then EpochStart(now) + t.time
    else if t.time <= Counter(now + 1) then now + 1
    else EpochStart(now) + 0x1_0000_0000 + t.time
  }

  lemma NextTick(now: nat)
    ensures if Counter(now) == 0xFFFF_FFFF
            then Counter(now + 1) == 0 && EpochStart(now + 1) == EpochStart(now) + 0x1_0000_0000 == now + 1
            else Counter(now + 1) == Counter(now) + 1 && EpochStart(now + 1) == EpochStart(now)
  {
  }

  // The flag and the 32 bits represent the due time exactly, whatever they are: the tick
  // that expires the timer is the due one, and any other tick leaves the due time alone.
  lemma TickIsExact(t: Timer, now: nat)
    ensures var t' := Cleared(t, Counter(now + 1));
            && (Expired(t', Counter(now + 1)) <==> Due(t, now) == now + 1)
            && (!Expired(t', Counter(now + 1)) ==> Due(t', now + 1) == Due(t, now))
  {
    NextTick(now);
    NextTick(now + 1);
    hide Counter, EpochStart;
  }

  // A request is honoured on the tick that it names, unless it is for 2^32 ticks ahead
  // and the counter is not about to wrap: then the alarm expires on the very next tick.
  lemma StartIsExact(request: u32, now: nat)
    ensures Due(Started(request, Counter(now)), now) == now + request + 1
            <==> request < 0xFFFF_FFFF || Counter(now) == 0xFFFF_FFFF
    ensures request == 0xFFFF_FFFF && Counter(now) != 0xFFFF_FFFF ==>
              Due(Started(request, Counter(now)), now) == now + 1
  {
    NextTick(now);
  }

  lemma RearmIsExact(t: Timer, now: nat, interval: u32)
    requires t.time == Counter(now) && !t.rollover && interval > 0
    ensures Due(Rearmed(t, Counter(now), interval), now) == now + interval
    ensures Rearmed(t, Counter(now), interval).time == Counter(now + interval)
  {
    NextTick(now);
  }

  // Whatever time is stored in an alarm that expires: `late` ticks after the stored time, it
  // is due again the interval after that time.  An interval that is not longer than `late`
  // misses: a shorter one goes all the way around the counter.
  lemma LateRearm(t: Timer, now: nat, interval: u32)
    requires Expired(t, Counter(now)) && interval > 0
    ensures var late, due := Counter(now) - t.time, Due(Rearmed(t, Counter(now), interval), now);
            && (interval > late ==> due == now - late + interval)
            && (interval < late ==> due == now - late + interval + 0x1_0000_0000)
            && (interval == late ==> due == if Counter(now) == 0xFFFF_FFFF then now + 0x1_0000_0000 else now + 1)
  {
    NextTick(now);
  }

  // ----- the life of one alarm, from the tick after `now` on, for n ticks -----

  datatype Life = Life(fired: seq<nat>, last: Timer, stopped: bool)

  type Callback = nat -> u32

  // The callback's answer may be a different one each time; it is a function of the tick.
  function Live(t: Timer, now: nat, callback: Callback, n: nat): Life
    decreases n
  {
    if n == 0 then Life([], t, false)
    else
      var t' := Cleared(t, Counter(now + 1));
      if !Expired(t', Counter(now + 1)) then Live(t', now + 1, callback, n - 1)
      else
        var interval := callback(now + 1);
        if interval == 0 then Life([now + 1], t', true)
        else
          var rest := Live(Rearmed(t', Counter(now + 1), interval), now + 1, callback, n - 1);
          rest.(fired := [now + 1] + rest.fired)
  }

  // The calls that ought to be made up to tick `end`: the first at `due`, and each further
  // one after the interval that was asked for.
  function Schedule(due: nat, callback: Callback, end: nat): seq<nat>
    decreases if due <= end then end - due + 1 else 0
  {
    if due > end then []
    else if callback(due) == 0 then [due]
    else [due] + Schedule(due + callback(due), callback, end)
  }

  // The stored time agrees with the tick that it is due at.
  predicate Faithful(t: Timer, now: nat) {
    t.time == Counter(Due(t, now))
  }

  lemma StartIsFaithful(request: u32, now: nat)
    requires request < 0xFFFF_FFFF || Counter(now) == 0xFFFF_FFFF
    ensures Faithful(Started(request, Counter(now)), now)
  {
    StartIsExact(request, now);
  }

  // Every call is made on its tick and no other, across any number of wraparounds.
  lemma {:induction false} CallsAreOnTime(t: Timer, now: nat, callback: Callback, n: nat)
    requires Faithful(t, now)
    ensures Live(t, now, callback, n).fired == Schedule(Due(t, now), callback, now + n)
    decreases n
  {
    if n == 0 {
    } else {
      TickIsExact(t, now);
      hide Due, Counter;
      var t' := Cleared(t, Counter(now + 1));
      if !Expired(t', Counter(now + 1)) {
        CallsAreOnTime(t', now + 1, callback, n - 1);
      } else {
        var interval := callback(now + 1);
        if interval != 0 {
          RearmIsExact(t', now + 1, interval);
          CallsAreOnTime(Rearmed(t', Counter(now + 1), interval), now + 1, callback, n - 1);
        }
      }
    }
  }

  // Registered at tick c for n ticks: first called on tick c + n + 1, then on schedule.
  lemma RegisteredAlarm(request: u32, c: nat, callback: Callback, ticks: nat)
    requires request < 0xFFFF_FFFF || Counter(c) == 0xFFFF_FFFF
    ensures Live(Started(request, Counter(c)), c, callback, ticks).fired
            == Schedule(c + request + 1, callback, c + ticks)
  {
    StartIsExact(request, c);
    StartIsFaithful(request, c);
    CallsAreOnTime(Started(request, Counter(c)), c, callback, ticks);
  }
}
