// The list of registered alarms, circular and linked both ways around a head element, and
// the tick handler that walks it while alarms take themselves off.
module AlarmList {
  import opened MachineInts
  import opened AlarmTimers

  class Alarm {
    var next: Alarm
    var previous: Alarm
    var time: u32
    var rollover: u8
    var callback: Callback

    // An element on its own points to itself.
    constructor ()
      ensures next == this && previous == this
    {
      next := this;
      previous := this;
      time := 0;
      rollover := 0;
      callback := (tick: nat) => 0;
    }

    ghost function Stored(): Timer
      reads this
    {
      Timer(time, rollover != 0)
    }
  }

  // ----- rings -----

  ghost function Elements(ring: seq<Alarm>): set<Alarm> {
    set a <- ring
  }

  ghost predicate Linked(ring: seq<Alarm>)
    reads Elements(ring)`next, Elements(ring)`previous
  {
    && ring != []
    && (forall i, j :: 0 <= i < j < |ring| ==> ring[i] != ring[j])
    && (forall i {:trigger ring[i].next} :: 0 <= i < |ring| - 1 ==> ring[i].next == ring[i + 1])
    && (forall i {:trigger ring[i].previous} :: 1 <= i < |ring| ==> ring[i].previous == ring[i - 1])
    && ring[|ring| - 1].next == ring[0] && ring[0].previous == ring[|ring| - 1]
  }

  lemma LinkedRing(ring: seq<Alarm>, i: nat)
    requires Linked(ring) && i < |ring|
    ensures ring[i].next == if i + 1 < |ring| then ring[i + 1] else ring[0]
    ensures forall j :: 0 <= j < |ring| && j != i ==> ring[j] != ring[i]
  {
  }

  lemma DistinctTail(ring: seq<Alarm>)
    requires Linked(ring)
    ensures forall i, j :: 0 <= i < j < |ring| - 1 ==> ring[1..][i] != ring[1..][j]
    ensures forall j :: 0 <= j < |ring| - 1 ==> ring[1..][j] != ring[0]
    ensures ring == [ring[0]] + ring[1..]
  {
  }

  function Without<T>(s: seq<T>, i: nat): seq<T>
    requires i < |s|
  {
    s[..i] + s[i + 1..]
  }

  // alt_llist_insert: entry becomes the first element behind the head.
  method Insert(head: Alarm, entry: Alarm, ghost ring: seq<Alarm>)
    requires Linked(ring) && ring[0] == head && entry !in ring
    modifies Elements(ring), entry
    ensures Linked([head, entry] + ring[1..])
    ensures forall a: Alarm | old(allocated(a)) :: a.Stored() == old(a.Stored()) && a.callback == old(a.callback)
  {
    entry.previous := head;
    entry.next := head.next;
    head.next.previous := entry;
    head.next := entry;
  }

  // alt_llist_remove: the element points to itself afterwards, so that a second removal
  // does nothing.
  method Remove(entry: Alarm, ghost ring: seq<Alarm>, ghost i: nat)
    requires 0 < i < |ring| && ring[i] == entry && Linked(ring)
    modifies Elements(ring)
    ensures Linked(Without(ring, i)) && entry.next == entry && entry.previous == entry
    ensures forall a: Alarm | old(allocated(a)) :: a.Stored() == old(a.Stored()) && a.callback == old(a.callback)
  {
    entry.next.previous := entry.previous;
    entry.previous.next := entry.next;
    entry.previous := entry;
    entry.next := entry;
  }

  // ----- one tick, on values -----

  datatype Entry = Entry(timer: Timer, callback: Callback)

  // Whether the alarm is called on this tick.
  predicate Called(e: Entry, tick: nat) {
    Expired(Cleared(e.timer, Counter(tick)), Counter(tick))
  }

  // Whether it is still registered afterwards.
  predicate Stays(e: Entry, tick: nat) {
    Called(e, tick) ==> e.callback(tick) != 0
  }

  function Ticked(e: Entry, tick: nat): Timer {
    var t := Cleared(e.timer, Counter(tick));
    if Called(e, tick) && e.callback(tick) != 0 then Rearmed(t, Counter(tick), e.callback(tick)) else t
  }

  ghost predicate Distinct<T(!new)>(xs: seq<T>) {
    forall i, j :: 0 <= i < j < |xs| ==> xs[i] != xs[j]
  }

  // The elements whose flag is set, in their order.
  function Kept<T>(xs: seq<T>, keep: seq<bool>): (r: seq<T>)
    requires |xs| == |keep|
    ensures |r| <= |xs| && forall x :: x in r ==> x in xs
  {
    if xs == [] then []
    else
      var front := Kept(xs[..|xs| - 1], keep[..|xs| - 1]);
      if keep[|xs| - 1] then front + [xs[|xs| - 1]] else front
  }

  lemma CounterNext(now: nat)
    ensures Counter(now + 1) == Wrap32(Counter(now) + 1)
  {
  }

  lemma RingStep<T>(kept: seq<T>, xs: seq<T>, n: nat)
    requires n < |xs|
    ensures var s := kept + xs[n..];
            && s[|kept|] == xs[n] && |s| == |kept| + |xs| - n
            && (n + 1 < |xs| ==> s[|kept| + 1] == xs[n + 1])
            && Without(s, |kept|) == kept + xs[n + 1..]
            && s == (kept + [xs[n]]) + xs[n + 1..]
  {
  }

  function StayFlags(es: seq<Entry>, tick: nat): (r: seq<bool>)
    ensures |r| == |es|
  {
    seq(|es|, i requires 0 <= i < |es| => Stays(es[i], tick))
  }

  function CallFlags(es: seq<Entry>, tick: nat): (r: seq<bool>)
    ensures |r| == |es|
  {
    seq(|es|, i requires 0 <= i < |es| => Called(es[i], tick))
  }

  lemma NoneKept<T>(xs: seq<T>, es: seq<Entry>, tick: nat)
    requires |xs| == |es|
    ensures Kept(xs[..0], StayFlags(es[..0], tick)) == Kept(xs[..0], CallFlags(es[..0], tick)) == []
  {
  }

  lemma KeptNext<T>(xs: seq<T>, es: seq<Entry>, tick: nat, n: nat)
    requires |xs| == |es| && n < |xs|
    ensures Kept(xs[..n + 1], StayFlags(es[..n + 1], tick)) ==
            Kept(xs[..n], StayFlags(es[..n], tick)) + (if Stays(es[n], tick) then [xs[n]] else [])
    ensures Kept(xs[..n + 1], CallFlags(es[..n + 1], tick)) ==
            Kept(xs[..n], CallFlags(es[..n], tick)) + (if Called(es[n], tick) then [xs[n]] else [])
  {
    hide Stays, Called;
    assert xs[..n + 1][..n] == xs[..n];
    assert StayFlags(es[..n + 1], tick)[..n] == StayFlags(es[..n], tick);
    assert CallFlags(es[..n + 1], tick)[..n] == CallFlags(es[..n], tick);
  }

  function Updated(es: seq<Entry>, tick: nat): (r: seq<Entry>)
    ensures |r| == |es|
  {
    seq(|es|, i requires 0 <= i < |es| => Entry(Ticked(es[i], tick), es[i].callback))
  }

  // One tick for all the registered alarms.
  function TickList(es: seq<Entry>, tick: nat): seq<Entry> {
    Kept(Updated(es, tick), StayFlags(es, tick))
  }

  lemma TickListSnoc(es: seq<Entry>, tick: nat)
    requires es != []
    ensures var n := |es| - 1;
            TickList(es, tick) ==
            if Stays(es[n], tick) then TickList(es[..n], tick) + [Entry(Ticked(es[n], tick), es[n].callback)]
            else TickList(es[..n], tick)
  {
    hide Ticked, Stays;
    var n := |es| - 1;
    assert Updated(es, tick)[..n] == Updated(es[..n], tick);
    assert StayFlags(es, tick)[..n] == StayFlags(es[..n], tick);
  }

  lemma {:induction false} KeptEntries(xs: seq<Alarm>, es: seq<Entry>, tick: nat)
    requires |xs| == |es|
    requires forall i :: 0 <= i < |xs| ==> xs[i].Stored() == Ticked(es[i], tick) && xs[i].callback == es[i].callback
    ensures var kept := Kept(xs, StayFlags(es, tick));
            && |kept| == |TickList(es, tick)|
            && forall i :: 0 <= i < |kept| ==> Entry(kept[i].Stored(), kept[i].callback) == TickList(es, tick)[i]
  {
    hide Ticked, Stays;
    if xs == [] {
    } else {
      var n := |xs| - 1;
      KeptEntries(xs[..n], es[..n], tick);
      TickListSnoc(es, tick);
      assert StayFlags(es, tick)[..n] == StayFlags(es[..n], tick);
    }
  }

  // ----- the alarm facility -----

  datatype Status = Ok | InvalidArgument | NotSupported

  class AlarmFacility {
    const head: Alarm
    var tickRate: u32
    var nticks: u32
    // The ticks since reset, of which the counter shows the low 32 bits; the environment
    // that the callbacks' answers come from depends on it.
    var now: nat
    // The registered alarms behind the head, and those called back on the latest tick.
    ghost var ring: seq<Alarm>
    ghost var called: seq<Alarm>

    constructor (tickRate: u32)
      ensures Valid() && ring == [head] && now == 0 && this.tickRate == tickRate && fresh(head)
    {
      head := new Alarm();
      this.tickRate := tickRate;
      nticks := 0;
      now := 0;
      new;
      ring, called := [head], [];
    }

    ghost predicate Valid()
      reads this, ring
    {
      Linked(ring) && ring[0] == head && nticks == Counter(now)
    }

    ghost function EntryAt(i: nat): Entry
      requires i < |ring|
      reads this, ring
    {
      Entry(ring[i].Stored(), ring[i].callback)
    }

    // Registers an alarm that is not registered yet.
    method Start(alarm: Alarm?, request: u32, callback: Callback) returns (rc: Status)
      requires Valid() && (alarm != null ==> alarm !in ring)
      modifies this`ring, Elements(ring), alarm
      ensures Valid()
      ensures rc == if tickRate == 0 then NotSupported else if alarm == null then InvalidArgument else Ok
      ensures rc == Ok ==> ring == [head, alarm] + old(ring)[1..] && alarm.callback == callback
                           && alarm.Stored() == Started(request, nticks)
      ensures rc != Ok ==> ring == old(ring)
      ensures forall a: Alarm | old(allocated(a)) && a != alarm ::
                a.Stored() == old(a.Stored()) && a.callback == old(a.callback)
    {
      if tickRate != 0 {
        if alarm != null {
          alarm.callback := callback;
          var current := nticks;
          alarm.time := Wrap32(request + current + 1);
          if alarm.time < current {
            alarm.rollover := 1;
          } else {
            alarm.rollover := 0;
          }
          Insert(head, alarm, ring);
          ring := [head, alarm] + ring[1..];
          return Ok;
        } else {
          return InvalidArgument;
        }
      } else {
        return NotSupported;
      }
    }

    // alt_alarm_stop for a registered alarm.
    method Stop(alarm: Alarm, ghost i: nat)
      requires Valid() && 0 < i < |ring| && ring[i] == alarm
      modifies this`ring, Elements(ring)
      ensures Valid() && ring == Without(old(ring), i) && alarm.next == alarm && alarm.previous == alarm
      ensures Elements(ring) <= old(Elements(ring))
      ensures forall a: Alarm | old(allocated(a)) :: a.Stored() == old(a.Stored()) && a.callback == old(a.callback)
    {
      Remove(alarm, ring, i);
      ring := Without(ring, i);
    }

    // What becomes of one alarm on the current tick.
    method Visit(alarm: Alarm, ghost i: nat)
      requires Valid() && 0 < i < |ring| && ring[i] == alarm
      modifies this`ring, this`called, Elements(ring)
      ensures Valid()
      ensures called == old(called) + (if Called(old(EntryAt(i)), now) then [alarm] else [])
      ensures alarm.Stored() == Ticked(old(EntryAt(i)), now)
      ensures ring == if Stays(old(EntryAt(i)), now) then old(ring) else Without(old(ring), i)
      ensures Elements(ring) <= old(Elements(ring))
      ensures forall a: Alarm | old(allocated(a)) :: a != alarm ==> a.Stored() == old(a.Stored())
      ensures forall a: Alarm | old(allocated(a)) :: a.callback == old(a.callback)
    {
      hide Linked, Without, Counter;
      if alarm.rollover != 0 && nticks == 0 {
        alarm.rollover := 0;
      }
      if alarm.time <= nticks && alarm.rollover == 0 {
        var nextCallback := alarm.callback(now);
        called := called + [alarm];
        if nextCallback == 0 {
          Stop(alarm, i);
        } else {
          alarm.time := Wrap32(alarm.time + nextCallback);
          if alarm.time < nticks {
            alarm.rollover := 1;
          }
        }
      }
    }

    ghost function Entries(): (es: seq<Entry>)
      reads this, ring
      ensures |es| == |ring| && forall i :: 0 <= i < |ring| ==> es[i] == EntryAt(i)
    {
      seq(|ring|, i requires 0 <= i < |ring| reads this, ring => EntryAt(i))
    }

    // In the middle of a pass, with n of the alarms xs visited: those are updated, the
    // ones among them that stay are behind the head, and the others are as they were.
    ghost predicate Progress(xs: seq<Alarm>, es: seq<Entry>, n: nat)
      requires |xs| == |es|
      reads this, ring, xs
    {
      && Valid() && n <= |xs|
      && ring == [head] + Kept(xs[..n], StayFlags(es[..n], now)) + xs[n..]
      && called == Kept(xs[..n], CallFlags(es[..n], now))
      && (forall j :: n <= j < |xs| ==> xs[j].Stored() == es[j].timer)
      && (forall j :: 0 <= j < n ==> xs[j].Stored() == Ticked(es[j], now))
      && (forall j :: 0 <= j < |xs| ==> xs[j].callback == es[j].callback)
      && (forall i, j :: 0 <= i < j < |xs| ==> xs[i] != xs[j])
    }

    // One turn of the loop.
    method Turn(alarm: Alarm, ghost xs: seq<Alarm>, ghost es: seq<Entry>, ghost n: nat) returns (next: Alarm)
      requires |xs| == |es| && n < |xs| && Progress(xs, es, n) && alarm == xs[n]
      modifies this`ring, this`called, Elements(ring)
      ensures Progress(xs, es, n + 1) && next == if n + 1 < |xs| then xs[n + 1] else head
      ensures Elements(ring) <= old(Elements(ring))
    {
      hide Ticked, Stays, Called, Kept, StayFlags, CallFlags, Linked, Without, Counter, Elements;
      ghost var kept := [head] + Kept(xs[..n], StayFlags(es[..n], now));
      RingStep(kept, xs, n);
      LinkedRing(ring, |kept|);
      KeptNext(xs, es, now, n);
      next := alarm.next;
      assert EntryAt(|kept|) == es[n];
      Visit(alarm, |kept|);
    }

    lemma HeadIsNotListed(xs: seq<Alarm>, es: seq<Entry>, n: nat)
      requires |xs| == |es| && Progress(xs, es, n)
      ensures n < |xs| ==> xs[n] != head
    {
      hide Ticked, Stays, Kept, StayFlags, CallFlags;
      if n < |xs| {
        RingStep([head] + Kept(xs[..n], StayFlags(es[..n], now)), xs, n);
      }
    }

    // The loop, from the first registered alarm on.
    method Pass(first: Alarm, ghost xs: seq<Alarm>, ghost es: seq<Entry>)
      requires |xs| == |es| && Progress(xs, es, 0) && first == if xs != [] then xs[0] else head
      modifies this`ring, this`called, Elements(ring)
      ensures Progress(xs, es, |xs|)
    {
      hide Elements;
      var alarm := first;
      ghost var n := 0;
      while alarm != head
        invariant n <= |xs| && Progress(xs, es, n) && Elements(ring) <= old(Elements(ring))
        invariant alarm == if n < |xs| then xs[n] else head
        decreases |xs| - n
      {
        hide Progress;
        alarm := Turn(alarm, xs, es, n);
        n := n + 1;
      }
      HeadIsNotListed(xs, es, n);
    }

    // The counter and the walk over the list.
    method Scan()
      requires Valid()
      modifies this`nticks, this`now, this`ring, this`called, Elements(ring)
      ensures Valid() && now == old(now) + 1
      ensures ring == [head] + Kept(old(ring)[1..], StayFlags(old(Entries())[1..], now))
      ensures called == Kept(old(ring)[1..], CallFlags(old(Entries())[1..], now))
      ensures forall i :: 0 < i < |old(ring)| ==> old(ring)[i].Stored() == Ticked(old(EntryAt(i)), now)
      ensures forall i :: 0 < i < |old(ring)| ==> old(ring)[i].callback == old(EntryAt(i)).callback
    {
      assert ring != [];
      hide Ticked, Stays, Called, Kept, StayFlags, CallFlags, Linked, Without, Counter, Elements;
      ghost var ring0, xs, es := ring, ring[1..], Entries()[1..];
      LinkedRing(ring, 0);
      DistinctTail(ring);
      var alarm := head.next;
      nticks := Wrap32(nticks + 1);
      now := now + 1;
      called := [];
      CounterNext(now - 1);
      NoneKept(xs, es, now);
      assert [head] + [] + xs[0..] == ring;
      assert Progress(xs, es, 0);
      Pass(alarm, xs, es);
      assert xs[..|xs|] == xs && es[..|xs|] == es && xs[|xs|..] == [];
    }

    // alt_tick: visits each alarm that was registered when the tick began exactly once,
    // calls back those that are due, unlinks those whose callback returns 0 and no other,
    // and keeps the rest in order.  On values, that is a step of the scheduler TickList.
    method Tick()
      requires Valid()
      modifies this`nticks, this`now, this`ring, this`called, Elements(ring)
      ensures Valid() && now == old(now) + 1
      ensures ring == [head] + Kept(old(ring)[1..], StayFlags(old(Entries())[1..], now))
      ensures called == Kept(old(ring)[1..], CallFlags(old(Entries())[1..], now))
      ensures Entries()[1..] == TickList(old(Entries())[1..], now)
    {
      assert ring != [];
      hide TickList, Kept, StayFlags, CallFlags, Linked, Ticked, Elements;
      ghost var xs, es := ring[1..], Entries()[1..];
      Scan();
      KeptEntries(xs, es, now);
    }
  }
}
