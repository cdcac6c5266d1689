// Many ticks: each alarm of the list lives its own life among the others.
module AlarmRuns {
  import opened MachineInts
  import opened AlarmTimers
  import opened AlarmList

  // A tick of the facility is a step in the life of each of its alarms, so that the calls
  // of every alarm are those of its schedule.
  lemma TickIsLife(e: Entry, now: nat, n: nat)
    ensures var life := Live(e.timer, now, e.callback, n + 1);
            if Stays(e, now + 1)
            then
              var rest := Live(Ticked(e, now + 1), now + 1, e.callback, n);
              life == rest.(fired := (if Called(e, now + 1) then [now + 1] else []) + rest.fired)
            else life == Life([now + 1], Ticked(e, now + 1), true)
  {
  }

  // Called exactly on the due tick: the flag and the 32 bits never mislead the handler.
  lemma CalledWhenDue(e: Entry, now: nat)
    ensures Called(e, now + 1) <==> Due(e.timer, now) == now + 1
    ensures !Called(e, now + 1) ==> Due(Ticked(e, now + 1), now + 1) == Due(e.timer, now)
    ensures Called(e, now + 1) && Stays(e, now + 1) && Faithful(e.timer, now) ==>
              Due(Ticked(e, now + 1), now + 1) == now + 1 + e.callback(now + 1)
              && Faithful(Ticked(e, now + 1), now + 1)
  {
    TickIsExact(e.timer, now);
    hide Due, Counter;
    if Called(e, now + 1) && Stays(e, now + 1) && Faithful(e.timer, now) {
      RearmIsExact(Cleared(e.timer, Counter(now + 1)), now + 1, e.callback(now + 1));
    }
  }

  // ----- the list after many ticks -----

  function RunList(es: seq<Entry>, now: nat, n: nat): seq<Entry>
    decreases n
  {
    if n == 0 then es else RunList(TickList(es, now + 1), now + 1, n - 1)
  }

  // The alarms that are still registered after n ticks, each after its own life.
  function Alive(es: seq<Entry>, now: nat, n: nat): seq<Entry> {
    if es == [] then []
    else
      var e := es[|es| - 1];
      var life := Live(e.timer, now, e.callback, n);
      var front := Alive(es[..|es| - 1], now, n);
      if life.stopped then front else front + [Entry(life.last, e.callback)]
  }

  lemma AliveSnoc(es: seq<Entry>, e: Entry, now: nat, n: nat)
    ensures var life := Live(e.timer, now, e.callback, n);
            Alive(es + [e], now, n) ==
            if life.stopped then Alive(es, now, n) else Alive(es, now, n) + [Entry(life.last, e.callback)]
  {
  }

  lemma {:induction false} TickThenAlive(es: seq<Entry>, now: nat, n: nat)
    ensures Alive(TickList(es, now + 1), now + 1, n) == Alive(es, now, n + 1)
    decreases |es|
  {
    if es == [] {
    } else {
      var front, e := es[..|es| - 1], es[|es| - 1];
      TickThenAlive(front, now, n);
      TickListSnoc(es, now + 1);
      TickIsLife(e, now, n);
      hide Stays, Ticked, TickList, Live;
      if Stays(e, now + 1) {
        AliveSnoc(TickList(front, now + 1), Entry(Ticked(e, now + 1), e.callback), now + 1, n);
      }
    }
  }

  lemma {:induction false} NobodyDies(es: seq<Entry>, now: nat)
    ensures Alive(es, now, 0) == es
  {
    if es == [] {
    } else {
      NobodyDies(es[..|es| - 1], now);
    }
  }

  // Any number of ticks: the list is that of the alarms whose own lives go on, in the order
  // in which they were, whatever the others do.
  lemma {:induction false} ListOfLives(es: seq<Entry>, now: nat, n: nat)
    ensures RunList(es, now, n) == Alive(es, now, n)
    decreases n
  {
    if n == 0 {
      NobodyDies(es, now);
    } else {
      ListOfLives(TickList(es, now + 1), now + 1, n - 1);
      TickThenAlive(es, now, n - 1);
    }
  }

  // ----- the calls of one alarm among the others -----

  lemma {:induction false} KeptSize<T, U>(xs: seq<T>, ys: seq<U>, keep: seq<bool>)
    requires |xs| == |ys| == |keep|
    ensures |Kept(xs, keep)| == |Kept(ys, keep)|
  {
    if xs == [] {
    } else {
      KeptSize(xs[..|xs| - 1], ys[..|ys| - 1], keep[..|keep| - 1]);
    }
  }

  // The ticks from now + 1 to now + n on which the alarm x of the list xs is called.  Tick
  // passes from one list to the next as this function does.
  function CallTicks<T(==)>(xs: seq<T>, es: seq<Entry>, now: nat, n: nat, x: T): seq<nat>
    requires |xs| == |es|
    decreases n
  {
    if n == 0 then []
    else
      KeptSize(xs, Updated(es, now + 1), StayFlags(es, now + 1));
      (if x in Kept(xs, CallFlags(es, now + 1)) then [now + 1] else [])
      + CallTicks(Kept(xs, StayFlags(es, now + 1)), TickList(es, now + 1), now + 1, n - 1, x)
  }

  lemma {:induction false} KeptDistinct<T(!new)>(xs: seq<T>, keep: seq<bool>)
    requires |xs| == |keep| && Distinct(xs)
    ensures Distinct(Kept(xs, keep))
  {
    if xs == [] {
    } else {
      var n := |xs| - 1;
      KeptDistinct(xs[..n], keep[..n]);
      assert forall x :: x in Kept(xs[..n], keep[..n]) ==> x in xs[..n];
      assert xs[n] !in xs[..n];
    }
  }

  // Where the i-th element is after the others have gone.
  function Place(keep: seq<bool>, i: nat): nat
    requires i < |keep|
  {
    if i == 0 then 0 else Place(keep, i - 1) + if keep[i - 1] then 1 else 0
  }

  lemma {:induction false} PlaceInFront(keep: seq<bool>, i: nat)
    requires i < |keep| - 1
    ensures Place(keep[..|keep| - 1], i) == Place(keep, i)
  {
    if i == 0 {
    } else {
      PlaceInFront(keep, i - 1);
    }
  }

  lemma {:induction false} PlaceIsSize<T>(xs: seq<T>, keep: seq<bool>)
    requires |xs| == |keep| > 0
    ensures Place(keep, |keep| - 1) == |Kept(xs[..|xs| - 1], keep[..|keep| - 1])|
    decreases |keep|
  {
    if |keep| == 1 {
    } else {
      var n := |keep| - 1;
      PlaceIsSize(xs[..n], keep[..n]);
      PlaceInFront(keep, n - 1);
      assert keep[..n][..n - 1] == keep[..n - 1] && xs[..n][..n - 1] == xs[..n - 1];
    }
  }

  lemma {:induction false} KeptAt<T>(xs: seq<T>, keep: seq<bool>, i: nat)
    requires |xs| == |keep| && i < |xs| && keep[i]
    ensures Place(keep, i) < |Kept(xs, keep)| && Kept(xs, keep)[Place(keep, i)] == xs[i]
  {
    var n := |xs| - 1;
    PlaceIsSize(xs, keep);
    if i == n {
    } else {
      KeptAt(xs[..n], keep[..n], i);
      PlaceInFront(keep, i);
    }
  }

  lemma {:induction false} KeptNot<T(!new)>(xs: seq<T>, keep: seq<bool>, i: nat)
    requires |xs| == |keep| && i < |xs| && !keep[i] && Distinct(xs)
    ensures xs[i] !in Kept(xs, keep)
  {
    var n := |xs| - 1;
    if i == n {
      assert forall x :: x in Kept(xs[..n], keep[..n]) ==> x in xs[..n];
    } else {
      KeptNot(xs[..n], keep[..n], i);
    }
  }

  lemma CallsFirst<T>(xs: seq<T>, es: seq<Entry>, now: nat, n: nat, x: T)
    requires |xs| == |es| && n > 0
    ensures var xs', es' := Kept(xs, StayFlags(es, now + 1)), TickList(es, now + 1);
            && |xs'| == |es'|
            && CallTicks(xs, es, now, n, x) ==
               (if x in Kept(xs, CallFlags(es, now + 1)) then [now + 1] else [])
               + CallTicks(xs', es', now + 1, n - 1, x)
  {
    hide Stays, Called, Ticked, Kept;
    KeptSize(xs, Updated(es, now + 1), StayFlags(es, now + 1));
  }

  lemma NoTicks<T>(xs: seq<T>, es: seq<Entry>, now: nat, x: T)
    requires |xs| == |es|
    ensures CallTicks(xs, es, now, 0, x) == []
  {
  }

  lemma {:induction false} NoMoreCalls<T>(xs: seq<T>, es: seq<Entry>, now: nat, n: nat, x: T)
    requires |xs| == |es| && x !in xs
    ensures CallTicks(xs, es, now, n, x) == []
    decreases n
  {
    hide Stays, Called, Ticked, Kept, CallTicks, TickList, StayFlags, CallFlags;
    if n == 0 {
      NoTicks(xs, es, now, x);
    } else {
      CallsFirst(xs, es, now, n, x);
      NoMoreCalls(Kept(xs, StayFlags(es, now + 1)), TickList(es, now + 1), now + 1, n - 1, x);
    }
  }

  lemma CalledNow<T(!new)>(xs: seq<T>, es: seq<Entry>, tick: nat, i: nat)
    requires |xs| == |es| && Distinct(xs) && i < |xs|
    ensures xs[i] in Kept(xs, CallFlags(es, tick)) <==> Called(es[i], tick)
  {
    hide Called, Kept, Distinct;
    if CallFlags(es, tick)[i] {
      KeptAt(xs, CallFlags(es, tick), i);
    } else {
      KeptNot(xs, CallFlags(es, tick), i);
    }
  }

  lemma StopsAfterCall(e: Entry, tick: nat)
    ensures !Stays(e, tick) ==> Called(e, tick)
  {
  }

  // An alarm that stays is in the same place of the list of alarms and that of the entries.
  lemma StaysAt<T(!new)>(xs: seq<T>, es: seq<Entry>, tick: nat, i: nat)
    requires |xs| == |es| && Distinct(xs) && i < |xs|
    ensures var xs', es', p := Kept(xs, StayFlags(es, tick)), TickList(es, tick), Place(StayFlags(es, tick), i);
            && Distinct(xs')
            && if Stays(es[i], tick)
               then p < |xs'| && p < |es'| && xs'[p] == xs[i] && es'[p] == Entry(Ticked(es[i], tick), es[i].callback)
               else Called(es[i], tick) && xs[i] !in xs'
  {
    StopsAfterCall(es[i], tick);
    hide Stays, Called, Ticked, Kept, Distinct;
    KeptDistinct(xs, StayFlags(es, tick));
    if StayFlags(es, tick)[i] {
      KeptAt(xs, StayFlags(es, tick), i);
      KeptAt(Updated(es, tick), StayFlags(es, tick), i);
    } else {
      KeptNot(xs, StayFlags(es, tick), i);
    }
  }

  lemma NoLife(e: Entry, now: nat)
    ensures Live(e.timer, now, e.callback, 0).fired == []
  {
  }

  lemma LifeFirst(e: Entry, now: nat, n: nat)
    requires n > 0
    ensures Live(e.timer, now, e.callback, n).fired ==
            (if Called(e, now + 1) then [now + 1] else [])
            + if Stays(e, now + 1) then Live(Ticked(e, now + 1), now + 1, e.callback, n - 1).fired else []
  {
    StopsAfterCall(e, now + 1);
    TickIsLife(e, now, n - 1);
    hide Called, Stays, Ticked, Live;
    assert [now + 1] + [] == [now + 1];
  }

  // However the others come and go, an alarm is called on the ticks of its own life.
  lemma {:induction false} CallsOfLife<T(!new)>(xs: seq<T>, es: seq<Entry>, now: nat, n: nat, i: nat)
    requires |xs| == |es| && Distinct(xs) && i < |xs|
    ensures CallTicks(xs, es, now, n, xs[i]) == Live(es[i].timer, now, es[i].callback, n).fired
    decreases n
  {
    hide Stays, Called, Ticked, Live, Kept, CallTicks, StayFlags, CallFlags, TickList, Place, Distinct;
    if n == 0 {
      NoTicks(xs, es, now, xs[i]);
      NoLife(es[i], now);
    } else {
      var xs', es', p := Kept(xs, StayFlags(es, now + 1)), TickList(es, now + 1), Place(StayFlags(es, now + 1), i);
      CallsFirst(xs, es, now, n, xs[i]);
      CalledNow(xs, es, now + 1, i);
      StaysAt(xs, es, now + 1, i);
      LifeFirst(es[i], now, n);
      if Stays(es[i], now + 1) {
        CallsOfLife(xs', es', now + 1, n - 1, p);
      } else {
        NoMoreCalls(xs', es', now + 1, n - 1, xs[i]);
      }
    }
  }

  // In every run of ticks each alarm is called on exactly the ticks of its schedule.
  lemma EachOnSchedule<T(!new)>(xs: seq<T>, es: seq<Entry>, now: nat, n: nat, i: nat)
    requires |xs| == |es| && Distinct(xs) && i < |xs| && Faithful(es[i].timer, now)
    ensures CallTicks(xs, es, now, n, xs[i]) == Schedule(Due(es[i].timer, now), es[i].callback, now + n)
  {
    CallsOfLife(xs, es, now, n, i);
    CallsAreOnTime(es[i].timer, now, es[i].callback, n);
  }
}
