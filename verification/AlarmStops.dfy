// The walk of alt_tick when callbacks stop alarms with alt_alarm_stop.
module AlarmStops {
  import opened Wrappers
  import opened AlarmList

  // The registered alarms in order, and the one that is visited next: none is the head, where
  // the walk ends.
  datatype Walk<T> = Walk(list: seq<T>, at: Option<T>)

  // The alarms that are unlinked while an alarm is visited: those that its callback stops, and
  // the alarm itself if the callback returns 0.
  type Stops<!T> = T -> set<T>

  function First<T>(list: seq<T>): Option<T> {
    if list == [] then None else Some(list[0])
  }

  // The `next` of an alarm.  Once it is unlinked it points to itself.
  function NextOf<T(==)>(list: seq<T>, a: T): Option<T> {
    if list == [] then Some(a)
    else if list[0] == a then First(list[1..])
    else NextOf(list[1..], a)
  }

  function Minus<T(==)>(list: seq<T>, gone: set<T>): seq<T> {
    if list == [] then []
    else if list[0] in gone then Minus(list[1..], gone)
    else [list[0]] + Minus(list[1..], gone)
  }

  // One turn of the loop: `next` is read before the callback is made.
  function Turn<T(==)>(w: Walk<T>, stops: Stops<T>): Walk<T>
    requires w.at.Some?
  {
    Walk(Minus(w.list, stops(w.at.value)), NextOf(w.list, w.at.value))
  }

  function Walked<T(==)>(w: Walk<T>, stops: Stops<T>, n: nat): Walk<T>
    decreases n
  {
    if n == 0 || w.at.None? then w else Walked(Turn(w, stops), stops, n - 1)
  }

  lemma {:induction false} MinusSize<T>(list: seq<T>, gone: set<T>)
    ensures |Minus(list, gone)| <= |list|
  {
    if list == [] {
    } else {
      MinusSize(list[1..], gone);
    }
  }

  // The alarms that ought to be visited: each takes those that it stops off the rest.
  function Visits<T(==)>(list: seq<T>, stops: Stops<T>): seq<T>
    decreases |list|
  {
    if list == [] then []
    else
      MinusSize(list[1..], stops(list[0]));
      [list[0]] + Visits(Minus(list[1..], stops(list[0])), stops)
  }

  // All that they stop.
  function Gone<T(==)>(list: seq<T>, stops: Stops<T>): set<T>
    decreases |list|
  {
    if list == [] then {}
    else
      MinusSize(list[1..], stops(list[0]));
      stops(list[0]) + Gone(Minus(list[1..], stops(list[0])), stops)
  }

  // No alarm stops the one right behind it.
  predicate Harmless<T(==)>(list: seq<T>, stops: Stops<T>)
    decreases |list|
  {
    list == [] ||
    (MinusSize(list[1..], stops(list[0]));
     (|list| > 1 ==> list[1] !in stops(list[0])) && Harmless(Minus(list[1..], stops(list[0])), stops))
  }

  lemma {:induction false} MinusMember<T>(list: seq<T>, gone: set<T>, x: T)
    ensures x in Minus(list, gone) <==> x in list && x !in gone
  {
    if list == [] {
    } else {
      MinusMember(list[1..], gone, x);
    }
  }

  lemma {:induction false} MinusDistinct<T(!new)>(list: seq<T>, gone: set<T>)
    requires Distinct(list)
    ensures Distinct(Minus(list, gone))
  {
    if list == [] {
    } else {
      MinusDistinct(list[1..], gone);
      MinusMember(list[1..], gone, list[0]);
      assert list[0] !in list[1..];
    }
  }

  lemma MinusFirst<T>(list: seq<T>, gone: set<T>)
    requires list != []
    ensures Minus(list, gone) == (if list[0] in gone then [] else [list[0]]) + Minus(list[1..], gone)
  {
    assert [] + Minus(list[1..], gone) == Minus(list[1..], gone);
  }

  lemma {:induction false} MinusAppend<T>(a: seq<T>, b: seq<T>, gone: set<T>)
    ensures Minus(a + b, gone) == Minus(a, gone) + Minus(b, gone)
  {
    if a == [] {
      assert a + b == b && Minus(a, gone) == [];
      hide Minus;
      assert [] + Minus(b, gone) == Minus(b, gone);
    } else {
      hide Minus;
      MinusAppend(a[1..], b, gone);
      assert (a + b)[1..] == a[1..] + b && (a + b)[0] == a[0];
      MinusFirst(a + b, gone);
      MinusFirst(a, gone);
      var head := if a[0] in gone then [] else [a[0]];
      assert head + (Minus(a[1..], gone) + Minus(b, gone)) == head + Minus(a[1..], gone) + Minus(b, gone);
    }
  }

  lemma {:induction false} MinusTwice<T>(list: seq<T>, a: set<T>, b: set<T>)
    ensures Minus(Minus(list, a), b) == Minus(list, a + b)
  {
    if list == [] {
    } else {
      MinusTwice(list[1..], a, b);
      if list[0] !in a {
        assert ([list[0]] + Minus(list[1..], a))[1..] == Minus(list[1..], a);
      }
    }
  }

  lemma {:induction false} NextInside<T>(pre: seq<T>, suf: seq<T>)
    requires suf != [] && suf[0] !in pre
    ensures NextOf(pre + suf, suf[0]) == First(suf[1..])
  {
    if pre == [] {
      assert pre + suf == suf;
    } else {
      NextInside(pre[1..], suf);
      assert (pre + suf)[1..] == pre[1..] + suf;
    }
  }

  lemma {:induction false} NextOutside<T>(list: seq<T>, a: T)
    requires a !in list
    ensures NextOf(list, a) == Some(a)
  {
    if list == [] {
    } else {
      NextOutside(list[1..], a);
    }
  }

  // An alarm that is not on the list any more leads back to itself for ever.
  lemma {:induction false} Stuck<T>(w: Walk<T>, stops: Stops<T>, n: nat)
    requires w.at.Some? && w.at.value !in w.list
    ensures Walked(w, stops, n).at == w.at
    decreases n
  {
    if n == 0 {
    } else {
      NextOutside(w.list, w.at.value);
      MinusMember(w.list, stops(w.at.value), w.at.value);
      Stuck(Turn(w, stops), stops, n - 1);
    }
  }

  lemma NotBefore<T(!new)>(pre: seq<T>, suf: seq<T>)
    requires suf != [] && Distinct(pre + suf)
    ensures suf[0] !in pre
  {
    assert (pre + suf)[|pre|] == suf[0];
    assert forall i :: 0 <= i < |pre| ==> pre[i] == (pre + suf)[i];
  }

  // One turn, with the alarms `pre` of the list behind it.
  lemma TurnInside<T(!new)>(pre: seq<T>, suf: seq<T>, stops: Stops<T>)
    requires suf != [] && Distinct(pre + suf)
    ensures var S := stops(suf[0]);
            var front, rest := Minus(pre + [suf[0]], S), Minus(suf[1..], S);
            && Turn(Walk(pre + suf, Some(suf[0])), stops) == Walk(front + rest, First(suf[1..]))
            && front + rest == Minus(pre + suf, S) && Distinct(front + rest)
            && (|suf| > 1 ==> (suf[1] in S ==> suf[1] !in front + rest)
                              && (suf[1] !in S ==> rest != [] && rest[0] == suf[1]))
  {
    var S := stops(suf[0]);
    NotBefore(pre, suf);
    NextInside(pre, suf);
    assert pre + suf == pre + [suf[0]] + suf[1..];
    MinusAppend(pre + [suf[0]], suf[1..], S);
    MinusDistinct(pre + suf, S);
    if |suf| > 1 {
      MinusMember(pre + suf, S, suf[1]);
      assert suf[1..][0] == suf[1];
    }
  }

  lemma {:induction false} MinusNothing<T>(list: seq<T>)
    ensures Minus(list, {}) == list
  {
    if list == [] {
    } else {
      MinusNothing(list[1..]);
    }
  }

  // From any point of the walk: it ends after one turn for each alarm that ought to be
  // visited, with exactly those gone that were stopped; or it never ends.
  lemma {:induction false} WalkFrom<T(!new)>(pre: seq<T>, suf: seq<T>, stops: Stops<T>, n: nat)
    requires Distinct(pre + suf)
    ensures Harmless(suf, stops) ==>
              Walked(Walk(pre + suf, First(suf)), stops, |Visits(suf, stops)|)
              == Walk(Minus(pre + suf, Gone(suf, stops)), None)
    ensures !Harmless(suf, stops) ==> Walked(Walk(pre + suf, First(suf)), stops, n).at.Some?
    decreases |suf|
  {
    if suf == [] {
      MinusNothing(pre + suf);
    } else {
      var S := stops(suf[0]);
      var front, rest := Minus(pre + [suf[0]], S), Minus(suf[1..], S);
      var w' := Turn(Walk(pre + suf, Some(suf[0])), stops);
      TurnInside(pre, suf, stops);
      MinusSize(suf[1..], S);
      if |suf| > 1 && suf[1] in S {
        if n > 0 {
          Stuck(w', stops, n - 1);
        }
      } else {
        assert w' == Walk(front + rest, First(rest));
        WalkFrom(front, rest, stops, if n > 0 then n - 1 else 0);
        MinusTwice(pre + suf, S, Gone(rest, stops));
      }
    }
  }

  lemma {:induction false} VisitsInOrder<T(!new)>(pre: seq<T>, suf: seq<T>, stops: Stops<T>, k: nat)
    requires Distinct(pre + suf) && Harmless(suf, stops) && k < |Visits(suf, stops)|
    ensures Walked(Walk(pre + suf, First(suf)), stops, k).at == Some(Visits(suf, stops)[k])
    decreases |suf|
  {
    if k == 0 {
    } else {
      var S := stops(suf[0]);
      TurnInside(pre, suf, stops);
      MinusSize(suf[1..], S);
      VisitsInOrder(Minus(pre + [suf[0]], S), Minus(suf[1..], S), stops, k - 1);
    }
  }

  // The tick handler comes back if and only if no alarm that it visits stops the one right
  // behind it.  Then it has visited just the alarms that it ought to, in order, and those
  // that were stopped are gone.
  lemma PassEnds<T(!new)>(list: seq<T>, stops: Stops<T>)
    requires Distinct(list)
    ensures (exists n :: Walked(Walk(list, First(list)), stops, n).at.None?) <==> Harmless(list, stops)
    ensures Harmless(list, stops) ==>
              var w, vs := Walk(list, First(list)), Visits(list, stops);
              && Walked(w, stops, |vs|) == Walk(Minus(list, Gone(list, stops)), None)
              && forall k :: 0 <= k < |vs| ==> Walked(w, stops, k).at == Some(vs[k])
  {
    hide Walked, Harmless, Visits, Gone, Minus, Distinct;
    assert [] + list == list;
    WalkFrom([], list, stops, 0);
    if Harmless(list, stops) {
      forall k | 0 <= k < |Visits(list, stops)|
        ensures Walked(Walk(list, First(list)), stops, k).at == Some(Visits(list, stops)[k])
      {
        VisitsInOrder([], list, stops, k);
      }
    } else {
      forall n: nat
        ensures Walked(Walk(list, First(list)), stops, n).at.Some?
      {
        WalkFrom([], list, stops, n);
      }
    }
  }

  // Of two alarms the first stops the second: the handler never comes back.
  lemma StoppingTheNext(n: nat)
    ensures var stops := (a: int) => if a == 1 then {2} else {};
            Walked(Walk([1, 2], Some(1)), stops, n).at.Some?
  {
    var stops := (a: int) => if a == 1 then {2} else {};
    assert !Harmless([1, 2], stops);
    WalkFrom([], [1, 2], stops, n);
    assert [] + [1, 2] == [1, 2];
  }
}
