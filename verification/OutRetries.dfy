// When OutTransfer launches a packet again, when it stops, and what it returns, told from
// the answers alone.
module OutRetries {
  import opened Clock
  import opened MachineInts
  import opened ParseTools
  import opened UsbCodes
  import opened OutTransfer
  import DispatchPkt

  // ----- one packet -----

  // The codes that a packet has met so far allow another launch: NAKs short of the limit,
  // fewer than three timeouts, toggle errors, and nothing else.
  predicate Retryable(codes: seq<u8>, naks: u16) {
    && (forall i :: 0 <= i < |codes| ==> codes[i] == NAK || codes[i] == TIMEOUT || codes[i] == TOGGLE_ERROR)
    && (naks > 0 ==> DispatchPkt.Count(codes, NAK) < naks)
    && DispatchPkt.Count(codes, TIMEOUT) < RETRY_LIMIT
  }

  function Codes(script: seq<Answer>, n: nat): (codes: seq<u8>)
    requires n <= |script|
    ensures |codes| == n && forall i :: 0 <= i < n ==> codes[i] == script[i].rcode
  {
    seq(n, i requires 0 <= i < n => script[i].rcode)
  }

  // Answer k of a packet is followed by another launch of it.
  predicate GoesOn(script: seq<Answer>, lim: Limits, k: nat)
    requires k < |script|
  {
    script[k].rcode != 0 && !Late(script[k], lim) && Retryable(Codes(script, k + 1), lim.naks)
  }

  // The launches of a packet go on up to the first answer after which they may not, and that
  // answer says how the packet ends: a success, a late answer, or one that cannot be retried.
  predicate Ends(t: Try, script: seq<Answer>, lim: Limits) {
    var n := |t.codes|;
    && n <= |script| && t.codes == Codes(script, n) && t.rest == script[n..]
    && (forall k :: 0 <= k < n - 1 ==> GoesOn(script, lim, k))
    && (t.end == Pending ==> n == |script| && (n > 0 ==> GoesOn(script, lim, n - 1)))
    && (t.end != Pending ==>
          && n > 0 && !GoesOn(script, lim, n - 1)
          && var a := script[n - 1];
             t.end == if a.rcode == 0 then Acked else if Late(a, lim) then GivenUp(a.rcode) else Stopped(a.rcode))
  }

  predicate Agrees(codes: seq<u8>, lim: Limits, c: Counters) {
    c.timeouts == DispatchPkt.Count(codes, TIMEOUT) && (lim.naks > 0 ==> c.naks == DispatchPkt.Count(codes, NAK))
  }

  lemma CountSnoc(codes: seq<u8>, rcode: u8, x: u8)
    ensures DispatchPkt.Count(codes + [rcode], x) == DispatchPkt.Count(codes, x) + if rcode == x then 1 else 0
  {
    assert (codes + [rcode])[..|codes|] == codes;
  }

  // In numbers: toggle errors (6) do not count, the third timeout (14) is too much, and so is
  // the NAK (4) that reaches the limit.
  lemma RetryLimits(codes: seq<u8>, naks: u16)
    requires Retryable(codes, naks)
    ensures Retryable(codes + [6], naks)
    ensures Retryable(codes + [14], naks) <==> DispatchPkt.Count(codes, 14) < 2
    ensures Retryable(codes + [4], naks) <==> naks == 0 || DispatchPkt.Count(codes, 4) + 1 < naks
    ensures forall x: u8 :: x != 4 && x != 6 && x != 14 ==> !Retryable(codes + [x], naks)
  {
    forall x: u8
      ensures DispatchPkt.Count(codes + [x], 4) == DispatchPkt.Count(codes, 4) + (if x == 4 then 1 else 0)
      ensures DispatchPkt.Count(codes + [x], 14) == DispatchPkt.Count(codes, 14) + (if x == 14 then 1 else 0)
      ensures (codes + [x])[|codes|] == x
    {
      CountSnoc(codes, x, 4);
      CountSnoc(codes, x, 14);
    }
    hide DispatchPkt.Count;
  }

  // The two counters stop a packet exactly when its codes do not allow another launch.
  lemma JudgeMeans(codes: seq<u8>, rcode: u8, lim: Limits, c: Counters)
    requires Retryable(codes, lim.naks) && Agrees(codes, lim, c) && rcode != 0
    ensures var (stop, c') := Judge(rcode, lim, c);
            && (stop <==> !Retryable(codes + [rcode], lim.naks))
            && (!stop ==> Agrees(codes + [rcode], lim, c'))
  {
    CountSnoc(codes, rcode, NAK);
    CountSnoc(codes, rcode, TIMEOUT);
    hide DispatchPkt.Count;
    var all := codes + [rcode];
    assert all[|codes|] == rcode && forall i :: 0 <= i < |codes| ==> all[i] == codes[i];
  }

  // A packet whose first p answers were followed by further launches.
  predicate Underway(script: seq<Answer>, lim: Limits, p: nat, c: Counters) {
    && p <= |script| && (forall k :: 0 <= k < p ==> GoesOn(script, lim, k))
    && Retryable(Codes(script, p), lim.naks) && Agrees(Codes(script, p), lim, c)
  }

  lemma UnderwayNext(script: seq<Answer>, lim: Limits, p: nat, c: Counters)
    requires Underway(script, lim, p, c) && p < |script|
    requires script[p].rcode != 0 && !Late(script[p], lim)
    ensures var (stop, c') := Judge(script[p].rcode, lim, c);
            && (stop <==> !GoesOn(script, lim, p))
            && (!stop ==> Underway(script, lim, p + 1, c'))
  {
    JudgeMeans(Codes(script, p), script[p].rcode, lim, c);
    hide Judge, Retryable, Agrees, Late;
    assert Codes(script, p + 1) == Codes(script, p) + [script[p].rcode];
  }

  // The whole packet, of which the answers from p on are still to come.
  function Whole(script: seq<Answer>, p: nat, t: Try): Try
    requires p <= |script|
  {
    t.(codes := Codes(script, p) + t.codes)
  }

  lemma EndsNow(script: seq<Answer>, lim: Limits, p: nat, end: End)
    requires p < |script| && (forall k :: 0 <= k < p ==> GoesOn(script, lim, k)) && !GoesOn(script, lim, p)
    requires var a := script[p];
             end == if a.rcode == 0 then Acked else if Late(a, lim) then GivenUp(a.rcode) else Stopped(a.rcode)
    ensures Ends(Whole(script, p, Try(end, script[p + 1..], [script[p].rcode])), script, lim)
  {
    hide GoesOn, Late;
    assert Codes(script, p) + [script[p].rcode] == Codes(script, p + 1);
  }

  lemma EndsPending(script: seq<Answer>, lim: Limits)
    requires forall k :: 0 <= k < |script| ==> GoesOn(script, lim, k)
    ensures Ends(Whole(script, |script|, Try(Pending, [], [])), script, lim)
  {
    hide GoesOn;
    assert Codes(script, |script|) + [] == Codes(script, |script|) && script[|script|..] == [];
  }

  lemma WholeNext(script: seq<Answer>, p: nat, t: Try)
    requires p < |script|
    ensures Whole(script, p, t.(codes := [script[p].rcode] + t.codes)) == Whole(script, p + 1, t)
  {
    assert Codes(script, p) + ([script[p].rcode] + t.codes) == Codes(script, p + 1) + t.codes;
  }

  lemma AttemptNext(script: seq<Answer>, lim: Limits, p: nat, c: Counters)
    requires p < |script|
    ensures var a, t := script[p], Attempt(script[p..], lim, c);
            t == if a.rcode == 0 then Try(Acked, script[p + 1..], [0])
                 else if Late(a, lim) then Try(GivenUp(a.rcode), script[p + 1..], [a.rcode])
                 else
                   var (stop, c') := Judge(a.rcode, lim, c);
                   if stop then Try(Stopped(a.rcode), script[p + 1..], [a.rcode])
                   else
                     var u := Attempt(script[p + 1..], lim, c');
                     u.(codes := [a.rcode] + u.codes)
  {
    hide Late, Judge;
    assert script[p..][1..] == script[p + 1..] && script[p..][0] == script[p];
  }

  lemma {:induction false} AttemptFrom(script: seq<Answer>, lim: Limits, p: nat, c: Counters)
    requires Underway(script, lim, p, c)
    ensures Ends(Whole(script, p, Attempt(script[p..], lim, c)), script, lim)
    decreases |script| - p
  {
    if p == |script| {
      assert script[p..] == [];
      EndsPending(script, lim);
    } else {
      var a := script[p];
      assert forall k :: 0 <= k < p ==> GoesOn(script, lim, k);
      assert a.rcode == 0 || Late(a, lim) ==> !GoesOn(script, lim, p);
      hide Attempt, Ends, Judge, Late, Whole, Underway, GoesOn;
      AttemptNext(script, lim, p, c);
      if a.rcode == 0 {
        EndsNow(script, lim, p, Acked);
      } else if Late(a, lim) {
        EndsNow(script, lim, p, GivenUp(a.rcode));
      } else {
        UnderwayNext(script, lim, p, c);
        var (stop, c') := Judge(a.rcode, lim, c);
        if stop {
          EndsNow(script, lim, p, Stopped(a.rcode));
        } else {
          AttemptFrom(script, lim, p + 1, c');
          WholeNext(script, p, Attempt(script[p + 1..], lim, c'));
        }
      }
    }
  }

  // Every packet ends like that.
  lemma PacketEnds(script: seq<Answer>, lim: Limits)
    ensures Ends(Attempt(script, lim, Counters(0, 0)), script, lim)
  {
    assert Codes(script, 0) == [] && script[0..] == script;
    AttemptFrom(script, lim, 0, Counters(0, 0));
    var t := Attempt(script, lim, Counters(0, 0));
    assert Codes(script, 0) + t.codes == t.codes;
  }

  lemma NotLonger(t: Try, u: Try, script: seq<Answer>, lim: Limits)
    requires Ends(t, script, lim) && Ends(u, script, lim)
    ensures |t.codes| <= |u.codes|
  {
    hide GoesOn, Late;
  }

  // And there is only one way to end like that.
  lemma EndsUniquely(t: Try, u: Try, script: seq<Answer>, lim: Limits)
    requires Ends(t, script, lim) && Ends(u, script, lim)
    ensures t == u
  {
    hide GoesOn, Late;
    NotLonger(t, u, script, lim);
    NotLonger(u, t, script, lim);
  }

  // ----- a whole call -----

  // The first n answers are those of one packet: it goes on after each but the last.
  predicate FirstStop(script: seq<Answer>, lim: Limits, n: nat) {
    && 0 < n <= |script|
    && (forall k :: 0 <= k < n - 1 ==> GoesOn(script, lim, k))
    && !GoesOn(script, lim, n - 1)
  }

  // A call with p packets to send returns `code`, packet i being decided by the last of its
  // ns[i] answers.  After a success and after a late answer the call goes on with the next
  // packet; after any other it returns at once.
  predicate Returns(script: seq<Answer>, lim: Limits, p: nat, before: u8, ns: seq<nat>, code: u8)
    decreases |ns|
  {
    if ns == [] then p == 0 && code == before
    else
      && p > 0 && FirstStop(script, lim, ns[0])
      && var a := script[ns[0] - 1];
         if a.rcode == 0 || Late(a, lim)
         then Returns(script[ns[0]..], lim, p - 1, a.rcode, ns[1..], code)
         else |ns| == 1 && code == a.rcode
  }

  ghost predicate MayReturn(script: seq<Answer>, lim: Limits, p: nat, before: u8, code: u8) {
    exists ns :: Returns(script, lim, p, before, ns, code)
  }

  lemma StopsOnce(script: seq<Answer>, lim: Limits, n: nat, k: nat)
    requires FirstStop(script, lim, n) && FirstStop(script, lim, k)
    ensures n == k
  {
    hide GoesOn;
  }

  lemma MayReturnNow(script: seq<Answer>, lim: Limits, before: u8, code: u8)
    ensures MayReturn(script, lim, 0, before, code) <==> code == before
  {
    assert Returns(script, lim, 0, before, [], before);
  }

  lemma MayReturnNever(script: seq<Answer>, lim: Limits, p: nat, before: u8, code: u8)
    requires p > 0 && forall k :: 0 <= k < |script| ==> GoesOn(script, lim, k)
    ensures !MayReturn(script, lim, p, before, code)
  {
    hide GoesOn;
  }

  lemma MayReturnNext(script: seq<Answer>, lim: Limits, p: nat, before: u8, n: nat, code: u8)
    requires p > 0 && FirstStop(script, lim, n)
    ensures MayReturn(script, lim, p, before, code)
            <==> var a := script[n - 1];
                 if a.rcode == 0 || Late(a, lim) then MayReturn(script[n..], lim, p - 1, a.rcode, code)
                 else code == a.rcode
  {
    hide GoesOn, Late;
    var a, rest, q := script[n - 1], script[n..], p - 1;
    if ns :| Returns(script, lim, p, before, ns, code) {
      StopsOnce(script, lim, n, ns[0]);
      assert a.rcode == 0 || Late(a, lim) ==> Returns(script[n..], lim, p - 1, a.rcode, ns[1..], code);
    }
    if a.rcode == 0 || Late(a, lim) {
      if ns :| Returns(rest, lim, q, a.rcode, ns, code) {
        var all: seq<nat> := [n] + ns;
        assert all[1..] == ns && all[0] == n;
        assert Returns(script, lim, p, before, all, code);
      }
    } else if code == a.rcode {
      var one: seq<nat> := [n];
      assert Returns(script, lim, p, before, one, code);
    }
  }

  // The length of the answers that a packet met is that of its first stop.
  lemma PacketStops(script: seq<Answer>, lim: Limits)
    ensures var t := Attempt(script, lim, Counters(0, 0));
            && |t.codes| <= |script| && t.rest == script[|t.codes|..]
            && if t.end == Pending then forall k :: 0 <= k < |script| ==> GoesOn(script, lim, k)
               else
                 && FirstStop(script, lim, |t.codes|)
                 && var a := script[|t.codes| - 1];
                    t.end == if a.rcode == 0 then Acked else if Late(a, lim) then GivenUp(a.rcode) else Stopped(a.rcode)
  {
    hide GoesOn, Late, Attempt;
    PacketEnds(script, lim);
  }

  lemma NoPackets(script: seq<Answer>, lim: Limits, m: u8, rcode: u8)
    requires m > 0
    ensures Packets([], m) == [] && Send(script, lim, m, [], rcode).outcome == Returned(rcode)
  {
  }

  // When a call returns, and what: read off the answers, for every script.
  lemma {:induction false} ReturnsExactly(script: seq<Answer>, lim: Limits, m: u8, data: seq<u8>, rcode: u8, code: u8)
    requires m > 0
    ensures Send(script, lim, m, data, rcode).outcome == Returned(code)
            <==> MayReturn(script, lim, |Packets(data, m)|, rcode, code)
    decreases |data|
  {
    hide Attempt, GoesOn, FirstStop, MayReturn, Late, Packets, Send, Sends;
    if data == [] {
      NoPackets(script, lim, m, rcode);
      MayReturnNow(script, lim, rcode, code);
    } else {
      var n, t := Min(m, |data|), Attempt(script, lim, Counters(0, 0));
      FirstPacket(data, m);
      SendStep(script, lim, m, data, rcode);
      PacketStops(script, lim);
      if t.end == Pending {
        MayReturnNever(script, lim, |Packets(data, m)|, rcode, code);
      } else {
        MayReturnNext(script, lim, |Packets(data, m)|, rcode, |t.codes|, code);
        ReturnsExactly(t.rest, lim, m, data[n..], Code(t.end), code);
      }
    }
  }

  // A success means that no packet was left out.
  lemma {:induction false} AllDecided(script: seq<Answer>, lim: Limits, p: nat, before: u8, ns: seq<nat>)
    requires Returns(script, lim, p, before, ns, 0)
    ensures |ns| == p
    decreases |ns|
  {
    if ns == [] {
    } else {
      hide GoesOn, Late;
      var a := script[ns[0] - 1];
      if a.rcode == 0 || Late(a, lim) {
        AllDecided(script[ns[0]..], lim, p - 1, a.rcode, ns[1..]);
      }
    }
  }

  // In particular, when a call succeeds.
  lemma SucceedsExactly(script: seq<Answer>, lim: Limits, m: u8, data: seq<u8>)
    requires m > 0
    ensures Send(script, lim, m, data, 0).outcome == Returned(0)
            <==> exists ns :: |ns| == |Packets(data, m)| && Returns(script, lim, |ns|, 0, ns, 0)
  {
    ReturnsExactly(script, lim, m, data, 0, 0);
    hide Send, Packets;
    if ns :| Returns(script, lim, |Packets(data, m)|, 0, ns, 0) {
      AllDecided(script, lim, |Packets(data, m)|, 0, ns);
    }
  }

  lemma OnePacketOnly(b: u8)
    ensures |Packets([b], 1)| == 1
  {
    FirstPacket([b], 1);
  }

  // A NAK is followed by another launch: one byte, answered with NAK and then with success.
  lemma RetriedByteIsDelivered(b: u8, start: nat)
    ensures var script := [Answer(4, start + 1), Answer(0, start + 2)];
            var r := Send(script, LimitsFrom(100, start), 1, [b], 0);
            r.outcome == Returned(0) && Flatten(Delivered(r.log)) == [b]
  {
    var script, lim := [Answer(4, start + 1), Answer(0, start + 2)], LimitsFrom(100, start);
    DeadlineIsExact(start, XFER_TIMEOUT, start + 1);
    assert !Late(script[0], lim);
    hide Late, Send, Delivered, Flatten, LimitsFrom;
    assert Codes(script, 1) == [4] && [4][..0] == [];
    assert Retryable([4], 100) by {
      assert DispatchPkt.Count([], 4) == 0 && DispatchPkt.Count([], 14) == 0;
    }
    assert FirstStop(script, lim, 2) && !GoesOn(script, lim, 1);
    assert script[2..] == [];
    var ns: seq<nat> := [2];
    assert ns[1..] == [] && Returns([], lim, 0, 0, [], 0);
    assert Returns(script, lim, 1, 0, ns, 0);
    OnePacketOnly(b);
    SucceedsExactly(script, lim, 1, [b]);
    SuccessIsDelivery(script, lim, 1, [b]);
    assert InTime(script, 2, lim);
  }
}
