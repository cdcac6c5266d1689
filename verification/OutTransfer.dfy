// OutTransfer: sending a block of bytes as packets, with retries.
module OutTransfer {
  import opened Clock
  import opened MachineInts
  import opened ParseTools
  import opened UsbCodes

  const INVALID_MAX_PKT_SIZE: u8 := 0xDA
  const FIFO_SIZE: u8 := 64

  // What one launch brings: its result code, and the clock when the code is looked at.
  datatype Answer = Answer(rcode: u8, now: nat)

  // The NAK limit of the endpoint, and the deadline of the call.
  datatype Limits = Limits(naks: u16, deadline: u32)

  // The deadline of a call that begins at `start` on the unbounded clock.
  function LimitsFrom(nakLimit: u16, start: nat): Limits {
    Limits(nakLimit, Wrap32(Wrap32(start) + XFER_TIMEOUT))
  }

  predicate Late(a: Answer, lim: Limits) {
    !Before(Wrap32(a.now), lim.deadline)
  }

  // One launch as the device sees it.
  datatype Launch = Launch(payload: seq<u8>, rcode: u8)

  // How the launches of one packet end.
  datatype End = Pending | Acked | GivenUp(rcode: u8) | Stopped(rcode: u8)

  datatype Try = Try(end: End, rest: seq<Answer>, codes: seq<u8>)

  datatype Counters = Counters(naks: u16, timeouts: u8)

  // The switch on a result code other than success: stop, or launch again.
  function Judge(rcode: u8, lim: Limits, c: Counters): (bool, Counters) {
    if rcode == NAK then
      var naks := Wrap16(c.naks + 1);
      (lim.naks != 0 && naks == lim.naks, c.(naks := naks))
    else if rcode == TIMEOUT then
      var timeouts := Wrap8(c.timeouts + 1);
      (timeouts == RETRY_LIMIT, c.(timeouts := timeouts))
    else (rcode != TOGGLE_ERROR, c)
  }

  // The launches of one packet.
  function Attempt(script: seq<Answer>, lim: Limits, c: Counters): (t: Try)
  {
    if script == [] then Try(Pending, [], [])
    else
      var a := script[0];
      if a.rcode == 0 then Try(Acked, script[1..], [0])
      else if Late(a, lim) then Try(GivenUp(a.rcode), script[1..], [a.rcode])
      else
        var (stop, c') := Judge(a.rcode, lim, c);
        if stop then Try(Stopped(a.rcode), script[1..], [a.rcode])
        else
          var t := Attempt(script[1..], lim, c');
          t.(codes := [a.rcode] + t.codes)
  }

  // No launch but the last was acknowledged, and the last one only if the packet was.
  predicate Retried(codes: seq<u8>, acked: bool) {
    && (forall i :: 0 <= i < |codes| - 1 ==> codes[i] != 0)
    && (acked <==> codes != [] && codes[|codes| - 1] == 0)
  }

  // The codes are those of the answers that were met, and the rest is still to come.
  predicate Shaped(t: Try, script: seq<Answer>) {
    && Retried(t.codes, t.end == Acked)
    && (t.end.GivenUp? || t.end.Stopped? ==> t.end.rcode != 0)
    && |t.codes| <= |script| && t.rest == script[|t.codes|..]
    && (forall i :: 0 <= i < |t.codes| ==> t.codes[i] == script[i].rcode)
  }

  lemma ShapedNow(end: End, script: seq<Answer>)
    requires script != [] && end != Pending && (end == Acked <==> script[0].rcode == 0)
    requires end.GivenUp? || end.Stopped? ==> end.rcode != 0
    ensures Shaped(Try(end, script[1..], [script[0].rcode]), script)
  {
  }

  lemma ShapedLater(t: Try, script: seq<Answer>)
    requires script != [] && script[0].rcode != 0 && Shaped(t, script[1..])
    ensures Shaped(t.(codes := [script[0].rcode] + t.codes), script)
  {
    assert script[1..][|t.codes|..] == script[|t.codes| + 1..];
  }

  lemma {:induction false} AttemptShape(script: seq<Answer>, lim: Limits, c: Counters)
    ensures Shaped(Attempt(script, lim, c), script)
  {
    if script == [] {
    } else {
      hide Late, Judge, Shaped;
      var rcode := script[0].rcode;
      if rcode == 0 {
        ShapedNow(Acked, script);
      } else {
        ShapedNow(GivenUp(rcode), script);
        ShapedNow(Stopped(rcode), script);
        var c' := Judge(rcode, lim, c).1;
        AttemptShape(script[1..], lim, c');
        ShapedLater(Attempt(script[1..], lim, c'), script);
      }
    }
  }

  function Sends(payload: seq<u8>, codes: seq<u8>): (log: seq<Launch>)
    ensures |log| == |codes|
  {
    seq(|codes|, i requires 0 <= i < |codes| => Launch(payload, codes[i]))
  }

  datatype Sent = Sent(outcome: Outcome, rest: seq<Answer>, log: seq<Launch>, ends: seq<End>)

  function Code(end: End): u8 {
    match end
    case GivenUp(rcode) => rcode
    case Stopped(rcode) => rcode
    case _ => 0
  }

  // The call after the launches `log` of one packet, if it goes on as r.
  function AfterPacket(t: Try, log: seq<Launch>, r: Sent): Sent {
    match t.end
    case Pending => Sent(Running, t.rest, log, [])
    case Stopped(rcode) => Sent(Returned(rcode), t.rest, log, [t.end])
    case _ => Sent(r.outcome, r.rest, log + r.log, [t.end] + r.ends)
  }

  // The packets of one call, one after the other: a packet that is given up is followed by
  // the next one like a packet that was acknowledged.
  function Send(script: seq<Answer>, lim: Limits, m: u8, data: seq<u8>, rcode: u8): (r: Sent)
    requires m > 0
    decreases |data|
  {
    if data == [] then Sent(Returned(rcode), script, [], [])
    else
      var n := Min(m, |data|);
      var t := Attempt(script, lim, Counters(0, 0));
      AfterPacket(t, Sends(data[..n], t.codes), Send(t.rest, lim, m, data[n..], Code(t.end)))
  }

  lemma SendStep(script: seq<Answer>, lim: Limits, m: u8, data: seq<u8>, rcode: u8)
    requires m > 0 && data != []
    ensures var n := Min(m, |data|);
            var t := Attempt(script, lim, Counters(0, 0));
            Send(script, lim, m, data, rcode) ==
            AfterPacket(t, Sends(data[..n], t.codes), Send(t.rest, lim, m, data[n..], Code(t.end)))
  {
  }

  // ----- what the device gets -----

  // The data cut at multiples of the packet size.
  function Packets(data: seq<u8>, m: u8): (ps: seq<seq<u8>>)
    requires m > 0
    ensures Flatten(ps) == data
    ensures forall i :: 0 <= i < |ps| ==> 0 < |ps[i]| <= m && (i < |ps| - 1 ==> |ps[i]| == m)
    decreases |data|
  {
    if data == [] then []
    else
      var n := Min(m, |data|);
      var ps := Packets(data[n..], m);
      assert ([data[..n]] + ps)[1..] == ps;
      [data[..n]] + ps
  }

  // The payloads that were acknowledged.
  function Delivered(log: seq<Launch>): seq<seq<u8>> {
    if log == [] then []
    else if log[0].rcode == 0 then [log[0].payload] + Delivered(log[1..])
    else Delivered(log[1..])
  }

  // Stop and wait: every launch carries the first packet that is not acknowledged yet.
  predicate StopAndWait(log: seq<Launch>, ps: seq<seq<u8>>) {
    log == [] ||
    (ps != [] && log[0].payload == ps[0]
     && StopAndWait(log[1..], if log[0].rcode == 0 then ps[1..] else ps))
  }

  lemma {:induction false} DeliveredAppend(a: seq<Launch>, b: seq<Launch>)
    ensures Delivered(a + b) == Delivered(a) + Delivered(b)
  {
    if a == [] {
      assert a + b == b;
    } else {
      assert (a + b)[1..] == a[1..] + b;
      DeliveredAppend(a[1..], b);
    }
  }

  // What is acknowledged is a prefix of what is to be sent.
  lemma {:induction false} StopAndWaitDelivers(log: seq<Launch>, ps: seq<seq<u8>>)
    requires StopAndWait(log, ps)
    ensures Delivered(log) <= ps
  {
    if log == [] {
    } else {
      StopAndWaitDelivers(log[1..], if log[0].rcode == 0 then ps[1..] else ps);
    }
  }

  // The launches of one packet, followed by those of the packets after it.
  lemma {:induction false} OnePacket(payload: seq<u8>, codes: seq<u8>, acked: bool, log: seq<Launch>,
                                     ps: seq<seq<u8>>)
    requires ps != [] && payload == ps[0] && Retried(codes, acked)
    requires if acked then StopAndWait(log, ps[1..]) else log == []
    ensures StopAndWait(Sends(payload, codes) + log, ps)
    decreases |codes|
  {
    var all := Sends(payload, codes) + log;
    if codes == [] {
      assert all == log;
    } else {
      assert all[1..] == Sends(payload, codes[1..]) + log;
      if |codes| == 1 {
        assert all[1..] == log;
      } else {
        OnePacket(payload, codes[1..], acked, log, ps);
      }
    }
  }

  lemma {:induction false} DeliveredOnce(payload: seq<u8>, codes: seq<u8>, acked: bool)
    requires Retried(codes, acked)
    ensures Delivered(Sends(payload, codes)) == if acked then [payload] else []
    decreases |codes|
  {
    if |codes| > 1 {
      assert Sends(payload, codes)[1..] == Sends(payload, codes[1..]);
      DeliveredOnce(payload, codes[1..], acked);
    } else if |codes| == 1 {
      assert Sends(payload, codes)[1..] == [];
    }
  }

  lemma DeliveredNext(payload: seq<u8>, codes: seq<u8>, acked: bool, log: seq<Launch>)
    requires Retried(codes, acked)
    ensures Delivered(Sends(payload, codes) + log) == (if acked then [payload] else []) + Delivered(log)
  {
    hide Delivered, Sends, Retried;
    DeliveredOnce(payload, codes, acked);
    DeliveredAppend(Sends(payload, codes), log);
  }

  // None of the first n answers was looked at after the deadline, other than a success.
  predicate InTime(script: seq<Answer>, n: nat, lim: Limits)
    requires n <= |script|
  {
    forall i :: 0 <= i < n ==> !(script[i].rcode != 0 && Late(script[i], lim))
  }

  lemma InTimeParts(script: seq<Answer>, p: nat, n: nat, lim: Limits)
    requires p + n <= |script|
    ensures InTime(script, p + n, lim) <==> InTime(script, p, lim) && InTime(script[p..], n, lim)
  {
    hide Late;
    forall i | p <= i < p + n
      ensures script[i] == script[p..][i - p]
    {
    }
  }

  // A packet is given up exactly when one of its answers came too late.
  lemma {:induction false} GivenUpIsLate(script: seq<Answer>, lim: Limits, c: Counters)
    ensures var t := Attempt(script, lim, c);
            && |t.codes| <= |script| && t.rest == script[|t.codes|..]
            && (t.end.GivenUp? <==> !InTime(script, |t.codes|, lim))
  {
    hide Late;
    if script == [] {
    } else {
      GivenUpIsLate(script[1..], lim, Judge(script[0].rcode, lim, c).1);
      var n := |Attempt(script[1..], lim, Judge(script[0].rcode, lim, c).1).codes|;
      InTimeParts(script, 1, n, lim);
    }
  }

  lemma OneMoreEnd(end: End, ends: seq<End>)
    ensures (forall i :: 0 <= i < |[end] + ends| ==> !([end] + ends)[i].GivenUp?)
            <==> !end.GivenUp? && forall i :: 0 <= i < |ends| ==> !ends[i].GivenUp?
  {
    var all := [end] + ends;
    assert all[0] == end;
    assert forall i :: 0 < i < |all| ==> all[i] == ends[i - 1];
    assert forall i :: 0 <= i < |ends| ==> ends[i] == all[i + 1];
  }

  // The same for a whole call.
  lemma {:induction false} LateAnswers(script: seq<Answer>, lim: Limits, m: u8, data: seq<u8>, rcode: u8)
    requires m > 0
    ensures var r := Send(script, lim, m, data, rcode);
            && |r.log| <= |script|
            && (InTime(script, |r.log|, lim) <==> forall i :: 0 <= i < |r.ends| ==> !r.ends[i].GivenUp?)
    decreases |data|
  {
    if data == [] {
    } else {
      hide Send, Attempt, Sends, InTime;
      var n, t := Min(m, |data|), Attempt(script, lim, Counters(0, 0));
      SendStep(script, lim, m, data, rcode);
      GivenUpIsLate(script, lim, Counters(0, 0));
      if t.end == Acked || t.end.GivenUp? {
        var r := Send(t.rest, lim, m, data[n..], Code(t.end));
        LateAnswers(t.rest, lim, m, data[n..], Code(t.end));
        InTimeParts(script, |t.codes|, |r.log|, lim);
        OneMoreEnd(t.end, r.ends);
      }
    }
  }

  lemma FirstPacket(data: seq<u8>, m: u8)
    requires m > 0 && data != []
    ensures var n := Min(m, |data|);
            Packets(data, m) == [data[..n]] + Packets(data[n..], m) && Packets(data, m)[1..] == Packets(data[n..], m)
  {
  }

  // As long as the deadline is not over: stop and wait, whatever the device answers.  The
  // acknowledged packets are a prefix of the data's packets, and all of them when the call
  // succeeds.
  lemma {:induction false} SendIsStopAndWait(script: seq<Answer>, lim: Limits, m: u8, data: seq<u8>, rcode: u8)
    requires m > 0
    requires var n := |Send(script, lim, m, data, rcode).log|; n <= |script| && InTime(script, n, lim)
    ensures var r := Send(script, lim, m, data, rcode);
            && StopAndWait(r.log, Packets(data, m))
            && (r.outcome == Returned(0) && rcode == 0 ==> Delivered(r.log) == Packets(data, m))
    decreases |data|
  {
    if data == [] {
      assert Packets(data, m) == [];
    } else {
      hide Send, Attempt, Delivered, StopAndWait, Packets, Sends, Retried, InTime;
      var n, t := Min(m, |data|), Attempt(script, lim, Counters(0, 0));
      var front, back := data[..n], data[n..];
      SendStep(script, lim, m, data, rcode);
      AttemptShape(script, lim, Counters(0, 0));
      GivenUpIsLate(script, lim, Counters(0, 0));
      FirstPacket(data, m);
      if t.end == Acked || t.end.GivenUp? {
        LateAnswers(t.rest, lim, m, back, Code(t.end));
        var log := Send(t.rest, lim, m, back, Code(t.end)).log;
        InTimeParts(script, |t.codes|, |log|, lim);
        assert t.end == Acked;
        SendIsStopAndWait(t.rest, lim, m, back, 0);
        OnePacket(front, t.codes, true, log, Packets(data, m));
        DeliveredNext(front, t.codes, true, log);
      } else {
        OnePacket(front, t.codes, false, [], Packets(data, m));
        assert Sends(front, t.codes) + [] == Sends(front, t.codes);
      }
    }
  }

  // The packets that were acknowledged, picked out by how each of them ended.
  function Survivors(ps: seq<seq<u8>>, ends: seq<End>): (r: seq<seq<u8>>)
    requires |ends| <= |ps|
    ensures |r| <= |ps|
  {
    if ends == [] then []
    else (if ends[0] == Acked then [ps[0]] else []) + Survivors(ps[1..], ends[1..])
  }

  lemma SurvivorsNext(p: seq<u8>, ps: seq<seq<u8>>, end: End, ends: seq<End>)
    requires |ends| <= |ps|
    ensures Survivors([p] + ps, [end] + ends) == (if end == Acked then [p] else []) + Survivors(ps, ends)
  {
  }

  lemma SurvivorsNone(ps: seq<seq<u8>>, end: End)
    requires ps != [] && end != Acked
    ensures Survivors(ps, []) == [] && Survivors(ps, [end]) == []
  {
  }

  // In every run at all: the packets are tried in order, each acknowledged at most once,
  // and what is missing is exactly what was given up.
  lemma {:induction false} SendDelivers(script: seq<Answer>, lim: Limits, m: u8, data: seq<u8>, rcode: u8)
    requires m > 0
    ensures var r := Send(script, lim, m, data, rcode);
            && |r.ends| <= |Packets(data, m)|
            && Delivered(r.log) == Survivors(Packets(data, m), r.ends)
            && (r.outcome == Returned(0) ==> |r.ends| == |Packets(data, m)|)
    decreases |data|
  {
    if data == [] {
      assert Packets(data, m) == [];
    } else {
      hide Send, Attempt, Delivered, Packets, Sends, Retried, Survivors;
      var n, t := Min(m, |data|), Attempt(script, lim, Counters(0, 0));
      var front, back := data[..n], data[n..];
      SendStep(script, lim, m, data, rcode);
      AttemptShape(script, lim, Counters(0, 0));
      FirstPacket(data, m);
      if t.end == Acked || t.end.GivenUp? {
        SendDelivers(t.rest, lim, m, back, Code(t.end));
        var r := Send(t.rest, lim, m, back, Code(t.end));
        DeliveredNext(front, t.codes, t.end == Acked, r.log);
        SurvivorsNext(front, Packets(back, m), t.end, r.ends);
      } else {
        DeliveredOnce(front, t.codes, false);
        SurvivorsNone(Packets(data, m), t.end);
      }
    }
  }

  lemma {:induction false} AllSurvive(ps: seq<seq<u8>>, ends: seq<End>)
    requires |ends| == |ps| && forall i :: 0 <= i < |ps| ==> 0 < |ps[i]|
    ensures if forall i :: 0 <= i < |ends| ==> ends[i] == Acked
            then Survivors(ps, ends) == ps else |Flatten(Survivors(ps, ends))| < |Flatten(ps)|
  {
    if ends == [] {
    } else {
      AllSurvive(ps[1..], ends[1..]);
      var more := Survivors(ps[1..], ends[1..]);
      assert ends == [ends[0]] + ends[1..];
      if ends[0] == Acked {
        assert ([ps[0]] + more)[1..] == more;
      } else {
        assert [] + more == more;
      }
    }
  }

  lemma {:induction false} SuccessEnds(script: seq<Answer>, lim: Limits, m: u8, data: seq<u8>, rcode: u8)
    requires m > 0 && Send(script, lim, m, data, rcode).outcome == Returned(0)
    ensures var r := Send(script, lim, m, data, rcode);
            && (forall i :: 0 <= i < |r.ends| ==> r.ends[i] == Acked || r.ends[i].GivenUp?)
            && (data != [] ==> r.ends != [] && r.ends[|r.ends| - 1] == Acked)
    decreases |data|
  {
    if data == [] {
    } else {
      var n, t := Min(m, |data|), Attempt(script, lim, Counters(0, 0));
      hide Attempt;
      AttemptShape(script, lim, Counters(0, 0));
      SuccessEnds(t.rest, lim, m, data[n..], Code(t.end));
    }
  }

  // A call that reports success has delivered the data if and only if it met no answer,
  // other than a success, after the deadline.
  lemma SuccessIsDelivery(script: seq<Answer>, lim: Limits, m: u8, data: seq<u8>)
    requires m > 0 && Send(script, lim, m, data, 0).outcome == Returned(0)
    ensures var r := Send(script, lim, m, data, 0);
            && |r.log| <= |script|
            && (Flatten(Delivered(r.log)) == data <==> InTime(script, |r.log|, lim))
            && (!InTime(script, |r.log|, lim) ==> |Flatten(Delivered(r.log))| < |data|)
  {
    hide InTime;
    SendDelivers(script, lim, m, data, 0);
    AllSurvive(Packets(data, m), Send(script, lim, m, data, 0).ends);
    SuccessEnds(script, lim, m, data, 0);
    LateAnswers(script, lim, m, data, 0);
  }

  // On the unbounded clock: if and only if every answer other than a success came within
  // the five seconds.
  lemma DeliveredInTime(script: seq<Answer>, nakLimit: u16, start: nat, m: u8, data: seq<u8>)
    requires m > 0 && Send(script, LimitsFrom(nakLimit, start), m, data, 0).outcome == Returned(0)
    requires forall i :: 0 <= i < |script| ==> start <= script[i].now < start + 0x8000_0000
    ensures var r := Send(script, LimitsFrom(nakLimit, start), m, data, 0);
            && |r.log| <= |script|
            && (Flatten(Delivered(r.log)) == data <==>
                forall i :: 0 <= i < |r.log| && script[i].rcode != 0 ==> script[i].now - start < 5000)
  {
    hide Send, Delivered, Flatten, Before, Wrap32;
    var lim := LimitsFrom(nakLimit, start);
    SuccessIsDelivery(script, lim, m, data);
    forall i | 0 <= i < |script|
      ensures Late(script[i], lim) <==> script[i].now - start >= XFER_TIMEOUT
    {
      DeadlineIsExact(start, XFER_TIMEOUT, script[i].now);
    }
  }

  // And it may have lost some: the first of two packets is answered with NAK until the
  // deadline, the second is acknowledged, and the call returns 0 with the first one lost.
  lemma SuccessCanLoseAPacket(b0: u8, b1: u8, start: nat)
    ensures var late, ok := Answer(NAK, start + XFER_TIMEOUT), Answer(0, start + XFER_TIMEOUT);
            var r := Send([late, ok], LimitsFrom(100, start), 1, [b0, b1], 0);
            r.outcome == Returned(0) && Delivered(r.log) == [[b1]]
  {
    var late, ok := Answer(NAK, start + XFER_TIMEOUT), Answer(0, start + XFER_TIMEOUT);
    var lim := LimitsFrom(100, start);
    DeadlineIsExact(start, XFER_TIMEOUT, start + XFER_TIMEOUT);
    assert Late(late, lim);
    hide Late, Before, Wrap32, LimitsFrom;
    assert [late, ok][1..] == [ok] && [b0, b1][..1] == [b0] && [b0, b1][1..] == [b1];
    assert Attempt([late, ok], lim, Counters(0, 0)) == Try(GivenUp(NAK), [ok], [NAK]);
    assert Attempt([ok], lim, Counters(0, 0)) == Try(Acked, [], [0]) by {
      assert [ok][1..] == [];
    }
    assert [b1][..1] == [b1] && [b1][1..] == [];
    assert Sends([b1], [0]) == [Launch([b1], 0)] && Sends([b0], [NAK]) == [Launch([b0], NAK)];
    var none := Send([], lim, 1, [], 0);
    assert none == Sent(Returned(0), [], [], []);
    var second := Send([ok], lim, 1, [b1], NAK);
    assert second.outcome == Returned(0) && second.log == [Launch([b1], 0)];
    var r := Send([late, ok], lim, 1, [b0, b1], 0);
    assert r.log == [Launch([b0], NAK), Launch([b1], 0)];
    assert r.log[1..] == [Launch([b1], 0)];
    assert Delivered([Launch([b1], 0)]) == [[b1]];
  }

  // ----- the methods -----

  // A packet that had the answers `codes` so far, and then goes on as u.
  predicate Extends(t: Try, codes: seq<u8>, u: Try) {
    t.end == u.end && t.rest == u.rest && t.codes == codes + u.codes
  }

  lemma FirstAnswer(script: seq<Answer>, payload: seq<u8>, lim: Limits)
    requires script != []
    ensures Extends(Attempt(script, lim, Counters(0, 0)), [],
                    Attempt([script[0]] + script[1..], lim, Counters(0, 0)))
    ensures Sends(payload, [] + [script[0].rcode]) == [Launch(payload, script[0].rcode)]
  {
  }

  // What comes of a packet once its launch was answered.
  lemma Answered(t: Try, codes: seq<u8>, a: Answer, rest: seq<Answer>, lim: Limits, c: Counters)
    requires Extends(t, codes, Attempt([a] + rest, lim, c))
    ensures a.rcode == 0 ==> t == Try(Acked, rest, codes + [a.rcode])
    ensures a.rcode != 0 && Late(a, lim) ==> t == Try(GivenUp(a.rcode), rest, codes + [a.rcode])
    ensures a.rcode != 0 && !Late(a, lim) ==>
              var (stop, c') := Judge(a.rcode, lim, c);
              if stop then t == Try(Stopped(a.rcode), rest, codes + [a.rcode])
              else Extends(t, codes + [a.rcode], Attempt(rest, lim, c'))
  {
  }

  lemma SendsSnoc(payload: seq<u8>, codes: seq<u8>, rcode: u8)
    ensures Sends(payload, codes + [rcode]) == Sends(payload, codes) + [Launch(payload, rcode)]
  {
  }

  lemma SendsNone(payload: seq<u8>)
    ensures Sends(payload, []) == []
  {
  }

  // No answer: the packet is on its way.
  lemma Unanswered(lim: Limits, c: Counters)
    ensures Attempt([], lim, c) == Try(Pending, [], [])
    ensures forall t: Try, codes: seq<u8> ::
              Extends(t, codes, Attempt([], lim, c)) ==> t == Try(Pending, [], codes)
  {
  }

  // A call that sent `sent` and ended the packets `ends` so far, and then goes on as r.
  predicate Continues(goal: Sent, sent: seq<Launch>, ends: seq<End>, r: Sent) {
    && goal.outcome == r.outcome && goal.rest == r.rest
    && goal.log == sent + r.log && goal.ends == ends + r.ends
  }

  lemma ContinuesFromStart(script: seq<Answer>, lim: Limits, m: u8, data: seq<u8>, nbytes: nat)
    requires m > 0 && nbytes <= |data|
    ensures Continues(Send(script, lim, m, data[..nbytes], 0), [], [],
                      Send(script, lim, m, data[0..nbytes], 0))
  {
  }

  // The next packet, and how it takes the call further.
  lemma ContinuesStep(goal: Sent, sent: seq<Launch>, ends: seq<End>, log: seq<Launch>, t: Try, r: Sent)
    requires Continues(goal, sent, ends, AfterPacket(t, log, r))
    ensures t.end == Pending ==> goal == Sent(Running, t.rest, sent + log, ends)
    ensures t.end.Stopped? ==> goal == Sent(Returned(t.end.rcode), t.rest, sent + log, ends + [t.end])
    ensures t.end == Acked || t.end.GivenUp? ==> Continues(goal, sent + log, ends + [t.end], r)
  {
  }

  // The same, with the slices of the caller's data.
  lemma SendOne(goal: Sent, sent: seq<Launch>, ends: seq<End>, script: seq<Answer>, lim: Limits, m: u8,
                data: seq<u8>, at: nat, end: nat, rcode: u8)
    requires m > 0 && at < end <= |data|
    requires Continues(goal, sent, ends, Send(script, lim, m, data[at..end], rcode))
    ensures var n := if end - at >= m then m else end - at;
            var t := Attempt(script, lim, Counters(0, 0));
            var log := Sends(data[at..at + n], t.codes);
            && (t.end == Pending ==> goal == Sent(Running, t.rest, sent + log, ends))
            && (t.end.Stopped? ==> goal == Sent(Returned(t.end.rcode), t.rest, sent + log, ends + [t.end]))
            && (t.end == Acked || t.end.GivenUp? ==>
                  Continues(goal, sent + log, ends + [t.end],
                            Send(t.rest, lim, m, data[at + n..end], Code(t.end))))
  {
    hide Attempt, Sends, Send, AfterPacket, Continues, Code;
    var n, t := Min(m, end - at), Attempt(script, lim, Counters(0, 0));
    assert data[at..end][..n] == data[at..at + n] && data[at..end][n..] == data[at + n..end];
    SendStep(script, lim, m, data[at..end], rcode);
    ContinuesStep(goal, sent, ends, Sends(data[at..at + n], t.codes), t,
                  Send(t.rest, lim, m, data[at + n..end], Code(t.end)));
  }

  lemma LogGrows(a: seq<Launch>, b: seq<Launch>, c: seq<Launch>)
    ensures a + b + c == a + (b + c)
  {
  }

  lemma SendNone(goal: Sent, sent: seq<Launch>, ends: seq<End>, script: seq<Answer>, lim: Limits, m: u8,
                 data: seq<u8>, rcode: u8)
    requires m > 0 && data == [] && Continues(goal, sent, ends, Send(script, lim, m, data, rcode))
    ensures goal == Sent(Returned(rcode), script, sent, ends)
  {
  }

  lemma FifoHolds(s: seq<u8>, bs: seq<u8>)
    requires |bs| <= |s|
    ensures Splice(s, 0, bs)[..|bs|] == bs
  {
  }

  // Writing the first byte once more changes nothing.
  lemma FifoKeeps(s: seq<u8>, bs: seq<u8>)
    requires 0 < |bs| <= |s| && s[..|bs|] == bs
    ensures Splice(s, 0, bs[..1]) == s
  {
  }

  // A write to SNDFIFO or to SNDBC.
  datatype Write = Fifo(b: u8) | ByteCount(n: nat)

  function FifoWrites(bs: seq<u8>): (w: seq<Write>)
    ensures |w| == |bs|
  {
    seq(|bs|, i requires 0 <= i < |bs| => Fifo(bs[i]))
  }

  // The send FIFO of the MAX3421E in front of one endpoint.  Writing the byte count arms
  // the FIFO and puts its write pointer back to the start.
  class OutPipe {
    var script: seq<Answer>
    const maxPktSize: u8
    const fifo: array<u8>
    var wr: nat
    var sndbc: nat
    ghost var log: seq<Launch>
    ghost var writes: seq<Write>

    constructor (script: seq<Answer>, maxPktSize: u8)
      ensures this.script == script && this.maxPktSize == maxPktSize && log == [] && Valid() && fresh(fifo)
    {
      this.script := script;
      this.maxPktSize := maxPktSize;
      fifo := new u8[FIFO_SIZE];
      wr, sndbc, log, writes := 0, 0, [], [];
    }

    ghost predicate Valid()
      reads this
    {
      fifo.Length == FIFO_SIZE && sndbc <= FIFO_SIZE && wr == 0
    }

    method BytesWr(bs: seq<u8>)
      requires wr + |bs| <= fifo.Length
      modifies this`wr, this`writes, fifo
      ensures wr == old(wr) + |bs| && fifo[..] == Splice(old(fifo[..]), old(wr), bs)
      ensures writes == old(writes) + FifoWrites(bs)
    {
      for i := 0 to |bs|
        invariant wr == old(wr) && writes == old(writes) + FifoWrites(bs[..i])
        invariant forall k :: 0 <= k < fifo.Length ==>
                                fifo[k] == if old(wr) <= k < old(wr) + i then bs[k - old(wr)] else old(fifo[k])
      {
        fifo[wr + i] := bs[i];
        writes := writes + [Fifo(bs[i])];
        assert FifoWrites(bs[..i + 1]) == FifoWrites(bs[..i]) + [Fifo(bs[i])];
      }
      assert bs[..|bs|] == bs;
      wr := wr + |bs|;
    }

    method SetCount(n: nat)
      modifies this`wr, this`sndbc, this`writes
      ensures sndbc == n && wr == 0 && writes == old(writes) + [ByteCount(n)]
    {
      sndbc, wr, writes := n, 0, writes + [ByteCount(n)];
    }

    method LaunchOut() returns (a: Answer)
      requires script != [] && sndbc <= fifo.Length
      modifies this`script, this`log
      ensures a == old(script)[0] && script == old(script)[1..]
      ensures log == old(log) + [Launch(fifo[..sndbc], a.rcode)]
    {
      a := script[0];
      script := script[1..];
      log := log + [Launch(fifo[..sndbc], a.rcode)];
    }

    // The host OUT NAK bug: the packet is armed again after its first byte was rewritten.
    method Rearm(payload: seq<u8>)
      requires Valid() && 0 < |payload| <= FIFO_SIZE && fifo[..|payload|] == payload
      modifies this`wr, this`sndbc, this`writes, fifo
      ensures Valid() && sndbc == |payload| && fifo[..|payload|] == payload
      ensures writes == old(writes) + [ByteCount(0), Fifo(payload[0]), ByteCount(|payload|)]
    {
      SetCount(0);
      FifoKeeps(fifo[..], payload);
      BytesWr(payload[..1]);
      assert FifoWrites(payload[..1]) == [Fifo(payload[0])];
      SetCount(|payload|);
    }

    // One packet: its first launch, and those that follow a result code other than success.
    method SendPacket(lim: Limits, payload: seq<u8>) returns (end: End)
      requires Valid() && 0 < |payload| <= FIFO_SIZE
      modifies this`script, this`wr, this`sndbc, this`writes, this`log, fifo
      ensures var t := Attempt(old(script), lim, Counters(0, 0));
              && end == t.end && script == t.rest && log == old(log) + Sends(payload, t.codes)
      ensures Valid()
    {
      hide Attempt, Sends, Splice, Judge, Extends, Late;
      ghost var t := Attempt(script, lim, Counters(0, 0));
      var c := Counters(0, 0);
      BytesWr(payload);
      SetCount(|payload|);
      FifoHolds(old(fifo[..]), payload);
      if script == [] {
        Unanswered(lim, c);
        SendsNone(payload);
        return Pending;
      }
      ghost var codes: seq<u8> := [];
      var a := LaunchOut();
      FirstAnswer(old(script), payload, lim);
      while a.rcode != 0 && !Late(a, lim)
        invariant Valid() && sndbc == |payload| && fifo[..sndbc] == payload
        invariant Extends(t, codes, Attempt([a] + script, lim, c))
        invariant log == old(log) + Sends(payload, codes + [a.rcode])
        decreases |script|
      {
        Answered(t, codes, a, script, lim, c);
        var (stop, c') := Judge(a.rcode, lim, c);
        if stop {
          return Stopped(a.rcode);
        }
        codes, c := codes + [a.rcode], c';
        Rearm(payload);
        if script == [] {
          Unanswered(lim, c);
          return Pending;
        }
        ghost var answers := script;
        a := LaunchOut();
        assert answers == [a] + script;
        SendsSnoc(payload, codes, a.rcode);
      }
      Answered(t, codes, a, script, lim, c);
      return if a.rcode == 0 then Acked else GivenUp(a.rcode);
    }

    // All the packets of one call.  A packet that was given up at the deadline is not sent
    // again; the call goes on with the next one.
    method SendAll(lim: Limits, nbytes: u16, data: seq<u8>) returns (outcome: Outcome, ghost ends: seq<End>)
      requires Valid() && nbytes <= |data| && 1 <= maxPktSize <= 64
      modifies this`script, this`wr, this`sndbc, this`writes, this`log, fifo
      ensures Valid()
      ensures var r := Send(old(script), lim, maxPktSize, data[..nbytes], 0);
              outcome == r.outcome && script == r.rest && log == old(log) + r.log && ends == r.ends
    {
      hide Attempt, Sends, Send, Continues, AfterPacket, Code, Judge, Splice, Min, Wrap8, Wrap16, Late;
      ghost var goal := Send(script, lim, maxPktSize, data[..nbytes], 0);
      ghost var sent: seq<Launch>, before := [], log;
      ends := [];
      var rcode: u8, left: u16, at: nat := 0, nbytes, 0;
      ContinuesFromStart(script, lim, maxPktSize, data, nbytes);
      while left > 0
        invariant Valid() && at + left == nbytes && log == before + sent
        invariant Continues(goal, sent, ends, Send(script, lim, maxPktSize, data[at..nbytes], rcode))
        decreases left
      {
        var n := if left >= maxPktSize then maxPktSize else left;
        var payload := data[at..at + n];
        ghost var t := Attempt(script, lim, Counters(0, 0));
        SendOne(goal, sent, ends, script, lim, maxPktSize, data, at, nbytes, rcode);
        var end := SendPacket(lim, payload);
        LogGrows(before, sent, Sends(payload, t.codes));
        sent := sent + Sends(payload, t.codes);
        if end == Pending {
          return Running, ends;
        }
        ends := ends + [end];
        if end.Stopped? {
          return Returned(end.rcode), ends;
        }
        rcode, left, at := Code(end), left - n, at + n;
      }
      SendNone(goal, sent, ends, script, lim, maxPktSize, data[at..nbytes], rcode);
      return Returned(rcode), ends;
    }

    // The clock shows `start` when the call begins.
    method OutTransfer(nakLimit: u16, start: nat, nbytes: u16, data: seq<u8>)
      returns (outcome: Outcome, ghost ends: seq<End>)
      requires Valid() && nbytes <= |data|
      modifies this`script, this`wr, this`sndbc, this`writes, this`log, fifo
      ensures Valid()
      ensures !(1 <= maxPktSize <= 64) ==>
                outcome == Returned(INVALID_MAX_PKT_SIZE) && script == old(script) && log == old(log)
      ensures 1 <= maxPktSize <= 64 ==>
                var r := Send(old(script), LimitsFrom(nakLimit, start), maxPktSize, data[..nbytes], 0);
                outcome == r.outcome && script == r.rest && log == old(log) + r.log && ends == r.ends
    {
      hide Send, Wrap32;
      if maxPktSize < 1 || maxPktSize > 64 {
        return Returned(INVALID_MAX_PKT_SIZE), [];
      }
      var timeout := Wrap32(Wrap32(start) + XFER_TIMEOUT);
      outcome, ends := SendAll(Limits(nakLimit, timeout), nbytes, data);
    }
  }
}
