// InTransfer: the packets of one IN transfer, and a device that sends its data in packets.
module InTransfer {
  import opened MachineInts
  import opened ParseTools
  import opened UsbCodes

  const RECEIVE_ERROR: u8 := 0xF0

  // What one IN token brings: a packet, a toggle mismatch, success without a packet in the
  // FIFO, or any other result code of dispatchPkt.
  datatype Answer = Packet(bytes: seq<u8>) | ToggleError | NoPacket | Failed(rcode: u8)

  predicate AnswerOk(a: Answer) {
    match a
    case Packet(bytes) => |bytes| <= 64
    case Failed(rcode) => rcode != 0 && rcode != TOGGLE_ERROR
    case _ => true
  }

  predicate ScriptOk(script: seq<Answer>) {
    forall i :: 0 <= i < |script| ==> AnswerOk(script[i])
  }

  datatype Received = Received(outcome: Outcome, script: seq<Answer>, bytes: seq<u8>, count: nat)

  // The loop of InTransfer, answer by answer: `bytes` are in the caller's buffer, `count`
  // is what *nbytesptr says, which may be more.
  function Receive(script: seq<Answer>, maxPktSize: u8, nbytes: nat, bytes: seq<u8>, count: nat): (r: Received)
    requires ScriptOk(script) && |bytes| == Min(count, nbytes)
    ensures |r.bytes| == Min(r.count, nbytes) && bytes <= r.bytes && ScriptOk(r.script)
    ensures r.outcome != Returned(TOGGLE_ERROR) && |r.script| <= |script|
    ensures r.outcome == Returned(0) ==> |r.script| < |script|
    decreases |script|
  {
    if script == [] then Received(Running, [], bytes, count)
    else
      match script[0]
      case ToggleError => Receive(script[1..], maxPktSize, nbytes, bytes, count)
      case NoPacket => Received(Returned(RECEIVE_ERROR), script[1..], bytes, count)
      case Failed(rcode) => Received(Returned(rcode), script[1..], bytes, count)
      case Packet(p) =>
        var pktsize := Min(|p|, nbytes);
        var bytes', count' := bytes + p[..Min(pktsize, nbytes - |bytes|)], count + pktsize;
        if pktsize < maxPktSize || count' >= nbytes
        then Received(Returned(0), script[1..], bytes', count')
        else Receive(script[1..], maxPktSize, nbytes, bytes', count')
  }

  // ----- a device that has `data` to send -----

  // It answers with packets of full size, then with a shorter one, then with empty ones;
  // toggle errors may come in between, and any failure may end the conversation.
  predicate Conforms(script: seq<Answer>, maxPktSize: u8, data: seq<u8>)
    decreases |script|
  {
    script == [] ||
    match script[0]
    case ToggleError => Conforms(script[1..], maxPktSize, data)
    case NoPacket => true
    case Failed(rcode) => rcode != 0
    case Packet(p) =>
      p == data[..Min(maxPktSize, |data|)] && Conforms(script[1..], maxPktSize, data[|p|..])
  }

  predicate Multiple(m: nat, n: nat)
    requires m > 0
    decreases n
  {
    n == 0 || (n >= m && Multiple(m, n - m))
  }

  // The buffer is a multiple of the packet size, or has room for all that is left.
  predicate Room(m: nat, room: nat, left: nat)
    requires m > 0
  {
    Multiple(m, room) || left <= room
  }

  lemma RoomForPacket(m: nat, room: nat, left: nat)
    requires m > 0 && room > 0 && Room(m, room, left)
    ensures var n := Min(m, left);
            n <= room && (n == m && n < room ==> Room(m, room - n, left - n))
  {
  }

  lemma FullPacket(script: seq<Answer>, m: u8, nbytes: nat, bytes: seq<u8>)
    requires ScriptOk(script) && script != [] && script[0].Packet? && |bytes| < nbytes
    requires |script[0].bytes| == m && |bytes| + m < nbytes
    ensures var more := bytes + script[0].bytes;
            Receive(script, m, nbytes, bytes, |bytes|) == Receive(script[1..], m, nbytes, more, |more|)
  {
    assert script[0].bytes[..m] == script[0].bytes;
  }

  lemma LastPacket(script: seq<Answer>, m: u8, nbytes: nat, bytes: seq<u8>)
    requires ScriptOk(script) && script != [] && script[0].Packet? && |bytes| < nbytes
    requires |script[0].bytes| < m || |bytes| + m >= nbytes
    requires |script[0].bytes| <= m && |bytes| + |script[0].bytes| <= nbytes
    ensures var more := bytes + script[0].bytes;
            Receive(script, m, nbytes, bytes, |bytes|) == Received(Returned(0), script[1..], more, |more|)
  {
  }

  lemma Join(data: seq<u8>, p: seq<u8>, bytes: seq<u8>, all: seq<u8>)
    requires p <= data && bytes + p <= all && all[|bytes + p|..] <= data[|p|..]
    ensures all[|bytes|..] <= data && |all| >= |bytes| + |p|
    ensures data[|p|..][|all| - |bytes + p|..] == data[|all| - |bytes|..]
  {
  }

  // One InTransfer takes exactly the next nbytes of the data, or all that is left of it,
  // when the buffer is a multiple of the packet size or large enough for all the data.
  lemma {:induction false} ReceiveConforms(script: seq<Answer>, maxPktSize: u8, nbytes: nat,
                                           data: seq<u8>, bytes: seq<u8>)
    requires ScriptOk(script) && Conforms(script, maxPktSize, data)
    requires 1 <= maxPktSize <= 64 && |bytes| < nbytes
    requires Room(maxPktSize, nbytes - |bytes|, |data|)
    ensures var r := Receive(script, maxPktSize, nbytes, bytes, |bytes|);
            var got := r.bytes[|bytes|..];
            && r.count == |r.bytes| && got <= data
            && (r.outcome == Returned(0) ==>
                  |got| == Min(|data|, nbytes - |bytes|) && Conforms(r.script, maxPktSize, data[|got|..]))
    decreases |script|
  {
    if script == [] {
    } else {
      match script[0]
      case ToggleError =>
        ReceiveConforms(script[1..], maxPktSize, nbytes, data, bytes);
      case Packet(p) =>
        hide Receive, Conforms, ScriptOk, Room;
        var more := bytes + p;
        assert p <= data && p[..|p|] == p && |more| <= nbytes by {
          RoomForPacket(maxPktSize, nbytes - |bytes|, |data|);
        }
        if |p| == maxPktSize && |more| < nbytes {
          RoomForPacket(maxPktSize, nbytes - |bytes|, |data|);
          FullPacket(script, maxPktSize, nbytes, bytes);
          ReceiveConforms(script[1..], maxPktSize, nbytes, data[|p|..], more);
          Join(data, p, bytes, Receive(script[1..], maxPktSize, nbytes, more, |more|).bytes);
        } else {
          LastPacket(script, maxPktSize, nbytes, bytes);
          assert more[|bytes|..] == p;
        }
      case _ =>
    }
  }

  // ----- when a transfer succeeds, and how it fails -----

  // The packets that the device sends before its first failure, and that failure.
  function PacketsIn(script: seq<Answer>): nat {
    if script == [] || script[0].NoPacket? || script[0].Failed? then 0
    else (if script[0].Packet? then 1 else 0) + PacketsIn(script[1..])
  }

  function FailureOf(script: seq<Answer>): Outcome {
    if script == [] then Running
    else
      match script[0]
      case NoPacket => Returned(RECEIVE_ERROR)
      case Failed(rcode) => Returned(rcode)
      case _ => FailureOf(script[1..])
  }

  function CeilDiv(a: nat, m: nat): nat
    requires m > 0
  {
    (a + m - 1) / m
  }

  // How many packets it takes to fill `room`, or to learn that the data is over.
  function NeedOne(m: nat, room: nat, left: nat): nat
    requires m > 0
  {
    if left >= room then CeilDiv(room, m) else left / m + 1
  }

  lemma {:induction false} NextMultiple(q: nat, q': nat, m: nat)
    ensures q < q' ==> q * m + m <= q' * m
    decreases q'
  {
    if q + 1 < q' {
      NextMultiple(q, q' - 1, m);
      assert q' * m == (q' - 1) * m + m;
    }
  }

  lemma DivStep(a: nat, m: nat)
    requires 0 < m <= a
    ensures a / m == (a - m) / m + 1
  {
    var q, q' := a / m, (a - m) / m + 1;
    assert q * m <= a < q * m + m && q' * m <= a < q' * m + m by {
      assert a == q * m + a % m && a - m == (a - m) / m * m + (a - m) % m;
      assert q' * m == (a - m) / m * m + m;
    }
    NextMultiple(q, q', m);
    NextMultiple(q', q, m);
  }

  lemma DivSmall(a: nat, m: nat)
    requires a < m
    ensures a / m == 0
  {
  }

  lemma CeilStep(a: nat, m: nat)
    requires 0 < m && 0 < a
    ensures CeilDiv(a, m) == if a <= m then 1 else CeilDiv(a - m, m) + 1
  {
    DivStep(a + m - 1, m);
    if a <= m {
      DivSmall(a - 1, m);
    }
    assert a + m - 1 - m == a - 1 && (a > m ==> a - m + m - 1 == a - 1);
  }

  lemma OneAtLeast(m: nat, room: nat, left: nat)
    requires m > 0 && room > 0
    ensures NeedOne(m, room, left) >= 1
  {
    if left >= room {
      CeilStep(room, m);
    }
  }

  lemma NeedStep(m: nat, room: nat, left: nat)
    requires m > 0 && room > 0 && Room(m, room, left)
    ensures var n := Min(m, left);
            NeedOne(m, room, left) == if n == m && n < room then 1 + NeedOne(m, room - n, left - n) else 1
  {
    RoomForPacket(m, room, left);
    hide CeilDiv, Room;
    CeilStep(room, m);
    if left >= m {
      DivStep(left, m);
    } else {
      DivSmall(left, m);
    }
  }

  // A transfer succeeds exactly when the device sends as many packets as it takes before it
  // fails, and otherwise ends with the code of that failure.
  lemma {:induction false} ReceiveEnds(script: seq<Answer>, maxPktSize: u8, nbytes: nat,
                                       data: seq<u8>, bytes: seq<u8>)
    requires ScriptOk(script) && Conforms(script, maxPktSize, data)
    requires 1 <= maxPktSize <= 64 && |bytes| < nbytes
    requires Room(maxPktSize, nbytes - |bytes|, |data|)
    ensures var r := Receive(script, maxPktSize, nbytes, bytes, |bytes|);
            var need := NeedOne(maxPktSize, nbytes - |bytes|, |data|);
            && r.outcome == (if PacketsIn(script) >= need then Returned(0) else FailureOf(script))
            && (PacketsIn(script) < need ==> r.outcome != Returned(0))
            && (PacketsIn(script) >= need ==>
                  PacketsIn(r.script) == PacketsIn(script) - need && FailureOf(r.script) == FailureOf(script))
    decreases |script|
  {
    OneAtLeast(maxPktSize, nbytes - |bytes|, |data|);
    if script == [] {
    } else {
      match script[0]
      case ToggleError =>
        ReceiveEnds(script[1..], maxPktSize, nbytes, data, bytes);
      case Packet(p) =>
        assert PacketsIn(script) == 1 + PacketsIn(script[1..]) && FailureOf(script) == FailureOf(script[1..]);
        assert p <= data && |p| == Min(maxPktSize, |data|) && Conforms(script[1..], maxPktSize, data[|p|..]);
        hide Receive, ScriptOk, Room, NeedOne, PacketsIn, FailureOf, Conforms;
        var more := bytes + p;
        RoomForPacket(maxPktSize, nbytes - |bytes|, |data|);
        NeedStep(maxPktSize, nbytes - |bytes|, |data|);
        if |p| == maxPktSize && |more| < nbytes {
          FullPacket(script, maxPktSize, nbytes, bytes);
          ReceiveEnds(script[1..], maxPktSize, nbytes, data[|p|..], more);
        } else {
          LastPacket(script, maxPktSize, nbytes, bytes);
        }
      case NoPacket =>
      case Failed(rcode) =>
        assert AnswerOk(script[0]);
    }
  }

  // ----- a device that never sends more than its packet size -----

  predicate Fitting(script: seq<Answer>, maxPktSize: u8) {
    script == [] || script[0].NoPacket? || script[0].Failed?
    || ((script[0].Packet? ==> |script[0].bytes| <= maxPktSize) && Fitting(script[1..], maxPktSize))
  }

  // It stays inside a buffer that is a multiple of the packet size, even when it is lying
  // about the amount of its data.
  lemma {:induction false} ReceiveFits(script: seq<Answer>, maxPktSize: u8, nbytes: nat, bytes: seq<u8>)
    requires ScriptOk(script) && Fitting(script, maxPktSize)
    requires 1 <= maxPktSize && |bytes| < nbytes && Multiple(maxPktSize, nbytes - |bytes|)
    ensures var r := Receive(script, maxPktSize, nbytes, bytes, |bytes|);
            && r.count == |r.bytes| <= nbytes
            && (r.outcome == Returned(0) ==> Fitting(r.script, maxPktSize))
    decreases |script|
  {
    if script == [] {
    } else {
      match script[0]
      case ToggleError =>
        ReceiveFits(script[1..], maxPktSize, nbytes, bytes);
      case Packet(p) =>
        hide Receive, ScriptOk;
        var more := bytes + p;
        if |p| == maxPktSize && |more| < nbytes {
          FullPacket(script, maxPktSize, nbytes, bytes);
          ReceiveFits(script[1..], maxPktSize, nbytes, more);
        } else {
          LastPacket(script, maxPktSize, nbytes, bytes);
        }
      case NoPacket =>
      case Failed(rcode) =>
        assert AnswerOk(script[0]);
    }
  }

  lemma {:induction false} ConformsIsFitting(script: seq<Answer>, maxPktSize: u8, data: seq<u8>)
    requires Conforms(script, maxPktSize, data)
    ensures Fitting(script, maxPktSize)
    decreases |script|
  {
    if script == [] {
    } else {
      match script[0]
      case ToggleError => ConformsIsFitting(script[1..], maxPktSize, data);
      case Packet(p) => ConformsIsFitting(script[1..], maxPktSize, data[|p|..]);
      case _ =>
    }
  }

  // A packet that is longer than the whole request is cut off, and ends the transfer.
  lemma LongPacketIsCut(p: seq<u8>, m: u8, nbytes: nat)
    requires 0 < nbytes < |p| <= 64
    ensures ScriptOk([Packet(p)]) && Receive([Packet(p)], m, nbytes, [], 0)
                                     == Received(Returned(0), [], p[..nbytes], nbytes)
  {
    assert [Packet(p)][1..] == [] && [] + p[..nbytes] == p[..nbytes];
  }

  // ----- the methods -----

  lemma TakePacket(p: seq<u8>, rest: seq<Answer>, m: u8, nbytes: nat, bytes: seq<u8>, count: nat)
    requires ScriptOk([Packet(p)] + rest) && |bytes| == count <= nbytes
    ensures var n := Min(|p|, nbytes);
            var k := Min(n, nbytes - count);
            && |p| <= 64 && ScriptOk(rest)
            && Receive([Packet(p)] + rest, m, nbytes, bytes, count) ==
               if n < m || count + n >= nbytes then Received(Returned(0), rest, bytes + p[..k], count + n)
               else Receive(rest, m, nbytes, bytes + p[..k], count + n)
  {
    var script := [Packet(p)] + rest;
    assert script[1..] == rest && script[0] == Packet(p) && AnswerOk(script[0]);
  }

  lemma TakeOther(a: Answer, rest: seq<Answer>, m: u8, nbytes: nat, bytes: seq<u8>, count: nat)
    requires ScriptOk([a] + rest) && |bytes| == count <= nbytes && !a.Packet?
    ensures ScriptOk(rest)
    ensures Receive([a] + rest, m, nbytes, bytes, count) ==
            match a
            case ToggleError => Receive(rest, m, nbytes, bytes, count)
            case NoPacket => Received(Returned(RECEIVE_ERROR), rest, bytes, count)
            case Failed(rcode) => Received(Returned(rcode), rest, bytes, count)
  {
    var script := [a] + rest;
    assert script[1..] == rest && script[0] == a && AnswerOk(script[0]);
  }

  lemma TakeNone(m: u8, nbytes: nat, bytes: seq<u8>, count: nat)
    requires |bytes| == count <= nbytes
    ensures ScriptOk([]) && Receive([], m, nbytes, bytes, count) == Received(Running, [], bytes, count)
  {
  }

  // The 16-bit arithmetic of the loop does not overflow.
  lemma MemLeft(nbytes: u16, count: u16, pktsize: nat)
    requires count <= nbytes < 0x8000 && pktsize <= 64
    ensures Signed16(Wrap16(nbytes - count)) == nbytes - count && Wrap16(count + pktsize) == count + pktsize
  {
  }

  // n bytes from the FIFO into the buffer; the place behind them.
  method BytesRd(p: seq<u8>, n: nat, data: array<u8>, at: nat) returns (next: nat)
    requires n <= |p| && at + n <= data.Length
    modifies data
    ensures next == at + n && data[..] == Splice(old(data[..]), at, p[..n])
  {
    for i := 0 to n
      invariant forall k :: 0 <= k < data.Length ==> data[k] == if at <= k < at + i then p[k - at] else old(data[k])
    {
      data[at + i] := p[i];
    }
    return at + n;
  }

  class InPipe {
    var script: seq<Answer>
    const maxPktSize: u8

    constructor (script: seq<Answer>, maxPktSize: u8)
      ensures this.script == script && this.maxPktSize == maxPktSize
    {
      this.script := script;
      this.maxPktSize := maxPktSize;
    }

    // The rest of the buffer is left alone.
    method InTransfer(nbytes: u16, data: array<u8>) returns (outcome: Outcome, count: u16)
      requires ScriptOk(script) && nbytes <= data.Length && nbytes < 0x8000
      modifies this, data
      ensures var r := Receive(old(script), maxPktSize, nbytes, [], 0);
              && outcome == r.outcome && script == r.script && count == r.count
              && data[..] == Splice(old(data[..]), 0, r.bytes)
    {
      hide Receive, ScriptOk, Splice, Wrap16, Signed16;
      count := 0;
      var pos: nat := 0;
      ghost var bytes: seq<u8> := [];
      ghost var goal, before := Receive(script, maxPktSize, nbytes, [], 0), data[..];
      SpliceNothing(before);
      while script != []
        invariant ScriptOk(script) && pos == |bytes| == count <= nbytes
        invariant goal == Receive(script, maxPktSize, nbytes, bytes, count)
        invariant data[..] == Splice(before, 0, bytes)
        decreases |script|
      {
        var answer := script[0];
        assert script == [answer] + script[1..];
        script := script[1..];
        if !answer.Packet? {
          TakeOther(answer, script, maxPktSize, nbytes, bytes, count);
        }
        match answer
        case ToggleError =>
        case NoPacket =>
          return Returned(RECEIVE_ERROR), count;
        case Failed(rcode) =>
          return Returned(rcode), count;
        case Packet(p) =>
          TakePacket(p, script, maxPktSize, nbytes, bytes, count);
          MemLeft(nbytes, count, Min(|p|, nbytes));
          var pktsize := Min(|p|, nbytes);
          var memLeft := Max(Signed16(Wrap16(nbytes - count)), 0);
          var n := Min(pktsize, memLeft);
          pos := BytesRd(p, n, data, pos);
          SpliceTwice(before, bytes, p[..n]);
          bytes := bytes + p[..n];
          count := Wrap16(count + pktsize);
          if pktsize < maxPktSize || count >= nbytes {
            return Returned(0), count;
          }
      }
      TakeNone(maxPktSize, nbytes, bytes, count);
      return Running, count;
    }
  }
}
