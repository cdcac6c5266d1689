// RecvData: handing out received USB-MIDI event packets one by one.
module RecvData {
  import opened MachineInts
  import opened ParseTools
  import opened UsbCodes
  import opened Wrappers
  import InTransfer
  import MidiDescriptors

  const BUFFER: u8 := MidiDescriptors.MIDI_EVENT_PACKET_SIZE

  // What one inTransfer brings; after a failure the buffer may hold part of a transfer.
  datatype Transfer = Transfer(rc: u8, bytes: seq<u8>)

  datatype Midi = Midi(recvBuf: seq<u8>, readPtr: nat)

  predicate Aligned(p: nat) {
    p <= BUFFER && p % 4 == 0
  }

  predicate MidiOk(m: Midi) {
    |m.recvBuf| == BUFFER && Aligned(m.readPtr)
  }

  predicate Fits(script: seq<Transfer>) {
    forall i :: 0 <= i < |script| ==> |script[i].bytes| <= BUFFER
  }

  // A transfer asks for one packet, so that it fits the buffer for any endpoint table that
  // the descriptor parser leaves behind.
  lemma {:induction false} TransferFits(answers: seq<InTransfer.Answer>, epInfo: seq<MidiDescriptors.EpInfo>)
    requires InTransfer.ScriptOk(answers) && MidiDescriptors.TableOk(epInfo)
    ensures var n := epInfo[MidiDescriptors.EP_DATA_IN].maxPktSize;
            var r := InTransfer.Receive(answers, n, n, [], 0);
            r.count == |r.bytes| <= BUFFER
  {
    if answers != [] && answers[0].ToggleError? {
      TransferFits(answers[1..], epInfo);
    }
  }

  // ----- one call -----

  // No packet starts at p: the buffer is over, or it goes on with two zero bytes.
  predicate Ends(buf: seq<u8>, p: nat)
    requires |buf| == BUFFER && Aligned(p)
  {
    p == BUFFER || (buf[p] == 0 && buf[p + 1] == 0)
  }

  // The buffer after a transfer, with the terminator where there is room for one.
  function Store(buf: seq<u8>, bytes: seq<u8>): (r: seq<u8>)
    requires |buf| == BUFFER && |bytes| <= BUFFER
    ensures |r| == BUFFER
  {
    var s := Splice(buf, 0, bytes);
    if |bytes| < BUFFER - 4 then Splice(s, |bytes|, [0, 0]) else s
  }

  function Deliver(m: Midi): (Midi, Option<seq<u8>>)
    requires MidiOk(m) && m.readPtr < BUFFER
  {
    (m.(readPtr := m.readPtr + 4), Some(m.recvBuf[m.readPtr..m.readPtr + 4]))
  }

  // The transfer that a call gets if it asks for one: without any more transfers, a NAK.
  function First(script: seq<Transfer>): Transfer {
    if script == [] then Transfer(NAK, []) else script[0]
  }

  function Rest(script: seq<Transfer>): seq<Transfer> {
    if script == [] then [] else script[1..]
  }

  // Whether a call takes its packet from the buffer.
  predicate Buffered(m: Midi)
    requires MidiOk(m)
  {
    m.readPtr != 0 && !Ends(m.recvBuf, m.readPtr)
  }

  function Call(m: Midi, script: seq<Transfer>): (r: (Midi, Option<seq<u8>>))
    requires MidiOk(m) && Fits(script)
    ensures MidiOk(r.0)
  {
    if Buffered(m) then Deliver(m)
    else
      var t := First(script);
      var buf := Store(m.recvBuf, t.bytes);
      var m' := Midi(buf, 0);
      if t.rc != 0 || (buf[0] == 0 && buf[1] == 0 && buf[2] == 0 && buf[3] == 0) then (m', None)
      else Deliver(m')
  }

  function Left(m: Midi, script: seq<Transfer>): (r: seq<Transfer>)
    requires MidiOk(m) && Fits(script)
    ensures Fits(r)
  {
    if Buffered(m) then script else Rest(script)
  }

  lemma StartIsAligned()
    ensures Aligned(0)
  {
  }

  lemma BufferedIsInside(m: Midi)
    requires MidiOk(m) && Buffered(m)
    ensures m.readPtr < BUFFER
  {
  }

  // ----- the buffer as a queue -----

  // A transfer that consists of event packets, none of which looks like the terminator.
  predicate IsPackets(bytes: seq<u8>) {
    && |bytes| % 4 == 0
    && (forall i :: 0 <= i < |bytes| && i % 4 == 0 ==> !(bytes[i] == 0 && bytes[i + 1] == 0))
  }

  function Cut(bytes: seq<u8>): seq<seq<u8>> {
    if |bytes| < 4 then [] else [bytes[..4]] + Cut(bytes[4..])
  }

  // The packets in the buffer from p on.
  function PacketsFrom(buf: seq<u8>, p: nat): seq<seq<u8>>
    requires |buf| == BUFFER && Aligned(p)
    decreases BUFFER - p
  {
    if Ends(buf, p) then [] else [buf[p..p + 4]] + PacketsFrom(buf, p + 4)
  }

  // The packets that calls will still take from the buffer.
  function Pending(m: Midi): seq<seq<u8>>
    requires MidiOk(m)
  {
    if m.readPtr == 0 then [] else PacketsFrom(m.recvBuf, m.readPtr)
  }

  lemma {:induction false} StoredPackets(buf: seq<u8>, bytes: seq<u8>, p: nat)
    requires |buf| == BUFFER && |bytes| <= BUFFER && IsPackets(bytes) && Aligned(p) && p <= |bytes|
    ensures PacketsFrom(Store(buf, bytes), p) == Cut(bytes[p..]) + PacketsFrom(Store(buf, bytes), |bytes|)
    decreases |bytes| - p
  {
    var stored := Store(buf, bytes);
    if p < |bytes| {
      StoredPackets(buf, bytes, p + 4);
      assert bytes[p..][..4] == stored[p..p + 4] && bytes[p..][4..] == bytes[p + 4..];
      var more := PacketsFrom(stored, |bytes|);
      assert [stored[p..p + 4]] + (Cut(bytes[p + 4..]) + more) == [stored[p..p + 4]] + Cut(bytes[p + 4..]) + more;
    } else {
      assert Cut(bytes[p..]) == [];
    }
  }

  lemma EndsAfter(buf: seq<u8>, bytes: seq<u8>)
    requires |buf| == BUFFER && |bytes| <= BUFFER && |bytes| % 4 == 0
    ensures Ends(Store(buf, bytes), |bytes|) <==> |bytes| != 60 || (buf[60] == 0 && buf[61] == 0)
  {
  }

  lemma NoPackets(buf: seq<u8>, p: nat)
    requires |buf| == BUFFER && Aligned(p)
    ensures PacketsFrom(buf, p) == [] <==> Ends(buf, p)
  {
  }

  // After a transfer of packets the buffer holds these packets and no others, unless there
  // are exactly 15 of them: then there is no terminator, and what was left in the last four
  // bytes before counts as well.
  lemma StoredExactly(buf: seq<u8>, bytes: seq<u8>)
    requires |buf| == BUFFER && |bytes| <= BUFFER && IsPackets(bytes)
    ensures PacketsFrom(Store(buf, bytes), 0) == Cut(bytes)
            <==> |bytes| != 60 || (buf[60] == 0 && buf[61] == 0)
  {
    StoredPackets(buf, bytes, 0);
    assert bytes[0..] == bytes;
    var more := PacketsFrom(Store(buf, bytes), |bytes|);
    assert more == [] <==> |bytes| != 60 || (buf[60] == 0 && buf[61] == 0) by {
      hide PacketsFrom, IsPackets;
      EndsAfter(buf, bytes);
      NoPackets(Store(buf, bytes), |bytes|);
    }
    assert |Cut(bytes) + more| == |Cut(bytes)| + |more|;
  }

  function Taken(p: Option<seq<u8>>): seq<seq<u8>> {
    if p.None? then [] else [p.value]
  }

  // What stale bytes can do: a transfer is handed out as exactly its own packets, if its
  // length is neither 0 nor 60, or the bytes that are left over there are zero.
  predicate Exact(buf: seq<u8>, bytes: seq<u8>)
    requires |buf| == BUFFER
  {
    && (|bytes| == 0 ==> buf[2] == 0 && buf[3] == 0)
    && (|bytes| == 60 ==> buf[60] == 0 && buf[61] == 0)
  }

  lemma FetchIsExact(m: Midi, script: seq<Transfer>)
    requires MidiOk(m) && Fits(script) && !Buffered(m)
    requires First(script).rc == 0 && IsPackets(First(script).bytes)
    ensures var (m', p) := Call(m, script);
            Taken(p) + Pending(m') == Cut(First(script).bytes) <==> Exact(m.recvBuf, First(script).bytes)
  {
    var bytes := First(script).bytes;
    var buf := Store(m.recvBuf, bytes);
    StoredExactly(m.recvBuf, bytes);
    hide IsPackets;
    if |bytes| == 0 {
      assert buf[0] == 0 && buf[1] == 0 && buf[2] == m.recvBuf[2] && buf[3] == m.recvBuf[3];
    } else {
      assert !Ends(buf, 0) by {
        assert !(bytes[0] == 0 && bytes[1] == 0);
      }
    }
  }

  // ----- whole runs -----

  predicate CleanTransfer(t: Transfer) {
    t.rc == 0 ==> IsPackets(t.bytes) && |t.bytes| != 0 && |t.bytes| != 60
  }

  // Transfers that fail, and transfers of packets in a number other than 0 or 15.
  predicate Clean(script: seq<Transfer>) {
    forall i :: 0 <= i < |script| ==> CleanTransfer(script[i])
  }

  // The packets of the transfers that succeed.
  function AllPackets(script: seq<Transfer>): seq<seq<u8>> {
    if script == [] then []
    else (if script[0].rc == 0 then Cut(script[0].bytes) else []) + AllPackets(script[1..])
  }

  lemma FromBuffer(m: Midi, script: seq<Transfer>)
    requires MidiOk(m) && Fits(script) && Buffered(m)
    ensures var (m', p) := Call(m, script);
            p.Some? && Pending(m) == [p.value] + Pending(m')
  {
  }

  lemma PendingMeans(m: Midi)
    requires MidiOk(m)
    ensures Pending(m) != [] <==> Buffered(m)
  {
  }

  lemma FromTransfer(m: Midi, script: seq<Transfer>)
    requires MidiOk(m) && Fits(script) && Clean(script) && !Buffered(m)
    ensures var (m', p) := Call(m, script);
            && Clean(Rest(script))
            && AllPackets(script) == Taken(p) + Pending(m') + AllPackets(Rest(script))
  {
    hide IsPackets, Store, Cut;
    if script != [] && script[0].rc == 0 {
      FetchIsExact(m, script);
    }
  }

  // No packet gets lost, doubled or out of order in one call; and the next transfer is only
  // asked for when the buffer is used up.
  lemma CallIsDequeue(m: Midi, script: seq<Transfer>)
    requires MidiOk(m) && Fits(script) && Clean(script)
    ensures var (m', p) := Call(m, script);
            && Clean(Left(m, script))
            && Taken(p) + (Pending(m') + AllPackets(Left(m, script))) == Pending(m) + AllPackets(script)
            && (Left(m, script) != script ==> Pending(m) == [])
            && (Pending(m) != [] ==> p == Some(Pending(m)[0]))
  {
    hide Call, Pending, AllPackets, Clean, Fits, Rest, MidiOk;
    var (m', p) := Call(m, script);
    PendingMeans(m);
    if Buffered(m) {
      FromBuffer(m, script);
      assert [p.value] + (Pending(m') + AllPackets(script)) == [p.value] + Pending(m') + AllPackets(script);
    } else {
      FromTransfer(m, script);
      var rest := AllPackets(Rest(script));
      assert Taken(p) + (Pending(m') + rest) == Taken(p) + Pending(m') + rest;
      assert [] + AllPackets(script) == AllPackets(script);
    }
  }

  // n calls: the packets that were handed out, and what they leave behind.
  function Run(m: Midi, script: seq<Transfer>, n: nat): (r: (Midi, seq<Transfer>, seq<seq<u8>>))
    requires MidiOk(m) && Fits(script)
    ensures MidiOk(r.0) && Fits(r.1)
    decreases n
  {
    if n == 0 then (m, script, [])
    else
      var (m', p) := Call(m, script);
      var (m'', rest, out) := Run(m', Left(m, script), n - 1);
      (m'', rest, Taken(p) + out)
  }

  // A queue: at any time the packets handed out so far, followed by those in the buffer and
  // those still to be fetched, are all the packets in order.
  lemma {:induction false} RecvDataIsAQueue(m: Midi, script: seq<Transfer>, n: nat)
    requires MidiOk(m) && Fits(script) && Clean(script)
    ensures var (m', rest, out) := Run(m, script, n);
            MidiOk(m') && out + (Pending(m') + AllPackets(rest)) == Pending(m) + AllPackets(script)
    decreases n
  {
    hide Call, Left, Pending, AllPackets, Clean, Fits;
    if n == 0 {
    } else {
      var (m1, p) := Call(m, script);
      CallIsDequeue(m, script);
      RecvDataIsAQueue(m1, Left(m, script), n - 1);
      var (m', rest, out) := Run(m1, Left(m, script), n - 1);
      var tail := Pending(m') + AllPackets(rest);
      assert Taken(p) + out + tail == Taken(p) + (out + tail);
    }
  }

  // How many calls can still bring something: one for each transfer and each packet.
  function Work(m: Midi, script: seq<Transfer>): nat
    requires MidiOk(m)
  {
    |script| + |Pending(m) + AllPackets(script)|
  }

  lemma NothingLeft()
    ensures AllPackets([]) == []
  {
  }

  lemma CallDoesWork(m: Midi, script: seq<Transfer>)
    requires MidiOk(m) && Fits(script) && Clean(script)
    ensures var m' := Call(m, script).0;
            Work(m', Left(m, script)) <= Max(Work(m, script) - 1, 0)
  {
    hide Call, Pending, AllPackets, Clean, Fits, MidiOk, Buffered;
    CallIsDequeue(m, script);
    PendingMeans(m);
    if Buffered(m) {
      FromBuffer(m, script);
    } else if script == [] {
      NothingLeft();
    }
  }

  lemma {:induction false} RunDrains(m: Midi, script: seq<Transfer>, n: nat)
    requires MidiOk(m) && Fits(script) && Clean(script) && n >= Work(m, script)
    ensures var (m', rest, out) := Run(m, script, n);
            MidiOk(m') && Pending(m') + AllPackets(rest) == []
    decreases n
  {
    hide Call, Left, Pending, AllPackets, Clean, Fits;
    if n == 0 {
    } else {
      CallIsDequeue(m, script);
      CallDoesWork(m, script);
      RunDrains(Call(m, script).0, Left(m, script), n - 1);
    }
  }

  // And the packets do come out: after enough calls exactly all of them, in order.
  lemma AllPacketsAreDelivered(m: Midi, script: seq<Transfer>, n: nat)
    requires MidiOk(m) && Fits(script) && Clean(script)
    requires n >= |script| + |Pending(m) + AllPackets(script)|
    ensures Run(m, script, n).2 == Pending(m) + AllPackets(script)
  {
    hide Run, Pending, AllPackets, Clean, Fits;
    RecvDataIsAQueue(m, script, n);
    RunDrains(m, script, n);
  }

  // ----- any transfers of packets -----

  predicate OfPackets(script: seq<Transfer>) {
    forall i :: 0 <= i < |script| ==> script[i].rc == 0 ==> IsPackets(script[i].bytes)
  }

  // The call fetches no transfer that stale bytes can get into.
  predicate FetchExact(m: Midi, script: seq<Transfer>)
    requires MidiOk(m)
  {
    Buffered(m) || First(script).rc != 0 || Exact(m.recvBuf, First(script).bytes)
  }

  // The same for each of the next n calls.
  predicate AllExact(m: Midi, script: seq<Transfer>, n: nat)
    requires MidiOk(m) && Fits(script)
    decreases n
  {
    n == 0 || (FetchExact(m, script) && AllExact(Call(m, script).0, Left(m, script), n - 1))
  }

  // After n calls: handed out, buffered and still to come are all the packets in order.
  predicate Conserved(m: Midi, script: seq<Transfer>, n: nat)
    requires MidiOk(m) && Fits(script)
  {
    var (m', rest, out) := Run(m, script, n);
    out + (Pending(m') + AllPackets(rest)) == Pending(m) + AllPackets(script)
  }

  lemma SameEnd<T>(a: seq<T>, b: seq<T>, end: seq<T>)
    ensures a + end == b + end <==> a == b
  {
    if a + end == b + end {
      assert |a| == |b|;
      assert forall i :: 0 <= i < |a| ==> a[i] == (a + end)[i] == (b + end)[i] == b[i];
    }
  }

  lemma SameStart<T>(start: seq<T>, a: seq<T>, b: seq<T>)
    ensures start + a == start + b <==> a == b
  {
    if start + a == start + b {
      assert a == (start + a)[|start|..] == (start + b)[|start|..] == b;
    }
  }

  // One transfer of packets comes out as itself exactly when no stale bytes get into it.
  lemma TransferIsExact(m: Midi, script: seq<Transfer>)
    requires MidiOk(m) && Fits(script) && OfPackets(script) && !Buffered(m)
    ensures var (m', p) := Call(m, script);
            AllPackets(script) == Taken(p) + Pending(m') + AllPackets(Rest(script)) <==> FetchExact(m, script)
  {
    hide IsPackets, Store, Cut, Exact;
    if script != [] && script[0].rc == 0 {
      FetchIsExact(m, script);
      var (m', p) := Call(m, script);
      SameEnd(Taken(p) + Pending(m'), Cut(script[0].bytes), AllPackets(script[1..]));
    }
  }

  lemma RestOfPackets(script: seq<Transfer>)
    requires OfPackets(script)
    ensures OfPackets(Rest(script))
  {
    hide IsPackets;
  }

  lemma BufferLeaves(m: Midi, script: seq<Transfer>)
    requires MidiOk(m) && Fits(script) && Buffered(m)
    ensures Left(m, script) == script && FetchExact(m, script)
  {
    hide Fits, Exact;
  }

  lemma BufferIsExact(m: Midi, script: seq<Transfer>)
    requires MidiOk(m) && Fits(script) && Buffered(m)
    ensures var (m', p) := Call(m, script);
            && Left(m, script) == script && FetchExact(m, script)
            && Taken(p) + (Pending(m') + AllPackets(script)) == Pending(m) + AllPackets(script)
  {
    hide Call, Left, Pending, AllPackets, Fits, FetchExact, Buffered, MidiOk;
    FromBuffer(m, script);
    BufferLeaves(m, script);
    var (m', p) := Call(m, script);
    Regroup([p.value], Pending(m'), AllPackets(script));
  }

  lemma FetchLeaves(m: Midi, script: seq<Transfer>)
    requires MidiOk(m) && Fits(script) && !Buffered(m)
    ensures Left(m, script) == Rest(script)
  {
    hide Fits;
  }

  lemma FetchedIsExact(m: Midi, script: seq<Transfer>)
    requires MidiOk(m) && Fits(script) && OfPackets(script) && !Buffered(m)
    ensures var (m', p) := Call(m, script);
            && Left(m, script) == Rest(script)
            && (Taken(p) + (Pending(m') + AllPackets(Rest(script))) == Pending(m) + AllPackets(script)
                <==> FetchExact(m, script))
  {
    TransferIsExact(m, script);
    PendingMeans(m);
    FetchLeaves(m, script);
    hide Call, Left, Pending, AllPackets, Fits, Rest, FetchExact, Taken, OfPackets, Buffered, MidiOk;
    var (m', p) := Call(m, script);
    Regroup(Taken(p), Pending(m'), AllPackets(Rest(script)));
    assert [] + AllPackets(script) == AllPackets(script);
  }

  lemma CallIsExact(m: Midi, script: seq<Transfer>)
    requires MidiOk(m) && Fits(script) && OfPackets(script)
    ensures var (m', p) := Call(m, script);
            && OfPackets(Left(m, script))
            && (Taken(p) + (Pending(m') + AllPackets(Left(m, script))) == Pending(m) + AllPackets(script)
                <==> FetchExact(m, script))
  {
    hide Call, Left, Pending, AllPackets, OfPackets, Fits, Rest, MidiOk, FetchExact, Taken, Buffered;
    RestOfPackets(script);
    if Buffered(m) {
      BufferIsExact(m, script);
    } else {
      FetchedIsExact(m, script);
    }
  }

  lemma ConservedAtFirst(m: Midi, script: seq<Transfer>)
    requires MidiOk(m) && Fits(script)
    ensures Conserved(m, script, 0)
  {
    assert [] + (Pending(m) + AllPackets(script)) == Pending(m) + AllPackets(script);
  }

  lemma RunFirst(m: Midi, script: seq<Transfer>, n: nat)
    requires MidiOk(m) && Fits(script) && n > 0
    ensures var (m1, p) := Call(m, script);
            var (m', rest, out) := Run(m1, Left(m, script), n - 1);
            Run(m, script, n) == (m', rest, Taken(p) + out)
  {
  }

  lemma RunNothing(m: Midi, script: seq<Transfer>)
    requires MidiOk(m) && Fits(script)
    ensures Run(m, script, 0) == (m, script, [])
  {
  }

  // After an exact call the equation is that of the run from there on.
  lemma ConservedLater(m: Midi, script: seq<Transfer>, n: nat)
    requires MidiOk(m) && Fits(script) && OfPackets(script) && n > 0
    requires n == 1 || FetchExact(m, script)
    ensures Conserved(m, script, n) <==>
              FetchExact(m, script) && Conserved(Call(m, script).0, Left(m, script), n - 1)
  {
    hide Run, Call, Left, Pending, AllPackets, OfPackets, Fits, FetchExact, MidiOk, Taken;
    CallIsExact(m, script);
    RunFirst(m, script, n);
    var (m1, p) := Call(m, script);
    var script1 := Left(m, script);
    var (m', rest, out) := Run(m1, script1, n - 1);
    var tail := Pending(m') + AllPackets(rest);
    assert Taken(p) + out + tail == Taken(p) + (out + tail);
    SameStart(Taken(p), out + tail, Pending(m1) + AllPackets(script1));
    if n == 1 {
      RunNothing(m1, script1);
      assert [] + tail == tail;
    }
  }

  // For any transfers of packets: after each of n calls nothing is lost, doubled or out of
  // order, if and only if no call fetches a transfer that stale bytes get into.
  lemma {:induction false} QueueExactly(m: Midi, script: seq<Transfer>, n: nat)
    requires MidiOk(m) && Fits(script) && OfPackets(script)
    ensures (forall k :: 0 <= k <= n ==> Conserved(m, script, k)) <==> AllExact(m, script, n)
    decreases n
  {
    hide Call, Left, OfPackets, Fits, MidiOk, FetchExact, Conserved;
    ConservedAtFirst(m, script);
    if n == 0 {
    } else {
      var m', script' := Call(m, script).0, Left(m, script);
      CallIsExact(m, script);
      ConservedLater(m, script, 1);
      ConservedAtFirst(m', script');
      if FetchExact(m, script) {
        QueueExactly(m', script', n - 1);
        forall k | 0 < k <= n
          ensures Conserved(m, script, k) <==> Conserved(m', script', k - 1)
        {
          ConservedLater(m, script, k);
        }
        assert forall k :: 0 <= k < n && Conserved(m, script, k + 1) ==> Conserved(m', script', k);
      }
    }
  }

  // ----- where the queue breaks -----

  // 16 packets, then 15: after the 15 the last packet of the 16 is handed out once more.
  lemma FifteenPacketsRepeatOne(buf: seq<u8>, sixteen: seq<u8>, fifteen: seq<u8>)
    requires |buf| == BUFFER && IsPackets(sixteen) && |sixteen| == 64 && IsPackets(fifteen) && |fifteen| == 60
    ensures PacketsFrom(Store(Store(buf, sixteen), fifteen), 0) == Cut(fifteen) + [sixteen[60..64]]
  {
    var first := Store(buf, sixteen);
    var second := Store(first, fifteen);
    StoredPackets(first, fifteen, 0);
    assert fifteen[0..] == fifteen;
    assert second[60..64] == sixteen[60..64] && second[60] == sixteen[60] && second[61] == sixteen[61];
    assert PacketsFrom(second, 64) == [];
    assert PacketsFrom(second, 60) == [second[60..64]] + PacketsFrom(second, 64);
  }

  // Two packets, then an empty transfer: its two zero bytes and the end of the first packet
  // are handed out as a packet, and then the second packet once more.
  lemma EmptyTransferRepeats(buf: seq<u8>, two: seq<u8>)
    requires |buf| == BUFFER && IsPackets(two) && |two| == 8 && two[2] != 0
    ensures var m := Midi(Store(buf, two), 0);
            var (m', p) := Call(m, [Transfer(0, [])]);
            p == Some([0, 0, two[2], two[3]]) && Pending(m') == [two[4..8]]
  {
    var first := Store(buf, two);
    var second := Store(first, []);
    assert second[..4] == [0, 0, two[2], two[3]] && second[4..8] == two[4..8];
    assert !Ends(second, 4) && Ends(second, 8) by {
      assert !(two[4] == 0 && two[5] == 0) && second[4] == two[4] && second[5] == two[5];
    }
    assert PacketsFrom(second, 4) == [second[4..8]] + PacketsFrom(second, 8);
    assert second[0..4] == second[..4];
  }
}
