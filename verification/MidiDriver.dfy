// The MIDI driver: sending and receiving over the endpoints that the descriptor parser found.
module MidiDriver {
  import opened MachineInts
  import opened UsbCodes
  import opened Wrappers
  import opened MidiDescriptors
  import opened MidiMessages
  import opened MidiParser
  import opened Sending = SysEx
  import opened Receiving = RecvData

  // The answers to n buffers, up to the first that is not a success.
  predicate Stops(answers: seq<u8>, n: nat) {
    && |answers| <= n
    && (forall i :: 0 <= i < |answers| - 1 ==> answers[i] == 0)
    && (LastCode(answers) == 0 ==> |answers| == n)
  }

  predicate AllSucceeded(answers: seq<u8>) {
    forall i :: 0 <= i < |answers| ==> answers[i] == 0
  }

  lemma NoAnswerYet()
    ensures AllSucceeded([])
  {
  }

  lemma OneMoreAnswer(answers: seq<u8>, rc: u8, n: nat)
    requires AllSucceeded(answers) && |answers| < n
    ensures var all := answers + [rc];
            && LastCode(all) == rc
            && if rc == 0 then AllSucceeded(all) else Stops(all, n)
  {
  }

  lemma NoMoreAnswers(answers: seq<u8>)
    requires AllSucceeded(answers)
    ensures Stops(answers, |answers|) && LastCode(answers) == 0
  {
  }

  // The event packets of a System Exclusive message carry it like other messages.
  lemma GroupCarries(data: seq<u8>, cable: u8)
    requires data != []
    ensures var g, n := Group(data, cable), Min(3, |data|);
            Carries(g, data[..n], cable) && CIN_TO_LEN[g[0] % 16] == n
  {
    HeaderCin(cable, 4);
    HeaderCin(cable, 5);
    HeaderCin(cable, 6);
    HeaderCin(cable, 7);
  }

  // What SendData sends for a message, TakePacket hands out, with its length.
  lemma MessageComesBack(packet: seq<u8>, message: seq<u8>, cable: u8, m: Receiving.Midi)
    requires message != [] && message[0] >= 0x80 && |message| == MessageLength(message[0])
    requires Carries(packet, message, cable) && packet[0] % 16 == StatusToCin(message[0])
    requires Receiving.MidiOk(m) && m.readPtr < BUFFER && m.recvBuf[m.readPtr..m.readPtr + 4] == packet
    ensures var (m', p) := Deliver(m);
            && p == Some(packet) && CIN_TO_LEN[packet[0] % 16] == |message|
            && p.value[1..][..|message|] == message
  {
    PacketTellsSize(packet, message, cable);
    assert packet[1..][..|message|] == packet[1..1 + |message|];
  }

  class UsbhMidi {
    const endpoints: EndpointTable
    const recvBuf: array<u8>
    var readPtr: u8
    var bPollEnable: bool
    // The transfers that the device will answer with.
    var script: seq<Transfer>
    // What was sent, and the result codes.
    ghost var sent: seq<seq<u8>>
    ghost var codes: seq<u8>

    constructor (endpoints: EndpointTable, script: seq<Transfer>)
      requires TableOk(endpoints.epInfo[..]) && Receiving.Fits(script)
      ensures Valid() && fresh(recvBuf) && this.endpoints == endpoints && this.script == script
      ensures readPtr == 0 && !bPollEnable && sent == [] && codes == []
    {
      this.endpoints := endpoints;
      recvBuf := new u8[BUFFER];
      readPtr, bPollEnable, this.script := 0, false, script;
      sent, codes := [], [];
    }

    // The table is one that the parser can leave behind.
    ghost predicate Valid()
      reads this, endpoints.epInfo
    {
      TableOk(endpoints.epInfo[..]) && recvBuf.Length == BUFFER && Aligned(readPtr) && Receiving.Fits(script)
    }

    // ----- sending -----

    // The packet size of the IN endpoint, which SendSysEx goes by.
    function MaxPktSize(): u8
      requires Valid()
      reads this, endpoints.epInfo
    {
      endpoints.epInfo[EP_DATA_IN].maxPktSize
    }

    // outTransfer: its result is up to the device.
    method OutTransfer(bytes: seq<u8>) returns (rc: u8)
      modifies this`sent, this`codes
      ensures sent == old(sent) + [bytes] && codes == old(codes) + [rc]
    {
      rc := *;
      sent := sent + [bytes];
      codes := codes + [rc];
    }

    // Writes one event packet behind the first wptr bytes of buf.
    method PutGroup(buf: array<u8>, wptr: u8, data: seq<u8>, cable: u8) returns (next: u8)
      requires data != [] && wptr + 4 <= buf.Length < 0x100
      modifies buf
      ensures next == wptr + 4 && buf[..next] == old(buf[..wptr]) + Group(data, cable)
    {
      hide Header;
      if |data| == 1 {
        next := Put(buf, wptr, Header(cable, 5), data[0], 0, 0);
      } else if |data| == 2 {
        next := Put(buf, wptr, Header(cable, 6), data[0], data[1], 0);
      } else if |data| == 3 {
        next := Put(buf, wptr, Header(cable, 7), data[0], data[1], data[2]);
      } else {
        next := Put(buf, wptr, Header(cable, 4), data[0], data[1], data[2]);
      }
    }

    // Buffers are handed over until all of them are, or a transfer fails: its code is then
    // the result.
    method SendSysEx(data: seq<u8>, cable: u8) returns (rc: u8, ghost answers: seq<u8>)
      requires Valid() && |data| < 0x1_0000
      modifies this`sent, this`codes
      ensures var bufs := Buffers([], data, cable, MaxPktSize());
              && Stops(answers, |bufs|) && rc == LastCode(answers) && codes == old(codes) + answers
              && sent == old(sent) + bufs[..|answers|] && Sending.Fits(bufs)
    {
      var maxpkt := MaxPktSize();
      BuffersFitExactly(data, cable, maxpkt);
      hide Buffers, Group, Roomy, Sending.Fits, AllSucceeded, Stops, LastCode;
      ghost var bufs := Buffers([], data, cable, maxpkt);
      FirstRoom(data, cable, maxpkt);
      var buf := new u8[EVENT_BUFFER];
      rc := 0;
      var n: u16, p: nat, wptr: u8 := |data|, 0, 0;
      ghost var k := 0;
      answers := [];
      NoAnswerYet();
      assert buf[..0] == [] && sent == old(sent) + bufs[..0] && bufs[0..] == bufs && data[0..] == data;
      while n > 0
        invariant p + n == |data| && rc == 0
        invariant Roomy(wptr, n, maxpkt)
        invariant k == |answers| <= |bufs| && sent == old(sent) + bufs[..k] && codes == old(codes) + answers
        invariant AllSucceeded(answers)
        invariant wptr <= EVENT_BUFFER && Buffers(buf[..wptr], data[p..], cable, maxpkt) == bufs[k..]
        decreases n
      {
        NextRoom(wptr, n, maxpkt);
        NextBuffer(buf[..wptr], data, p, cable, maxpkt, bufs, k);
        wptr := PutGroup(buf, wptr, data[p..], cable);
        p := p + if n <= 3 then n else 3;
        n := n - if n <= 3 then n else 3;
        if wptr >= maxpkt || n == 0 {
          rc := OutTransfer(buf[..wptr]);
          SentGrows(old(sent), bufs, k);
          OneMoreAnswer(answers, rc, |bufs|);
          k, answers := k + 1, answers + [rc];
          if rc != 0 {
            break;
          }
          wptr := 0;
          assert buf[..0] == [];
        }
      }
      if rc == 0 {
        NoMore(buf[..wptr], data[p..], cable, maxpkt, bufs, k);
        NoMoreAnswers(answers);
      }
    }

    // The data up to the first 0xF7, or nothing when that is not among the first 256 bytes.
    method CountSysExDataSize(data: seq<u8>) returns (c: u16)
      requires data != [] && (|data| >= MAX_SYSEX_SIZE || SYSEX_END in data)
      ensures c == 0 <==> data[0] != SYSEX_START || SYSEX_END !in data[..Min(MAX_SYSEX_SIZE, |data|)]
      ensures c > 0 ==> c <= |data| && data[c - 1] == SYSEX_END && SYSEX_END !in data[..c - 1]
    {
      c := 1;
      if data[0] != SYSEX_START {
        return 0;
      }
      var p := 0;
      while data[p] != SYSEX_END
        invariant p + 1 == c <= MAX_SYSEX_SIZE && p < |data|
        invariant SYSEX_END !in data[..p]
        decreases |data| - p
      {
        assert data[..p + 1] == data[..p] + [data[p]];
        p := p + 1;
        c := c + 1;
        if c > MAX_SYSEX_SIZE {
          c := 0;
          break;
        }
      }
    }

    // SendData, for a message that starts with 0xF0.  It is sent up to its end; a message
    // that is too long is dropped, and the call reports success.
    method SendLongMessage(data: seq<u8>, cable: u8) returns (rc: u8, ghost size: nat, ghost answers: seq<u8>)
      requires data != [] && data[0] == SYSEX_START && (|data| >= MAX_SYSEX_SIZE || SYSEX_END in data)
      requires Valid()
      modifies this`sent, this`codes
      ensures codes == old(codes) + answers && rc == LastCode(answers)
      ensures SYSEX_END in data[..Min(MAX_SYSEX_SIZE, |data|)] ==>
                && 0 < size <= |data| && data[size - 1] == SYSEX_END && SYSEX_END !in data[..size - 1]
                && var bufs := Buffers([], data[..size], cable, MaxPktSize());
                   Stops(answers, |bufs|) && sent == old(sent) + bufs[..|answers|]
      ensures SYSEX_END !in data[..Min(MAX_SYSEX_SIZE, |data|)] ==> rc == 0 && sent == old(sent)
    {
      var c := CountSysExDataSize(data);
      size := c;
      rc, answers := SendSysEx(data[..c], cable);
    }

    // SendData, for any other message: one event packet.  For a message that MIDI leaves
    // undefined its last two bytes are whatever the buffer held.
    method SendShortMessage(data: seq<u8>, cable: u8) returns (rc: u8, ghost packet: seq<u8>)
      requires data != [] && |data| >= SizeOf(data[0])
      modifies this`sent, this`codes
      ensures sent == old(sent) + [packet] && codes == old(codes) + [rc]
      ensures |packet| == 4 && packet[0] == 16 * (cable % 16) + StatusToCin(data[0]) && packet[1] == data[0]
      ensures SizeOf(data[0]) > 0 ==> Carries(packet, data[..SizeOf(data[0])], cable)
    {
      var cin := StatusToCin(data[0]);
      var b2: u8, b3: u8 := *, *;
      var msglen := CIN_TO_LEN[cin];
      if msglen == 3 {
        b2, b3 := data[1], data[2];
      } else if msglen == 2 {
        b2, b3 := data[1], 0;
      } else if msglen == 1 {
        b2, b3 := 0, 0;
      }
      packet := [Header(cable, cin), data[0], b2, b3];
      rc := OutTransfer([Header(cable, cin), data[0], b2, b3]);
    }

    method SendData(data: seq<u8>, cable: u8) returns (rc: u8, ghost answers: seq<u8>)
      requires Valid() && data != [] && |data| >= SizeOf(data[0])
      requires data[0] == SYSEX_START ==> |data| >= MAX_SYSEX_SIZE || SYSEX_END in data
      modifies this`sent, this`codes
      ensures codes == old(codes) + answers && rc == LastCode(answers)
      ensures data[0] != SYSEX_START ==>
                && |answers| == 1 && |sent| == |old(sent)| + 1 && sent[..|old(sent)|] == old(sent)
                && var packet := sent[|old(sent)|];
                   && |packet| == 4 && packet[0] % 16 == StatusToCin(data[0])
                   && (SizeOf(data[0]) > 0 ==> Carries(packet, data[..SizeOf(data[0])], cable))
      ensures data[0] == SYSEX_START && SYSEX_END in data[..Min(MAX_SYSEX_SIZE, |data|)] ==>
                exists size: nat ::
                  && 0 < size <= |data| && data[size - 1] == SYSEX_END && SYSEX_END !in data[..size - 1]
                  && var bufs := Buffers([], data[..size], cable, MaxPktSize());
                     Stops(answers, |bufs|) && sent == old(sent) + bufs[..|answers|]
      ensures data[0] == SYSEX_START && SYSEX_END !in data[..Min(MAX_SYSEX_SIZE, |data|)] ==>
                rc == 0 && sent == old(sent)
    {
      hide Buffers, Stops;
      if data[0] == SYSEX_START {
        ghost var size;
        rc, size, answers := SendLongMessage(data, cable);
        return;
      }
      ghost var packet;
      rc, packet := SendShortMessage(data, cable);
      answers := [rc];
      HeaderCin(cable, StatusToCin(data[0]));
    }

    // ----- receiving -----

    // What the receiving functions work on.
    ghost function Inbox(): (m: Receiving.Midi)
      requires Valid()
      reads this, recvBuf, endpoints.epInfo
      ensures Receiving.MidiOk(m)
    {
      Receiving.Midi(recvBuf[..], readPtr)
    }

    // The one with a count: fetches one transfer into the buffer.
    method Fetch() returns (rc: u8)
      requires Valid()
      modifies this`script, recvBuf
      ensures Valid() && script == Rest(old(script)) && rc == First(old(script)).rc
      ensures recvBuf[..] == Store(old(recvBuf[..]), First(old(script)).bytes)
    {
      var t := First(script);
      script := Rest(script);
      for i := 0 to |t.bytes|
        invariant script == Rest(old(script))
        invariant forall k :: 0 <= k < BUFFER ==> recvBuf[k] == if k < i then t.bytes[k] else old(recvBuf[k])
      {
        recvBuf[i] := t.bytes[i];
      }
      if |t.bytes| < BUFFER - 4 {
        recvBuf[|t.bytes|] := 0;
        recvBuf[|t.bytes| + 1] := 0;
      }
      return t.rc;
    }

    // Checking for an unprocessed packet in the buffer.
    method HasUnread() returns (unread: bool)
      requires Valid()
      ensures unread == Receiving.Buffered(Inbox())
    {
      if readPtr != 0 && readPtr < BUFFER {
        return !(recvBuf[readPtr] == 0 && recvBuf[readPtr + 1] == 0);
      }
      return false;
    }

    // Copies the packet at readPtr.
    method TakePacket(isRaw: bool) returns (size: u8, out: seq<u8>)
      requires Valid() && readPtr < BUFFER
      modifies this`readPtr
      ensures Valid()
      ensures var (m, p) := Deliver(old(Inbox()));
              && Inbox() == m && |p.value| == 4
              && size == CIN_TO_LEN[p.value[0] % 16] && out == if isRaw then p.value else p.value[1..]
    {
      ghost var packet := recvBuf[..][readPtr..readPtr + 4];
      out := [];
      var cin := recvBuf[readPtr];
      if isRaw {
        out := [cin];
      }
      out := out + [recvBuf[readPtr + 1], recvBuf[readPtr + 2], recvBuf[readPtr + 3]];
      readPtr := readPtr + 4;
      size := CIN_TO_LEN[cin % 16];
      assert packet == [cin] + packet[1..];
    }

    // The bytes that are written to outBuf, and the size of the message in them.
    method RecvData(isRaw: bool) returns (size: u8, out: seq<u8>)
      requires Valid()
      modifies this`readPtr, this`script, recvBuf
      ensures Valid()
      ensures !bPollEnable ==> size == 0 && out == [] && Inbox() == old(Inbox()) && script == old(script)
      ensures bPollEnable ==>
                var (m, p) := Call(old(Inbox()), old(script));
                && Inbox() == m && script == Left(old(Inbox()), old(script))
                && match p
                   case None => size == 0 && out == []
                   case Some(packet) =>
                     |packet| == 4 && size == CIN_TO_LEN[packet[0] % 16] && out == if isRaw then packet else packet[1..]
    {
      if !bPollEnable {
        return 0, [];
      }
      hide Store, Receiving.Fits, Aligned, Receiving.Buffered, Deliver, Rest, First;
      var unread := HasUnread();
      if !unread {
        StartIsAligned();
        readPtr := 0;
        var rcode := Fetch();
        if rcode != 0 {
          return 0, [];
        }
        if recvBuf[0] == 0 && recvBuf[1] == 0 && recvBuf[2] == 0 && recvBuf[3] == 0 {
          return 0, [];
        }
      } else {
        BufferedIsInside(Inbox());
      }
      size, out := TakePacket(isRaw);
    }
  }
}
