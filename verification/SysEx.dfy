// Sending System Exclusive messages as USB-MIDI event packets (section 4 of the USB Device
// Class Definition for MIDI Devices 1.0).
module SysEx {
  import opened MachineInts
  import opened ParseTools
  import opened MidiDescriptors
  import opened DescriptorFraming

  const EVENT_BUFFER: u8 := MIDI_EVENT_PACKET_SIZE
  const SYSEX_START: u8 := 0xF0
  const SYSEX_END: u8 := 0xF7
  const MAX_SYSEX_SIZE: nat := 256

  // ----- event packets -----

  // (nCable << 4) | cin
  function Header(cable: u8, cin: u8): u8
    requires cin < 16
  {
    16 * (cable % 16) + cin
  }

  // The event packet for the first bytes of what is left to be sent.
  function Group(data: seq<u8>, cable: u8): (g: seq<u8>)
    requires data != []
    ensures |g| == 4
  {
    if |data| == 1 then [Header(cable, 5), data[0], 0, 0]
    else if |data| == 2 then [Header(cable, 6), data[0], data[1], 0]
    else if |data| == 3 then [Header(cable, 7), data[0], data[1], data[2]]
    else [Header(cable, 4), data[0], data[1], data[2]]
  }

  function Groups(data: seq<u8>, cable: u8): (gs: seq<seq<u8>>)
    ensures forall i :: 0 <= i < |gs| ==> |gs[i]| == 4
  {
    if data == [] then [] else [Group(data, cable)] + Groups(data[Min(3, |data|)..], cable)
  }

  // What extractSysExData takes out of an event packet.
  function Extract(g: seq<u8>): seq<u8>
    requires |g| == 4
  {
    var cin := g[0] % 16;
    if cin == 4 || cin == 7 then g[1..4]
    else if cin == 6 then g[1..3]
    else if cin == 5 then g[1..2]
    else []
  }

  // A receiver: event packet by event packet.
  function Decode(bytes: seq<u8>): seq<u8> {
    if |bytes| < 4 then [] else Extract(bytes[..4]) + Decode(bytes[4..])
  }

  lemma HeaderCin(cable: u8, cin: u8)
    requires cin < 16
    ensures Header(cable, cin) % 16 == cin
  {
  }

  // How many packets there are, and what their code index numbers say.
  lemma {:induction false} GroupCodes(data: seq<u8>, cable: u8)
    ensures var gs := Groups(data, cable);
            && |gs| == (|data| + 2) / 3
            && (forall i :: 0 <= i < |gs| - 1 ==> gs[i][0] % 16 == 4)
            && (data != [] ==> gs[|gs| - 1][0] % 16 == 5 + (|data| - 1) % 3)
            && (forall i :: 0 <= i < |gs| ==> gs[i][0] / 16 == cable % 16)
  {
    if data == [] {
    } else {
      GroupCodes(data[Min(3, |data|)..], cable);
    }
  }

  lemma {:induction false} DecodeAppend(a: seq<u8>, b: seq<u8>)
    requires |a| % 4 == 0
    ensures Decode(a + b) == Decode(a) + Decode(b)
  {
    if a == [] {
      assert a + b == b;
    } else {
      assert (a + b)[..4] == a[..4] && (a + b)[4..] == a[4..] + b;
      DecodeAppend(a[4..], b);
    }
  }

  lemma {:induction false} DecodeGroup(data: seq<u8>, cable: u8)
    requires data != []
    ensures Decode(Group(data, cable)) == data[..Min(3, |data|)]
  {
    var g := Group(data, cable);
    HeaderCin(cable, 4);
    HeaderCin(cable, 5);
    HeaderCin(cable, 6);
    HeaderCin(cable, 7);
    assert g[..4] == g && Decode(g[4..]) == [];
    assert Extract(g) == data[..Min(3, |data|)];
  }

  // The round trip.
  lemma {:induction false} DecodeGroups(data: seq<u8>, cable: u8)
    ensures Decode(Flatten(Groups(data, cable))) == data
    ensures |Flatten(Groups(data, cable))| == 4 * |Groups(data, cable)|
  {
    if data == [] {
    } else {
      var rest := data[Min(3, |data|)..];
      DecodeGroups(rest, cable);
      DecodeGroup(data, cable);
      DecodeAppend(Group(data, cable), Flatten(Groups(rest, cable)));
      assert Groups(data, cable)[1..] == Groups(rest, cable);
    }
  }

  // ----- buffers -----

  // The buffers that are handed to outTransfer, when `buf` holds what is not sent yet.
  function Buffers(buf: seq<u8>, data: seq<u8>, cable: u8, maxpkt: u8): seq<seq<u8>>
    decreases |data|
  {
    if data == [] then []
    else
      var buf', data' := buf + Group(data, cable), data[Min(3, |data|)..];
      if |buf'| >= maxpkt || data' == [] then [buf'] + Buffers([], data', cable, maxpkt)
      else Buffers(buf', data', cable, maxpkt)
  }

  lemma GroupsStep(data: seq<u8>, cable: u8)
    requires data != []
    ensures Flatten(Groups(data, cable)) == Group(data, cable) + Flatten(Groups(data[Min(3, |data|)..], cable))
  {
  }

  lemma BuffersStep(buf: seq<u8>, data: seq<u8>, cable: u8, maxpkt: u8)
    requires data != []
    ensures var buf', data' := buf + Group(data, cable), data[Min(3, |data|)..];
            && (|buf'| >= maxpkt || data' == [] ==>
                  Flatten(Buffers(buf, data, cable, maxpkt)) == buf' + Flatten(Buffers([], data', cable, maxpkt)))
            && (|buf'| < maxpkt && data' != [] ==>
                  Buffers(buf, data, cable, maxpkt) == Buffers(buf', data', cable, maxpkt))
  {
  }

  lemma NoGroups(cable: u8, maxpkt: u8)
    ensures Flatten(Groups([], cable)) == [] && Flatten(Buffers([], [], cable, maxpkt)) == []
  {
  }

  // No packet is lost, repeated or reordered on the way into the buffers.
  lemma {:induction false} BuffersCarryAll(buf: seq<u8>, data: seq<u8>, cable: u8, maxpkt: u8)
    requires data != []
    ensures Flatten(Buffers(buf, data, cable, maxpkt)) == buf + Flatten(Groups(data, cable))
    decreases |data|
  {
    hide Buffers, Groups, Group, Flatten;
    var g, data' := Group(data, cable), data[Min(3, |data|)..];
    BuffersStep(buf, data, cable, maxpkt);
    GroupsStep(data, cable);
    if data' != [] {
      BuffersCarryAll(if |buf + g| >= maxpkt then [] else buf + g, data', cable, maxpkt);
    } else {
      NoGroups(cable, maxpkt);
    }
    assert buf + g + Flatten(Groups(data', cable)) == buf + (g + Flatten(Groups(data', cable)));
  }

  lemma BuffersSize(data: seq<u8>, cable: u8, maxpkt: u8)
    ensures |Flatten(Buffers([], data, cable, maxpkt))| == 4 * ((|data| + 2) / 3)
  {
    hide Buffers;
    GroupCodes(data, cable);
    DecodeGroups(data, cable);
    if data == [] {
      NoGroups(cable, maxpkt);
    } else {
      BuffersCarryAll([], data, cable, maxpkt);
    }
  }

  predicate Fits(bufs: seq<seq<u8>>) {
    forall i :: 0 <= i < |bufs| ==> 0 < |bufs[i]| <= EVENT_BUFFER && |bufs[i]| % 4 == 0
  }

  lemma {:induction false} BuffersFit(buf: seq<u8>, data: seq<u8>, cable: u8, maxpkt: u8)
    requires |buf| % 4 == 0 && (|buf| < maxpkt || buf == [])
    requires maxpkt <= EVENT_BUFFER || |buf| + 4 * ((|data| + 2) / 3) <= EVENT_BUFFER
    ensures Fits(Buffers(buf, data, cable, maxpkt))
    decreases |data|
  {
    if data == [] {
    } else {
      var buf', data' := buf + Group(data, cable), data[Min(3, |data|)..];
      BuffersFit(if |buf'| >= maxpkt || data' == [] then [] else buf', data', cable, maxpkt);
    }
  }

  lemma {:induction false} FirstBuffer(buf: seq<u8>, data: seq<u8>, cable: u8, maxpkt: u8)
    requires data != []
    ensures var bufs := Buffers(buf, data, cable, maxpkt);
            bufs != [] && |bufs[0]| >= Min(maxpkt, |buf| + 4 * ((|data| + 2) / 3))
    decreases |data|
  {
    var buf', data' := buf + Group(data, cable), data[Min(3, |data|)..];
    if |buf'| < maxpkt && data' != [] {
      FirstBuffer(buf', data', cable, maxpkt);
    }
  }

  // The 64-byte buffer is large enough exactly when the packet size is, or the whole message
  // is short enough.
  lemma BuffersFitExactly(data: seq<u8>, cable: u8, maxpkt: u8)
    ensures Fits(Buffers([], data, cable, maxpkt)) <==> maxpkt <= EVENT_BUFFER || |data| <= 48
  {
    if maxpkt <= EVENT_BUFFER || |data| <= 48 {
      BuffersFit([], data, cable, maxpkt);
    } else {
      FirstBuffer([], data, cable, maxpkt);
    }
  }

  // So it is large enough for whatever endpoints the parser has found.
  lemma BuffersFitAfterParsing(s: ParserState<Midi>, mode: Mode, pieces: seq<seq<u8>>, data: seq<u8>, cable: u8)
    requires StateOk(s) && TableOk(s.rest.epInfo)
    ensures var epInfo := FeedPieces(Act(mode), s, pieces).rest.epInfo;
            && TableOk(epInfo)
            && Fits(Buffers([], data, cable, epInfo[EP_DATA_IN].maxPktSize))
  {
    ParsedTableIsOk(s, mode, pieces);
    BuffersFitExactly(data, cable, FeedPieces(Act(mode), s, pieces).rest.epInfo[EP_DATA_IN].maxPktSize);
  }

  lemma {:induction false} FitsMultiple(bufs: seq<seq<u8>>)
    requires Fits(bufs)
    ensures |Flatten(bufs)| % 4 == 0
  {
    if bufs == [] {
    } else {
      FitsMultiple(bufs[1..]);
    }
  }

  lemma AllBuffers(data: seq<u8>, cable: u8, maxpkt: u8)
    ensures Decode(Flatten(Buffers([], data, cable, maxpkt))) == data
  {
    DecodeGroups(data, cable);
    if data != [] {
      BuffersCarryAll([], data, cable, maxpkt);
      assert [] + Flatten(Groups(data, cable)) == Flatten(Groups(data, cable));
    }
  }

  // What a receiver makes of the first k buffers: a prefix of the message, and all of it
  // once it has all the buffers.
  lemma SysExArrives(data: seq<u8>, cable: u8, maxpkt: u8, k: nat)
    requires maxpkt <= EVENT_BUFFER || |data| <= 48
    requires k <= |Buffers([], data, cable, maxpkt)|
    ensures var bufs := Buffers([], data, cable, maxpkt);
            && Decode(Flatten(bufs[..k])) <= data
            && (k == |bufs| ==> Decode(Flatten(bufs[..k])) == data)
  {
    hide Decode, Buffers;
    var bufs := Buffers([], data, cable, maxpkt);
    BuffersFitExactly(data, cable, maxpkt);
    assert bufs[..k] + bufs[k..] == bufs;
    FlattenAppend(bufs[..k], bufs[k..]);
    FitsMultiple(bufs[..k]);
    DecodeAppend(Flatten(bufs[..k]), Flatten(bufs[k..]));
    AllBuffers(data, cable, maxpkt);
    if k == |bufs| {
      assert bufs[..k] == bufs;
    }
  }

  // ----- the methods -----

  method Put(buf: array<u8>, wptr: u8, b0: u8, b1: u8, b2: u8, b3: u8) returns (next: u8)
    requires wptr + 4 <= buf.Length < 0x100
    modifies buf
    ensures next == wptr + 4 && buf[..next] == old(buf[..wptr]) + [b0, b1, b2, b3]
  {
    buf[wptr] := b0;
    buf[wptr + 1] := b1;
    buf[wptr + 2] := b2;
    buf[wptr + 3] := b3;
    next := wptr + 4;
    assert buf[..wptr] == old(buf[..wptr]);
  }

  // The next event packet fits into the buffer, whatever is in it.
  predicate Roomy(wptr: u8, n: nat, maxpkt: u8) {
    && wptr % 4 == 0 && (wptr < maxpkt || wptr == 0)
    && (maxpkt <= EVENT_BUFFER || wptr + 4 * ((n + 2) / 3) <= EVENT_BUFFER)
  }

  lemma FirstRoom(data: seq<u8>, cable: u8, maxpkt: u8)
    requires maxpkt <= EVENT_BUFFER || |data| <= 48
    ensures Roomy(0, |data|, maxpkt)
  {
  }

  lemma NextRoom(wptr: u8, n: nat, maxpkt: u8)
    requires Roomy(wptr, n, maxpkt) && n > 0
    ensures wptr + 4 <= EVENT_BUFFER
    ensures var n' := n - if n <= 3 then n else 3;
            Roomy(if wptr + 4 >= maxpkt || n' == 0 then 0 else wptr + 4, n', maxpkt)
  {
  }

  lemma SentGrows(sent: seq<seq<u8>>, bufs: seq<seq<u8>>, k: nat)
    requires k < |bufs|
    ensures sent + bufs[..k] + [bufs[k]] == sent + bufs[..k + 1]
  {
  }

  lemma NoMore(buf: seq<u8>, data: seq<u8>, cable: u8, maxpkt: u8, bufs: seq<seq<u8>>, k: nat)
    requires data == [] && k <= |bufs| && Buffers(buf, data, cable, maxpkt) == bufs[k..]
    ensures k == |bufs|
  {
  }

  lemma NextBuffer(buf: seq<u8>, data: seq<u8>, p: nat, cable: u8, maxpkt: u8, bufs: seq<seq<u8>>, k: nat)
    requires p < |data| && k <= |bufs| && Buffers(buf, data[p..], cable, maxpkt) == bufs[k..]
    ensures var n := |data| - p;
            var buf', q := buf + Group(data[p..], cable), p + if n <= 3 then n else 3;
            if |buf'| >= maxpkt || q == |data|
            then k < |bufs| && bufs[k] == buf' && Buffers([], data[q..], cable, maxpkt) == bufs[k + 1..]
            else Buffers(buf', data[q..], cable, maxpkt) == bufs[k..]
  {
    hide Group;
    var q := p + Min(3, |data| - p);
    assert data[p..][Min(3, |data| - p)..] == data[q..];
    var buf' := buf + Group(data[p..], cable);
    if |buf'| >= maxpkt || q == |data| {
      assert bufs[k..][0] == bufs[k] && bufs[k..][1..] == bufs[k + 1..];
    }
  }
}
