// A System Exclusive message all the way: event packets, buffers, USB packets, and back.
module SysExOverUsb {
  import opened MachineInts
  import opened ParseTools
  import opened UsbCodes
  import OutTransfer
  import SysEx

  // One call of OutTransfer: when it began, and the answers that it met.
  datatype Call = Call(start: nat, script: seq<OutTransfer.Answer>)

  function Sent(c: Call, nakLimit: u16, m: u8, buf: seq<u8>): OutTransfer.Sent
    requires m > 0
  {
    OutTransfer.Send(c.script, OutTransfer.LimitsFrom(nakLimit, c.start), m, buf, 0)
  }

  // Every call reports success.
  predicate AllSucceed(bufs: seq<seq<u8>>, calls: seq<Call>, nakLimit: u16, m: u8)
    requires m > 0 && |calls| == |bufs|
  {
    forall i :: 0 <= i < |bufs| ==> Sent(calls[i], nakLimit, m, bufs[i]).outcome == Returned(0)
  }

  // The call met no answer other than a success after its deadline.
  predicate InTime(c: Call, nakLimit: u16, m: u8, buf: seq<u8>)
    requires m > 0
  {
    var n := |Sent(c, nakLimit, m, buf).log|;
    n <= |c.script| && OutTransfer.InTime(c.script, n, OutTransfer.LimitsFrom(nakLimit, c.start))
  }

  predicate AllInTime(bufs: seq<seq<u8>>, calls: seq<Call>, nakLimit: u16, m: u8)
    requires m > 0 && |calls| == |bufs|
  {
    forall i :: 0 <= i < |bufs| ==> InTime(calls[i], nakLimit, m, bufs[i])
  }

  // What the device has acknowledged, call after call.
  function Received(bufs: seq<seq<u8>>, calls: seq<Call>, nakLimit: u16, m: u8): seq<u8>
    requires m > 0 && |calls| == |bufs|
  {
    if bufs == [] then []
    else
      Flatten(OutTransfer.Delivered(Sent(calls[0], nakLimit, m, bufs[0]).log))
      + Received(bufs[1..], calls[1..], nakLimit, m)
  }

  lemma AllOfRest(bufs: seq<seq<u8>>, calls: seq<Call>, nakLimit: u16, m: u8)
    requires m > 0 && |calls| == |bufs| && bufs != []
    ensures AllSucceed(bufs, calls, nakLimit, m) <==>
              Sent(calls[0], nakLimit, m, bufs[0]).outcome == Returned(0)
              && AllSucceed(bufs[1..], calls[1..], nakLimit, m)
    ensures AllInTime(bufs, calls, nakLimit, m) <==>
              InTime(calls[0], nakLimit, m, bufs[0]) && AllInTime(bufs[1..], calls[1..], nakLimit, m)
  {
    hide Sent, InTime;
    assert forall i :: 0 < i < |bufs| ==> bufs[i] == bufs[1..][i - 1] && calls[i] == calls[1..][i - 1];
  }

  // When every call succeeds, the device has all the bytes if every call was in time, and
  // is short of some if one was not.
  lemma {:induction false} BuffersArrive(bufs: seq<seq<u8>>, calls: seq<Call>, nakLimit: u16, m: u8)
    requires m > 0 && |calls| == |bufs| && AllSucceed(bufs, calls, nakLimit, m)
    ensures if AllInTime(bufs, calls, nakLimit, m)
            then Received(bufs, calls, nakLimit, m) == Flatten(bufs)
            else |Received(bufs, calls, nakLimit, m)| < |Flatten(bufs)|
  {
    if bufs == [] {
    } else {
      AllOfRest(bufs, calls, nakLimit, m);
      hide AllInTime, AllSucceed;
      OutTransfer.SuccessIsDelivery(calls[0].script, OutTransfer.LimitsFrom(nakLimit, calls[0].start), m, bufs[0]);
      BuffersArrive(bufs[1..], calls[1..], nakLimit, m);
    }
  }

  // Fewer bytes than the event packets have cannot make up the message.
  lemma {:induction false} DecodeIsShort(bytes: seq<u8>)
    ensures |SysEx.Decode(bytes)| <= 3 * (|bytes| / 4)
  {
    if |bytes| >= 4 {
      DecodeIsShort(bytes[4..]);
    }
  }

  // Although SendSysEx goes by the packet size of the IN endpoint and the transfers by that
  // of the OUT endpoint: when every transfer succeeds, what the device extracts from the
  // bytes it got is the message, if and only if every transfer was in time.
  lemma MessageArrives(data: seq<u8>, cable: u8, maxpkt: u8, calls: seq<Call>, nakLimit: u16, m: u8)
    requires m > 0 && (maxpkt <= SysEx.EVENT_BUFFER || |data| <= 48)
    requires |calls| == |SysEx.Buffers([], data, cable, maxpkt)|
    requires AllSucceed(SysEx.Buffers([], data, cable, maxpkt), calls, nakLimit, m)
    ensures var bufs := SysEx.Buffers([], data, cable, maxpkt);
            SysEx.Decode(Received(bufs, calls, nakLimit, m)) == data <==> AllInTime(bufs, calls, nakLimit, m)
  {
    var bufs := SysEx.Buffers([], data, cable, maxpkt);
    hide SysEx.Buffers, SysEx.Decode, AllSucceed, AllInTime;
    BuffersArrive(bufs, calls, nakLimit, m);
    SysEx.SysExArrives(data, cable, maxpkt, |bufs|);
    assert bufs[..|bufs|] == bufs;
    SysEx.BuffersSize(data, cable, maxpkt);
    DecodeIsShort(Received(bufs, calls, nakLimit, m));
  }
}
