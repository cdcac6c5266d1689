// What a configuration leaves in the driver's endpoint table, byte by byte.
module MidiEndpoints {
  import opened MachineInts
  import opened ParseTools
  import opened DescriptorFraming
  import opened MidiDescriptors

  // The transfer types are 0 control, 1 isochronous, 2 bulk and 3 interrupt, in the low two
  // bits (USB 2.0 section 9.6.6).  The mask 3 lets bulk endpoints through, 2 interrupt
  // endpoints too.
  lemma TransferTypes(attributes: u8)
    ensures IsBulk(attributes, 3) <==> attributes % 4 == 2
    ensures IsBulk(attributes, 2) <==> attributes % 4 == 2 || attributes % 4 == 3
  {
  }

  // Which interfaces are MIDI streaming ones: class 1, subclass 3.
  lemma InterfaceBytes(d: seq<u8>, mode: Mode)
    requires Complete(d) && d[1] == 4
    ensures ItemOf(d, mode) == Interface(!mode.search || (d[5] == 1 && d[6] == 3))
  {
  }

  // Descriptor n is the last that the driver gets with this direction: bit 7 of the endpoint
  // address is set for IN.
  ghost predicate LastTaken(ds: seq<seq<u8>>, mode: Mode, isIn: bool, n: int)
    requires AllComplete(ds)
  {
    && Taken(Items(ds, mode), n) && (ds[n][2] >= 0x80 <==> isIn)
    && forall k :: n < k && Taken(Items(ds, mode), k) ==> (ds[k][2] >= 0x80 <==> !isIn)
  }

  ghost predicate NoneTaken(ds: seq<seq<u8>>, mode: Mode, isIn: bool)
    requires AllComplete(ds)
  {
    forall n :: Taken(Items(ds, mode), n) ==> (ds[n][2] >= 0x80 <==> !isIn)
  }

  // An entry holds the number of the last such endpoint and its packet size up to 64, or
  // what it held before.
  ghost predicate Holds(after: EpInfo, before: EpInfo, ds: seq<seq<u8>>, mode: Mode, isIn: bool)
    requires AllComplete(ds)
  {
    && (forall n :: LastTaken(ds, mode, isIn, n) ==>
          after.epAddr == ds[n][2] % 16 && after.maxPktSize == Min(64, ds[n][4] as int + 256 * ds[n][5] as int))
    && (NoneTaken(ds, mode, isIn) ==> after == before)
  }

  // Entry 1 is that of the IN endpoint, entry 2 that of the OUT endpoint.
  ghost predicate ByDirection(after: seq<EpInfo>, before: seq<EpInfo>, ds: seq<seq<u8>>, mode: Mode)
    requires AllComplete(ds)
  {
    && |after| == |before| == 3 && after[0] == before[0]
    && Holds(after[1], before[1], ds, mode, true) && Holds(after[2], before[2], ds, mode, false)
  }

  lemma TakenIsEndpoint(ds: seq<seq<u8>>, mode: Mode, n: int)
    requires AllComplete(ds) && Taken(Items(ds, mode), n)
    ensures 0 <= n < |ds| && Complete(ds[n]) && ds[n][1] == ENDPOINT && |ds[n]| >= 6
  {
  }

  lemma TakenBySlot(ds: seq<seq<u8>>, mode: Mode, isIn: bool, n: int)
    requires AllComplete(ds) && Taken(Items(ds, mode), n)
    ensures TakenFor(ds, mode, if isIn then 1 else 2, n) <==> (ds[n][2] >= 0x80 <==> isIn)
  {
    TakenIsEndpoint(ds, mode, n);
    hide Taken, Items;
  }

  lemma TakenForIsTaken(ds: seq<seq<u8>>, mode: Mode, slot: nat, n: int)
    requires AllComplete(ds) && TakenFor(ds, mode, slot, n)
    ensures Taken(Items(ds, mode), n)
  {
  }

  lemma LastIsHeld(before: EpInfo, ds: seq<seq<u8>>, mode: Mode, isIn: bool, n: int)
    requires AllComplete(ds) && LastTaken(ds, mode, isIn, n)
    ensures 0 <= n < |ds| && |ds[n]| >= 6
    ensures SlotOf(before, ds, mode, if isIn then 1 else 2) == EndpointInfo(ds[n])
  {
    var slot := if isIn then 1 else 2;
    hide SlotOf, Taken, Items, TakenFor, AllComplete, EndpointInfo;
    TakenIsEndpoint(ds, mode, n);
    TakenBySlot(ds, mode, isIn, n);
    forall k | n < k
      ensures !TakenFor(ds, mode, slot, k)
    {
      if TakenFor(ds, mode, slot, k) {
        TakenForIsTaken(ds, mode, slot, k);
        TakenBySlot(ds, mode, isIn, k);
      }
    }
    SlotMeans(before, ds, mode, slot);
  }

  lemma NoneIsHeld(before: EpInfo, ds: seq<seq<u8>>, mode: Mode, isIn: bool)
    requires AllComplete(ds) && NoneTaken(ds, mode, isIn)
    ensures SlotOf(before, ds, mode, if isIn then 1 else 2) == before
  {
    var slot := if isIn then 1 else 2;
    hide SlotOf, Taken, Items, TakenFor, AllComplete, EndpointInfo;
    forall k: int
      ensures !TakenFor(ds, mode, slot, k)
    {
      if TakenFor(ds, mode, slot, k) {
        TakenForIsTaken(ds, mode, slot, k);
        TakenBySlot(ds, mode, isIn, k);
      }
    }
    SlotMeans(before, ds, mode, slot);
  }

  lemma SlotHolds(before: EpInfo, ds: seq<seq<u8>>, mode: Mode, isIn: bool)
    requires AllComplete(ds)
    ensures Holds(SlotOf(before, ds, mode, if isIn then 1 else 2), before, ds, mode, isIn)
  {
    hide SlotOf, AllComplete, LastTaken, NoneTaken;
    forall n | LastTaken(ds, mode, isIn, n)
      ensures 0 <= n < |ds| && |ds[n]| >= 6
      ensures SlotOf(before, ds, mode, if isIn then 1 else 2) == EndpointInfo(ds[n])
    {
      LastIsHeld(before, ds, mode, isIn, n);
    }
    if NoneTaken(ds, mode, isIn) {
      NoneIsHeld(before, ds, mode, isIn);
    }
  }

  lemma TableByDirection(before: seq<EpInfo>, ds: seq<seq<u8>>, mode: Mode)
    requires |before| == 3 && AllComplete(ds)
    ensures ByDirection(TableOf(before, ds, mode), before, ds, mode)
  {
    hide SlotOf, Holds;
    SlotHolds(before[1], ds, mode, true);
    SlotHolds(before[2], ds, mode, false);
  }

  // The endpoint table after the bytes of a configuration, cut in any way.
  lemma EndpointsByDirection(s: ParserState<Midi>, mode: Mode, ds: seq<seq<u8>>, pieces: seq<seq<u8>>)
    requires StateOk(s) && s.frame.phase == Idle && MidiOk(s.rest) && s.rest.nEPs == 0
    requires AllComplete(ds) && Flatten(pieces) == Flatten(ds)
    requires InterfaceFirst(Items(ds, mode))
    ensures ByDirection(FeedPieces(Act(mode), s, pieces).rest.epInfo, s.rest.epInfo, ds, mode)
  {
    hide InterfaceFirst, ByDirection, TableOf;
    EndpointTableIsRight(s, mode, ds, pieces);
    TableByDirection(s.rest.epInfo, ds, mode);
  }

  // ----- an ordinary keyboard -----

  // A configuration, an audio control interface, a MIDI streaming interface with a class
  // header, an interrupt endpoint, a bulk IN endpoint with a class descriptor, and a bulk
  // OUT endpoint.
  const KEYBOARD: seq<seq<u8>> := [
    [9, 2, 62, 0, 2, 1, 0, 128, 50],
    [9, 4, 0, 0, 0, 1, 1, 0, 0],
    [9, 4, 1, 0, 3, 1, 3, 0, 0],
    [7, 36, 1, 0, 1, 7, 0],
    [7, 5, 0x83, 3, 8, 0, 10],
    [7, 5, 0x81, 2, 64, 0, 0],
    [5, 37, 1, 1, 1],
    [9, 5, 0x02, 2, 32, 0, 0, 0, 0]
  ]

  lemma CountPrefix(c: Count, items: seq<Item>, k: nat)
    requires k < |items|
    ensures CountAll(c, items[..k + 1]) == CountStep(CountAll(c, items[..k]), items[k])
  {
    assert items[..k + 1][..k] == items[..k];
  }

  lemma KeyboardItems()
    ensures AllComplete(KEYBOARD)
    ensures Items(KEYBOARD, Mode(true, 3)) ==
            [Other, Interface(false), Interface(true), Other, Endpoint(false), Endpoint(true), Other, Endpoint(true)]
  {
  }

  // Behind an interface there is one.
  lemma {:induction false} InterfaceStays(items: seq<Item>, i: nat, k: nat)
    requires i < k <= |items| && items[i].Interface?
    ensures Interfaces(items[..k]) != []
    decreases k
  {
    assert items[..k][..k - 1] == items[..k - 1];
    if k == i + 1 {
    } else {
      InterfaceStays(items, i, k - 1);
    }
  }

  lemma KeyboardInterfaces(items: seq<Item>)
    requires items ==
             [Other, Interface(false), Interface(true), Other, Endpoint(false), Endpoint(true), Other, Endpoint(true)]
    ensures InterfaceFirst(items)
  {
    InterfaceStays(items, 2, 5);
    InterfaceStays(items, 2, 7);
  }

  lemma KeyboardCounts(isGood: bool)
    ensures var items := Items(KEYBOARD, Mode(true, 3));
            var c := Count(isGood, 0);
            && |items| == 8 && InterfaceFirst(items)
            && CountAll(c, items[..5]) == Count(true, 0) && CountAll(c, items[..7]) == Count(true, 1)
            && CountAll(c, items) == Count(true, 2)
  {
    KeyboardItems();
    var items, c := Items(KEYBOARD, Mode(true, 3)), Count(isGood, 0);
    hide Items;
    CountPrefix(c, items, 0);
    CountPrefix(c, items, 1);
    CountPrefix(c, items, 2);
    CountPrefix(c, items, 3);
    CountPrefix(c, items, 4);
    CountPrefix(c, items, 5);
    CountPrefix(c, items, 6);
    CountPrefix(c, items, 7);
    assert items[..0] == [] && items[..8] == items;
    KeyboardInterfaces(items);
  }

  lemma KeyboardTaken(isGood: bool)
    ensures AllComplete(KEYBOARD)
    ensures forall n :: Taken(Items(KEYBOARD, Mode(true, 3)), n) <==> n == 5 || n == 7
  {
    var items := Items(KEYBOARD, Mode(true, 3));
    KeyboardItems();
    KeyboardCounts(isGood);
    TakenMeans(Count(isGood, 0), items, 5);
    TakenMeans(Count(isGood, 0), items, 7);
  }

  // The configuration descriptor at i, with none behind it.
  lemma {:induction false} LastConf(conf: u8, ds: seq<seq<u8>>, i: nat)
    requires AllComplete(ds) && i < |ds| && ds[i][1] == CONFIGURATION
    requires forall k :: i < k < |ds| ==> ds[k][1] != CONFIGURATION
    ensures ConfOf(conf, ds) == ds[i][5]
    decreases |ds|
  {
    if i == |ds| - 1 {
    } else {
      LastConf(conf, ds[..|ds| - 1], i);
    }
  }

  lemma KeyboardConf(conf: u8)
    ensures AllComplete(KEYBOARD) && ConfOf(conf, KEYBOARD) == 1
  {
    KeyboardItems();
    LastConf(conf, KEYBOARD, 0);
  }

  lemma KeyboardTable(after: seq<EpInfo>, before: seq<EpInfo>)
    requires AllComplete(KEYBOARD) && ByDirection(after, before, KEYBOARD, Mode(true, 3))
    ensures after == [before[0], EpInfo(1, 64), EpInfo(2, 32)]
  {
    KeyboardTaken(true);
    hide Items, Taken, AllComplete;
    assert LastTaken(KEYBOARD, Mode(true, 3), true, 5) && LastTaken(KEYBOARD, Mode(true, 3), false, 7);
  }

  lemma KeyboardCount(m: Midi, buf: seq<u8>)
    requires MidiOk(m) && m.nEPs == 0 && |buf| == VAR_BUFFER_SIZE
    ensures AllComplete(KEYBOARD)
    ensures var m' := Fold(Act(Mode(true, 3)), m, EventsOf(buf, KEYBOARD)); m'.nEPs == 2 && m'.conf == 1
  {
    KeyboardItems();
    KeyboardCounts(m.isGood);
    KeyboardConf(m.conf);
    hide Items, InterfaceFirst, CountAll, Fold, EventsOf, TableOf, ConfOf, Act, AllComplete;
    EventsCount(m, Mode(true, 3), buf, KEYBOARD);
    EventsFillTable(m, Mode(true, 3), buf, KEYBOARD);
  }

  lemma CompleteIsWellFormed(ds: seq<seq<u8>>)
    requires AllComplete(ds)
    ensures AllWellFormed(ds)
  {
  }

  // Its two bulk endpoints are found, each in its own entry, and nothing else is.
  lemma KeyboardIsFound(s: ParserState<Midi>, pieces: seq<seq<u8>>)
    requires StateOk(s) && s.frame.phase == Idle && MidiOk(s.rest) && s.rest.nEPs == 0
    requires Flatten(pieces) == Flatten(KEYBOARD)
    ensures var m := FeedPieces(Act(Mode(true, 3)), s, pieces).rest;
            && m.epInfo == [s.rest.epInfo[0], EpInfo(1, 64), EpInfo(2, 32)]
            && m.conf == 1 && m.nEPs == 2
  {
    KeyboardItems();
    KeyboardCounts(s.rest.isGood);
    hide Items, InterfaceFirst, CountAll, Fold, EventsOf, Act, AllComplete, ByDirection, FeedPieces;
    EndpointsByDirection(s, Mode(true, 3), KEYBOARD, pieces);
    KeyboardTable(FeedPieces(Act(Mode(true, 3)), s, pieces).rest.epInfo, s.rest.epInfo);
    CompleteIsWellFormed(KEYBOARD);
    FeedDescriptors(Act(Mode(true, 3)), s, KEYBOARD, pieces);
    KeyboardCount(s.rest, s.frame.buf);
  }
}
