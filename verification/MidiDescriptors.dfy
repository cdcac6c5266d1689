// What MidiDescParser looks for in a configuration: the meaning of its events, and a
// reference definition of the endpoint count on lists of whole descriptors.
module MidiDescriptors {
  import opened MachineInts
  import opened ParseTools
  import opened DescriptorFraming

  const CLASS_AUDIO: u8 := 1
  const SUBCLASS_MIDISTREAMING: u8 := 3
  const TRANSFER_TYPE_BULK: u8 := 2
  const MIDI_EVENT_PACKET_SIZE: u8 := 64
  const EP_DATA_IN: nat := 1
  const EP_DATA_OUT: nat := 2

  datatype EpInfo = EpInfo(epAddr: u8, maxPktSize: u8)

  // bTransferTypeMask is 3 in general and 2 for some Novation devices.
  type TransferMask = m: u8 | m == 2 || m == 3 witness 3

  // (bmAttributes & mask) == USB_TRANSFER_TYPE_BULK
  predicate IsBulk(attributes: u8, mask: TransferMask) {
    if mask == 3 then attributes % 4 == TRANSFER_TYPE_BULK else (attributes / 2) % 2 == 1
  }

  // Only as much of the parser's and the driver's state as a whole configuration decides.
  datatype Midi = Midi(isGood: bool, conf: u8, nEPs: u8, epInfo: seq<EpInfo>)

  datatype Mode = Mode(search: bool, mask: TransferMask)

  predicate MidiOk(m: Midi) {
    m.nEPs <= 2 && |m.epInfo| == 3
  }

  // Both data endpoints have packets of at most 64 bytes.
  predicate TableOk(epInfo: seq<EpInfo>) {
    && |epInfo| == 3
    && epInfo[EP_DATA_IN].maxPktSize <= MIDI_EVENT_PACKET_SIZE
    && epInfo[EP_DATA_OUT].maxPktSize <= MIDI_EVENT_PACKET_SIZE
  }

  predicate MatchesInterface(search: bool, d: seq<u8>)
    requires |d| >= 7
  {
    search ==> d[5] == CLASS_AUDIO && d[6] == SUBCLASS_MIDISTREAMING
  }

  function EndpointSlot(d: seq<u8>): nat
    requires |d| >= 3
  {
    if d[2] >= 0x80 then EP_DATA_IN else EP_DATA_OUT
  }

  function EndpointInfo(d: seq<u8>): EpInfo
    requires |d| >= 6
  {
    var size := Word(d[4], d[5]);
    EpInfo(d[2] % 0x10, if size > MIDI_EVENT_PACKET_SIZE then MIDI_EVENT_PACKET_SIZE else size)
  }

  // The effect of an event; varBuffer always holds 16 bytes.
  function Apply(m: Midi, mode: Mode, e: Event): (r: Midi)
    ensures MidiOk(m) ==> MidiOk(r)
  {
    match e
    case Opened(typ) => if typ == INTERFACE then m.(isGood := false) else m
    case Closed(typ, buf) =>
      if |buf| != VAR_BUFFER_SIZE || !MidiOk(m) then m
      else if typ == CONFIGURATION then m.(conf := buf[5])
      else if typ == INTERFACE then
        if MatchesInterface(mode.search, buf)
        then m.(isGood := true, nEPs := if m.nEPs < 2 then 0 else m.nEPs)
        else m
      else if typ == ENDPOINT && m.isGood && m.nEPs < 2 && IsBulk(buf[3], mode.mask)
      then m.(nEPs := m.nEPs + 1, epInfo := m.epInfo[EndpointSlot(buf) := EndpointInfo(buf)])
      else m
  }

  function Act(mode: Mode): (Midi, Event) -> Midi {
    (m, e) => Apply(m, mode, e)
  }

  // Once two endpoints are found, nothing that follows alters the driver's endpoint table.
  lemma {:induction false} TwoEndpointsAreKept(m: Midi, mode: Mode, es: seq<Event>)
    requires MidiOk(m) && m.nEPs == 2
    ensures Fold(Act(mode), m, es).nEPs == 2 && Fold(Act(mode), m, es).epInfo == m.epInfo
    decreases |es|
  {
    if es == [] {
    } else {
      TwoEndpointsAreKept(Apply(m, mode, es[0]), mode, es[1..]);
    }
  }

  // Whatever descriptors come in, the packet sizes in the table stay within 64 bytes.
  lemma {:induction false} TableStaysOk(m: Midi, mode: Mode, es: seq<Event>)
    requires TableOk(m.epInfo)
    ensures TableOk(Fold(Act(mode), m, es).epInfo)
    decreases |es|
  {
    if es == [] {
    } else {
      TableStaysOk(Apply(m, mode, es[0]), mode, es[1..]);
    }
  }

  lemma {:induction false} ParsedTableIsOk(s: ParserState<Midi>, mode: Mode, pieces: seq<seq<u8>>)
    requires StateOk(s) && TableOk(s.rest.epInfo)
    ensures TableOk(FeedPieces(Act(mode), s, pieces).rest.epInfo)
    decreases |pieces|
  {
    hide Run, TableOk;
    if pieces == [] {
    } else {
      TableStaysOk(s.rest, mode, Run(s.frame, pieces[0]).log);
      ParsedTableIsOk(Feed(Act(mode), s, pieces[0]), mode, pieces[1..]);
    }
  }

  // ----- the endpoint count, read off a list of descriptors -----

  // Long enough for every field that is looked at to be the descriptor's own.
  predicate Complete(d: seq<u8>) {
    && WellFormed(d)
    && (d[1] == CONFIGURATION || d[1] == ENDPOINT ==> |d| >= 6)
    && (d[1] == INTERFACE ==> |d| >= 7)
  }

  predicate AllComplete(ds: seq<seq<u8>>) {
    forall i :: 0 <= i < |ds| ==> Complete(ds[i])
  }

  datatype Item = Interface(matching: bool) | Endpoint(accepted: bool) | Other

  function ItemOf(d: seq<u8>, mode: Mode): Item
    requires Complete(d)
  {
    if d[1] == INTERFACE then Interface(MatchesInterface(mode.search, d))
    else if d[1] == ENDPOINT then Endpoint(IsBulk(d[3], mode.mask))
    else Other
  }

  function Items(ds: seq<seq<u8>>, mode: Mode): (r: seq<Item>)
    requires AllComplete(ds)
    ensures |r| == |ds| && forall i :: 0 <= i < |ds| ==> r[i] == ItemOf(ds[i], mode)
  {
    seq(|ds|, i requires 0 <= i < |ds| => ItemOf(ds[i], mode))
  }

  // An interface of the configuration, and how many of its endpoints are accepted.
  datatype Found = Found(matching: bool, accepted: nat)

  function OneMore(fs: seq<Found>): seq<Found>
    requires fs != []
  {
    var last := fs[|fs| - 1];
    fs[|fs| - 1 := last.(accepted := last.accepted + 1)]
  }

  function Interfaces(items: seq<Item>): seq<Found> {
    if items == [] then []
    else
      var front, x := Interfaces(items[..|items| - 1]), items[|items| - 1];
      if x.Interface? then front + [Found(x.matching, 0)]
      else if x == Endpoint(true) && front != [] then OneMore(front)
      else front
  }

  predicate HasTwo(fs: seq<Found>, k: int) {
    0 <= k < |fs| && fs[k].matching && fs[k].accepted >= 2
  }

  function LastMatching(fs: seq<Found>): nat {
    if fs == [] then 0
    else if fs[|fs| - 1].matching then fs[|fs| - 1].accepted
    else LastMatching(fs[..|fs| - 1])
  }

  // The two fields that count, driven by whole descriptors.
  datatype Count = Count(isGood: bool, nEPs: nat)

  // The count as a reader of the descriptors would define it.
  ghost predicate CountMeans(fs: seq<Found>, c: Count) {
    && c.nEPs <= 2
    && (c.nEPs == 2 <==> exists k :: HasTwo(fs, k))
    && (c.nEPs < 2 ==> c.nEPs == LastMatching(fs))
    && (fs != [] ==> c.isGood == fs[|fs| - 1].matching)
  }

  // No accepted endpoint precedes the first interface.
  predicate InterfaceFirst(items: seq<Item>) {
    forall i :: 0 <= i < |items| && items[i] == Endpoint(true) ==> Interfaces(items[..i]) != []
  }

  function CountStep(c: Count, item: Item): Count {
    match item
    case Interface(matching) =>
      Count(matching, if matching && c.nEPs < 2 then 0 else c.nEPs)
    case Endpoint(accepted) =>
      if c.isGood && c.nEPs < 2 && accepted then c.(nEPs := c.nEPs + 1) else c
    case Other => c
  }

  function CountAll(c: Count, items: seq<Item>): Count {
    if items == [] then c
    else CountStep(CountAll(c, items[..|items| - 1]), items[|items| - 1])
  }

  lemma {:induction false} CountFirst(c: Count, items: seq<Item>)
    requires items != []
    ensures CountAll(c, items) == CountAll(CountStep(c, items[0]), items[1..])
    decreases |items|
  {
    if |items| == 1 {
      assert items[..0] == [] && items[1..] == [];
    } else {
      var front := items[..|items| - 1];
      CountFirst(c, front);
      assert front[1..] == items[1..][..|items| - 2];
    }
  }

  function CountOf(m: Midi): Count {
    Count(m.isGood, m.nEPs)
  }

  // The resumable parser counts as if it looked at one whole descriptor at a time.
  lemma {:induction false} EventsCount(m: Midi, mode: Mode, buf: seq<u8>, ds: seq<seq<u8>>)
    requires MidiOk(m) && |buf| == VAR_BUFFER_SIZE && AllComplete(ds)
    ensures CountOf(Fold(Act(mode), m, EventsOf(buf, ds))) == CountAll(CountOf(m), Items(ds, mode))
    decreases |ds|
  {
    if ds == [] {
    } else {
      var next := Overlay(buf, ds[0]);
      var two := TwoEvents(ds[0], next);
      var m' := Apply(Apply(m, mode, two[0]), mode, two[1]);
      assert CountOf(m') == CountStep(CountOf(m), ItemOf(ds[0], mode));
      EventsCount(m', mode, next, ds[1..]);
      FoldAppend(Act(mode), m, two, EventsOf(next, ds[1..]));
      assert two == CallEvents(true, true, ds[0][1], next);
      FoldCall(Act(mode), m, true, true, ds[0][1], next);
      CountFirst(CountOf(m), Items(ds, mode));
      assert Items(ds, mode)[1..] == Items(ds[1..], mode);
    }
  }

  lemma CountInterface(fs: seq<Found>, c: Count, matching: bool)
    requires CountMeans(fs, c)
    ensures CountMeans(fs + [Found(matching, 0)], CountStep(c, Interface(matching)))
  {
    var fs' := fs + [Found(matching, 0)];
    assert fs'[..|fs|] == fs;
    assert forall k :: HasTwo(fs', k) <==> HasTwo(fs, k);
  }

  lemma CountEndpoint(fs: seq<Found>, c: Count)
    requires CountMeans(fs, c) && fs != []
    ensures CountMeans(OneMore(fs), CountStep(c, Endpoint(true)))
  {
    var fs', n := OneMore(fs), |fs| - 1;
    assert fs'[..n] == fs[..n];
    assert forall k :: k != n ==> (HasTwo(fs', k) <==> HasTwo(fs, k));
    if c.nEPs == 2 {
      var k :| HasTwo(fs, k);
      assert HasTwo(fs', k);
    } else {
      assert !HasTwo(fs, n);
      assert HasTwo(fs', n) <==> c.isGood && c.nEPs == 1;
    }
  }

  lemma {:induction false} CountMeaning(c: Count, items: seq<Item>)
    requires c.nEPs == 0 && InterfaceFirst(items)
    ensures CountMeans(Interfaces(items), CountAll(c, items))
    decreases |items|
  {
    if items == [] {
    } else {
      var front, x := items[..|items| - 1], items[|items| - 1];
      assert forall i :: 0 <= i < |front| ==> front[..i] == items[..i];
      CountMeaning(c, front);
      var fs, cf := Interfaces(front), CountAll(c, front);
      if x.Interface? {
        CountInterface(fs, cf, x.matching);
      } else if x == Endpoint(true) {
        CountEndpoint(fs, cf);
      }
    }
  }

  // The number of endpoints that a fresh parser reports for a configuration, however its
  // descriptors were cut into buffers.  The flag isGoodInterface starts out undefined, so
  // an accepted endpoint in front of every interface is excluded.
  lemma EndpointCountIsRight(s: ParserState<Midi>, mode: Mode, ds: seq<seq<u8>>, pieces: seq<seq<u8>>)
    requires StateOk(s) && s.frame.phase == Idle && MidiOk(s.rest) && s.rest.nEPs == 0
    requires AllComplete(ds) && Flatten(pieces) == Flatten(ds)
    requires InterfaceFirst(Items(ds, mode))
    ensures CountMeans(Interfaces(Items(ds, mode)), CountOf(FeedPieces(Act(mode), s, pieces).rest))
  {
    hide InterfaceFirst, CountMeans;
    FeedDescriptors(Act(mode), s, ds, pieces);
    EventsCount(s.rest, mode, s.frame.buf, ds);
    CountMeaning(CountOf(s.rest), Items(ds, mode));
  }

  // ----- the endpoint table and the configuration value, read off the list -----

  // Descriptor n is an endpoint that the driver gets: an accepted one of a matching
  // interface, with no two such endpoints in any one interface before it.
  ghost predicate Taken(items: seq<Item>, n: int) {
    && 0 <= n < |items| && items[n] == Endpoint(true)
    && var fs := Interfaces(items[..n]);
       fs != [] && fs[|fs| - 1].matching && !(exists k :: HasTwo(fs, k))
  }

  ghost predicate TakenFor(ds: seq<seq<u8>>, mode: Mode, slot: nat, n: int)
    requires AllComplete(ds)
  {
    Taken(Items(ds, mode), n) && EndpointSlot(ds[n]) == slot
  }

  // The last endpoint taken for a slot, or what was in the slot before.
  ghost function SlotOf(before: EpInfo, ds: seq<seq<u8>>, mode: Mode, slot: nat): EpInfo
    requires AllComplete(ds)
  {
    if ds == [] then before
    else if TakenFor(ds, mode, slot, |ds| - 1) then EndpointInfo(ds[|ds| - 1])
    else SlotOf(before, ds[..|ds| - 1], mode, slot)
  }

  // Entry 0 is the control endpoint, which no endpoint descriptor describes.
  ghost function TableOf(before: seq<EpInfo>, ds: seq<seq<u8>>, mode: Mode): seq<EpInfo>
    requires |before| == 3 && AllComplete(ds)
  {
    [before[0], SlotOf(before[1], ds, mode, EP_DATA_IN), SlotOf(before[2], ds, mode, EP_DATA_OUT)]
  }

  // The value of the last configuration descriptor.
  function ConfOf(before: u8, ds: seq<seq<u8>>): u8
    requires AllComplete(ds)
  {
    if ds == [] then before
    else if ds[|ds| - 1][1] == CONFIGURATION then ds[|ds| - 1][5]
    else ConfOf(before, ds[..|ds| - 1])
  }

  lemma TakenInFront(ds: seq<seq<u8>>, mode: Mode, slot: nat, n: int)
    requires AllComplete(ds) && ds != [] && n != |ds| - 1
    ensures TakenFor(ds[..|ds| - 1], mode, slot, n) <==> TakenFor(ds, mode, slot, n)
  {
    if 0 <= n < |ds| - 1 {
      assert Items(ds[..|ds| - 1], mode)[..n] == Items(ds, mode)[..n];
    }
  }

  // What SlotOf means: nothing taken, nothing changed; and the last one taken stays.
  lemma {:induction false} SlotMeans(before: EpInfo, ds: seq<seq<u8>>, mode: Mode, slot: nat)
    requires AllComplete(ds)
    ensures !(exists n :: TakenFor(ds, mode, slot, n)) ==> SlotOf(before, ds, mode, slot) == before
    ensures forall n :: TakenFor(ds, mode, slot, n) && (forall k :: n < k ==> !TakenFor(ds, mode, slot, k)) ==>
              SlotOf(before, ds, mode, slot) == EndpointInfo(ds[n])
  {
    if ds == [] {
    } else {
      var front := ds[..|ds| - 1];
      SlotMeans(before, front, mode, slot);
      forall n | n != |ds| - 1
        ensures TakenFor(front, mode, slot, n) <==> TakenFor(ds, mode, slot, n)
      {
        TakenInFront(ds, mode, slot, n);
      }
    }
  }

  lemma LastTaken(ds: seq<seq<u8>>, mode: Mode, slot: nat, n: int) returns (last: int)
    requires AllComplete(ds) && TakenFor(ds, mode, slot, n)
    ensures TakenFor(ds, mode, slot, last) && forall k :: last < k ==> !TakenFor(ds, mode, slot, k)
    decreases |ds| - n
  {
    if k :| n < k && TakenFor(ds, mode, slot, k) {
      last := LastTaken(ds, mode, slot, k);
    } else {
      last := n;
    }
  }

  // Two different entries become the same exactly when they are overwritten.
  lemma {:induction false} SlotIsWritten(a: EpInfo, b: EpInfo, ds: seq<seq<u8>>, mode: Mode, slot: nat)
    requires AllComplete(ds)
    ensures (exists n :: TakenFor(ds, mode, slot, n)) ==> SlotOf(a, ds, mode, slot) == SlotOf(b, ds, mode, slot)
    ensures !(exists n :: TakenFor(ds, mode, slot, n)) ==>
              SlotOf(a, ds, mode, slot) == a && SlotOf(b, ds, mode, slot) == b
  {
    SlotMeans(a, ds, mode, slot);
    SlotMeans(b, ds, mode, slot);
    if n :| TakenFor(ds, mode, slot, n) {
      var last := LastTaken(ds, mode, slot, n);
    }
  }

  // The table says nothing of what it held before exactly when an endpoint of either
  // direction is taken.  The count does not tell: see TwoOfOneKind.
  lemma BothSlotsAreWritten(ds: seq<seq<u8>>, mode: Mode)
    requires AllComplete(ds)
    ensures (forall t, t' :: |t| == |t'| == 3 ==> TableOf(t, ds, mode)[1..] == TableOf(t', ds, mode)[1..])
            <==> (exists n :: TakenFor(ds, mode, EP_DATA_IN, n)) && (exists n :: TakenFor(ds, mode, EP_DATA_OUT, n))
  {
    hide SlotOf, TakenFor;
    var a, b := EpInfo(0, 0), EpInfo(1, 0);
    SlotIsWritten(a, b, ds, mode, EP_DATA_IN);
    SlotIsWritten(a, b, ds, mode, EP_DATA_OUT);
    var t0, t1 := [a, a, a], [b, b, b];
    assert TableOf(t0, ds, mode)[1..][0] == SlotOf(a, ds, mode, EP_DATA_IN);
    assert TableOf(t0, ds, mode)[1..][1] == SlotOf(a, ds, mode, EP_DATA_OUT);
    assert TableOf(t1, ds, mode)[1..][0] == SlotOf(b, ds, mode, EP_DATA_IN);
    assert TableOf(t1, ds, mode)[1..][1] == SlotOf(b, ds, mode, EP_DATA_OUT);
    if (exists n :: TakenFor(ds, mode, EP_DATA_IN, n)) && (exists n :: TakenFor(ds, mode, EP_DATA_OUT, n)) {
      forall t: seq<EpInfo>, t': seq<EpInfo> | |t| == |t'| == 3
        ensures TableOf(t, ds, mode)[1..] == TableOf(t', ds, mode)[1..]
      {
        SlotIsWritten(t[1], t'[1], ds, mode, EP_DATA_IN);
        SlotIsWritten(t[2], t'[2], ds, mode, EP_DATA_OUT);
      }
    }
  }

  // varBuffer after a list of descriptors.
  function BufferAfter(buf: seq<u8>, ds: seq<seq<u8>>): (r: seq<u8>)
    requires |buf| == VAR_BUFFER_SIZE && AllWellFormed(ds)
    ensures |r| == VAR_BUFFER_SIZE
    decreases |ds|
  {
    if ds == [] then buf else BufferAfter(Overlay(buf, ds[0]), ds[1..])
  }

  lemma {:induction false} EventsSnoc(buf: seq<u8>, ds: seq<seq<u8>>, d: seq<u8>)
    requires |buf| == VAR_BUFFER_SIZE && AllWellFormed(ds) && WellFormed(d)
    ensures EventsOf(buf, ds + [d]) == EventsOf(buf, ds) + TwoEvents(d, Overlay(BufferAfter(buf, ds), d))
    decreases |ds|
  {
    hide WellFormed;
    if ds == [] {
      assert ds + [d] == [d] && [d][1..] == [];
      assert EventsOf(Overlay(buf, d), []) == [];
    } else {
      assert (ds + [d])[1..] == ds[1..] + [d];
      EventsSnoc(Overlay(buf, ds[0]), ds[1..], d);
    }
  }

  // The effect of one whole descriptor on the table and the configuration value.
  lemma TableStep(m: Midi, mode: Mode, buf: seq<u8>, d: seq<u8>)
    requires MidiOk(m) && |buf| == VAR_BUFFER_SIZE && Complete(d)
    ensures var m' := Fold(Act(mode), m, TwoEvents(d, Overlay(buf, d)));
            && MidiOk(m') && m'.conf == (if d[1] == CONFIGURATION then d[5] else m.conf)
            && m'.epInfo == if ItemOf(d, mode) == Endpoint(true) && m.isGood && m.nEPs < 2
                            then m.epInfo[EndpointSlot(d) := EndpointInfo(d)] else m.epInfo
  {
    var next := Overlay(buf, d);
    assert TwoEvents(d, next) == CallEvents(true, true, d[1], next);
    FoldCall(Act(mode), m, true, true, d[1], next);
    assert Buffered(d[1]) ==> next[..|d|] == d;
  }

  lemma FrontInterfaceFirst(items: seq<Item>, n: nat)
    requires InterfaceFirst(items) && n <= |items|
    ensures InterfaceFirst(items[..n])
  {
    assert forall i :: 0 <= i < n ==> items[..n][..i] == items[..i];
  }

  // The two fields that count decide, at each descriptor, whether it is taken.
  lemma TakenMeans(c: Count, items: seq<Item>, n: nat)
    requires c.nEPs == 0 && InterfaceFirst(items) && n < |items|
    ensures var c' := CountAll(c, items[..n]);
            Taken(items, n) <==> items[n] == Endpoint(true) && c'.isGood && c'.nEPs < 2
  {
    FrontInterfaceFirst(items, n);
    CountMeaning(c, items[..n]);
    hide HasTwo, Interfaces, LastMatching;
  }

  lemma TableSnoc(before: seq<EpInfo>, ds: seq<seq<u8>>, mode: Mode)
    requires |before| == 3 && AllComplete(ds) && ds != []
    ensures var n := |ds| - 1;
            TableOf(before, ds, mode) ==
            if Taken(Items(ds, mode), n)
            then TableOf(before, ds[..n], mode)[EndpointSlot(ds[n]) := EndpointInfo(ds[n])]
            else TableOf(before, ds[..n], mode)
  {
    hide HasTwo, Interfaces, EndpointInfo;
  }

  // While a list is parsed the table always holds what is taken so far.
  lemma {:induction false} EventsFillTable(m: Midi, mode: Mode, buf: seq<u8>, ds: seq<seq<u8>>)
    requires MidiOk(m) && m.nEPs == 0 && |buf| == VAR_BUFFER_SIZE && AllComplete(ds)
    requires InterfaceFirst(Items(ds, mode))
    ensures var m' := Fold(Act(mode), m, EventsOf(buf, ds));
            && MidiOk(m') && m'.epInfo == TableOf(m.epInfo, ds, mode) && m'.conf == ConfOf(m.conf, ds)
    decreases |ds|
  {
    if ds == [] {
      assert m.epInfo == [m.epInfo[0], m.epInfo[1], m.epInfo[2]];
    } else {
      var front, d := ds[..|ds| - 1], ds[|ds| - 1];
      var items := Items(ds, mode);
      assert ds == front + [d] && Items(front, mode) == items[..|front|];
      TableSnoc(m.epInfo, ds, mode);
      TakenMeans(CountOf(m), items, |front|);
      FrontInterfaceFirst(items, |front|);
      hide Fold, Taken, TableOf, EventsOf, InterfaceFirst, CountAll, Act;
      EventsFillTable(m, mode, buf, front);
      EventsCount(m, mode, buf, front);
      EventsSnoc(buf, front, d);
      FoldAppend(Act(mode), m, EventsOf(buf, front), TwoEvents(d, Overlay(BufferAfter(buf, front), d)));
      TableStep(Fold(Act(mode), m, EventsOf(buf, front)), mode, BufferAfter(buf, front), d);
    }
  }

  // The driver's table and the configuration value after a configuration, however its
  // descriptors were cut into buffers.
  lemma EndpointTableIsRight(s: ParserState<Midi>, mode: Mode, ds: seq<seq<u8>>, pieces: seq<seq<u8>>)
    requires StateOk(s) && s.frame.phase == Idle && MidiOk(s.rest) && s.rest.nEPs == 0
    requires AllComplete(ds) && Flatten(pieces) == Flatten(ds)
    requires InterfaceFirst(Items(ds, mode))
    ensures var m := FeedPieces(Act(mode), s, pieces).rest;
            m.epInfo == TableOf(s.rest.epInfo, ds, mode) && m.conf == ConfOf(s.rest.conf, ds)
  {
    hide InterfaceFirst, TableOf, ConfOf;
    FeedDescriptors(Act(mode), s, ds, pieces);
    EventsFillTable(s.rest, mode, s.frame.buf, ds);
  }

  lemma FirstFound()
    ensures var items := [Interface(true), Endpoint(true), Endpoint(true)];
            && InterfaceFirst(items) && Taken(items, 1) && Taken(items, 2) && !Taken(items, 0)
            && forall c: Count :: c.nEPs == 0 ==> CountAll(c, items) == Count(true, 2)
  {
    var items := [Interface(true), Endpoint(true), Endpoint(true)];
    assert items[..0] == [] && items[..1] == [Interface(true)] && items[..2][..1] == items[..1];
    assert Interfaces(items[..1]) == [Found(true, 0)];
    assert Interfaces(items[..2]) == [Found(true, 1)];
  }

  // A matching interface whose two bulk endpoints are both IN endpoints: the count is 2, and
  // the entry of the OUT endpoint is whatever it was before.
  lemma TwoOfOneKind(mode: Mode, before: seq<EpInfo>, isGood: bool)
    requires |before| == 3
    ensures var ds := [[9, 4, 0, 0, 2, 1, 3, 0, 0], [7, 5, 0x81, 2, 64, 0, 0], [7, 5, 0x82, 2, 32, 0, 0]];
            && AllComplete(ds) && InterfaceFirst(Items(ds, mode))
            && CountAll(Count(isGood, 0), Items(ds, mode)) == Count(true, 2)
            && TableOf(before, ds, mode) == [before[0], EpInfo(2, 32), before[2]]
  {
    var i: seq<u8> := [9, 4, 0, 0, 2, 1, 3, 0, 0];
    var e: seq<u8>, f: seq<u8> := [7, 5, 0x81, 2, 64, 0, 0], [7, 5, 0x82, 2, 32, 0, 0];
    var items := [Interface(true), Endpoint(true), Endpoint(true)];
    assert Items([i, e, f], mode) == items && Items([i, e], mode) == items[..2] && Items([i], mode) == items[..1];
    FirstFound();
    TableSnoc(before, [i, e, f], mode);
    assert [i, e, f][..2] == [i, e] && [i, e][..1] == [i] && [i][..0] == [];
    TableSnoc(before, [i, e], mode);
    TableSnoc(before, [i], mode);
  }
}
