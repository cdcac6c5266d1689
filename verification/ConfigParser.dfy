// ConfigDescParser: endpoint callbacks for the interfaces that match a class filter.
module ConfigParser {
  import opened MachineInts
  import opened ParseTools
  import opened DescriptorFraming
  import opened Reader

  // The template arguments; the three flags are the bits of MASK.
  datatype Filter = Filter(classId: u8, subclassId: u8, protocolId: u8,
                           compareClass: bool, compareSubclass: bool, compareProtocol: bool)

  // One call of EndpointXtract; ep is the endpoint descriptor, seven bytes long.
  datatype Call = Call(conf: u8, iface: u8, alt: u8, proto: u8, ep: seq<u8>)

  // What does not change during a parse: the filter, SetOR, and whether there is an extractor.
  datatype Mode = Mode(filter: Filter, useOr: bool, heard: bool)

  datatype Conf = Conf(isGood: bool, conf: u8, iface: u8, alt: u8, proto: u8, calls: seq<Call>)

  // With SetOR a set protocol bit in MASK accepts every nonzero protocol, and a clear one
  // accepts no interface at all.
  predicate Matches(filter: Filter, useOr: bool, d: seq<u8>)
    requires |d| >= 8
  {
    && (filter.compareClass ==> d[5] == filter.classId)
    && (filter.compareSubclass ==> d[6] == filter.subclassId)
    && (if useOr then filter.compareProtocol && d[7] != 0
        else filter.compareProtocol ==> d[7] == filter.protocolId)
  }

  function Apply(mode: Mode, m: Conf, e: Event): Conf {
    match e
    case Opened(typ) => if typ == INTERFACE then m.(isGood := false) else m
    case Closed(typ, buf) =>
      if |buf| != VAR_BUFFER_SIZE then m
      else if typ == CONFIGURATION then m.(conf := buf[5])
      else if typ == INTERFACE && Matches(mode.filter, mode.useOr, buf)
      then m.(isGood := true, iface := buf[2], alt := buf[3], proto := buf[7])
      else if typ == ENDPOINT && m.isGood && mode.heard
      then m.(calls := m.calls + [Call(m.conf, m.iface, m.alt, m.proto, buf[..7])])
      else m
  }

  function Act(mode: Mode): (Conf, Event) -> Conf {
    (m, e) => Apply(mode, m, e)
  }

  // ----- the callbacks, read off a list of descriptors -----

  // Long enough for every field that is looked at to be the descriptor's own.
  predicate Complete(d: seq<u8>) {
    && WellFormed(d)
    && (d[1] == CONFIGURATION ==> |d| >= 6)
    && (d[1] == INTERFACE ==> |d| >= 8)
    && (d[1] == ENDPOINT ==> |d| >= 7)
  }

  predicate AllComplete(ds: seq<seq<u8>>) {
    forall i :: 0 <= i < |ds| ==> Complete(ds[i])
  }

  // The last descriptor of type t among ds[..n], -1 when there is none.
  function LastOf(ds: seq<seq<u8>>, t: u8, n: nat): (r: int)
    requires AllComplete(ds) && n <= |ds|
    ensures -1 <= r < n && (r >= 0 ==> ds[r][1] == t)
    ensures forall i :: r < i < n ==> ds[i][1] != t
  {
    if n == 0 then -1 else if ds[n - 1][1] == t then n - 1 else LastOf(ds, t, n - 1)
  }

  // The configuration value in force at position n, given the one before all of ds.
  function ConfAt(ds: seq<seq<u8>>, conf: u8, n: nat): u8
    requires AllComplete(ds) && n <= |ds|
  {
    var c := LastOf(ds, CONFIGURATION, n);
    if c < 0 then conf else ds[c][5]
  }

  // An endpoint belongs to the interface right before it, and is reported with that
  // interface's fields if the interface matches.
  function CallsOf(mode: Mode, ds: seq<seq<u8>>, conf: u8, n: nat): seq<Call>
    requires AllComplete(ds) && n <= |ds|
  {
    if n == 0 then []
    else
      var before := CallsOf(mode, ds, conf, n - 1);
      var owner := LastOf(ds, INTERFACE, n - 1);
      if mode.heard && ds[n - 1][1] == ENDPOINT && owner >= 0 && Matches(mode.filter, mode.useOr, ds[owner])
      then before + [Call(ConfAt(ds, conf, n - 1), ds[owner][2], ds[owner][3], ds[owner][7], ds[n - 1][..7])]
      else before
  }

  // The parser's fields after the first n descriptors.
  predicate AgreesAt(mode: Mode, ds: seq<seq<u8>>, start: Conf, n: nat, m: Conf)
    requires AllComplete(ds) && n <= |ds|
  {
    var owner := LastOf(ds, INTERFACE, n);
    && m.conf == ConfAt(ds, start.conf, n)
    && m.calls == start.calls + CallsOf(mode, ds, start.conf, n)
    && (if owner < 0 then m.isGood == start.isGood else m.isGood == Matches(mode.filter, mode.useOr, ds[owner]))
    && (owner >= 0 && m.isGood ==>
          m.iface == ds[owner][2] && m.alt == ds[owner][3] && m.proto == ds[owner][7])
  }

  // isGoodInterface starts out undefined, so either it happens to be false or no endpoint
  // may precede the first interface.
  predicate InterfaceFirst(ds: seq<seq<u8>>)
    requires AllComplete(ds)
  {
    forall n :: 0 <= n < |ds| && ds[n][1] == ENDPOINT ==> LastOf(ds, INTERFACE, n) >= 0
  }

  lemma OneMoreDescriptor(mode: Mode, ds: seq<seq<u8>>, start: Conf, n: nat, m: Conf, buf: seq<u8>)
    requires AllComplete(ds) && n < |ds| && AgreesAt(mode, ds, start, n, m)
    requires InterfaceFirst(ds) || !start.isGood
    requires |buf| == VAR_BUFFER_SIZE
    ensures var next := Overlay(buf, ds[n]);
            AgreesAt(mode, ds, start, n + 1,
                     Apply(mode, Apply(mode, m, Opened(ds[n][1])), Closed(ds[n][1], next)))
  {
    var d, next := ds[n], Overlay(buf, ds[n]);
    if d[1] == ENDPOINT {
      assert next[..7] == d[..7];
    }
  }

  lemma {:induction false} EventsMakeCalls(mode: Mode, ds: seq<seq<u8>>, start: Conf,
                                           n: nat, m: Conf, buf: seq<u8>)
    requires AllComplete(ds) && n <= |ds| && AgreesAt(mode, ds, start, n, m)
    requires InterfaceFirst(ds) || !start.isGood
    requires |buf| == VAR_BUFFER_SIZE && AllWellFormed(ds[n..])
    ensures AgreesAt(mode, ds, start, |ds|, Fold(Act(mode), m, EventsOf(buf, ds[n..])))
    decreases |ds| - n
  {
    if n < |ds| {
      hide AgreesAt, InterfaceFirst;
      var act, next := Act(mode), Overlay(buf, ds[n]);
      OneMoreDescriptor(mode, ds, start, n, m, buf);
      assert ds[n..][1..] == ds[n + 1..];
      assert EventsOf(buf, ds[n..]) == CallEvents(true, true, ds[n][1], next) + EventsOf(next, ds[n + 1..]);
      FoldAppend(act, m, CallEvents(true, true, ds[n][1], next), EventsOf(next, ds[n + 1..]));
      FoldCall(act, m, true, true, ds[n][1], next);
      EventsMakeCalls(mode, ds, start, n + 1,
                      Apply(mode, Apply(mode, m, Opened(ds[n][1])), Closed(ds[n][1], next)), next);
    }
  }

  // The callbacks for a configuration are those of its list of descriptors, in order,
  // however the bytes were cut into buffers.
  lemma CallsAreRight(mode: Mode, s: ParserState<Conf>, ds: seq<seq<u8>>, pieces: seq<seq<u8>>)
    requires StateOk(s) && s.frame.phase == Idle && s.rest.calls == []
    requires AllComplete(ds) && Flatten(pieces) == Flatten(ds)
    requires InterfaceFirst(ds) || !s.rest.isGood
    ensures FeedPieces(Act(mode), s, pieces).rest.calls
            == CallsOf(mode, ds, s.rest.conf, |ds|)
  {
    hide InterfaceFirst;
    FeedDescriptors(Act(mode), s, ds, pieces);
    assert ds[0..] == ds;
    EventsMakeCalls(mode, ds, s.rest, 0, s.rest, s.frame.buf);
  }

  // The receiver of the callbacks, which records them.
  class UsbConfigXtracter {
    var calls: seq<Call>

    constructor ()
      ensures calls == []
    {
      calls := [];
    }

    method EndpointXtract(conf: u8, iface: u8, alt: u8, proto: u8, ep: seq<u8>)
      modifies this
      ensures calls == old(calls) + [Call(conf, iface, alt, proto, ep)]
    {
      calls := calls + [Call(conf, iface, alt, proto, ep)];
    }
  }

  class ConfigDescParser {
    // May be null; then endpoints are not reported.
    const theXtractor: UsbConfigXtracter?
    const reader: DescriptorReader
    const filter: Filter
    var isGoodInterface: bool
    var confValue: u8
    var protoValue: u8
    var ifaceNumber: u8
    var ifaceAltSet: u8
    var UseOr: bool

    // isGoodInterface and the four values are left undefined here, as in the original.
    constructor (filter: Filter, xtractor: UsbConfigXtracter?)
      ensures Valid() && fresh(reader.Repr())
      ensures this.filter == filter && theXtractor == xtractor && !UseOr
      ensures State().frame.phase == Idle
    {
      this.filter := filter;
      theXtractor := xtractor;
      reader := new DescriptorReader();
      UseOr := false;
    }

    method SetOR()
      modifies this`UseOr
      ensures UseOr
    {
      UseOr := true;
    }

    ghost predicate Valid()
      reads this, reader, reader.Repr()
    {
      reader.Valid()
    }

    ghost function Listener(): set<UsbConfigXtracter> {
      if theXtractor == null then {} else {theXtractor}
    }

    ghost function ParseMode(): Mode
      reads this
    {
      Mode(filter, UseOr, theXtractor != null)
    }

    ghost function Fields(): Conf
      reads this, theXtractor
    {
      Conf(isGoodInterface, confValue, ifaceNumber, ifaceAltSet, protoValue,
           if theXtractor == null then [] else theXtractor.calls)
    }

    ghost function State(): (s: ParserState<Conf>)
      requires Valid()
      reads this, reader, reader.Repr(), theXtractor
      ensures StateOk(s)
    {
      ParserState(reader.State(), Fields())
    }

    method Complete()
      requires Valid()
      modifies this, Listener()
      ensures UseOr == old(UseOr)
      ensures Fields() == Apply(ParseMode(), old(Fields()), Closed(reader.dscrType, reader.varBuffer[..]))
    {
      var buf := reader.varBuffer;
      if reader.dscrType == CONFIGURATION {
        confValue := buf[5];
      } else if reader.dscrType == INTERFACE {
        if filter.compareClass && buf[5] != filter.classId {
          return;
        }
        if filter.compareSubclass && buf[6] != filter.subclassId {
          return;
        }
        if UseOr {
          if !(filter.compareProtocol && buf[7] != 0) {
            return;
          }
        } else {
          if filter.compareProtocol && buf[7] != filter.protocolId {
            return;
          }
        }
        isGoodInterface := true;
        ifaceNumber := buf[2];
        ifaceAltSet := buf[3];
        protoValue := buf[7];
      } else if reader.dscrType == ENDPOINT {
        if isGoodInterface && theXtractor != null {
          theXtractor.EndpointXtract(confValue, ifaceNumber, ifaceAltSet, protoValue, buf[..7]);
        }
      }
    }

    method ParseDescriptor(c: Cursor) returns (ok: bool)
      requires Valid() && c.Valid() && c.cntdn > 0 && Safe(State().frame, c.Rest())
      modifies this, reader.Repr(), Listener(), c
      ensures Valid() && c.Valid() && old(c.p) < c.p && (!ok ==> c.cntdn == 0)
      ensures UseOr == old(UseOr)
      ensures State() == Feed(Act(ParseMode()), old(State()), c.data[old(c.p)..c.p])
    {
      hide Run;
      ghost var m := Fields();
      var begun, finished := reader.ParseDescriptor(c);
      ok := finished;
      FoldCall(Act(ParseMode()), m, begun, finished, reader.dscrType, reader.varBuffer[..]);
      if begun && reader.dscrType == INTERFACE {
        isGoodInterface := false;
      }
      if ok {
        Complete();
      }
    }

    // Takes all the bytes of one buffer.
    method Parse(pbuf: seq<u8>)
      requires Valid() && Safe(State().frame, pbuf)
      modifies this, reader.Repr(), Listener()
      ensures Valid() && UseOr == old(UseOr)
      ensures State() == Feed(Act(ParseMode()), old(State()), pbuf)
    {
      var c := new Cursor(pbuf);
      while c.cntdn != 0
        invariant Valid() && c.Valid() && c.data == pbuf && fresh(c)
        invariant UseOr == old(UseOr) && Safe(State().frame, c.Rest())
        invariant State() == Feed(Act(ParseMode()), old(State()), pbuf[..c.p])
        decreases c.cntdn
      {
        hide Run, Feed;
        ghost var s, p := State(), c.p;
        var ok := ParseDescriptor(c);
        FeedStep(Act(ParseMode()), old(State()), s, pbuf, p, c.p);
        if !ok {
          break;
        }
      }
      assert pbuf[..c.p] == pbuf;
    }
  }
}
