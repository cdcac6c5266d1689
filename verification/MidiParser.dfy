// MidiDescParser and the driver it reports endpoints to.
module MidiParser {
  import opened MachineInts
  import opened ParseTools
  import opened DescriptorFraming
  import opened Reader
  import opened MidiDescriptors

  // The part of USBH_MIDI that the parser calls back into.
  class EndpointTable {
    const epInfo: array<EpInfo>
    var bTransferTypeMask: TransferMask

    constructor (mask: TransferMask)
      ensures fresh(epInfo) && TableOk(epInfo[..]) && bTransferTypeMask == mask
    {
      epInfo := new EpInfo[3](i => EpInfo(0, if i == 0 then 8 else 0));
      bTransferTypeMask := mask;
    }

    // pep is varBuffer, which holds the whole endpoint descriptor.
    method EndpointXtract(pep: array<u8>) returns (accepted: bool)
      requires pep.Length == VAR_BUFFER_SIZE && epInfo.Length == 3
      modifies epInfo
      ensures accepted <==> IsBulk(pep[3], bTransferTypeMask)
      ensures epInfo[..] == if accepted then old(epInfo[..])[EndpointSlot(pep[..]) := EndpointInfo(pep[..])]
                            else old(epInfo[..])
      ensures old(TableOk(epInfo[..])) ==> TableOk(epInfo[..])
    {
      var index: nat;
      if IsBulk(pep[3], bTransferTypeMask) {
        index := if pep[2] >= 0x80 then EP_DATA_IN else EP_DATA_OUT;
      } else {
        return false;
      }
      var size := Word(pep[4], pep[5]);
      if size > MIDI_EVENT_PACKET_SIZE {
        epInfo[index] := EpInfo(pep[2] % 0x10, MIDI_EVENT_PACKET_SIZE);
      } else {
        epInfo[index] := EpInfo(pep[2] % 0x10, size);
      }
      return true;
    }
  }

  class MidiDescParser {
    const theXtractor: EndpointTable
    const reader: DescriptorReader
    const isMidiSearch: bool
    var nEPs: u8
    var isGoodInterface: bool
    var confValue: u8

    // isGoodInterface and confValue are left undefined here, as in the original.
    constructor (xtractor: EndpointTable, modeMidi: bool)
      requires xtractor.epInfo.Length == 3
      ensures Valid() && fresh(reader.Repr())
      ensures theXtractor == xtractor && isMidiSearch == modeMidi
      ensures State().frame.phase == Idle && nEPs == 0
    {
      theXtractor := xtractor;
      isMidiSearch := modeMidi;
      reader := new DescriptorReader();
      nEPs := 0;
    }

    ghost predicate Valid()
      reads this, reader, reader.Repr(), theXtractor
    {
      reader.Valid() && theXtractor.epInfo.Length == 3 && nEPs <= 2
    }

    ghost function MidiPart(): Midi
      reads this, theXtractor, theXtractor.epInfo
    {
      Midi(isGoodInterface, confValue, nEPs, theXtractor.epInfo[..])
    }

    ghost function State(): (s: ParserState<Midi>)
      requires Valid()
      reads this, reader, reader.Repr(), theXtractor, theXtractor.epInfo
      ensures StateOk(s) && MidiOk(s.rest)
    {
      ParserState(reader.State(), MidiPart())
    }

    ghost function ParseMode(): Mode
      reads theXtractor
    {
      Mode(isMidiSearch, theXtractor.bTransferTypeMask)
    }

    // What is done with a descriptor whose bytes are all in varBuffer.
    method Complete()
      requires Valid()
      modifies this, theXtractor.epInfo
      ensures Valid()
      ensures MidiPart() == Apply(old(MidiPart()), ParseMode(), Closed(reader.dscrType, reader.varBuffer[..]))
    {
      var buf := reader.varBuffer;
      if reader.dscrType == CONFIGURATION {
        confValue := buf[5];
      } else if reader.dscrType == INTERFACE {
        if isMidiSearch {
          if !(buf[5] == CLASS_AUDIO && buf[6] == SUBCLASS_MIDISTREAMING) {
            return;
          }
        }
        isGoodInterface := true;
        if nEPs < 2 {
          nEPs := 0;
        }
      } else if reader.dscrType == ENDPOINT {
        if isGoodInterface && nEPs < 2 {
          var accepted := theXtractor.EndpointXtract(buf);
          if accepted {
            nEPs := nEPs + 1;
          }
        }
      }
    }

    method ParseDescriptor(c: Cursor) returns (ok: bool)
      requires Valid() && c.Valid() && c.cntdn > 0 && Safe(State().frame, c.Rest())
      modifies this, reader.Repr(), theXtractor.epInfo, c
      ensures Valid() && c.Valid() && old(c.p) < c.p && (!ok ==> c.cntdn == 0)
      ensures State() == Feed(Act(ParseMode()), old(State()), c.data[old(c.p)..c.p])
    {
      hide Run;
      ghost var m := MidiPart();
      var begun, finished := reader.ParseDescriptor(c);
      ok := finished;
      FoldCall(Act(ParseMode()), m, begun, finished, reader.dscrType, reader.varBuffer[..]);
      if begun && reader.dscrType == INTERFACE {
        isGoodInterface := false;
      }
      if ok {
        Complete();
      }
    }

    // Takes all the bytes of one buffer.
    method Parse(pbuf: seq<u8>)
      requires Valid() && Safe(State().frame, pbuf)
      modifies this, reader.Repr(), theXtractor.epInfo
      ensures Valid() && State() == Feed(Act(ParseMode()), old(State()), pbuf)
    {
      var c := new Cursor(pbuf);
      while c.cntdn != 0
        invariant Valid() && c.Valid() && c.data == pbuf && fresh(c)
        invariant Safe(State().frame, c.Rest())
        invariant State() == Feed(Act(ParseMode()), old(State()), pbuf[..c.p])
        decreases c.cntdn
      {
        hide Run, Feed;
        ghost var s, p := State(), c.p;
        var ok := ParseDescriptor(c);
        FeedStep(Act(ParseMode()), old(State()), s, pbuf, p, c.p);
        if !ok {
          break;
        }
      }
      assert pbuf[..c.p] == pbuf;
    }
  }
}
