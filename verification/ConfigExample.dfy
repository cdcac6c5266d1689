// A device with two interfaces, and the callbacks that a driver for one of them gets.
module ConfigExample {
  import opened MachineInts
  import opened ParseTools
  import opened DescriptorFraming
  import opened ConfigParser

  // A configuration of value 4, a boot keyboard (class 3, subclass 1, protocol 1) and a boot
  // mouse (protocol 2), each with one endpoint.
  const DESK: seq<seq<u8>> := [
    [9, 2, 41, 0, 2, 4, 0, 128, 50],
    [9, 4, 1, 0, 1, 3, 1, 1, 0],
    [7, 5, 0x81, 3, 8, 0, 10],
    [9, 4, 2, 5, 1, 3, 1, 2, 0],
    [7, 5, 0x82, 3, 4, 0, 10]
  ]

  const MOUSE := Mode(Filter(3, 1, 2, true, true, true), false, true)

  lemma DeskIsComplete()
    ensures AllComplete(DESK) && InterfaceFirst(DESK)
  {
    assert LastOf(DESK, 4, 1) == -1 && LastOf(DESK, 4, 2) == 1 && LastOf(DESK, 4, 3) == 1 && LastOf(DESK, 4, 4) == 3;
  }

  lemma DeskCalls(conf: u8)
    ensures AllComplete(DESK)
    ensures CallsOf(MOUSE, DESK, conf, 5) == [Call(4, 2, 5, 2, [7, 5, 0x82, 3, 4, 0, 10])]
  {
    DeskIsComplete();
    assert LastOf(DESK, 4, 1) == -1 && LastOf(DESK, 4, 2) == 1 && LastOf(DESK, 4, 3) == 1 && LastOf(DESK, 4, 4) == 3;
    assert LastOf(DESK, 2, 1) == 0 && LastOf(DESK, 2, 2) == 0 && LastOf(DESK, 2, 3) == 0 && LastOf(DESK, 2, 4) == 0;
    hide LastOf;
    assert CallsOf(MOUSE, DESK, conf, 1) == [];
    assert CallsOf(MOUSE, DESK, conf, 2) == [];
    assert CallsOf(MOUSE, DESK, conf, 3) == [];
    assert CallsOf(MOUSE, DESK, conf, 4) == [];
    assert DESK[4][..7] == [7, 5, 0x82, 3, 4, 0, 10];
  }

  // A mouse driver hears of the mouse's endpoint and nothing else, for any cut into buffers.
  lemma MouseIsHeardOf(s: ParserState<Conf>, pieces: seq<seq<u8>>)
    requires StateOk(s) && s.frame.phase == Idle && s.rest.calls == []
    requires Flatten(pieces) == Flatten(DESK)
    ensures FeedPieces(Act(MOUSE), s, pieces).rest.calls == [Call(4, 2, 5, 2, [7, 5, 0x82, 3, 4, 0, 10])]
  {
    DeskIsComplete();
    DeskCalls(s.rest.conf);
    hide CallsOf, InterfaceFirst, AllComplete, FeedPieces;
    CallsAreRight(MOUSE, s, DESK, pieces);
  }

  // With SetOR the protocol only has to be nonzero.
  const ANY := Mode(Filter(3, 1, 9, true, true, true), true, true)
  const NONE := Mode(Filter(3, 1, 9, true, true, false), true, true)

  lemma DeskCallsWithOr(conf: u8)
    ensures AllComplete(DESK)
    ensures CallsOf(ANY, DESK, conf, 5)
            == [Call(4, 1, 0, 1, [7, 5, 0x81, 3, 8, 0, 10]), Call(4, 2, 5, 2, [7, 5, 0x82, 3, 4, 0, 10])]
    ensures CallsOf(NONE, DESK, conf, 5) == []
  {
    DeskIsComplete();
    assert LastOf(DESK, 4, 1) == -1 && LastOf(DESK, 4, 2) == 1 && LastOf(DESK, 4, 3) == 1 && LastOf(DESK, 4, 4) == 3;
    assert LastOf(DESK, 2, 1) == 0 && LastOf(DESK, 2, 2) == 0 && LastOf(DESK, 2, 3) == 0 && LastOf(DESK, 2, 4) == 0;
    hide LastOf;
    assert DESK[4][..7] == [7, 5, 0x82, 3, 4, 0, 10] && DESK[2][..7] == [7, 5, 0x81, 3, 8, 0, 10];
    forall mode | mode == ANY || mode == NONE
      ensures CallsOf(mode, DESK, conf, 2) == []
    {
      assert CallsOf(mode, DESK, conf, 1) == [];
    }
    assert CallsOf(ANY, DESK, conf, 3) == [Call(4, 1, 0, 1, [7, 5, 0x81, 3, 8, 0, 10])];
    assert CallsOf(ANY, DESK, conf, 4) == CallsOf(ANY, DESK, conf, 3);
    assert CallsOf(NONE, DESK, conf, 4) == CallsOf(NONE, DESK, conf, 3) == [];
  }
}
