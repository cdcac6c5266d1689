// The resumable machine that MidiDescParser and ConfigDescParser are both built around.
// The two classes of the original repeat these fields and this switch word for word.
module Reader {
  import opened MachineInts
  import opened ParseTools
  import opened DescriptorFraming

  lemma Slices(s: seq<u8>, p: nat, q: nat, r: nat)
    requires p <= q <= r <= |s|
    ensures s[p..] == s[p..q] + s[q..] && s[p..r] == s[p..q] + s[q..r] && s[q..][..r - q] == s[q..r]
  {
  }

  lemma BodyOfFrame(g: Frame, rest: seq<u8>, n: nat)
    requires FrameOk(g) && g.phase.Body? && Safe(g, rest) && n == Min(g.phase.rem, |rest|)
    ensures Buffered(g.typ) ==> BodyAt(g) + n <= VAR_BUFFER_SIZE
    ensures Run(g, rest[..n]) == Advance(g, Filled(g, g.phase.rem, rest[..n]), g.phase.rem - n)
  {
    assert rest == rest[..n] + rest[n..];
    SafePrefix(g, rest[..n], rest[n..]);
    if Buffered(g.typ) {
      SafeBodyFits(g, rest[..n]);
    }
    RunBody(g, rest[..n]);
  }

  lemma BodyAfter(f: Frame, a: seq<u8>, h: Frame, rem: nat, rest: seq<u8>)
    requires FrameOk(f) && Safe(f, a + rest)
    requires |h.buf| == VAR_BUFFER_SIZE && rem <= BodySize(h.len, h.typ)
    requires rem == 0 ==> BodySize(h.len, h.typ) == 0
    requires Run(f, a) == Advance(h, h.buf, rem)
    ensures var n := Min(rem, |rest|);
            && (Buffered(h.typ) ==> 2 + BodySize(h.len, h.typ) - rem + n <= VAR_BUFFER_SIZE)
            && Run(f, a + rest[..n]) == Advance(h, Filled(h, rem, rest[..n]), rem - n)
  {
    var n, g := Min(rem, |rest|), Run(f, a);
    SafePrefix(f, a, rest);
    if rem == 0 {
      assert a + rest[..0] == a;
      assert Filled(h, rem, rest[..0]) == h.buf;
    } else {
      RunAppend(f, a, rest[..n]);
      BodyOfFrame(g, rest, n);
      assert Filled(g, rem, rest[..n]) == Filled(h, rem, rest[..n]);
    }
  }

  // The body bytes that one call finds in the rest of its buffer, after the header bytes
  // of the same call (p to q) if there were any.
  lemma BodyIsRun(f: Frame, data: seq<u8>, p: nat, q: nat, h: Frame, rem: nat)
    requires p <= q <= |data| && FrameOk(f) && Safe(f, data[p..])
    requires |h.buf| == VAR_BUFFER_SIZE && rem <= BodySize(h.len, h.typ)
    requires rem == 0 ==> BodySize(h.len, h.typ) == 0
    requires Run(f, data[p..q]) == Advance(h, h.buf, rem)
    ensures var n := Min(rem, |data| - q);
            && (Buffered(h.typ) ==> 2 + BodySize(h.len, h.typ) - rem + n <= VAR_BUFFER_SIZE)
            && Run(f, data[p..q + n]) == Advance(h, Filled(h, rem, data[q..q + n]), rem - n)
  {
    hide Run, Filled, Advance, BodySize;
    var n := Min(rem, |data| - q);
    Slices(data, p, q, q + n);
    BodyAfter(f, data[p..q], h, rem, data[q..]);
  }

  class DescriptorReader {
    const theBuffer: MultiValueBuffer
    const valParser: MultiByteValueParser
    const theSkipper: ByteSkipper
    const varBuffer: array<u8>
    var stateParseDescr: u8
    var dscrLen: u8
    var dscrType: u8

    constructor ()
      ensures Valid() && fresh(Repr()) && State().phase == Idle
    {
      theBuffer := new MultiValueBuffer();
      valParser := new MultiByteValueParser();
      theSkipper := new ByteSkipper();
      varBuffer := new u8[VAR_BUFFER_SIZE];
      stateParseDescr := 0;
      dscrLen := 0;
      dscrType := 0;
      new;
      theBuffer.pValue := varBuffer;
      valParser.Initialize(theBuffer);
    }

    ghost function Repr(): set<object> {
      {this, theBuffer, valParser, theSkipper, varBuffer}
    }

    // The bytes of the current body that are still to come.
    ghost function Remaining(): nat
      reads this, valParser, theSkipper
    {
      if Buffered(dscrType) then valParser.countDown
      else theSkipper.Pending(BodySize(dscrLen, dscrType))
    }

    ghost predicate InBody()
      reads this, theBuffer, valParser, theSkipper, varBuffer
    {
      && varBuffer.Length == VAR_BUFFER_SIZE && theBuffer.pValue == varBuffer
      && stateParseDescr == 4 && Remaining() <= BodySize(dscrLen, dscrType) && theSkipper.nStage <= 1
      && (Buffered(dscrType) ==>
            && 2 + BodySize(dscrLen, dscrType) - Remaining() <= VAR_BUFFER_SIZE
            && valParser.pBuf == varBuffer && valParser.off == 2 && theSkipper.nStage == 0
            && valParser.valueSize == BodySize(dscrLen, dscrType))
    }

    // Between two buffers the machine is in state 0, 1 or 4 only.
    ghost predicate Valid()
      reads this, theBuffer, valParser, theSkipper, varBuffer
    {
      && varBuffer.Length == VAR_BUFFER_SIZE && theBuffer.pValue == varBuffer
      && (stateParseDescr == 0 || stateParseDescr == 1 || (InBody() && Remaining() > 0))
      && (stateParseDescr <= 1 ==> theBuffer.off == 0 && theSkipper.nStage == 0)
      && (stateParseDescr == 1 ==>
            && valParser.pBuf == varBuffer && valParser.off == 0
            && valParser.valueSize == 2 && valParser.countDown == 1)
    }

    ghost function State(): (f: Frame)
      requires Valid()
      reads this, theBuffer, valParser, theSkipper, varBuffer
      ensures FrameOk(f)
    {
      Frame(varBuffer[..],
            if stateParseDescr == 0 then Idle else if stateParseDescr == 1 then Head else Body(Remaining()),
            dscrLen, dscrType, [])
    }

    // States 0 to 3: the two header bytes, and the preparations for the body.
    method TakeHeader(c: Cursor) returns (ok: bool)
      requires Valid() && stateParseDescr != 4 && c.Valid() && c.cntdn > 0
      modifies this`stateParseDescr, this`dscrLen, this`dscrType, theBuffer, valParser, theSkipper, varBuffer, c
      ensures c.Valid() && old(c.p) < c.p
      ensures !ok ==> Valid() && c.cntdn == 0 && stateParseDescr == 1
                      && Run(old(State()), c.data[old(c.p)..c.p]) == State()
      ensures ok ==> InBody() && Remaining() == BodySize(dscrLen, dscrType)
                     && Run(old(State()), c.data[old(c.p)..c.p])
                        == Open(Frame(varBuffer[..], Head, dscrLen, dscrType, []))
    {
      hide Run, BodySize, Open;
      ghost var f, p := State(), c.p;
      if stateParseDescr == 0 {
        theBuffer.valueSize := 2;
        valParser.Initialize(theBuffer);
        stateParseDescr := 1;
      }
      ok := valParser.Parse(c);
      RunHeader(f, c.data[p..c.p]);
      if !ok {
        return;
      }
      dscrLen := varBuffer[0];
      dscrType := varBuffer[1];
      stateParseDescr := 2;
      // state 2: the body is read right behind the two bytes that are already there
      theBuffer.off := 2;
      stateParseDescr := 3;
      // state 3
      BodySizeWraps(dscrLen, dscrType);
      theBuffer.valueSize := Wrap8(dscrLen - 2);
      valParser.Initialize(theBuffer);
      stateParseDescr := 4;
    }

    // The frame in which a body is about to be read, as far as it is stored here.
    ghost function BodyFrame(log: seq<Event>): Frame
      reads this, varBuffer
    {
      Frame(varBuffer[..], Head, dscrLen, dscrType, log)
    }

    ghost function Finished(done: bool): seq<Event>
      reads this, varBuffer
    {
      if done then [Closed(dscrType, varBuffer[..])] else []
    }

    // State 4.
    method TakeRest(c: Cursor, ghost log: seq<Event>) returns (done: bool)
      requires InBody() && c.Valid()
      requires Buffered(dscrType) ==>
                 2 + BodySize(dscrLen, dscrType) - Remaining() + Min(Remaining(), c.cntdn) <= VAR_BUFFER_SIZE
      modifies this`stateParseDescr, theBuffer, valParser, theSkipper, varBuffer, c
      ensures Valid() && c.Valid() && c.p == old(c.p) + Min(old(Remaining()), old(c.cntdn))
      ensures done <==> old(Remaining()) <= old(c.cntdn)
      ensures State().(log := log + Finished(done)) ==
              Advance(old(BodyFrame(log)), Filled(old(BodyFrame(log)), old(Remaining()), c.data[old(c.p)..c.p]),
                      old(Remaining()) - (c.p - old(c.p)))
    {
      hide BodySize;
      ghost var h, rem := BodyFrame(log), Remaining();
      if dscrType == CONFIGURATION || dscrType == INTERFACE || dscrType == ENDPOINT {
        done := valParser.Parse(c);
      } else {
        BodySizeWraps(dscrLen, dscrType);
        done := theSkipper.Skip(c, Wrap16(dscrLen - 2));
      }
      assert varBuffer[..] == Filled(h, rem, c.data[old(c.p)..c.p]);
      if done {
        theBuffer.pValue := varBuffer;
        theBuffer.off := 0;
        stateParseDescr := 0;
      }
    }

    // One call of ParseDescriptor.  Tells whether the header was completed in this call
    // and whether the descriptor was; every byte is accounted for.
    method ParseDescriptor(c: Cursor) returns (begun: bool, finished: bool)
      requires Valid() && c.Valid() && c.cntdn > 0 && Safe(State(), c.Rest())
      modifies this`stateParseDescr, this`dscrLen, this`dscrType, theBuffer, valParser, theSkipper, varBuffer, c
      ensures Valid() && c.Valid() && old(c.p) < c.p
      ensures !finished ==> c.cntdn == 0
      ensures Run(old(State()), c.data[old(c.p)..c.p]) ==
              State().(log := CallEvents(begun, finished, dscrType, varBuffer[..]))
    {
      hide Run, Filled, BodySize;
      ghost var f, p := State(), c.p;
      begun := false;
      if stateParseDescr != 4 {
        begun := TakeHeader(c);
        if !begun {
          return false, false;
        }
      }
      ghost var log := if begun then [Opened(dscrType)] else [];
      RunNone(f);
      assert c.data[p..p] == [] && [] + [Opened(dscrType)] == [Opened(dscrType)];
      BodyIsRun(f, c.data, p, c.p, BodyFrame(log), Remaining());
      finished := TakeRest(c, log);
    }
  }
}
