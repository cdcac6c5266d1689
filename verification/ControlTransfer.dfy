// ctrlReq and getConfDescr: the three stages of a control transfer, from packets to the
// descriptor parser.
module ControlTransfer {
  import opened MachineInts
  import opened ParseTools
  import opened DescriptorFraming
  import opened MidiDescriptors
  import opened MidiEndpoints
  import opened MidiParser
  import opened UsbCodes
  import opened InTransfer
  import DispatchPkt
  import OutTransfer

  // USB 2.0 section 5.5.3: the packet sizes that a control endpoint may have.
  predicate ControlPacketSize(m: u8) {
    m == 8 || m == 16 || m == 32 || m == 64
  }

  const BUF_SIZE: u16 := 64

  lemma BufferIsMultiple(m: u8)
    requires ControlPacketSize(m)
    ensures Multiple(m, BUF_SIZE)
  {
  }

  // ----- the data stage of a request that reads -----

  // A piece of the data as a parser gets it, with its offset in the whole.
  datatype Chunk = Chunk(offset: u16, bytes: seq<u8>)

  function Joined(chunks: seq<Chunk>): seq<u8> {
    if chunks == [] then [] else chunks[0].bytes + Joined(chunks[1..])
  }

  // Each offset is `at` and the number of bytes in the chunks before.
  predicate Consecutive(chunks: seq<Chunk>, at: nat) {
    chunks == [] || (chunks[0].offset == at && Consecutive(chunks[1..], at + |chunks[0].bytes|))
  }

  datatype Stage = Stage(outcome: Outcome, script: seq<Answer>, chunks: seq<Chunk>)

  function After(chunks: seq<Chunk>, r: Stage): Stage {
    r.(chunks := chunks + r.chunks)
  }

  // One transfer after the other into a buffer of n bytes, until none is left or one is
  // short.  A device that sends more than is left makes the 16-bit count wrap around.
  function DataIn(script: seq<Answer>, m: u8, n: u16, total: u16, left: u16): (r: Stage)
    requires ScriptOk(script) && n > 0
    ensures ScriptOk(r.script)
    decreases |script|
  {
    if left == 0 then Stage(Returned(0), script, [])
    else
      var r := Receive(script, m, n, [], 0);
      if r.outcome != Returned(0) then Stage(r.outcome, r.script, [])
      else
        var chunk := Chunk(Wrap16(total - left), r.bytes);
        if r.count < n then Stage(Returned(0), r.script, [chunk])
        else After([chunk], DataIn(r.script, m, n, total, Wrap16(left - r.count)))
  }

  // Consecutive pieces of the data from `at` on; all of it, when the stage succeeds.
  predicate Brings(r: Stage, data: seq<u8>, at: nat) {
    && Consecutive(r.chunks, at) && Joined(r.chunks) <= data
    && (r.outcome == Returned(0) ==> Joined(r.chunks) == data)
  }

  lemma BringsNothing(outcome: Outcome, script: seq<Answer>, data: seq<u8>, at: nat)
    requires outcome != Returned(0) || data == []
    ensures Brings(Stage(outcome, script, []), data, at)
  {
  }

  lemma BringsAll(script: seq<Answer>, data: seq<u8>, at: u16)
    ensures Brings(Stage(Returned(0), script, [Chunk(at, data)]), data, at)
  {
    assert data + [] == data;
  }

  lemma BringsMore(r: Stage, data: seq<u8>, n: nat, at: u16)
    requires n <= |data| && Brings(r, data[n..], at + n)
    ensures Brings(After([Chunk(at, data[..n])], r), data, at)
  {
    var chunk := Chunk(at, data[..n]);
    assert ([chunk] + r.chunks)[1..] == r.chunks && data == data[..n] + data[n..];
  }

  lemma ProductIsNat(a: nat, b: nat)
    ensures a * b >= 0
  {
  }

  lemma NoChunks(at: nat, data: seq<u8>)
    ensures Joined([]) == [] <= data && Consecutive([], at)
  {
  }

  // How many packets a data stage takes: those that fill a buffer, for each buffer of data,
  // and unless that was all, one more transfer that comes out short.
  function Needed(m: nat, n: nat, left: nat, size: nat): nat
    requires m > 0 && n > 0
  {
    ProductIsNat(size / n, CeilDiv(n, m));
    size / n * CeilDiv(n, m) + if size == left && size % n == 0 then 0 else size % n / m + 1
  }

  lemma Distribute(a: nat, b: nat)
    ensures (a + 1) * b == a * b + b
  {
  }

  lemma NeededNext(m: nat, n: nat, left: nat, size: nat)
    requires 0 < m && 0 < n <= size <= left
    ensures Needed(m, n, left, size) == NeedOne(m, n, size) + Needed(m, n, left - n, size - n)
  {
    DivStep(size, n);
    assert size % n == (size - n) % n by {
      assert size == size / n * n + size % n && size - n == (size - n) / n * n + (size - n) % n;
    }
    Distribute(size / n - 1, CeilDiv(n, m));
    hide CeilDiv;
  }

  lemma NeededLast(m: nat, n: nat, left: nat, size: nat)
    requires 0 < m && size < n && size <= left
    ensures Needed(m, n, left, size) == if left == 0 then 0 else NeedOne(m, n, size)
  {
    DivSmall(size, n);
    assert size == size / n * n + size % n;
  }

  lemma NeededInTurn(m: nat, n: nat, left: nat, size: nat)
    requires 0 < m && 0 < n && size <= left && left > 0
    ensures Needed(m, n, left, size) ==
            NeedOne(m, n, size) + if size < n then 0 else Needed(m, n, left - n, size - n)
  {
    hide Needed, NeedOne;
    if size < n {
      NeededLast(m, n, left, size);
    } else {
      NeededNext(m, n, left, size);
    }
  }

  // For the buffer of 64 bytes, as many packets as the data has, and one more unless the
  // data is all that was asked for and a multiple of the 64.
  lemma NeededForBuffer(m: u8, left: nat, size: nat)
    requires ControlPacketSize(m)
    ensures Needed(m, BUF_SIZE, left, size) == size / m + if size == left && size % 64 == 0 then 0 else 1
  {
  }

  // One transfer of the data stage with a conforming device.
  lemma FirstChunk(script: seq<Answer>, m: u8, n: u16, data: seq<u8>)
    requires ScriptOk(script) && Conforms(script, m, data) && 1 <= m <= 64 && n > 0
    requires Multiple(m, n) || |data| <= n
    ensures var r := Receive(script, m, n, [], 0);
            if PacketsIn(script) >= NeedOne(m, n, |data|)
            then
              && r.outcome == Returned(0) && r.bytes == data[..Min(n, |data|)] && r.count == |r.bytes|
              && Conforms(r.script, m, data[|r.bytes|..]) && FailureOf(r.script) == FailureOf(script)
              && PacketsIn(r.script) == PacketsIn(script) - NeedOne(m, n, |data|)
            else r.outcome == FailureOf(script) != Returned(0)
  {
    hide ScriptOk, Conforms, Receive, NeedOne, PacketsIn, FailureOf, Multiple;
    ReceiveConforms(script, m, n, data, []);
    ReceiveEnds(script, m, n, data, []);
    var r := Receive(script, m, n, [], 0);
    assert r.bytes[0..] == r.bytes;
  }

  // One turn of the loop, for any device.
  lemma DataInTurn(script: seq<Answer>, m: u8, n: u16, total: u16, left: u16)
    requires ScriptOk(script) && n > 0 && left > 0
    ensures var r, stage := Receive(script, m, n, [], 0), DataIn(script, m, n, total, left);
            var chunk := Chunk(Wrap16(total - left), r.bytes);
            stage == if r.outcome != Returned(0) then Stage(r.outcome, r.script, [])
                     else After([chunk], if r.count < n then Stage(Returned(0), r.script, [])
                                         else DataIn(r.script, m, n, total, Wrap16(left - r.count)))
  {
    hide Receive, ScriptOk;
  }

  // And with a conforming one.
  lemma StageStep(script: seq<Answer>, m: u8, n: u16, total: u16, left: u16, data: seq<u8>)
    requires ScriptOk(script) && Conforms(script, m, data) && 1 <= m <= 64 && n > 0
    requires 0 < left <= total && |data| <= left && (Multiple(m, n) || |data| <= n)
    ensures var stage, rest := DataIn(script, m, n, total, left), Receive(script, m, n, [], 0).script;
            if PacketsIn(script) < NeedOne(m, n, |data|)
            then stage == Stage(FailureOf(script), rest, []) && FailureOf(script) != Returned(0)
            else if |data| < n then stage == Stage(Returned(0), rest, [Chunk(total - left, data)])
            else
              && stage == After([Chunk(total - left, data[..n])], DataIn(rest, m, n, total, left - n))
              && Conforms(rest, m, data[n..]) && FailureOf(rest) == FailureOf(script) && |rest| < |script|
              && PacketsIn(rest) == PacketsIn(script) - NeedOne(m, n, |data|)
  {
    hide DataIn, ScriptOk, Conforms, Receive, NeedOne, PacketsIn, FailureOf, Multiple;
    FirstChunk(script, m, n, data);
    DataInTurn(script, m, n, total, left);
    assert [Chunk(total - left, data)] + [] == [Chunk(total - left, data)];
    if |data| < n {
      assert data[..|data|] == data;
    }
  }

  // Success, if the device sends so many packets before its first failure; else that failure.
  predicate EndsAfter(outcome: Outcome, script: seq<Answer>, need: nat) {
    if PacketsIn(script) >= need then outcome == Returned(0) else outcome == FailureOf(script) != Returned(0)
  }

  lemma EndsAtOnce(script: seq<Answer>, m: u8, n: u16, total: u16)
    requires ScriptOk(script) && m > 0 && n > 0
    ensures EndsAfter(DataIn(script, m, n, total, 0).outcome, script, Needed(m, n, 0, 0))
  {
    NeededLast(m, n, 0, 0);
  }

  lemma EndsNow(outcome: Outcome, script: seq<Answer>, need: nat)
    requires if PacketsIn(script) >= need then outcome == Returned(0) else outcome == FailureOf(script) != Returned(0)
    ensures EndsAfter(outcome, script, need)
  {
  }

  lemma EndsLater(outcome: Outcome, script: seq<Answer>, rest: seq<Answer>, one: nat, more: nat)
    requires EndsAfter(outcome, rest, more) && FailureOf(rest) == FailureOf(script)
    requires PacketsIn(script) >= one && PacketsIn(rest) == PacketsIn(script) - one
    ensures EndsAfter(outcome, script, one + more)
  {
  }

  // The data stage with a conforming device, for all scripts: it succeeds exactly when the
  // device sends enough packets before its first failure, and otherwise ends with the code
  // of that failure.
  lemma {:induction false} DataStageEnds(script: seq<Answer>, m: u8, n: u16, total: u16, left: u16, data: seq<u8>)
    requires ScriptOk(script) && Conforms(script, m, data) && 1 <= m <= 64 && n > 0
    requires |data| <= left <= total && (Multiple(m, n) || |data| <= n)
    ensures EndsAfter(DataIn(script, m, n, total, left).outcome, script, Needed(m, n, left, |data|))
    decreases |script|
  {
    hide DataIn, ScriptOk, Conforms, Receive, Needed, NeedOne, PacketsIn, FailureOf, Multiple, EndsAfter;
    if left == 0 {
      EndsAtOnce(script, m, n, total);
    } else {
      StageStep(script, m, n, total, left, data);
      NeededInTurn(m, n, left, |data|);
      var rest := Receive(script, m, n, [], 0).script;
      if PacketsIn(script) < NeedOne(m, n, |data|) {
        EndsNow(FailureOf(script), script, Needed(m, n, left, |data|));
      } else if |data| < n {
        EndsNow(Returned(0), script, Needed(m, n, left, |data|));
      } else {
        DataStageEnds(rest, m, n, total, left - n, data[n..]);
        EndsLater(DataIn(rest, m, n, total, left - n).outcome, script, rest, NeedOne(m, n, |data|),
                  Needed(m, n, left - n, |data| - n));
      }
    }
  }

  // The parser gets consecutive pieces of the data, and on success all of it.
  lemma {:induction false} DataStageBrings(script: seq<Answer>, m: u8, n: u16, total: u16, left: u16, data: seq<u8>)
    requires ScriptOk(script) && Conforms(script, m, data) && 1 <= m <= 64 && n > 0
    requires |data| <= left <= total && (Multiple(m, n) || |data| <= n)
    ensures Brings(DataIn(script, m, n, total, left), data, total - left)
    decreases |script|
  {
    if left == 0 {
      BringsNothing(Returned(0), script, data, total);
    } else {
      hide DataIn, ScriptOk, Conforms, Receive, Multiple, NeedOne, PacketsIn, FailureOf, Brings;
      StageStep(script, m, n, total, left, data);
      var rest := Receive(script, m, n, [], 0).script;
      if PacketsIn(script) < NeedOne(m, n, |data|) {
        BringsNothing(FailureOf(script), rest, data, total - left);
      } else if |data| < n {
        BringsAll(rest, data, total - left);
      } else {
        DataStageBrings(rest, m, n, total, left - n, data[n..]);
        BringsMore(DataIn(rest, m, n, total, left - n), data, n, total - left);
      }
    }
  }

  // By USB 2.0 section 5.5.3 a data stage is over once all the bytes that were asked for have
  // come, or a packet that is not full.
  function Prescribed(m: nat, left: nat, size: nat): nat
    requires m > 0
  {
    if size == left then CeilDiv(size, m) else size / m + 1
  }

  // But the program asks on after a full packet that completes the data in the middle of
  // its buffer, so that the packets of a device that stops there are not enough.
  lemma PrescribedIsEnough(m: u8, left: nat, size: nat)
    requires ControlPacketSize(m) && size <= left
    ensures Prescribed(m, left, size) >= Needed(m, BUF_SIZE, left, size)
            <==> !(size == left && size % m == 0 && size % BUF_SIZE != 0)
  {
    NeededForBuffer(m, left, size);
  }

  // Sixteen bytes in two packets of eight: all of them arrive, a third packet is asked for,
  // and with that the request fails before the parser has got a byte.
  lemma FullPacketsCanFail(data: seq<u8>, rcode: u8)
    requires |data| == 16 && rcode != 0 && rcode != TOGGLE_ERROR
    ensures var script := [Packet(data[..8]), Packet(data[8..]), Failed(rcode)];
            && ScriptOk(script) && Conforms(script, 8, data)
            && var r := DataIn(script, 8, BUF_SIZE, 16, 16); r.outcome == Returned(rcode) && r.chunks == []
  {
    hide DataIn, Receive;
    var third, second := [Failed(rcode)], [Packet(data[8..]), Failed(rcode)];
    var script := [Packet(data[..8])] + second;
    assert second[1..] == third && script[1..] == second && data[8..][..8] == data[8..];
    assert script == [Packet(data[..8]), Packet(data[8..]), Failed(rcode)];
    assert Conforms(third, 8, []) && PacketsIn(third) == 0 && FailureOf(third) == Returned(rcode);
    assert Conforms(second, 8, data[8..]) && PacketsIn(second) == 1 && FailureOf(second) == Returned(rcode);
    BufferIsMultiple(8);
    StageStep(script, 8, BUF_SIZE, 16, 16, data);
  }

  // ----- the loop of the data stage -----

  // What a call changes of a parser, if there is one.
  ghost function PartsOf(parser: MidiDescParser?): set<object> {
    if parser == null then {} else parser.reader.Repr() + {parser, parser.theXtractor.epInfo}
  }

  // The parser can take the bytes, and does not share the caller's buffer.
  ghost predicate CanTake(parser: MidiDescParser, buf: array<u8>, bytes: seq<u8>)
    reads parser, parser.reader, parser.reader.Repr(), parser.theXtractor, parser.theXtractor.epInfo
  {
    parser.Valid() && buf != parser.reader.varBuffer && Safe(parser.State().frame, bytes)
  }

  lemma SplicePrefix(s: seq<u8>, a: seq<u8>)
    requires |a| <= |s|
    ensures Splice(s, 0, a)[..|a|] == a
  {
  }

  // One InTransfer of the data stage; its bytes are handed to the parser, if there is one.
  method FetchAndParse(pipe: InPipe, n: u16, buf: array<u8>, parser: MidiDescParser?)
    returns (outcome: Outcome, read: u16)
    requires ScriptOk(pipe.script) && 0 < n <= buf.Length && n < 0x8000
    requires parser != null ==>
               && Fitting(pipe.script, pipe.maxPktSize) && 1 <= pipe.maxPktSize && Multiple(pipe.maxPktSize, n)
               && var r := Receive(pipe.script, pipe.maxPktSize, n, [], 0);
                  CanTake(parser, buf, if r.outcome == Returned(0) then r.bytes else [])
    modifies pipe, buf, PartsOf(parser)
    ensures var r := Receive(old(pipe.script), pipe.maxPktSize, n, [], 0);
            && outcome == r.outcome && read == r.count && pipe.script == r.script
            && buf[..|r.bytes|] == r.bytes
            && (parser != null ==>
                  && parser.Valid() && (outcome == Returned(0) ==> Fitting(pipe.script, pipe.maxPktSize))
                  && parser.State() == if outcome == Returned(0)
                                       then Feed(Act(parser.ParseMode()), old(parser.State()), r.bytes)
                                       else old(parser.State()))
  {
    hide ScriptOk, Fitting, Receive, Multiple, Splice, Run, Feed, Act;
    ghost var r := Receive(pipe.script, pipe.maxPktSize, n, [], 0);
    SplicePrefix(buf[..], r.bytes);
    if parser != null {
      ReceiveFits(pipe.script, pipe.maxPktSize, n, []);
    }
    outcome, read := pipe.InTransfer(n, buf);
    assert buf[..][..|r.bytes|] == buf[..|r.bytes|];
    if outcome == Returned(0) && parser != null {
      parser.Parse(buf[..read]);
    }
  }

  lemma SafeInTurn(f: Frame, chunk: Chunk, rest: Stage)
    requires FrameOk(f) && Safe(f, Joined(After([chunk], rest).chunks))
    ensures Safe(f, chunk.bytes) && Safe(Run(f, chunk.bytes).(log := []), Joined(rest.chunks))
  {
    hide Run, FrameOk;
    assert ([chunk] + rest.chunks)[1..] == rest.chunks;
    SafePrefix(f, chunk.bytes, Joined(rest.chunks));
    SafeWithoutLog(Run(f, chunk.bytes), Joined(rest.chunks));
  }

  lemma {:induction false} JoinedSnoc(chunks: seq<Chunk>, chunk: Chunk)
    ensures Joined(chunks + [chunk]) == Joined(chunks) + chunk.bytes
  {
    if chunks == [] {
      assert chunks + [chunk] == [chunk] && chunk.bytes + [] == chunk.bytes;
    } else {
      JoinedSnoc(chunks[1..], chunk);
      assert (chunks + [chunk])[1..] == chunks[1..] + [chunk];
    }
  }

  // One more chunk for the parser.
  lemma ParserTurn<S>(act: (S, Event) -> S, start: ParserState<S>, s: ParserState<S>, chunks: seq<Chunk>,
                      chunk: Chunk, rest: Stage)
    requires StateOk(start) && s == Feed(act, start, Joined(chunks))
    requires Safe(s.frame, Joined(After([chunk], rest).chunks))
    ensures Safe(s.frame, chunk.bytes) && Safe(Feed(act, s, chunk.bytes).frame, Joined(rest.chunks))
    ensures Feed(act, s, chunk.bytes) == Feed(act, start, Joined(chunks + [chunk]))
  {
    SafeInTurn(s.frame, chunk, rest);
    JoinedSnoc(chunks, chunk);
    FeedAppend(act, start, Joined(chunks), chunk.bytes);
    hide Run, Joined;
  }

  lemma ParserStart<S>(act: (S, Event) -> S, s: ParserState<S>)
    requires StateOk(s)
    ensures Feed(act, s, Joined([])) == s
  {
  }

  // What the loop has still to do, after the chunks that it has handed over.
  predicate Continues(goal: Stage, chunks: seq<Chunk>, rest: Stage) {
    goal == After(chunks, rest)
  }

  lemma ContinuesFirst(goal: Stage)
    ensures Continues(goal, [], goal)
  {
  }

  lemma ContinuesNext(goal: Stage, chunks: seq<Chunk>, chunk: Chunk, rest: Stage)
    requires Continues(goal, chunks, After([chunk], rest))
    ensures Continues(goal, chunks + [chunk], rest)
  {
    assert chunks + ([chunk] + rest.chunks) == chunks + [chunk] + rest.chunks;
  }

  lemma ContinuesLast(goal: Stage, chunks: seq<Chunk>, outcome: Outcome, script: seq<Answer>)
    requires Continues(goal, chunks, Stage(outcome, script, []))
    ensures goal == Stage(outcome, script, chunks)
  {
  }

  lemma DataInOver(script: seq<Answer>, m: u8, n: u16, total: u16)
    requires ScriptOk(script) && n > 0
    ensures DataIn(script, m, n, total, 0) == Stage(Returned(0), script, [])
  {
  }

  // The last chunk is at the front of the buffer.
  predicate LastIsIn(buf: seq<u8>, chunks: seq<Chunk>)
    requires chunks != []
  {
    chunks[|chunks| - 1].bytes <= buf
  }

  // The while loop over `left`, for any device.  A toggle error never gets out of InTransfer,
  // so that the branch which waits for one is not reached.
  method DataStage(pipe: InPipe, total: u16, n: u16, buf: array<u8>, parser: MidiDescParser?)
    returns (outcome: Outcome, ghost chunks: seq<Chunk>)
    requires ScriptOk(pipe.script) && 0 < n <= buf.Length && n < 0x8000
    requires parser != null ==>
               && Fitting(pipe.script, pipe.maxPktSize) && 1 <= pipe.maxPktSize && Multiple(pipe.maxPktSize, n)
               && CanTake(parser, buf, Joined(DataIn(pipe.script, pipe.maxPktSize, n, total, total).chunks))
    modifies pipe, buf, PartsOf(parser)
    ensures var r := DataIn(old(pipe.script), pipe.maxPktSize, n, total, total);
            outcome == r.outcome && pipe.script == r.script && chunks == r.chunks
    ensures parser != null ==>
              && parser.Valid()
              && parser.State() == Feed(Act(parser.ParseMode()), old(parser.State()), Joined(chunks))
    ensures outcome == Returned(0) && chunks != [] ==> LastIsIn(buf[..], chunks)
  {
    hide ScriptOk, Fitting, Receive, Multiple, DataIn, Joined, Run, Feed, Act, Continues, After;
    chunks := [];
    var left: u16 := total;
    ghost var goal := DataIn(pipe.script, pipe.maxPktSize, n, total, total);
    ghost var rest := goal;
    ContinuesFirst(goal);
    if parser != null {
      ParserStart(Act(parser.ParseMode()), parser.State());
    }
    while left != 0
      invariant ScriptOk(pipe.script) && rest == DataIn(pipe.script, pipe.maxPktSize, n, total, left)
      invariant Continues(goal, chunks, rest)
      invariant parser != null ==>
                  && Fitting(pipe.script, pipe.maxPktSize) && CanTake(parser, buf, Joined(rest.chunks))
                  && parser.State() == Feed(Act(parser.ParseMode()), old(parser.State()), Joined(chunks))
      invariant chunks != [] ==> LastIsIn(buf[..], chunks)
      decreases |pipe.script|
    {
      DataInTurn(pipe.script, pipe.maxPktSize, n, total, left);
      ghost var r := Receive(pipe.script, pipe.maxPktSize, n, [], 0);
      ghost var chunk := Chunk(Wrap16(total - left), r.bytes);
      if r.outcome == Returned(0) {
        rest := if r.count < n then Stage(Returned(0), r.script, [])
                else DataIn(r.script, pipe.maxPktSize, n, total, Wrap16(left - r.count));
        ContinuesNext(goal, chunks, chunk, rest);
        if parser != null {
          ParserTurn(Act(parser.ParseMode()), old(parser.State()), parser.State(), chunks, chunk, rest);
        }
      } else {
        ContinuesLast(goal, chunks, r.outcome, r.script);
        NoChunks(0, []);
      }
      var read;
      outcome, read := FetchAndParse(pipe, n, buf, parser);
      if outcome != Returned(0) {
        return;
      }
      chunks := chunks + [chunk];
      left := Wrap16(left - read);
      if read < n {
        break;
      }
    }
    outcome := Returned(0);
    if left == 0 {
      DataInOver(pipe.script, pipe.maxPktSize, n, total);
    }
    ContinuesLast(goal, chunks, outcome, pipe.script);
  }

  // ----- requests -----

  // What SetAddress and the setup and status stages of a request return.
  datatype Codes = Codes(address: u8, setup: u8, status: u8)

  // ctrlReq with an IN data stage.
  function CtrlIn(codes: Codes, script: seq<Answer>, m: u8, n: u16, total: u16): Stage
    requires ScriptOk(script) && n > 0
  {
    if codes.address != 0 then Stage(Returned(codes.address), script, [])
    else if codes.setup != 0 then Stage(Returned(codes.setup), script, [])
    else
      var r := DataIn(script, m, n, total, total);
      if r.outcome == Returned(0) then r.(outcome := Returned(codes.status)) else r
  }

  // How a request for which the device has to send `need` packets ends: with the code of the
  // first of its steps to fail.
  function EndOf(codes: Codes, script: seq<Answer>, need: nat): Outcome {
    if codes.address != 0 then Returned(codes.address)
    else if codes.setup != 0 then Returned(codes.setup)
    else if PacketsIn(script) < need then FailureOf(script)
    else Returned(codes.status)
  }

  // Control-IN with a conforming device: exactly when it succeeds, how it fails, and what the
  // parser got.
  lemma RequestEnds(codes: Codes, script: seq<Answer>, m: u8, n: u16, total: u16, data: seq<u8>)
    requires ScriptOk(script) && Conforms(script, m, data) && 1 <= m <= 64 && n > 0
    requires |data| <= total && (Multiple(m, n) || |data| <= n)
    ensures var r, need := CtrlIn(codes, script, m, n, total), Needed(m, n, total, |data|);
            && r.outcome == EndOf(codes, script, need)
            && Consecutive(r.chunks, 0) && Joined(r.chunks) <= data
            && (r.outcome == Returned(0) <==> codes == Codes(0, 0, 0) && PacketsIn(script) >= need)
            && (codes.address != 0 || codes.setup != 0 ==> Joined(r.chunks) == [])
            && (codes.address == 0 && codes.setup == 0 && PacketsIn(script) >= need ==> Joined(r.chunks) == data)
            && (r.outcome == Returned(0) ==> Joined(r.chunks) == data)
  {
    DataStageEnds(script, m, n, total, total, data);
    DataStageBrings(script, m, n, total, total, data);
    hide DataIn, ScriptOk, Conforms, Needed, PacketsIn, FailureOf;
  }

  method CtrlReqIn(codes: Codes, pipe: InPipe, total: u16, n: u16, buf: array<u8>, parser: MidiDescParser?)
    returns (outcome: Outcome, ghost chunks: seq<Chunk>)
    requires ScriptOk(pipe.script) && 0 < n <= buf.Length && n < 0x8000
    requires parser != null ==>
               && Fitting(pipe.script, pipe.maxPktSize) && 1 <= pipe.maxPktSize && Multiple(pipe.maxPktSize, n)
               && CanTake(parser, buf, Joined(DataIn(pipe.script, pipe.maxPktSize, n, total, total).chunks))
    modifies pipe, buf, PartsOf(parser)
    ensures var r := CtrlIn(codes, old(pipe.script), pipe.maxPktSize, n, total);
            outcome == r.outcome && pipe.script == r.script && chunks == r.chunks
    ensures parser != null ==>
              && parser.Valid()
              && parser.State() == Feed(Act(parser.ParseMode()), old(parser.State()), Joined(chunks))
    ensures outcome == Returned(0) && chunks != [] ==> LastIsIn(buf[..], chunks)
  {
    hide ScriptOk, Fitting, Receive, Multiple, DataIn, Joined, Run, Feed, Act;
    if parser != null {
      ParserStart(Act(parser.ParseMode()), parser.State());
    }
    if codes.address != 0 {
      return Returned(codes.address), [];
    }
    if codes.setup != 0 {
      return Returned(codes.setup), [];
    }
    outcome, chunks := DataStage(pipe, total, n, buf, parser);
    if outcome == Returned(0) {
      outcome := Returned(codes.status);
    }
  }

  // ctrlReq with an OUT data stage: a success means that the data was sent by one OutTransfer
  // that reported success, and has all arrived if and only if that was in time.
  method CtrlReqOut(codes: Codes, pipe: OutTransfer.OutPipe, nakLimit: u16, start: nat, nbytes: u16, data: seq<u8>)
    returns (outcome: Outcome)
    requires pipe.Valid() && 1 <= pipe.maxPktSize <= 64 && nbytes <= |data|
    modifies pipe`script, pipe`wr, pipe`sndbc, pipe`writes, pipe`log, pipe.fifo
    ensures pipe.Valid()
    ensures codes.address != 0 || codes.setup != 0 ==>
              && outcome == Returned(if codes.address != 0 then codes.address else codes.setup)
              && pipe.log == old(pipe.log)
    ensures codes.address == 0 && codes.setup == 0 ==>
              var lim := OutTransfer.LimitsFrom(nakLimit, start);
              var r := OutTransfer.Send(old(pipe.script), lim, pipe.maxPktSize, data[..nbytes], 0);
              && pipe.log == old(pipe.log) + r.log
              && outcome == (if r.outcome == Returned(0) then Returned(codes.status) else r.outcome)
              && (outcome == Returned(0) ==>
                    && codes.status == 0 && |r.log| <= |old(pipe.script)|
                    && (Flatten(OutTransfer.Delivered(r.log)) == data[..nbytes]
                        <==> OutTransfer.InTime(old(pipe.script), |r.log|, lim)))
  {
    if codes.address != 0 {
      return Returned(codes.address);
    }
    if codes.setup != 0 {
      return Returned(codes.setup);
    }
    hide OutTransfer.Send, OutTransfer.LimitsFrom, OutTransfer.InTime, OutTransfer.Delivered, Flatten;
    ghost var lim := OutTransfer.LimitsFrom(nakLimit, start);
    ghost var r := OutTransfer.Send(pipe.script, lim, pipe.maxPktSize, data[..nbytes], 0);
    if r.outcome == Returned(0) {
      OutTransfer.SuccessIsDelivery(pipe.script, lim, pipe.maxPktSize, data[..nbytes]);
    }
    ghost var ends;
    outcome, ends := pipe.OutTransfer(nakLimit, start, nbytes, data);
    if outcome == Returned(0) {
      outcome := Returned(codes.status);
    }
  }

  // ctrlReq without a data stage, on the host controller itself: it fails with the answer to
  // the last packet that it launched, and succeeds when setup and status were acknowledged,
  // or not even launched because the clock jumped over the deadline.
  method CtrlReq(c: DispatchPkt.HostController, address: u8, nakLimit: u16, ghost h1: nat, ghost h2: nat)
    returns (rcode: u8, ghost setup: seq<u8>, ghost status: seq<u8>, ghost between: nat)
    requires DispatchPkt.Ticking(c.env, c.readings, h1) && c.launches + h1 + 1 + h2 <= |c.env.hrsl|
    requires forall r :: c.readings + 2 <= r <= h1 + 2 ==> DispatchPkt.Ticking(c.env, r, h2)
    modifies c
    ensures c.log == old(c.log) + setup + status && c.launches == old(c.launches) + |setup| + |status|
    ensures address != 0 ==> rcode == address && setup + status == []
    ensures address == 0 ==> (rcode == 0 <==> LastCode(setup) == 0 && LastCode(status) == 0)
    ensures address == 0 && rcode != 0 ==> setup + status != [] && rcode == LastCode(setup + status)
    ensures LastCode(setup) != 0 ==> status == []
    ensures address == 0 ==>
              && DispatchPkt.EnvOk(c.env)
              && DispatchPkt.Dispatched(c.env, old(c.readings), old(c.launches), nakLimit, setup)
    ensures address == 0 && LastCode(setup) == 0 ==>
              && DispatchPkt.EnvOk(c.env)
              && DispatchPkt.Dispatched(c.env, between, old(c.launches) + |setup|, nakLimit, status)
    ensures nakLimit > 0 ==> |setup| <= nakLimit + 2 && |status| <= nakLimit + 2
  {
    hide DispatchPkt.Launches, DispatchPkt.IsLast;
    setup, status, between := [], [], c.readings;
    if address != 0 {
      return address, setup, status, between;
    }
    rcode, setup := c.Dispatch(nakLimit, h1);
    if nakLimit > 0 {
      DispatchPkt.LaunchesAreBounded(setup, nakLimit);
    }
    if rcode != 0 {
      assert setup + status == setup;
      return;
    }
    between := c.readings;
    rcode, status := c.Dispatch(nakLimit, h2);
    if nakLimit > 0 {
      DispatchPkt.LaunchesAreBounded(status, nakLimit);
    }
  }

  // ----- getConfDescr, end to end -----

  // What a fresh parser that is fed a whole configuration knows about it: how many endpoints
  // the driver gets, which ones, and the value of the configuration.
  ghost predicate Describes(m: Midi, before: Midi, ds: seq<seq<u8>>, mode: Mode)
    requires AllComplete(ds) && MidiOk(before)
  {
    && CountMeans(Interfaces(Items(ds, mode)), CountOf(m))
    && m.epInfo == TableOf(before.epInfo, ds, mode) && ByDirection(m.epInfo, before.epInfo, ds, mode)
    && m.conf == ConfOf(before.conf, ds)
  }

  lemma WholeConfiguration(s: ParserState<Midi>, mode: Mode, ds: seq<seq<u8>>)
    requires StateOk(s) && s.frame.phase == Idle && MidiOk(s.rest) && s.rest.nEPs == 0
    requires AllComplete(ds) && InterfaceFirst(Items(ds, mode))
    ensures Safe(s.frame, Flatten(ds)) && Describes(Feed(Act(mode), s, Flatten(ds)).rest, s.rest, ds, mode)
  {
    hide Run, InterfaceFirst, CountMeans, Items, TableOf, ConfOf, ByDirection;
    TableByDirection(s.rest.epInfo, ds, mode);
    RunDescriptors(s.frame, ds);
    assert Flatten([Flatten(ds)]) == Flatten(ds) + Flatten([Flatten(ds)][1..]) == Flatten(ds);
    EndpointCountIsRight(s, mode, ds, [Flatten(ds)]);
    EndpointTableIsRight(s, mode, ds, [Flatten(ds)]);
    PiecesAreOneStream(Act(mode), s, [Flatten(ds)]);
  }

  // For an ordinary keyboard: bulk IN endpoint 1 of 64 bytes and bulk OUT endpoint 2 of 32.
  lemma KeyboardIsDescribed(m: Midi, before: Midi)
    requires AllComplete(KEYBOARD) && MidiOk(before) && Describes(m, before, KEYBOARD, Mode(true, 3))
    ensures m.epInfo == [before.epInfo[0], EpInfo(1, 64), EpInfo(2, 32)] && m.conf == 1
  {
    hide CountMeans, TableOf, ConfOf, ByDirection, AllComplete;
    KeyboardTable(m.epInfo, before.epInfo);
    KeyboardConf(before.conf);
  }

  // The first request asks for the configuration descriptor alone, nine bytes.
  const HEADER: u16 := 9

  function Front(conf: seq<u8>): seq<u8> {
    conf[..Min(HEADER, |conf|)]
  }

  // It comes in one piece.
  lemma OneChunk(codes: Codes, script: seq<Answer>, m: u8, n: u16, data: seq<u8>)
    requires ScriptOk(script) && Conforms(script, m, data) && 1 <= m <= 64 && |data| <= n && n > 0
    requires CtrlIn(codes, script, m, n, n).outcome == Returned(0)
    ensures CtrlIn(codes, script, m, n, n).chunks == [Chunk(0, data)]
  {
    StageStep(script, m, n, n, n, data);
    var rest := Receive(script, m, n, [], 0).script;
    if |data| == n && PacketsIn(script) >= NeedOne(m, n, |data|) {
      DataInOver(rest, m, n, n);
      assert data[..n] == data;
    }
    hide DataIn, ScriptOk, Conforms, Receive, NeedOne, PacketsIn, FailureOf;
  }

  method GetHeader(codes: Codes, pipe: InPipe, buf: array<u8>, ghost conf: seq<u8>) returns (outcome: Outcome)
    requires 1 <= pipe.maxPktSize <= 64 && ScriptOk(pipe.script) && buf.Length == BUF_SIZE
    requires Conforms(pipe.script, pipe.maxPktSize, Front(conf))
    modifies pipe, buf
    ensures outcome == EndOf(codes, old(pipe.script), Needed(pipe.maxPktSize, HEADER, HEADER, |Front(conf)|))
    ensures outcome == Returned(0) ==> Front(conf) <= buf[..]
  {
    hide ScriptOk, Conforms, DataIn, EndOf, Needed, CtrlIn;
    RequestEnds(codes, pipe.script, pipe.maxPktSize, HEADER, HEADER, Front(conf));
    if CtrlIn(codes, pipe.script, pipe.maxPktSize, HEADER, HEADER).outcome == Returned(0) {
      OneChunk(codes, pipe.script, pipe.maxPktSize, HEADER, Front(conf));
    }
    ghost var chunks;
    outcome, chunks := CtrlReqIn(codes, pipe, HEADER, HEADER, buf, null);
  }

  // The parser can take whatever part of the data it gets.
  lemma BodyIsSafe(script: seq<Answer>, m: u8, conf: seq<u8>, f: Frame)
    requires ScriptOk(script) && Conforms(script, m, conf) && ControlPacketSize(m) && |conf| < 0x1_0000
    requires FrameOk(f) && Safe(f, conf)
    ensures Fitting(script, m) && Multiple(m, BUF_SIZE)
    ensures Safe(f, Joined(DataIn(script, m, BUF_SIZE, |conf|, |conf|).chunks))
  {
    hide DataIn, ScriptOk, Conforms, Run, Joined, Consecutive, Multiple, Fitting;
    BufferIsMultiple(m);
    ConformsIsFitting(script, m, conf);
    DataStageBrings(script, m, BUF_SIZE, |conf|, |conf|, conf);
    var part := Joined(DataIn(script, m, BUF_SIZE, |conf|, |conf|).chunks);
    assert conf == part + conf[|part|..];
    SafePrefix(f, part, conf[|part|..]);
  }

  // The second request asks for as many bytes as the first one announced.  The two data
  // stages are two scripts, each for a conforming device.  The call ends as its first step
  // to fail does, with success exactly when none does; and after a success the parser and
  // the driver know the device's whole list of descriptors.
  method GetConfDescr(first: Codes, second: Codes, header: InPipe, body: InPipe, parser: MidiDescParser,
                      ghost conf: seq<u8>, ghost ds: seq<seq<u8>>)
    returns (outcome: Outcome, ghost got: seq<u8>)
    requires 1 <= header.maxPktSize <= 64 && ScriptOk(header.script)
    requires ControlPacketSize(body.maxPktSize) && ScriptOk(body.script) && header != body
    requires conf == Flatten(ds) && 4 <= |conf| && Word(conf[2], conf[3]) == |conf|
    requires Conforms(header.script, header.maxPktSize, Front(conf))
    requires Conforms(body.script, body.maxPktSize, conf)
    requires AllComplete(ds) && InterfaceFirst(Items(ds, parser.ParseMode()))
    requires parser.Valid() && parser.State().frame.phase == Idle && parser.nEPs == 0
    modifies header, body, PartsOf(parser)
    ensures parser.Valid() && got <= conf
    ensures parser.State() == Feed(Act(parser.ParseMode()), old(parser.State()), got)
    ensures var e1 := EndOf(first, old(header.script), Needed(header.maxPktSize, HEADER, HEADER, |Front(conf)|));
            var e2 := EndOf(second, old(body.script), Needed(body.maxPktSize, BUF_SIZE, |conf|, |conf|));
            outcome == if e1 == Returned(0) then e2 else e1
    ensures outcome == Returned(0) ==>
              got == conf && Describes(parser.State().rest, old(parser.State()).rest, ds, parser.ParseMode())
  {
    hide ScriptOk, Conforms, Run, Feed, Act, Joined, DataIn, InterfaceFirst, AllComplete, Flatten, Describes, EndOf,
         Needed, Fitting, Multiple, CtrlIn;
    WholeConfiguration(parser.State(), parser.ParseMode(), ds);
    var buf := new u8[BUF_SIZE];
    got := [];
    NoChunks(0, conf);
    ParserStart(Act(parser.ParseMode()), parser.State());
    outcome := GetHeader(first, header, buf, conf);
    if outcome != Returned(0) {
      return;
    }
    var total := Word(buf[2], buf[3]);
    assert buf[..][2] == Front(conf)[2] && buf[..][3] == Front(conf)[3];
    BodyIsSafe(body.script, body.maxPktSize, conf, parser.State().frame);
    RequestEnds(second, body.script, body.maxPktSize, BUF_SIZE, total, conf);
    ghost var chunks;
    outcome, chunks := CtrlReqIn(second, body, total, BUF_SIZE, buf, parser);
    got := Joined(chunks);
  }
}
