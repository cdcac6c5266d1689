// What the two descriptor parsers have in common, as an automaton that takes one byte
// at a time: it never sees where a buffer ends, so its runs are the reference that the
// resumable parsers are compared with.
module DescriptorFraming {
  import opened MachineInts
  import opened ParseTools

  const CONFIGURATION: u8 := 2
  const INTERFACE: u8 := 4
  const ENDPOINT: u8 := 5
  const VAR_BUFFER_SIZE: nat := 16

  // The descriptors whose bytes are kept; all others are skipped.
  predicate Buffered(typ: u8) {
    typ == CONFIGURATION || typ == INTERFACE || typ == ENDPOINT
  }

  // dscrLen - 2, in the width that the code stores it in: 8 bits for a value that is
  // collected, 16 bits for a count of bytes to skip.
  function BodySize(len: u8, typ: u8): nat {
    if len >= 2 then len - 2 else if Buffered(typ) then len + 254 else len + 65534
  }

  lemma BodySizeWraps(len: u8, typ: u8)
    ensures BodySize(len, typ) == if Buffered(typ) then Wrap8(len - 2) else Wrap16(len - 2)
  {
  }

  // A descriptor of this type has begun; it is complete, and this is what varBuffer holds.
  datatype Event = Opened(typ: u8) | Closed(typ: u8, buf: seq<u8>)

  // Overrun stands for the first write past the end of varBuffer.
  datatype Phase = Idle | Head | Body(rem: nat) | Overrun

  datatype Frame = Frame(buf: seq<u8>, phase: Phase, len: u8, typ: u8, log: seq<Event>)

  // Where in varBuffer the next byte of the body goes.
  function BodyAt(f: Frame): nat
    requires f.phase.Body? && f.phase.rem <= BodySize(f.len, f.typ)
  {
    2 + BodySize(f.len, f.typ) - f.phase.rem
  }

  predicate FrameOk(f: Frame) {
    && |f.buf| == VAR_BUFFER_SIZE
    && (f.phase.Body? ==>
          && 0 < f.phase.rem <= BodySize(f.len, f.typ)
          && (Buffered(f.typ) ==> BodyAt(f) <= VAR_BUFFER_SIZE))
  }

  // n bytes of the body are in buf; the descriptor closes when none is missing.
  function Advance(f: Frame, buf: seq<u8>, rem: nat): Frame {
    if rem == 0
    then Frame(buf, Idle, f.len, f.typ, f.log + [Closed(f.typ, buf)])
    else Frame(buf, Body(rem), f.len, f.typ, f.log)
  }

  function Open(f: Frame): Frame {
    Advance(Frame(f.buf, Head, f.len, f.typ, f.log + [Opened(f.typ)]), f.buf, BodySize(f.len, f.typ))
  }

  function Step(f: Frame, b: u8): (r: Frame)
    requires FrameOk(f)
    ensures FrameOk(r)
  {
    match f.phase
    case Idle => Frame(f.buf[0 := b], Head, f.len, f.typ, f.log)
    case Head => Open(Frame(f.buf[1 := b], Head, f.buf[0], b, f.log))
    case Body(rem) =>
      if !Buffered(f.typ) then Advance(f, f.buf, rem - 1)
      else if BodyAt(f) < VAR_BUFFER_SIZE then Advance(f, f.buf[BodyAt(f) := b], rem - 1)
      else Frame(f.buf, Overrun, f.len, f.typ, f.log)
    case Overrun => f
  }

  function Run(f: Frame, bs: seq<u8>): (r: Frame)
    requires FrameOk(f)
    ensures FrameOk(r)
    decreases |bs|
  {
    if bs == [] then f else Run(Step(f, bs[0]), bs[1..])
  }

  // No byte of bs is written outside varBuffer.
  predicate Safe(f: Frame, bs: seq<u8>)
    requires FrameOk(f)
  {
    Run(f, bs).phase != Overrun
  }

  lemma {:induction false} RunAppend(f: Frame, a: seq<u8>, b: seq<u8>)
    requires FrameOk(f)
    ensures Run(f, a + b) == Run(Run(f, a), b)
    decreases |a|
  {
    if a == [] {
      assert a + b == b;
    } else {
      RunAppend(Step(f, a[0]), a[1..], b);
      assert (a + b)[1..] == a[1..] + b;
    }
  }

  lemma StepLog(f: Frame, b: u8)
    requires FrameOk(f)
    ensures var g := Step(f.(log := []), b); Step(f, b) == g.(log := f.log + g.log)
  {
  }

  // The events of the past have no influence on those to come.
  lemma {:induction false} RunLog(f: Frame, bs: seq<u8>)
    requires FrameOk(f)
    ensures var g := Run(f.(log := []), bs); Run(f, bs) == g.(log := f.log + g.log)
    decreases |bs|
  {
    if bs == [] {
    } else {
      hide BodySize;
      var next, next' := Step(f, bs[0]), Step(f.(log := []), bs[0]);
      StepLog(f, bs[0]);
      RunLog(next, bs[1..]);
      RunLog(next', bs[1..]);
    }
  }

  lemma SafeWithoutLog(f: Frame, bs: seq<u8>)
    requires FrameOk(f) && Safe(f, bs)
    ensures Safe(f.(log := []), bs)
  {
    RunLog(f, bs);
  }

  lemma {:induction false} OverrunIsFinal(f: Frame, bs: seq<u8>)
    requires FrameOk(f) && f.phase == Overrun
    ensures Run(f, bs) == f
    decreases |bs|
  {
    if bs == [] {
    } else {
      OverrunIsFinal(f, bs[1..]);
    }
  }

  lemma SafePrefix(f: Frame, a: seq<u8>, b: seq<u8>)
    requires FrameOk(f) && Safe(f, a + b)
    ensures Safe(f, a) && Safe(Run(f, a), b)
  {
    RunAppend(f, a, b);
    if !Safe(f, a) {
      OverrunIsFinal(Run(f, a), b);
    }
  }

  lemma RunNone(f: Frame)
    requires FrameOk(f)
    ensures Run(f, []) == f
  {
  }

  lemma RunOne(f: Frame, b: u8)
    requires FrameOk(f)
    ensures Run(f, [b]) == Step(f, b)
  {
  }

  // The bytes of a header go to the front of varBuffer; the second one opens the descriptor.
  lemma RunHeader(f: Frame, bs: seq<u8>)
    requires FrameOk(f) && bs != [] && |bs| <= 2
    requires f.phase == Idle || (f.phase == Head && |bs| == 1)
    ensures var at := if f.phase == Idle then 0 else 1;
            var buf := Splice(f.buf, at, bs);
            Run(f, bs) == if at + |bs| == 2 then Open(Frame(buf, Head, buf[0], buf[1], f.log))
                          else Frame(buf, Head, f.len, f.typ, f.log)
  {
    var at := if f.phase == Idle then 0 else 1;
    if |bs| == 1 {
      assert bs == [bs[0]];
      RunOne(f, bs[0]);
      assert Splice(f.buf, at, bs) == f.buf[at := bs[0]];
    } else {
      assert bs == [bs[0], bs[1]] && bs[1..] == [bs[1]];
      RunOne(Step(f, bs[0]), bs[1]);
      assert Splice(f.buf, at, bs) == f.buf[0 := bs[0]][1 := bs[1]];
    }
  }

  // varBuffer once the bytes bs have come in, rem bytes before the end of the body.
  function Filled(f: Frame, rem: nat, bs: seq<u8>): seq<u8>
    requires rem <= BodySize(f.len, f.typ)
    requires Buffered(f.typ) ==> 2 + BodySize(f.len, f.typ) - rem + |bs| <= |f.buf|
  {
    if Buffered(f.typ) then Splice(f.buf, 2 + BodySize(f.len, f.typ) - rem, bs) else f.buf
  }

  // A stretch of body bytes that stays inside varBuffer is copied there, or skipped;
  // the descriptor closes exactly on its last byte.
  lemma {:induction false} RunBody(f: Frame, bs: seq<u8>)
    requires FrameOk(f) && f.phase.Body? && |bs| <= f.phase.rem
    requires Buffered(f.typ) ==> BodyAt(f) + |bs| <= VAR_BUFFER_SIZE
    ensures Run(f, bs) == Advance(f, Filled(f, f.phase.rem, bs), f.phase.rem - |bs|)
    decreases |bs|
  {
    if bs == [] {
      assert Filled(f, f.phase.rem, bs) == f.buf;
    } else {
      var next := Step(f, bs[0]);
      if f.phase.rem == 1 {
        assert bs[1..] == [];
        assert next.buf == Filled(f, f.phase.rem, bs);
      } else {
        RunBody(next, bs[1..]);
        assert Filled(next, next.phase.rem, bs[1..]) == Filled(f, f.phase.rem, bs);
      }
    }
  }

  // A body of a kept descriptor cannot be longer than what varBuffer still holds.
  lemma {:induction false} SafeBodyFits(f: Frame, bs: seq<u8>)
    requires FrameOk(f) && f.phase.Body? && Buffered(f.typ) && |bs| <= f.phase.rem
    requires Safe(f, bs)
    ensures BodyAt(f) + |bs| <= VAR_BUFFER_SIZE
    decreases |bs|
  {
    if bs == [] {
    } else {
      var next := Step(f, bs[0]);
      if next.phase == Overrun {
        OverrunIsFinal(next, bs[1..]);
      } else if |bs| > 1 {
        SafeBodyFits(next, bs[1..]);
      }
    }
  }

  // ----- a parser is the framing and what its events do to the rest of its state -----

  function Fold<S>(act: (S, Event) -> S, s: S, es: seq<Event>): S {
    if es == [] then s else Fold(act, act(s, es[0]), es[1..])
  }

  lemma {:induction false} FoldAppend<S>(act: (S, Event) -> S, s: S, a: seq<Event>, b: seq<Event>)
    ensures Fold(act, s, a + b) == Fold(act, Fold(act, s, a), b)
    decreases |a|
  {
    if a == [] {
      assert a + b == b;
    } else {
      FoldAppend(act, act(s, a[0]), a[1..], b);
      assert (a + b)[1..] == a[1..] + b;
    }
  }

  // At most one opening and one closing event belong to one call of ParseDescriptor.
  function CallEvents(begun: bool, finished: bool, typ: u8, buf: seq<u8>): seq<Event> {
    (if begun then [Opened(typ)] else []) + (if finished then [Closed(typ, buf)] else [])
  }

  lemma FoldCall<S>(act: (S, Event) -> S, s: S, begun: bool, finished: bool, typ: u8, buf: seq<u8>)
    ensures var s' := if begun then act(s, Opened(typ)) else s;
            Fold(act, s, CallEvents(begun, finished, typ, buf)) == if finished then act(s', Closed(typ, buf)) else s'
  {
    var last := if finished then [Closed(typ, buf)] else [];
    assert last != [] ==> last[1..] == [];
    if begun {
      var es := CallEvents(begun, finished, typ, buf);
      assert es[1..] == last;
      assert Fold(act, s, es) == Fold(act, act(s, es[0]), last);
    } else {
      assert CallEvents(begun, finished, typ, buf) == last;
    }
  }

  datatype ParserState<S> = ParserState(frame: Frame, rest: S)

  predicate StateOk<S>(s: ParserState<S>) {
    FrameOk(s.frame) && s.frame.log == []
  }

  function Feed<S>(act: (S, Event) -> S, s: ParserState<S>, bs: seq<u8>): (r: ParserState<S>)
    requires StateOk(s)
    ensures StateOk(r)
  {
    var f := Run(s.frame, bs);
    ParserState(f.(log := []), Fold(act, s.rest, f.log))
  }

  // The split law: where the bytes are cut makes no difference.
  lemma FeedAppend<S>(act: (S, Event) -> S, s: ParserState<S>, a: seq<u8>, b: seq<u8>)
    requires StateOk(s)
    ensures Feed(act, s, a + b) == Feed(act, Feed(act, s, a), b)
  {
    hide Run;
    var f := Run(s.frame, a);
    RunAppend(s.frame, a, b);
    RunLog(f, b);
    FoldAppend(act, s.rest, f.log, Run(f.(log := []), b).log);
  }

  // One call within a buffer: what it took is behind it, the rest can still be taken.
  lemma FeedStep<S>(act: (S, Event) -> S, start: ParserState<S>, s: ParserState<S>, data: seq<u8>, p: nat, q: nat)
    requires StateOk(start) && StateOk(s) && p <= q <= |data|
    requires s == Feed(act, start, data[..p]) && Safe(s.frame, data[p..])
    ensures Feed(act, s, data[p..q]) == Feed(act, start, data[..q])
    ensures Safe(Feed(act, s, data[p..q]).frame, data[q..])
  {
    hide Run;
    assert data[..p] + data[p..q] == data[..q] && data[p..] == data[p..q] + data[q..];
    FeedAppend(act, start, data[..p], data[p..q]);
    SafePrefix(s.frame, data[p..q], data[q..]);
    SafeWithoutLog(Run(s.frame, data[p..q]), data[q..]);
  }

  function FeedPieces<S>(act: (S, Event) -> S, s: ParserState<S>, pieces: seq<seq<u8>>): (r: ParserState<S>)
    requires StateOk(s)
    ensures StateOk(r)
    decreases |pieces|
  {
    if pieces == [] then s else FeedPieces(act, Feed(act, s, pieces[0]), pieces[1..])
  }

  lemma {:induction false} PiecesAreOneStream<S>(act: (S, Event) -> S, s: ParserState<S>, pieces: seq<seq<u8>>)
    requires StateOk(s)
    ensures FeedPieces(act, s, pieces) == Feed(act, s, Flatten(pieces))
    decreases |pieces|
  {
    if pieces == [] {
    } else {
      FeedAppend(act, s, pieces[0], Flatten(pieces[1..]));
      PiecesAreOneStream(act, Feed(act, s, pieces[0]), pieces[1..]);
    }
  }

  // ----- streams that are lists of descriptors -----

  // USB 2.0 section 9.5: the first byte of a descriptor is its length, the second its type.
  // A length of 0 or 1 is taken as well, for as many bytes as the wrapped subtraction says.
  predicate Framed(d: seq<u8>) {
    2 <= |d| && |d| == 2 + BodySize(d[0], d[1])
  }

  predicate WellFormed(d: seq<u8>) {
    Framed(d) && (Buffered(d[1]) ==> |d| <= VAR_BUFFER_SIZE)
  }

  predicate AllWellFormed(ds: seq<seq<u8>>) {
    forall i :: 0 <= i < |ds| ==> WellFormed(ds[i])
  }

  // What varBuffer holds after d: bytes of earlier descriptors stay behind it.
  function Overlay(buf: seq<u8>, d: seq<u8>): (r: seq<u8>)
    requires |buf| == VAR_BUFFER_SIZE && WellFormed(d)
    ensures |r| == VAR_BUFFER_SIZE
  {
    Splice(buf, 0, if Buffered(d[1]) then d else d[..2])
  }

  function TwoEvents(d: seq<u8>, buf: seq<u8>): seq<Event>
    requires |d| >= 2
  {
    [Opened(d[1]), Closed(d[1], buf)]
  }

  // The header lands at the front of varBuffer and the body right behind it.
  lemma OverlayInParts(f: Frame, buf: seq<u8>, d: seq<u8>)
    requires |buf| == VAR_BUFFER_SIZE && WellFormed(d)
    requires f.buf == Splice(buf, 0, d[..2]) && f.len == d[0] && f.typ == d[1]
    ensures Overlay(buf, d) == Filled(f, |d| - 2, d[2..])
  {
  }

  lemma RunDescriptor(f: Frame, d: seq<u8>)
    requires FrameOk(f) && f.phase == Idle && WellFormed(d)
    ensures var buf := Overlay(f.buf, d);
            Run(f, d) == Frame(buf, Idle, d[0], d[1], f.log + TwoEvents(d, buf))
  {
    hide Run;
    var head, buf := Frame(Splice(f.buf, 0, d[..2]), Head, d[0], d[1], f.log), Overlay(f.buf, d);
    assert d == d[..2] + d[2..];
    RunHeader(f, d[..2]);
    RunAppend(f, d[..2], d[2..]);
    OverlayInParts(head, f.buf, d);
    if |d| > 2 {
      RunBody(Open(head), d[2..]);
    } else {
      RunNone(Open(head));
    }
    assert f.log + [Opened(d[1])] + [Closed(d[1], buf)] == f.log + TwoEvents(d, buf);
  }

  // The one-shot parser: an opening and a closing event for each descriptor in turn.
  function EventsOf(buf: seq<u8>, ds: seq<seq<u8>>): seq<Event>
    requires |buf| == VAR_BUFFER_SIZE && AllWellFormed(ds)
    decreases |ds|
  {
    if ds == [] then []
    else
      var next := Overlay(buf, ds[0]);
      TwoEvents(ds[0], next) + EventsOf(next, ds[1..])
  }

  // However the stream of descriptors is read, it is framed as the list it is made of.
  lemma {:induction false} RunDescriptors(f: Frame, ds: seq<seq<u8>>)
    requires FrameOk(f) && f.phase == Idle && AllWellFormed(ds)
    ensures Run(f, Flatten(ds)).phase == Idle
    ensures Run(f, Flatten(ds)).log == f.log + EventsOf(f.buf, ds)
    decreases |ds|
  {
    if ds == [] {
    } else {
      hide Run;
      RunDescriptor(f, ds[0]);
      RunAppend(f, ds[0], Flatten(ds[1..]));
      RunDescriptors(Run(f, ds[0]), ds[1..]);
    }
  }

  // Cut up in any way, a list of well-formed descriptors has the effect of its events.
  lemma FeedDescriptors<S>(act: (S, Event) -> S, s: ParserState<S>, ds: seq<seq<u8>>, pieces: seq<seq<u8>>)
    requires StateOk(s) && s.frame.phase == Idle && AllWellFormed(ds) && Flatten(pieces) == Flatten(ds)
    ensures FeedPieces(act, s, pieces).frame.phase == Idle
    ensures FeedPieces(act, s, pieces).rest == Fold(act, s.rest, EventsOf(s.frame.buf, ds))
  {
    hide Run;
    PiecesAreOneStream(act, s, pieces);
    RunDescriptors(s.frame, ds);
    assert [] + EventsOf(s.frame.buf, ds) == EventsOf(s.frame.buf, ds);
  }

  lemma LongDescriptorOverruns(f: Frame, d: seq<u8>)
    requires FrameOk(f) && f.phase == Idle && Framed(d) && !WellFormed(d)
    ensures !Safe(f, d)
  {
    hide Run;
    if Safe(f, d) {
      assert d == d[..2] + d[2..];
      RunHeader(f, d[..2]);
      SafePrefix(f, d[..2], d[2..]);
      SafeBodyFits(Run(f, d[..2]), d[2..]);
    }
  }

  // An interface descriptor of 17 bytes is one too long, one of 16 is not.
  lemma SeventeenBytesOverrun(f: Frame, d: seq<u8>)
    requires FrameOk(f) && f.phase == Idle && |d| >= 2 && d[0] == |d| && d[1] == 4
    ensures |d| == 16 ==> Safe(f, d)
    ensures |d| == 17 ==> !Safe(f, d)
  {
    if |d| == 16 {
      RunDescriptor(f, d);
    } else if |d| == 17 {
      LongDescriptorOverruns(f, d);
    }
  }

  // varBuffer suffices for a list of descriptors, whatever their length bytes say, exactly
  // when none that is kept is framed as longer than its 16 bytes.
  lemma {:induction false} SafeExactlyWhenWellFormed(f: Frame, ds: seq<seq<u8>>)
    requires FrameOk(f) && f.phase == Idle && forall i :: 0 <= i < |ds| ==> Framed(ds[i])
    ensures Safe(f, Flatten(ds)) <==> AllWellFormed(ds)
    decreases |ds|
  {
    if ds == [] {
    } else {
      hide Run;
      RunAppend(f, ds[0], Flatten(ds[1..]));
      if WellFormed(ds[0]) {
        RunDescriptor(f, ds[0]);
        SafeExactlyWhenWellFormed(Run(f, ds[0]), ds[1..]);
        assert AllWellFormed(ds) <==> AllWellFormed(ds[1..]) by {
          assert forall i :: 0 < i < |ds| ==> ds[i] == ds[1..][i - 1];
        }
      } else {
        LongDescriptorOverruns(f, ds[0]);
        OverrunIsFinal(Run(f, ds[0]), Flatten(ds[1..]));
      }
    }
  }
}
