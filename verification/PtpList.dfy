// PTPListParser: a counted list of fixed-size elements, read from buffers that may end
// anywhere, with one callback for each element.
module PtpList {
  import opened MachineInts
  import opened ParseTools

  // A callback's arguments: the element's bytes and its index.
  datatype Element = Element(bytes: seq<u8>, index: nat)

  // Where element k of a list with `head` length bytes begins.
  function Start(head: nat, size: nat, k: nat): nat {
    head + k * size
  }

  lemma NextStart(head: nat, size: nat, k: nat)
    ensures Start(head, size, k + 1) == Start(head, size, k) + size
  {
  }

  lemma StartMonotone(head: nat, size: nat, j: nat, k: nat)
    requires j <= k
    ensures Start(head, size, j) <= Start(head, size, k)
  {
    assert k * size == j * size + (k - j) * size;
  }

  // The first n elements of the list whose bytes, from the length field on, are bs.
  function Elements(bs: seq<u8>, head: nat, size: nat, n: nat): (r: seq<Element>)
    requires Start(head, size, n) <= |bs|
    ensures |r| == n
  {
    if n == 0 then []
    else
      NextStart(head, size, n - 1);
      Elements(bs, head, size, n - 1)
      + [Element(bs[Start(head, size, n - 1)..Start(head, size, n)], n - 1)]
  }

  // Each callback gets its own slice and its own index.
  lemma {:induction false} ElementIs(bs: seq<u8>, head: nat, size: nat, n: nat, k: nat)
    requires Start(head, size, n) <= |bs| && k < n
    ensures Start(head, size, k) <= Start(head, size, k + 1) <= |bs|
    ensures Elements(bs, head, size, n)[k] == Element(bs[Start(head, size, k)..Start(head, size, k + 1)], k)
  {
    StartMonotone(head, size, k, k + 1);
    StartMonotone(head, size, k + 1, n);
    NextStart(head, size, n - 1);
    if k < n - 1 {
      ElementIs(bs, head, size, n - 1, k);
    }
  }

  lemma {:induction false} ElementsAppend(bs: seq<u8>, more: seq<u8>, head: nat, size: nat, n: nat)
    requires Start(head, size, n) <= |bs|
    ensures Elements(bs + more, head, size, n) == Elements(bs, head, size, n)
  {
    if n == 0 {
    } else {
      NextStart(head, size, n - 1);
      ElementsAppend(bs, more, head, size, n - 1);
      assert (bs + more)[Start(head, size, n - 1)..Start(head, size, n)]
             == bs[Start(head, size, n - 1)..Start(head, size, n)];
    }
  }

  // The length as the code reads it: 32 bits if the field has at least four bytes, else 16,
  // from a buffer that starts with the field and may go on with older bytes.
  function LengthField(buf: seq<u8>, lenSize: u8): u32
    requires |buf| >= 4
  {
    if lenSize >= 4 then Word(buf[0], buf[1]) + 0x1_0000 * Word(buf[2], buf[3])
    else Word(buf[0], buf[1])
  }

  // In the middle of a list: the elements that the bytes taken so far complete, and the part
  // of the next element that is already in the buffer, `missing` bytes short.
  predicate InList(taken: seq<u8>, head: nat, valSize: u8, arLen: u32, left: u32, buf: seq<u8>, missing: u8,
                   seen: seq<Element>)
  {
    && valSize <= |buf| && missing <= valSize && left <= arLen
    && var done := Start(head, valSize, arLen - left);
    && |taken| == done + (valSize - missing)
    && buf[..valSize - missing] == taken[done..]
    && seen == Elements(taken, head, valSize, arLen - left)
  }

  // The buffer after more bytes of the current element came in.
  lemma TakePart(taken: seq<u8>, head: nat, valSize: u8, arLen: u32, left: u32, buf: seq<u8>, missing: u8,
                 seen: seq<Element>, bs: seq<u8>)
    requires InList(taken, head, valSize, arLen, left, buf, missing, seen) && |bs| <= missing
    ensures InList(taken + bs, head, valSize, arLen, left, Splice(buf, valSize - missing, bs), missing - |bs|, seen)
  {
    hide Start;
    var done := Start(head, valSize, arLen - left);
    assert (taken + bs)[done..] == taken[done..] + bs;
    ElementsAppend(taken, bs, head, valSize, arLen - left);
    assert Splice(buf, valSize - missing, bs)[..valSize - missing + |bs|] == buf[..valSize - missing] + bs;
  }

  // A complete element is counted, and the buffer is free for the next one.
  lemma TakeWhole(taken: seq<u8>, head: nat, valSize: u8, arLen: u32, left: u32, buf: seq<u8>, seen: seq<Element>)
    requires InList(taken, head, valSize, arLen, left, buf, 0, seen) && left > 0
    ensures InList(taken, head, valSize, arLen, left - 1, buf, valSize,
                   seen + [Element(buf[..valSize], arLen - left)])
  {
    NextStart(head, valSize, arLen - left);
    assert taken[Start(head, valSize, arLen - left)..Start(head, valSize, arLen - left + 1)] == buf[..valSize];
    assert buf[..0] == taken[Start(head, valSize, arLen - left + 1)..];
  }

  lemma NotYetTotal(taken: seq<u8>, head: nat, valSize: u8, arLen: u32, left: u32, buf: seq<u8>, missing: u8,
                    seen: seq<Element>)
    requires InList(taken, head, valSize, arLen, left, buf, missing, seen) && left > 0 && missing > 0
    ensures |taken| < Start(head, valSize, arLen)
  {
    NextStart(head, valSize, arLen - left);
    StartMonotone(head, valSize, arLen - left + 1, arLen);
  }

  lemma AllTaken(taken: seq<u8>, head: nat, valSize: u8, arLen: u32, buf: seq<u8>, seen: seq<Element>)
    requires InList(taken, head, valSize, arLen, 0, buf, valSize, seen)
    ensures |taken| == Start(head, valSize, arLen) && seen == Elements(taken, head, valSize, arLen)
  {
  }

  lemma NoElementYet(taken: seq<u8>, valSize: u8, arLen: u32, buf: seq<u8>)
    requires valSize <= |buf|
    ensures InList(taken, |taken|, valSize, arLen, arLen, buf, valSize, [])
  {
    assert buf[..0] == taken[|taken|..];
  }

  lemma FrontStays(taken: seq<u8>, bs: seq<u8>, n: nat)
    requires n <= |taken|
    ensures (taken + bs)[..n] == taken[..n]
  {
  }

  class PtpSink {
    var calls: seq<Element>

    constructor ()
      ensures calls == []
    {
      calls := [];
    }

    method Callback(bytes: seq<u8>, index: u32)
      modifies this
      ensures calls == old(calls) + [Element(bytes, index)]
    {
      calls := calls + [Element(bytes, index)];
    }
  }

  // A list in range mode has three elements and no length field.
  const RANGE_LENGTH: u32 := 3

  ghost function Listener(pf: PtpSink?): set<PtpSink> {
    if pf == null then {} else {pf}
  }

  lemma JoinSlices(data: seq<u8>, p: nat, q: nat, r: nat)
    requires p <= q <= r <= |data|
    ensures data[p..q] + data[q..r] == data[p..r]
  {
  }

  lemma MoreSeen(first: seq<Element>, earlier: seq<Element>, now: seq<Element>)
    requires first <= earlier <= now
    ensures earlier[|first|..] + now[|earlier|..] == now[|first|..]
  {
  }

  lemma FlattenNothing(xs: seq<seq<u8>>)
    ensures Flatten(xs[..0]) == []
  {
  }

  lemma WithinStream(xs: seq<seq<u8>>, i: nat, n: nat)
    requires i < |xs| && n <= |xs[i]|
    ensures Flatten(xs[..i]) + xs[i][..n] <= Flatten(xs)
  {
    FlattenPrefix(xs, i);
    FlattenAppend(xs[..i + 1], xs[i + 1..]);
    assert xs == xs[..i + 1] + xs[i + 1..];
    assert xs[i] == xs[i][..n] + xs[i][n..];
  }

  class PTPListParser {
    var nStage: u8
    var arLen: u32
    var arLenCntdn: u32
    var lenSize: u8
    var valSize: u8
    const pBuf: MultiValueBuffer
    const buffer: array<u8>
    const theParser: MultiByteValueParser
    // The bytes of the current list so far, its elements so far, the buffer before it began,
    // and whether it is in range mode.
    ghost var taken: seq<u8>
    ghost var seen: seq<Element>
    ghost var before: seq<u8>
    ghost var ranged: bool

    // Initialize, on a buffer that is large enough for both fields.
    constructor (lenSize: u8, valSize: u8, buffer: array<u8>, modeRange: bool)
      requires buffer.Length >= 4 && buffer.Length >= lenSize && buffer.Length >= valSize
      ensures fresh(pBuf) && fresh(theParser) && this.buffer == buffer && Valid()
      ensures this.lenSize == lenSize && this.valSize == valSize && ranged == modeRange
      ensures nStage == (if modeRange then 2 else 0) && taken == [] && seen == []
    {
      this.lenSize := lenSize;
      this.valSize := valSize;
      this.buffer := buffer;
      pBuf := new MultiValueBuffer();
      theParser := new MultiByteValueParser();
      if modeRange {
        arLen, arLenCntdn := RANGE_LENGTH, RANGE_LENGTH;
        nStage := 2;
      } else {
        arLen, arLenCntdn := 0, 0;
        nStage := 0;
      }
      taken, seen, before, ranged := [], [], buffer[..], modeRange;
      new;
      pBuf.pValue := buffer;
      theParser.Initialize(pBuf);
    }

    ghost predicate Shape()
      reads this, pBuf
    {
      && pBuf.pValue == buffer && pBuf.off == 0 && |before| == buffer.Length
      && buffer.Length >= 4 && buffer.Length >= lenSize && buffer.Length >= valSize
    }

    // The bytes of the length field of the current list.
    ghost function Head(): nat
      reads this
    {
      if ranged then 0 else lenSize
    }

    // The length of the current list, and the bytes that it has in all.
    ghost function Length(): u32
      requires Shape() && |taken| >= Head()
      reads this, pBuf
    {
      if ranged then RANGE_LENGTH else LengthField(Splice(before, 0, taken[..lenSize]), lenSize)
    }

    ghost function Total(): nat
      requires Shape() && |taken| >= Head()
      reads this, pBuf
    {
      Start(Head(), valSize, Length())
    }

    // The value parser is set up for values of this size.
    ghost predicate Reading(size: u8)
      reads this, pBuf, theParser
    {
      && pBuf.valueSize == theParser.valueSize == size
      && theParser.pBuf == buffer && theParser.off == 0 && theParser.countDown <= size
    }

    ghost predicate ReadingLength()
      reads this, pBuf, theParser, buffer
    {
      && Shape() && Reading(lenSize) && !ranged && seen == []
      && |taken| == lenSize - theParser.countDown && buffer[..] == Splice(before, 0, taken)
    }

    ghost predicate LengthKnown()
      reads this, pBuf
    {
      && Shape() && |taken| == Head() && seen == [] && arLenCntdn == arLen == Length()
    }

    ghost predicate ReadingElements()
      reads this, pBuf, theParser, buffer
    {
      && Shape() && Reading(valSize) && arLenCntdn <= arLen && |taken| >= Head() && arLen == Length()
      && (arLenCntdn == 0 ==> theParser.countDown == valSize)
      && InList(taken, Head(), valSize, arLen, arLenCntdn, buffer[..], theParser.countDown, seen)
    }

    // Between two calls.
    ghost predicate Valid()
      reads this, pBuf, theParser, buffer
    {
      && Shape() && nStage <= 3
      && (nStage == 1 ==> ReadingLength() && theParser.countDown > 0)
      && (nStage == 2 ==> LengthKnown())
      && (nStage == 3 ==> ReadingElements() && arLenCntdn > 0 && theParser.countDown > 0)
    }

    // The list is complete: it has all its bytes, and its elements in order.
    ghost predicate Complete()
      reads this, pBuf
    {
      && nStage == 0 && Shape() && |taken| >= Head() && |taken| == Total()
      && seen == Elements(taken, Head(), valSize, Length())
    }

    // Stage 1.
    method TakeLength(c: Cursor) returns (ok: bool)
      requires nStage == 1 && ReadingLength() && c.Valid()
      modifies this`nStage, this`arLen, this`arLenCntdn, this`taken, theParser, buffer, c
      ensures c.Valid() && old(c.p) <= c.p && taken == old(taken) + c.data[old(c.p)..c.p]
      ensures !ok ==> Valid() && nStage == 1 && c.cntdn == 0 && |taken| < lenSize
      ensures ok ==> nStage == 2 && LengthKnown()
    {
      hide Splice, Start;
      ok := theParser.Parse(c);
      ghost var bytes := c.data[old(c.p)..c.p];
      SpliceTwice(before, taken, bytes);
      taken := taken + bytes;
      if !ok {
        return;
      }
      arLen := if pBuf.valueSize >= 4 then Word(buffer[0], buffer[1]) + 0x1_0000 * Word(buffer[2], buffer[3])
               else Word(buffer[0], buffer[1]);
      arLenCntdn := arLen;
      nStage := 2;
      assert taken[..lenSize] == taken;
    }

    // Stage 2.
    method BeginElements()
      requires nStage == 2 && LengthKnown()
      modifies this`nStage, pBuf`valueSize, theParser
      ensures nStage == 3 && ReadingElements()
    {
      pBuf.valueSize := valSize;
      theParser.Initialize(pBuf);
      nStage := 3;
      NoElementYet(taken, valSize, arLen, buffer[..]);
    }

    // One turn of the loop of stage 3.
    method TakeElement(c: Cursor, pf: PtpSink?) returns (ok: bool)
      requires ReadingElements() && arLenCntdn > 0 && c.Valid()
      modifies this`arLenCntdn, this`taken, this`seen, theParser, buffer, Listener(pf), c
      ensures c.Valid() && old(c.p) <= c.p && taken == old(taken) + c.data[old(c.p)..c.p]
      ensures ReadingElements() && arLenCntdn == if ok then old(arLenCntdn) - 1 else old(arLenCntdn)
      ensures old(seen) <= seen && (pf != null ==> pf.calls == old(pf.calls) + seen[|old(seen)|..])
      ensures !ok ==> c.cntdn == 0 && theParser.countDown > 0
    {
      hide InList, Splice, LengthField;
      ghost var p, n := c.p, theParser.Taken(c.cntdn);
      TakePart(taken, Head(), valSize, arLen, arLenCntdn, buffer[..], theParser.countDown, seen, c.data[p..p + n]);
      FrontStays(taken, c.data[p..p + n], Head());
      ok := theParser.Parse(c);
      taken := taken + c.data[p..c.p];
      if !ok {
        return;
      }
      TakeWhole(taken, Head(), valSize, arLen, arLenCntdn, buffer[..], seen);
      seen := seen + [Element(buffer[..valSize], arLen - arLenCntdn)];
      if pf != null {
        pf.Callback(buffer[..pBuf.valueSize], arLen - arLenCntdn);
      }
      arLenCntdn := arLenCntdn - 1;
    }

    // Stage 3.
    method TakeElements(c: Cursor, pf: PtpSink?) returns (ok: bool)
      requires nStage == 3 && ReadingElements() && c.Valid()
      modifies this`nStage, this`arLenCntdn, this`taken, this`seen, theParser, buffer, Listener(pf), c
      ensures c.Valid() && old(c.p) <= c.p && taken == old(taken) + c.data[old(c.p)..c.p]
      ensures old(seen) <= seen && (pf != null ==> pf.calls == old(pf.calls) + seen[|old(seen)|..])
      ensures ok ==> Complete()
      ensures !ok ==> nStage == 3 && Valid() && c.cntdn == 0 && |taken| >= Head() && |taken| < Total()
    {
      hide InList, Splice, Start, LengthField;
      ghost var first := seen;
      while arLenCntdn != 0
        invariant c.Valid() && old(c.p) <= c.p && taken == old(taken) + c.data[old(c.p)..c.p]
        invariant first <= seen && (pf != null ==> pf.calls == old(pf.calls) + seen[|first|..])
        invariant nStage == 3 && ReadingElements()
        decreases arLenCntdn
      {
        ghost var p, earlier := c.p, seen;
        ok := TakeElement(c, pf);
        assert c.data[old(c.p)..p] + c.data[p..c.p] == c.data[old(c.p)..c.p];
        MoreSeen(first, earlier, seen);
        if !ok {
          NotYetTotal(taken, Head(), valSize, arLen, arLenCntdn, buffer[..], theParser.countDown, seen);
          return;
        }
      }
      AllTaken(taken, Head(), valSize, arLen, buffer[..], seen);
      nStage := 0;
      return true;
    }

    // Stages 1 to 3.
    method ReadOn(c: Cursor, pf: PtpSink?) returns (ok: bool)
      requires 1 <= nStage <= 3 && (nStage == 1 ==> ReadingLength()) && (nStage == 2 ==> LengthKnown())
      requires (nStage == 3 ==> ReadingElements()) && c.Valid()
      modifies this`nStage, this`arLen, this`arLenCntdn, this`taken, this`seen, pBuf`valueSize, theParser, buffer,
               Listener(pf), c
      ensures Valid() && c.Valid() && old(c.p) <= c.p && taken == old(taken) + c.data[old(c.p)..c.p]
      ensures old(seen) <= seen && (pf != null ==> pf.calls == old(pf.calls) + seen[|old(seen)|..])
      ensures ok ==> Complete()
      ensures !ok ==> nStage != 0 && c.cntdn == 0 && (|taken| < Head() || |taken| < Total())
    {
      hide InList, Splice, Start, LengthField;
      if nStage == 1 {
        ok := TakeLength(c);
        if !ok {
          return;
        }
      }
      if nStage == 2 {
        BeginElements();
      }
      ghost var q := c.p;
      ok := TakeElements(c, pf);
      JoinSlices(c.data, old(c.p), q, c.p);
    }

    // Stage 0.
    method BeginList()
      requires nStage == 0 && Shape()
      modifies this`nStage, this`taken, this`seen, this`before, this`ranged, pBuf`valueSize, theParser
      ensures nStage == 1 && ReadingLength() && !ranged && taken == [] && seen == [] && before == buffer[..]
    {
      hide Splice;
      pBuf.valueSize := lenSize;
      theParser.Initialize(pBuf);
      nStage := 1;
      taken, seen, before, ranged := [], [], buffer[..], false;
      SpliceNothing(before);
    }

    // Reads on with the current list, or begins one.  The callback is that of the call, and
    // may be null: it gets exactly the elements that are completed in this call.
    method Parse(c: Cursor, pf: PtpSink?) returns (ok: bool)
      requires Valid() && c.Valid()
      modifies this, pBuf, theParser, buffer, Listener(pf), c
      ensures Valid() && c.Valid() && old(c.p) <= c.p && lenSize == old(lenSize) && valSize == old(valSize)
      ensures old(nStage) == 0 ==> before == old(buffer[..]) && !ranged
      ensures old(nStage) != 0 ==> before == old(before) && ranged == old(ranged)
      ensures taken == (if old(nStage) == 0 then [] else old(taken)) + c.data[old(c.p)..c.p]
      ensures var earlier := if old(nStage) == 0 then [] else old(seen);
              earlier <= seen && (pf != null ==> pf.calls == old(pf.calls) + seen[|earlier|..])
      ensures ok ==> Complete()
      ensures !ok ==> nStage != 0 && c.cntdn == 0 && (|taken| < Head() || |taken| < Total())
    {
      hide InList, Splice, Start, LengthField, Shape, LengthKnown, ReadingLength, ReadingElements;
      if nStage == 0 {
        BeginList();
      }
      ok := ReadOn(c, pf);
    }

    // One of the pieces.
    method FeedPiece(pieces: seq<seq<u8>>, i: nat, pf: PtpSink) returns (ok: bool)
      requires Valid() && i < |pieces| && (nStage == 0 ==> i == 0) && (nStage != 0 ==> taken == Flatten(pieces[..i]))
      modifies this, pBuf, theParser, buffer, pf
      ensures Valid() && lenSize == old(lenSize) && valSize == old(valSize)
      ensures old(nStage) == 0 ==> before == old(buffer[..]) && !ranged && pf.calls == old(pf.calls) + seen
      ensures old(nStage) != 0 ==> before == old(before) && ranged == old(ranged) && old(seen) <= seen
                                   && pf.calls == old(pf.calls) + seen[|old(seen)|..]
      ensures ok ==> Complete() && taken <= Flatten(pieces)
      ensures !ok ==> nStage != 0 && taken == Flatten(pieces[..i + 1]) && (|taken| < Head() || |taken| < Total())
    {
      hide InList, Splice, Start, Flatten, LengthField, Shape, LengthKnown, ReadingLength, ReadingElements;
      FlattenPrefix(pieces, i);
      FlattenNothing(pieces);
      var c := new Cursor(pieces[i]);
      ok := Parse(c, pf);
      WithinStream(pieces, i, c.p);
      assert pieces[i][..|pieces[i]|] == pieces[i];
    }

    // Feeds a whole stream in any pieces, up to the end of the list.  Where the cuts are
    // has no influence: the list is complete exactly when the stream holds all its bytes.
    method ParsePieces(pieces: seq<seq<u8>>, pf: PtpSink) returns (ok: bool)
      requires Valid() && pieces != [] && (nStage == 0 || (nStage == 2 && ranged))
      modifies this, pBuf, theParser, buffer, pf
      ensures Valid() && ranged == (old(nStage) == 2)
      ensures before == if old(nStage) == 0 then old(buffer[..]) else old(before)
      ensures lenSize == old(lenSize) && valSize == old(valSize) && pf.calls == old(pf.calls) + seen
      ensures ok ==> Complete() && taken <= Flatten(pieces)
      ensures !ok ==> nStage != 0 && taken == Flatten(pieces) && (|taken| < Head() || |taken| < Total())
    {
      hide InList, Splice, Start, Flatten, LengthField, ReadingLength, ReadingElements, Complete;
      FlattenNothing(pieces);
      ok := FeedPiece(pieces, 0, pf);
      MoreSeen([], [], seen);
      var i := 1;
      while i < |pieces| && !ok
        invariant 1 <= i <= |pieces| && Valid() && ranged == (old(nStage) == 2)
        invariant before == if old(nStage) == 0 then old(buffer[..]) else old(before)
        invariant lenSize == old(lenSize) && valSize == old(valSize) && pf.calls == old(pf.calls) + seen
        invariant ok ==> Complete() && taken <= Flatten(pieces)
        invariant !ok ==> nStage != 0 && taken == Flatten(pieces[..i]) && (|taken| < Head() || |taken| < Total())
      {
        ghost var earlier := seen;
        ok := FeedPiece(pieces, i, pf);
        MoreSeen([], earlier, seen);
        i := i + 1;
      }
      assert pieces[..|pieces|] == pieces;
    }
  }
}
