// The resumable building blocks shared by the descriptor parsers: a value that is
// collected byte by byte into a buffer, and a run of bytes that is skipped.
module ParseTools {
  import opened MachineInts

  // The pair (*pp, *pcntdn) that a parser is handed by reference: a position in the
  // caller's buffer and the number of bytes that are still unread.
  class Cursor {
    const data: seq<u8>
    var p: nat
    var cntdn: nat

    constructor (data: seq<u8>)
      ensures Valid() && this.data == data && p == 0
    {
      this.data := data;
      p := 0;
      cntdn := |data|;
    }

    ghost predicate Valid()
      reads this
    {
      p + cntdn == |data|
    }

    ghost function Rest(): seq<u8>
      requires Valid()
      reads this
    {
      data[p..]
    }
  }

  // s with the bytes from position `at` on overwritten by bs.
  function Splice(s: seq<u8>, at: nat, bs: seq<u8>): (r: seq<u8>)
    requires at + |bs| <= |s|
    ensures |r| == |s|
  {
    seq(|s|, k requires 0 <= k < |s| => if at <= k < at + |bs| then bs[k - at] else s[k])
  }

  lemma SpliceTwice(s: seq<u8>, a: seq<u8>, b: seq<u8>)
    requires |a| + |b| <= |s|
    ensures Splice(Splice(s, 0, a), |a|, b) == Splice(s, 0, a + b)
  {
  }

  lemma SpliceNothing(s: seq<u8>)
    ensures Splice(s, 0, []) == s
  {
  }

  function Flatten<T>(xs: seq<seq<T>>): seq<T> {
    if xs == [] then [] else xs[0] + Flatten(xs[1..])
  }

  lemma Regroup<T>(a: seq<T>, b: seq<T>, c: seq<T>)
    ensures a + (b + c) == a + b + c
  {
  }

  lemma {:induction false} FlattenAppend<T>(xs: seq<seq<T>>, ys: seq<seq<T>>)
    ensures Flatten(xs + ys) == Flatten(xs) + Flatten(ys)
  {
    if xs == [] {
      assert xs + ys == ys;
    } else {
      FlattenAppend(xs[1..], ys);
      assert (xs + ys)[1..] == xs[1..] + ys;
      Regroup(xs[0], Flatten(xs[1..]), Flatten(ys));
    }
  }

  lemma FlattenOne<T>(x: seq<T>)
    ensures Flatten([x]) == x
  {
    assert [x][1..] == [];
  }

  lemma FlattenPrefix<T>(xs: seq<seq<T>>, n: nat)
    requires n < |xs|
    ensures Flatten(xs[..n + 1]) == Flatten(xs[..n]) + xs[n]
    ensures Flatten(xs) == Flatten(xs[..n]) + Flatten(xs[n..])
  {
    hide Flatten;
    FlattenOne(xs[n]);
    FlattenAppend(xs[..n], [xs[n]]);
    assert xs[..n + 1] == xs[..n] + [xs[n]];
    FlattenAppend(xs[..n], xs[n..]);
    assert xs == xs[..n] + xs[n..];
  }

  // A pointer into an array is the array and an offset.
  class MultiValueBuffer {
    var valueSize: u8
    var pValue: array?<u8>
    var off: nat

    constructor ()
      ensures valueSize == 0 && pValue == null && off == 0
    {
      valueSize := 0;
      pValue := null;
      off := 0;
    }
  }

  class MultiByteValueParser {
    var pBuf: array?<u8>
    var off: nat
    var countDown: u8
    var valueSize: u8

    constructor ()
      ensures pBuf == null && countDown == 0 && valueSize == 0
    {
      pBuf := null;
      off := 0;
      countDown := 0;
      valueSize := 0;
    }

    method Initialize(buf: MultiValueBuffer)
      modifies this
      ensures pBuf == buf.pValue && off == buf.off
      ensures countDown == valueSize == buf.valueSize
    {
      pBuf := buf.pValue;
      off := buf.off;
      countDown := buf.valueSize;
      valueSize := buf.valueSize;
    }

    // How many bytes the next call takes out of a buffer with `avail` bytes left.
    ghost function Taken(avail: nat): nat
      reads this
    {
      Min(countDown, avail)
    }

    // Collects as much of the value as the input holds.  True exactly when the value
    // is complete; the countdown is then reloaded for the next value.
    method Parse(c: Cursor) returns (ok: bool)
      requires c.Valid() && countDown <= valueSize
      requires pBuf != null ==> off + (valueSize - countDown) + Taken(c.cntdn) <= pBuf.Length
      modifies this, c, pBuf
      ensures c.Valid() && pBuf == old(pBuf) && off == old(off) && valueSize == old(valueSize)
      ensures pBuf == null ==> !ok && c.p == old(c.p) && countDown == old(countDown)
      ensures pBuf != null ==>
                && c.p == old(c.p) + old(Taken(c.cntdn))
                && pBuf[..] == Splice(old(pBuf[..]), off + (valueSize - old(countDown)), c.data[old(c.p)..c.p])
                && (ok <==> old(countDown) <= old(c.cntdn))
                && countDown == (if ok then valueSize else old(countDown) - old(c.cntdn))
    {
      if pBuf == null {
        return false;
      }
      ghost var first, p := off + (valueSize - countDown), c.p;
      ghost var was := pBuf[..];
      while countDown != 0 && c.cntdn != 0
        invariant c.Valid() && p <= c.p && countDown <= old(countDown)
        invariant off == old(off) && valueSize == old(valueSize) && pBuf == old(pBuf)
        invariant c.p - p == old(countDown) - countDown <= old(Taken(c.cntdn))
        invariant forall k :: 0 <= k < pBuf.Length ==>
                    pBuf[k] == if first <= k < first + (c.p - p) then c.data[p + (k - first)] else was[k]
      {
        pBuf[off + (valueSize - countDown)] := c.data[c.p];
        countDown := countDown - 1;
        c.cntdn := c.cntdn - 1;
        c.p := c.p + 1;
      }
      assert pBuf[..] == Splice(was, first, c.data[p..c.p]);
      if countDown != 0 {
        return false;
      }
      countDown := valueSize;
      return true;
    }
  }

  class ByteSkipper {
    var nStage: u8
    var countDown: u16

    constructor ()
      ensures nStage == 0 && countDown == 0
    {
      nStage := 0;
      countDown := 0;
    }

    // The number of bytes still to be skipped when Skip is entered.
    ghost function Pending(bytesToSkip: u16): nat
      reads this
    {
      if nStage == 0 then bytesToSkip else countDown
    }

    method Skip(c: Cursor, bytesToSkip: u16) returns (done: bool)
      requires c.Valid() && nStage <= 1
      modifies this, c
      ensures c.Valid() && c.p == old(c.p) + Min(old(Pending(bytesToSkip)), old(c.cntdn))
      ensures countDown == old(Pending(bytesToSkip)) - (c.p - old(c.p))
      ensures done <==> old(Pending(bytesToSkip)) <= old(c.cntdn)
      ensures nStage == if done then 0 else 1
    {
      if nStage == 0 {
        countDown := bytesToSkip;
        nStage := nStage + 1;
      }
      while countDown != 0 && c.cntdn != 0
        invariant c.Valid() && old(c.p) <= c.p && nStage == 1
        invariant countDown + (c.p - old(c.p)) == old(Pending(bytesToSkip))
      {
        countDown := countDown - 1;
        c.p := c.p + 1;
        c.cntdn := c.cntdn - 1;
      }
      if countDown == 0 {
        nStage := 0;
      }
      return countDown == 0;
    }
  }
}
