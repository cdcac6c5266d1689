// Counted lists as a device writes them, and how they are read.
module PtpEncoding {
  import opened MachineInts
  import opened ParseTools
  import opened PtpList

  // The length byte by byte, the lowest first.
  lemma LengthBytes(buf: seq<u8>, lenSize: u8)
    requires |buf| >= 4
    ensures lenSize >= 4 ==>
              LengthField(buf, lenSize)
              == buf[0] as int + 256 * buf[1] as int + 65536 * buf[2] as int + 16777216 * buf[3] as int
    ensures lenSize < 4 ==> LengthField(buf, lenSize) == buf[0] as int + 256 * buf[1] as int
  {
  }

  // A length field of two or four bytes.
  function EncodeLength(n: nat, lenSize: u8): (bs: seq<u8>)
    requires (lenSize == 2 && n < 0x1_0000) || (lenSize == 4 && n < 0x1_0000_0000)
    ensures |bs| == lenSize
  {
    if lenSize == 2 then [n % 256, n / 256]
    else [n % 256, n / 256 % 256, n / 65536 % 256, n / 16777216]
  }

  lemma {:induction false} FlattenSize(es: seq<seq<u8>>, size: nat, n: nat)
    requires n <= |es| && forall k :: 0 <= k < |es| ==> |es[k]| == size
    ensures |Flatten(es[..n])| == n * size
  {
    if n == 0 {
    } else {
      hide Flatten;
      FlattenSize(es, size, n - 1);
      FlattenPrefix(es, n - 1);
      NextStart(0, size, n - 1);
    }
  }

  // The k-th element is behind those before it.
  lemma FlattenAt(es: seq<seq<u8>>, size: nat, k: nat)
    requires k < |es| && forall i :: 0 <= i < |es| ==> |es[i]| == size
    ensures |Flatten(es)| >= k * size + size && Flatten(es)[k * size..k * size + size] == es[k]
  {
    FlattenSize(es, size, k);
    FlattenPrefix(es, k);
    FlattenAppend(es[..k + 1], es[k + 1..]);
    assert es == es[..k + 1] + es[k + 1..];
  }

  lemma EncodedSize(head: seq<u8>, es: seq<seq<u8>>, size: nat)
    requires forall i :: 0 <= i < |es| ==> |es[i]| == size
    ensures |head + Flatten(es)| == Start(|head|, size, |es|)
  {
    FlattenSize(es, size, |es|);
    assert es[..|es|] == es;
  }

  lemma EncodedElement(head: seq<u8>, es: seq<seq<u8>>, size: nat, k: nat)
    requires k < |es| && forall i :: 0 <= i < |es| ==> |es[i]| == size
    ensures var bs, at, next := head + Flatten(es), Start(|head|, size, k), Start(|head|, size, k + 1);
            at <= next <= |bs| && bs[at..next] == es[k]
  {
    FlattenAt(es, size, k);
    NextStart(|head|, size, k);
    hide Flatten;
  }

  lemma FourBytes(n: nat)
    requires n < 0x1_0000_0000
    ensures n == n % 256 + 256 * (n / 256 % 256) + 65536 * (n / 65536 % 256) + 16777216 * (n / 16777216)
  {
    var a, b := n / 256, n / 65536;
    assert n == n % 256 + 256 * a && a == a % 256 + 256 * (a / 256);
    assert a / 256 == b && b == b % 256 + 256 * (b / 256) && b / 256 == n / 16777216;
  }

  lemma LengthIsRead(before: seq<u8>, n: nat, lenSize: u8)
    requires |before| >= 4
    requires (lenSize == 2 && n < 0x1_0000) || (lenSize == 4 && n < 0x1_0000_0000)
    ensures LengthField(Splice(before, 0, EncodeLength(n, lenSize)), lenSize) == n
  {
    var bs := EncodeLength(n, lenSize);
    var buf := Splice(before, 0, bs);
    assert forall i :: 0 <= i < lenSize ==> buf[i] == bs[i];
    LengthBytes(buf, lenSize);
    hide LengthField, Splice;
    FourBytes(n);
  }

  // The round trip: a length and so many elements, written one behind the other, are read as
  // just these elements, each with its number.
  lemma EncodedListIsRead(before: seq<u8>, es: seq<seq<u8>>, lenSize: u8, valSize: nat)
    requires |before| >= 4
    requires (lenSize == 2 && |es| < 0x1_0000) || (lenSize == 4 && |es| < 0x1_0000_0000)
    requires forall k :: 0 <= k < |es| ==> |es[k]| == valSize
    ensures var bs := EncodeLength(|es|, lenSize) + Flatten(es);
            && LengthField(Splice(before, 0, bs[..lenSize]), lenSize) == |es|
            && |bs| == Start(lenSize, valSize, |es|)
            && forall k :: 0 <= k < |es| ==> Elements(bs, lenSize, valSize, |es|)[k] == Element(es[k], k)
  {
    hide Elements, EncodeLength, Splice, LengthField, Start, Flatten;
    var head := EncodeLength(|es|, lenSize);
    var bs := head + Flatten(es);
    assert bs[..lenSize] == head;
    LengthIsRead(before, |es|, lenSize);
    EncodedSize(head, es, valSize);
    forall k | 0 <= k < |es|
      ensures Elements(bs, lenSize, valSize, |es|)[k] == Element(es[k], k)
    {
      ElementIs(bs, lenSize, valSize, |es|, k);
      EncodedElement(head, es, valSize, k);
    }
  }

  // A range has three elements and no length field.
  lemma RangeIsRead(es: seq<seq<u8>>, valSize: nat)
    requires |es| == 3 && forall k :: 0 <= k < |es| ==> |es[k]| == valSize
    ensures |Flatten(es)| == Start(0, valSize, RANGE_LENGTH)
    ensures Elements(Flatten(es), 0, valSize, RANGE_LENGTH)
            == [Element(es[0], 0), Element(es[1], 1), Element(es[2], 2)]
  {
    hide Elements, Start, Flatten;
    assert [] + Flatten(es) == Flatten(es);
    EncodedSize([], es, valSize);
    forall k | 0 <= k < 3
      ensures Elements(Flatten(es), 0, valSize, 3)[k] == Element(es[k], k)
    {
      ElementIs(Flatten(es), 0, valSize, 3, k);
      EncodedElement([], es, valSize, k);
    }
  }
}
