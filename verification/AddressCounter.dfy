// The numbers of hubs: when the counter of the address pool takes one back.
module AddressCounter {
  import opened MachineInts
  import opened AddressPool

  lemma OneGaveUp(A: seq<u8>, i: nat, v: nat)
    requires i < |A| && GaveUp(A, A[i := 0], v)
    ensures IsHub(A[i]) && Num(A[i]) == v
  {
    FreeEntry();
    hide Num, Parent, IsHub, Reserved;
  }

  lemma GivesUp(A: seq<u8>, i: nat)
    requires i < |A| && IsHub(A[i])
    ensures GaveUp(A, A[i := 0], Num(A[i]))
  {
    assert HubAt(A, i, Num(A[i])) && A[i := 0][i] == 0;
  }

  lemma CounterOfOne(A: seq<u8>, hc: nat, hc': nat, i: nat)
    requires i < |A| && IsHub(A[i]) && 0 < Num(A[i]) <= hc && CounterMoved(A, A[i := 0], hc, hc')
    ensures hc' == if hc == Num(A[i]) then hc - 1 else hc
  {
    hide Num, Parent, IsHub, Reserved, GaveUp;
    if hc == Num(A[i]) {
      GivesUp(A, i);
    }
    if hc' < hc {
      assert GaveUp(A, A[i := 0], hc);
      OneGaveUp(A, i, hc);
    }
    if hc' < hc - 1 {
      assert GaveUp(A, A[i := 0], hc - 1);
      OneGaveUp(A, i, hc - 1);
    }
  }

  lemma LeafIsFreed(P: seq<UsbDevice>, Q: seq<UsbDevice>, hc: nat, i: nat)
    requires |P| == |Q| && i < |P| && TreeInv(Addresses(P), hc) && Freed(P, Q, i)
    requires IsHub(P[i].address) && forall j :: 0 <= j < |P| ==> Parent(P[j].address) != Num(P[i].address)
    ensures Addresses(Q) == Addresses(P)[i := 0]
  {
    var A := Addresses(P);
    hide Num, Parent, IsHub, Reserved, Below;
    FreeEntry();
    forall j | 0 <= j < |P| && j != i
      ensures !InSubtree(A, i, j)
    {
      if InSubtree(A, i, j) {
        NothingBelow(A, A, hc, Num(A[i]), Parent(A[j]));
      }
    }
  }

  // A hub on which nothing hangs gives its number back exactly when that is the last one.
  lemma NumberIsGivenBack(s: Pool, addr: u8, i: int, s': Pool)
    requires PoolInv(s.entries, s.hubCounter) && FreeOf(s, addr, s') && addr != ROOT_HUB && InUse(s, addr, i)
    requires IsHub(addr) && forall j :: 0 <= j < |s.entries| ==> Parent(s.entries[j].address) != addr % 8
    ensures s'.hubCounter == if s.hubCounter == addr % 8 then s.hubCounter - 1 else s.hubCounter
  {
    var A := Addresses(s.entries);
    OneOwner(s, addr, i);
    LeafIsFreed(s.entries, s'.entries, s.hubCounter, i);
    assert A[i] == addr && Num(addr) == addr % 8;
    hide Parent, IsHub, Reserved, Num;
    CounterOfOne(A, s.hubCounter, s'.hubCounter, i);
  }
}
