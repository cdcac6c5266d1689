// AddressPoolImpl: device addresses that encode a tree of hubs in three bit fields.
module AddressPool {
  import opened MachineInts

  // ----- the bit fields of an address, and the tree that a pool of them stands for -----

  const ROOT_HUB: u8 := 0x41
  const MAX_HUBS: u8 := 7

  // bmAddress: the number of a hub, or the port of a device.
  function Num(a: u8): nat { a % 8 }

  // bmParent: the number of the hub that the entry hangs on, 0 at the root.
  function Parent(a: u8): nat { (a / 8) % 8 }

  predicate IsHub(a: u8) { (a / 64) % 2 == 1 }

  predicate Reserved(a: u8) { a >= 0x80 }

  lemma FreeEntry()
    ensures Num(0) == 0 && Parent(0) == 0 && !IsHub(0) && !Reserved(0)
  {
  }

  // Entry k is the hub with number n.
  predicate HubAt(A: seq<u8>, k: int, n: nat) {
    0 <= k < |A| && IsHub(A[k]) && Num(A[k]) == n
  }

  // Live hubs are numbered apart, within the counter, and above their parents; every live
  // entry that is not at the root hangs on a live hub.  A free entry has address 0.
  ghost predicate TreeInv(A: seq<u8>, hubCounter: nat) {
    && 1 <= |A| <= 255 && A[0] == 0 && hubCounter <= MAX_HUBS
    && (forall i :: 0 <= i < |A| ==> !Reserved(A[i]))
    && (forall i :: 0 <= i < |A| && IsHub(A[i]) ==> Parent(A[i]) < Num(A[i]) <= hubCounter)
    && (forall i, j :: 0 <= i < j < |A| && IsHub(A[i]) && IsHub(A[j]) ==> Num(A[i]) != Num(A[j]))
    && (forall i :: 0 <= i < |A| && Parent(A[i]) != 0 ==> exists k :: HubAt(A, k, Parent(A[i])))
  }

  // The hub with number p is hub n or hangs below it.
  ghost predicate Below(A: seq<u8>, p: nat, n: nat)
    decreases p
  {
    p == n || (p > n && exists k :: HubAt(A, k, p) && Parent(A[k]) < p && Below(A, Parent(A[k]), n))
  }

  // Entry j is entry `index`, or hangs below it.
  ghost predicate InSubtree(A: seq<u8>, index: nat, j: nat)
    requires index < |A| && j < |A|
  {
    j == index || (IsHub(A[index]) && Below(A, Parent(A[j]), Num(A[index])))
  }

  // A path down the tree: each entry hangs on the hub before it.
  predicate IsChain(A: seq<u8>, chain: seq<nat>, index: nat, j: nat) {
    && chain != [] && chain[0] == index && chain[|chain| - 1] == j
    && (forall k :: 0 <= k < |chain| ==> chain[k] < |A|)
    && (forall k :: 0 <= k < |chain| - 1 ==>
          IsHub(A[chain[k]]) && Parent(A[chain[k + 1]]) == Num(A[chain[k]]))
  }

  lemma ChainSnoc(A: seq<u8>, up: seq<nat>, index: nat, k: nat, j: nat)
    requires IsChain(A, up, index, k) && j < |A| && IsHub(A[k]) && Parent(A[j]) == Num(A[k])
    ensures IsChain(A, up + [j], index, j)
  {
  }

  lemma {:induction false} BelowHasChain(A: seq<u8>, hc: nat, index: nat, j: nat) returns (chain: seq<nat>)
    requires TreeInv(A, hc) && index < |A| && j < |A|
    requires IsHub(A[index]) && Below(A, Parent(A[j]), Num(A[index]))
    ensures IsChain(A, chain, index, j)
    decreases Parent(A[j])
  {
    hide Num, Parent, IsHub, Reserved;
    var p, n := Parent(A[j]), Num(A[index]);
    if p == n {
      chain := [index, j];
    } else {
      var k :| HubAt(A, k, p) && Parent(A[k]) < p && Below(A, Parent(A[k]), n);
      var up := BelowHasChain(A, hc, index, k);
      chain := up + [j];
      ChainSnoc(A, up, index, k, j);
    }
  }

  lemma BelowIsAbove(A: seq<u8>, p: nat, n: nat)
    requires Below(A, p, n)
    ensures p >= n
  {
  }

  lemma {:induction false} ChainIsBelow(A: seq<u8>, hc: nat, chain: seq<nat>, index: nat, j: nat)
    requires TreeInv(A, hc) && IsChain(A, chain, index, j)
    ensures InSubtree(A, index, j)
    decreases |chain|
  {
    hide Num, Parent, IsHub, Reserved;
    if |chain| > 1 {
      var up := chain[..|chain| - 1];
      var k := up[|up| - 1];
      assert up[0] == index && IsHub(A[k]) && Parent(A[j]) == Num(A[k]);
      ChainIsBelow(A, hc, up, index, k);
      if k != index {
        BelowIsAbove(A, Parent(A[k]), Num(A[index]));
        assert HubAt(A, k, Parent(A[j]));
      } else {
        assert |up| == 1 || IsHub(A[index]);
      }
    }
  }

  // The subtree is what can be reached through the parent relation, in any number of steps.
  lemma SubtreeIsReachable(A: seq<u8>, hc: nat, index: nat, j: nat)
    requires TreeInv(A, hc) && index < |A| && j < |A|
    ensures InSubtree(A, index, j) <==> exists chain :: IsChain(A, chain, index, j)
  {
    if InSubtree(A, index, j) {
      if j == index {
        assert IsChain(A, [index], index, j);
      } else {
        var chain := BelowHasChain(A, hc, index, j);
      }
    }
    forall chain | IsChain(A, chain, index, j)
      ensures InSubtree(A, index, j)
    {
      ChainIsBelow(A, hc, chain, index, j);
    }
  }

  // ----- what freeing some entries does to the tree -----

  // B is A with some entries freed.
  predicate Thinned(A: seq<u8>, B: seq<u8>) {
    |A| == |B| && forall j :: 0 <= j < |A| ==> B[j] == A[j] || B[j] == 0
  }

  lemma {:induction false} BelowMonotone(A: seq<u8>, B: seq<u8>, p: nat, n: nat)
    requires Thinned(A, B) && Below(B, p, n)
    ensures Below(A, p, n)
    decreases p
  {
    hide Num, Parent, IsHub, Reserved;
    FreeEntry();
    if p != n {
      var k :| HubAt(B, k, p) && Parent(B[k]) < p && Below(B, Parent(B[k]), n);
      BelowMonotone(A, B, Parent(B[k]), n);
      assert HubAt(A, k, p);
    }
  }

  lemma {:induction false} BelowTransitive(A: seq<u8>, p: nat, m: nat, n: nat)
    requires Below(A, p, m) && Below(A, m, n)
    ensures Below(A, p, n)
    decreases p
  {
    hide Num, Parent, IsHub, Reserved;
    if p != m {
      var k :| HubAt(A, k, p) && Parent(A[k]) < p && Below(A, Parent(A[k]), m);
      BelowTransitive(A, Parent(A[k]), m, n);
      BelowIsAbove(A, Parent(A[k]), n);
    }
  }

  // Once a hub has no child left, nothing is left below it.
  lemma {:induction false} NothingBelow(A: seq<u8>, B: seq<u8>, hc: nat, n: nat, p: nat)
    requires Thinned(A, B) && TreeInv(A, hc) && Below(A, p, n) && n >= 1
    requires forall i :: 0 <= i < |B| ==> Parent(B[i]) != n
    requires forall i :: 0 <= i < |B| && Parent(B[i]) != 0 ==> exists k :: HubAt(B, k, Parent(B[i]))
    ensures forall i :: 0 <= i < |B| ==> Parent(B[i]) != p
    decreases p
  {
    hide Num, Parent, IsHub, Reserved;
    FreeEntry();
    if p != n {
      var k :| HubAt(A, k, p) && Parent(A[k]) < p && Below(A, Parent(A[k]), n);
      NothingBelow(A, B, hc, n, Parent(A[k]));
      forall k'
        ensures !HubAt(B, k', p)
      {
        if HubAt(B, k', p) {
          assert false;
        }
      }
    }
  }

  // A child's subtree is part of the subtree of the hub that it hangs on.
  lemma ChildSubtree(A: seq<u8>, B: seq<u8>, hc: nat, index: nat, child: nat, j: nat)
    requires Thinned(A, B) && TreeInv(A, hc)
    requires index < |A| && child < |A| && j < |A| && IsHub(A[index])
    requires B[child] == A[child] && Parent(A[child]) == Num(A[index]) && B[j] == A[j]
    requires InSubtree(B, child, j)
    ensures InSubtree(A, index, j)
  {
    hide Num, Parent, IsHub, Reserved;
    FreeEntry();
    var n := Num(A[index]);
    if j != child {
      var m := Num(A[child]);
      BelowMonotone(A, B, Parent(A[j]), m);
      assert HubAt(A, child, m) && Below(A, Parent(A[child]), n);
      assert Below(A, m, n);
      BelowTransitive(A, Parent(A[j]), m, n);
    }
  }

  ghost predicate GaveUp(A: seq<u8>, B: seq<u8>, v: nat)
    requires |A| == |B|
  {
    exists k :: HubAt(A, k, v) && B[k] == 0
  }

  // The counter only gives up numbers of hubs that were freed, and it does give up the
  // last one if that hub was freed.
  ghost predicate CounterMoved(A: seq<u8>, B: seq<u8>, before: nat, after: nat)
    requires |A| == |B|
  {
    && after <= before
    && (forall v: nat :: after < v <= before ==> GaveUp(A, B, v))
    && (GaveUp(A, B, before) ==> after < before)
  }

  lemma CounterMovedTwice(A: seq<u8>, B: seq<u8>, C: seq<u8>, a: nat, b: nat, c: nat)
    requires Thinned(A, B) && Thinned(B, C)
    requires CounterMoved(A, B, a, b) && CounterMoved(B, C, b, c)
    ensures CounterMoved(A, C, a, c)
  {
    hide Num, Parent, IsHub, Reserved;
    FreeEntry();
    forall v: nat | c < v <= a
      ensures GaveUp(A, C, v)
    {
      if v <= b {
        assert GaveUp(B, C, v);
        var k :| HubAt(B, k, v) && C[k] == 0;
        assert HubAt(A, k, v);
      } else {
        assert GaveUp(A, B, v);
        var k :| HubAt(A, k, v) && B[k] == 0;
        assert C[k] == 0;
      }
    }
    if GaveUp(A, C, a) && b == a {
      var k :| HubAt(A, k, a) && C[k] == 0;
      assert B[k] == 0 || HubAt(B, k, a);
      assert GaveUp(A, B, a) || GaveUp(B, C, a);
    }
  }

  lemma CounterStays(A: seq<u8>, hc: nat)
    ensures CounterMoved(A, A, hc, hc)
  {
  }

  // An entry on which nothing hangs can be freed; the counter follows if it is the last hub.
  lemma FreeLeaf(A: seq<u8>, hc: nat, index: nat)
    requires TreeInv(A, hc) && 0 < index < |A|
    requires IsHub(A[index]) ==> forall i :: 0 <= i < |A| ==> Parent(A[i]) != Num(A[index])
    ensures var hc' := if IsHub(A[index]) && hc == Num(A[index]) then hc - 1 else hc;
            hc' >= 0 && TreeInv(A[index := 0], hc') && CounterMoved(A, A[index := 0], hc, hc')
  {
    hide Num, Parent, IsHub, Reserved;
    FreeEntry();
    var B := A[index := 0];
    forall i | 0 <= i < |B| && Parent(B[i]) != 0
      ensures exists k :: HubAt(B, k, Parent(B[i]))
    {
      var k :| HubAt(A, k, Parent(A[i]));
      assert HubAt(B, k, Parent(B[i]));
    }
    if IsHub(A[index]) {
      assert HubAt(A, index, Num(A[index]));
    }
  }

  // ----- the pool -----

  datatype UsbDevice = UsbDevice(address: u8, epcount: u8, lowspeed: bool, epinfo: nat)

  // epinfo 0 stands for the pool's own dev0ep.
  const INIT_ENTRY := UsbDevice(0, 1, false, 0)

  function Addresses(pool: seq<UsbDevice>): (A: seq<u8>)
    ensures |A| == |pool| && forall i :: 0 <= i < |pool| ==> A[i] == pool[i].address
  {
    seq(|pool|, i requires 0 <= i < |pool| => pool[i].address)
  }

  // What every operation keeps, given callers that hang a device or hub only on a live
  // hub, attach one root device, and use a port once.
  ghost predicate PoolInv(pool: seq<UsbDevice>, hubCounter: nat) {
    var A := Addresses(pool);
    && TreeInv(A, hubCounter)
    && (forall i, j :: 0 <= i < j < |A| && A[i] != 0 ==> A[i] != A[j])
    && (forall i :: 0 <= i < |A| && A[i] != 0 && Parent(A[i]) == 0 ==> A[i] == 1 || A[i] == ROOT_HUB)
    && (forall i, j :: 0 <= i < j < |A| && A[i] != 0 && A[j] != 0 ==> Parent(A[i]) != 0 || Parent(A[j]) != 0)
    && (ROOT_HUB !in A ==> hubCounter == 0)
    && (forall i :: 1 <= i < |pool| && pool[i].address == 0 ==> pool[i] == INIT_ENTRY)
  }

  // What freeing entries one by one keeps; the root hub is freed in another way.
  ghost predicate ThinInv(pool: seq<UsbDevice>, hubCounter: nat) {
    && TreeInv(Addresses(pool), hubCounter)
    && (forall i :: 1 <= i < |pool| && pool[i].address == 0 ==> pool[i] == INIT_ENTRY)
  }

  // Between two children: some of what hangs below entry `index` is freed, nothing else.
  ghost predicate PartlyFreed(P: seq<UsbDevice>, Q: seq<UsbDevice>, index: nat)
    requires |P| == |Q| && index < |P|
  {
    && Q[index] == P[index]
    && forall j :: 0 <= j < |P| ==> Q[j] == P[j] || (Q[j] == INIT_ENTRY && InSubtree(Addresses(P), index, j))
  }

  ghost predicate Freed(P: seq<UsbDevice>, Q: seq<UsbDevice>, index: nat)
    requires |P| == |Q| && index < |P|
  {
    forall j :: 0 <= j < |P| ==> Q[j] == if InSubtree(Addresses(P), index, j) then INIT_ENTRY else P[j]
  }

  lemma FreedIsThinned(P: seq<UsbDevice>, Q: seq<UsbDevice>, index: nat)
    requires |P| == |Q| && index < |P| && (PartlyFreed(P, Q, index) || Freed(P, Q, index))
    ensures Thinned(Addresses(P), Addresses(Q))
  {
  }

  // A hub is not part of the subtree of one of its children.
  lemma HubIsNotBelowItsChild(B: seq<u8>, hub: u8, index: nat, child: nat, hc: nat, A: seq<u8>)
    requires TreeInv(A, hc) && Thinned(A, B) && index < |B| && child < |B|
    requires A[index] == B[index] == hub && IsHub(hub) && Parent(B[child]) == Num(hub) && B[child] == A[child]
    ensures !InSubtree(B, child, index)
  {
  }

  lemma FreeChild(P: seq<UsbDevice>, Q: seq<UsbDevice>, R: seq<UsbDevice>, hc: nat, index: nat, child: nat)
    requires |P| == |Q| == |R| && index < |P| && child < |P|
    requires TreeInv(Addresses(P), hc) && IsHub(P[index].address)
    requires PartlyFreed(P, Q, index) && Freed(Q, R, child)
    requires Parent(Q[child].address) == Num(P[index].address)
    ensures PartlyFreed(P, R, index)
  {
    hide Num, Parent, IsHub, Reserved, InSubtree;
    FreeEntry();
    var A, B := Addresses(P), Addresses(Q);
    FreedIsThinned(P, Q, index);
    forall j | 0 <= j < |P| && R[j] != Q[j] && Q[j] == P[j]
      ensures R[j] == INIT_ENTRY && InSubtree(A, index, j)
    {
      ChildSubtree(A, B, hc, index, child, j);
    }
    HubIsNotBelowItsChild(B, A[index], index, child, hc, A);
  }

  lemma NothingFreed(P: seq<UsbDevice>, index: nat)
    requires index < |P|
    ensures PartlyFreed(P, P, index)
  {
  }

  // One turn of the scanning loop.
  lemma AfterChild(P: seq<UsbDevice>, Q: seq<UsbDevice>, R: seq<UsbDevice>,
                   a: nat, b: nat, c: nat, index: nat, child: nat)
    requires |P| == |Q| == |R| && index < |P| && child < |P|
    requires TreeInv(Addresses(P), a) && IsHub(P[index].address)
    requires PartlyFreed(P, Q, index) && Freed(Q, R, child)
    requires CounterMoved(Addresses(P), Addresses(Q), a, b) && CounterMoved(Addresses(Q), Addresses(R), b, c)
    requires Parent(Q[child].address) == Num(P[index].address)
    ensures PartlyFreed(P, R, index) && R[index] == P[index]
    ensures CounterMoved(Addresses(P), Addresses(R), a, c)
    ensures Parent(R[child].address) != Num(P[index].address)
    ensures forall j :: 0 <= j < |P| && Parent(Q[j].address) != Num(P[index].address) ==>
              Parent(R[j].address) != Num(P[index].address)
  {
    hide Num, Parent, IsHub, Reserved, CounterMoved;
    FreeEntry();
    FreeChild(P, Q, R, a, index, child);
    FreedIsThinned(P, Q, index);
    FreedIsThinned(Q, R, child);
    CounterMovedTwice(Addresses(P), Addresses(Q), Addresses(R), a, b, c);
  }

  lemma DescendantFreed(A: seq<u8>, B: seq<u8>, hc: nat, hc': nat, index: nat, j: nat)
    requires Thinned(A, B) && TreeInv(A, hc) && TreeInv(B, hc') && index < |A| && j < |A|
    requires j != index && InSubtree(A, index, j)
    requires forall i :: 0 <= i < |B| ==> Parent(B[i]) != Num(A[index])
    ensures B[j] != A[j]
  {
    hide Num, Parent, IsHub, Reserved;
    NothingBelow(A, B, hc, Num(A[index]), Parent(A[j]));
    assert Parent(B[j]) != Parent(A[j]);
  }

  lemma NoChildLeft(Q: seq<UsbDevice>, hc: nat, index: nat)
    requires index < |Q| && TreeInv(Addresses(Q), hc) && IsHub(Q[index].address)
    requires forall j :: 1 <= j < |Q| ==> Parent(Q[j].address) != Num(Q[index].address)
    ensures forall j :: 0 <= j < |Q| ==> Parent(Addresses(Q)[j]) != Num(Q[index].address)
  {
    hide Num, Parent, IsHub, Reserved;
    FreeEntry();
  }

  // When no child is left, all that hangs below the hub is freed.
  lemma AllFreed(P: seq<UsbDevice>, Q: seq<UsbDevice>, hc: nat, hc': nat, index: nat)
    requires |P| == |Q| && 0 < index < |P| && PartlyFreed(P, Q, index)
    requires TreeInv(Addresses(P), hc) && TreeInv(Addresses(Q), hc')
    requires IsHub(P[index].address) ==>
               forall j :: 0 <= j < |Q| ==> Parent(Addresses(Q)[j]) != Num(P[index].address)
    ensures Freed(P, Q[index := INIT_ENTRY], index)
  {
    hide Num, Parent, IsHub, Reserved, TreeInv, Thinned, Below;
    FreedIsThinned(P, Q, index);
    forall j | 0 <= j < |P| && j != index && InSubtree(Addresses(P), index, j)
      ensures Q[j] == INIT_ENTRY
    {
      DescendantFreed(Addresses(P), Addresses(Q), hc, hc', index, j);
    }
  }

  lemma AfterEntry(P: seq<UsbDevice>, Q: seq<UsbDevice>, R: seq<UsbDevice>, a: nat, b: nat, c: nat, index: nat)
    requires |P| == |Q| == |R| && index < |P| && PartlyFreed(P, Q, index) && R == Q[index := INIT_ENTRY]
    requires CounterMoved(Addresses(P), Addresses(Q), a, b)
    requires CounterMoved(Addresses(Q), Addresses(Q)[index := 0], b, c)
    ensures Addresses(R) == Addresses(Q)[index := 0]
    ensures CounterMoved(Addresses(P), Addresses(R), a, c)
  {
    hide CounterMoved;
    FreedIsThinned(P, Q, index);
    assert Addresses(R) == Addresses(Q)[index := 0];
    CounterMovedTwice(Addresses(P), Addresses(Q), Addresses(R), a, b, c);
  }

  // The measure of the recursion: a child hub has a higher number than the hub above it.
  ghost function Rank(a: u8): nat {
    if IsHub(a) then 8 - Num(a) else 0
  }

  lemma RankDrops(A: seq<u8>, hc: nat, index: nat, child: nat)
    requires TreeInv(A, hc) && index < |A| && child < |A|
    requires IsHub(A[index]) && Parent(A[child]) == Num(A[index])
    ensures Rank(A[child]) < Rank(A[index]) && A[child] != 0
  {
  }

  // ----- allocation -----

  // The address that AllocAddress makes up, put together bit field by bit field.
  function NewAddress(parent: u8, isHub: bool, port: u8, hubCounter: u8): (a: u8)
    requires port <= 7 && hubCounter <= 7 && (isHub ==> hubCounter < 7)
    ensures a < 0x80
  {
    if parent == 0 then (if isHub then ROOT_HUB else 1)
    else if isHub then 64 + 8 * Num(parent) + (hubCounter + 1)
    else 8 * Num(parent) + port
  }

  lemma BitFields(hub: nat, p: nat, n: nat)
    requires hub <= 1 && p <= 7 && n <= 7
    ensures var a := 64 * hub + 8 * p + n;
            Num(a) == n && Parent(a) == p && IsHub(a) == (hub == 1) && !Reserved(a)
  {
  }

  lemma RootHubFields()
    ensures IsHub(ROOT_HUB) && Num(ROOT_HUB) == 1 && Parent(ROOT_HUB) == 0 && Parent(1) == 0 && !IsHub(1)
  {
  }

  lemma NewAddressFields(parent: u8, isHub: bool, port: u8, hubCounter: u8)
    requires port <= 7 && hubCounter <= 7 && (isHub ==> hubCounter < 7)
    ensures var a := NewAddress(parent, isHub, port, hubCounter);
            && IsHub(a) == isHub && !Reserved(a)
            && Parent(a) == (if parent == 0 then 0 else Num(parent))
            && Num(a) == (if parent == 0 then 1 else if isHub then hubCounter + 1 else port)
  {
    if parent == 0 {
      RootHubFields();
    } else if isHub {
      BitFields(1, Num(parent), hubCounter + 1);
    } else {
      BitFields(0, Num(parent), port);
    }
  }

  // What a caller has to see to: one device at the root, only live hubs as parents, and
  // no port used twice.
  predicate Attachable(A: seq<u8>, parent: u8, isHub: bool, port: u8) {
    if parent == 0 then forall i :: 0 <= i < |A| && A[i] != 0 ==> Parent(A[i]) != 0
    else
      && parent in A && IsHub(parent)
      && (!isHub && port <= 7 ==> NewAddress(parent, isHub, port, 0) !in A)
  }

  predicate FirstFree(pool: seq<UsbDevice>, index: nat) {
    && 1 <= index < |pool| && pool[index].address == 0
    && forall j :: 1 <= j < index ==> pool[j].address != 0
  }

  function WithAddress(pool: seq<UsbDevice>, index: nat, a: u8): seq<UsbDevice>
    requires index < |pool|
  {
    pool[index := pool[index].(address := a)]
  }

  lemma AllocKeepsTree(A: seq<u8>, hc: u8, index: nat, parent: u8, isHub: bool, port: u8)
    requires TreeInv(A, hc) && 0 < index < |A| && A[index] == 0
    requires parent == 0 ==> hc == 0
    requires Attachable(A, parent, isHub, port) && port <= 7 && (isHub ==> hc < 7)
    ensures TreeInv(A[index := NewAddress(parent, isHub, port, hc)], if isHub then hc + 1 else hc)
  {
    NewAddressFields(parent, isHub, port, hc);
    FreeEntry();
    hide Num, Parent, IsHub, Reserved, NewAddress;
    var a := NewAddress(parent, isHub, port, hc);
    var B := A[index := a];
    forall i | 0 <= i < |B| && Parent(B[i]) != 0
      ensures exists k :: HubAt(B, k, Parent(B[i]))
    {
      if i == index {
        var k :| 0 <= k < |A| && A[k] == parent;
        assert HubAt(B, k, Parent(a));
      } else {
        var k :| HubAt(A, k, Parent(A[i]));
        assert HubAt(B, k, Parent(B[i]));
      }
    }
  }

  lemma OneMoreEntry(pool: seq<UsbDevice>, hc: nat, hc': nat, index: nat, a: u8)
    requires PoolInv(pool, hc) && 0 < index < |pool| && pool[index].address == 0
    requires TreeInv(Addresses(pool)[index := a], hc') && a != 0 && a !in Addresses(pool)
    requires Parent(a) == 0 ==> a == 1 || a == ROOT_HUB
    requires Parent(a) == 0 ==> forall i :: 0 <= i < |pool| && pool[i].address != 0 ==> Parent(pool[i].address) != 0
    requires ROOT_HUB in Addresses(pool)[index := a] || hc' == 0
    ensures PoolInv(WithAddress(pool, index, a), hc')
  {
    hide Num, Parent, IsHub, Reserved, TreeInv;
    assert Addresses(WithAddress(pool, index, a)) == Addresses(pool)[index := a];
  }

  lemma RootIsThere(A: seq<u8>, hc: u8, index: nat, parent: u8, a: u8)
    requires TreeInv(A, hc) && (ROOT_HUB !in A ==> hc == 0) && 0 < index < |A| && A[index] == 0
    requires parent == 0 ==> forall i :: 0 <= i < |A| && A[i] != 0 ==> Parent(A[i]) != 0
    requires parent != 0 ==> parent in A && IsHub(parent)
    ensures parent == 0 ==> hc == 0
    ensures parent != 0 ==> ROOT_HUB in A[index := a] && Parent(parent) < Num(parent)
  {
    RootHubFields();
    hide Num, Parent, IsHub, Reserved;
    if parent == 0 {
      assert ROOT_HUB !in A;
    } else {
      var k :| 0 <= k < |A| && A[k] == parent;
      assert IsHub(A[k]) && hc >= 1;
      var r :| 0 <= r < |A| && A[r] == ROOT_HUB;
      assert A[index := a][r] == ROOT_HUB;
    }
  }

  lemma NewAddressIsNew(A: seq<u8>, hc: u8, index: nat, parent: u8, isHub: bool, port: u8)
    requires TreeInv(A, hc) && 0 < index < |A|
    requires forall i :: 0 <= i < |A| && A[i] != 0 && Parent(A[i]) == 0 ==> A[i] == 1 || A[i] == ROOT_HUB
    requires Attachable(A, parent, isHub, port) && port <= 7 && (isHub ==> hc < 7)
    ensures NewAddress(parent, isHub, port, hc) != 0 && NewAddress(parent, isHub, port, hc) !in A
  {
    NewAddressFields(parent, isHub, port, hc);
    FreeEntry();
    RootHubFields();
    var a := NewAddress(parent, isHub, port, hc);
    assert !isHub ==> a == NewAddress(parent, isHub, port, 0);
    assert parent == 0 ==> a == if isHub then ROOT_HUB else 1;
    hide Num, Parent, IsHub, Reserved, NewAddress;
    if parent != 0 {
      var k :| 0 <= k < |A| && A[k] == parent;
      assert Num(parent) > 0;
    }
  }

  lemma AllocKeepsPool(pool: seq<UsbDevice>, hc: u8, index: nat, parent: u8, isHub: bool, port: u8)
    requires PoolInv(pool, hc) && FirstFree(pool, index)
    requires Attachable(Addresses(pool), parent, isHub, port) && port <= 7 && (isHub ==> hc < 7)
    ensures PoolInv(WithAddress(pool, index, NewAddress(parent, isHub, port, hc)), if isHub then hc + 1 else hc)
    ensures NewAddress(parent, isHub, port, hc) != 0
  {
    NewAddressFields(parent, isHub, port, hc);
    FreeEntry();
    RootHubFields();
    var A, a := Addresses(pool), NewAddress(parent, isHub, port, hc);
    var B := A[index := a];
    assert !isHub ==> a == NewAddress(parent, isHub, port, 0);
    assert parent == 0 ==> a == if isHub then ROOT_HUB else 1;
    hide Num, Parent, IsHub, Reserved, NewAddress;
    assert Addresses(WithAddress(pool, index, a)) == B;
    RootIsThere(A, hc, index, parent, a);
    AllocKeepsTree(A, hc, index, parent, isHub, port);
    NewAddressIsNew(A, hc, index, parent, isHub, port);
    hide PoolInv, TreeInv;
    assert B[index] == a;
    OneMoreEntry(pool, hc, if isHub then hc + 1 else hc, index, a);
  }

  // ----- freeing -----

  // With a hub at the root, everything hangs below it.
  lemma {:induction false} BelowRoot(pool: seq<UsbDevice>, hc: nat, r: nat, p: nat)
    requires PoolInv(pool, hc) && r < |pool| && pool[r].address == ROOT_HUB
    requires exists k :: HubAt(Addresses(pool), k, p)
    ensures Below(Addresses(pool), p, 1)
    decreases p
  {
    FreeEntry();
    RootHubFields();
    hide Num, Parent, IsHub, Reserved;
    var A := Addresses(pool);
    if p != 1 {
      var k :| HubAt(A, k, p);
      BelowRoot(pool, hc, r, Parent(A[k]));
    }
  }

  lemma RootSubtreeIsAll(pool: seq<UsbDevice>, hc: nat, r: nat)
    requires PoolInv(pool, hc) && r < |pool| && pool[r].address == ROOT_HUB
    ensures forall j :: 0 <= j < |pool| && pool[j].address != 0 ==> InSubtree(Addresses(pool), r, j)
  {
    RootHubFields();
    hide Num, Parent, IsHub, Reserved;
    var A := Addresses(pool);
    forall j | 0 <= j < |pool| && A[j] != 0
      ensures InSubtree(A, r, j)
    {
      if Parent(A[j]) != 0 {
        BelowRoot(pool, hc, r, Parent(A[j]));
      }
    }
  }

  lemma FreeingNothing(P: seq<UsbDevice>, Q: seq<UsbDevice>, hc: nat, hc': nat, index: nat)
    requires |P| == |Q| && index < |P| && P[index] == INIT_ENTRY && Freed(P, Q, index)
    requires CounterMoved(Addresses(P), Addresses(Q), hc, hc')
    ensures P == Q && hc == hc'
  {
    FreeEntry();
    hide Num, Parent, IsHub, Reserved;
    assert forall j :: 0 <= j < |P| ==> Q[j] == P[j];
    assert !GaveUp(Addresses(P), Addresses(Q), hc);
  }

  // The reserved entry 0 is in no hub's subtree.
  lemma RootHasNoParent(P: seq<UsbDevice>, hc: nat, r: nat)
    requires TreeInv(Addresses(P), hc) && 1 <= r < |P| && P[r].address == ROOT_HUB
    ensures !InSubtree(Addresses(P), r, 0)
  {
  }

  // Clearing the pool frees exactly the subtree of the root hub when there is one.
  lemma RootFreed(P: seq<UsbDevice>, Q: seq<UsbDevice>, hc: nat, r: nat)
    requires PoolInv(P, hc) && |P| == |Q| && Q[0] == P[0]
    requires forall i :: 1 <= i < |Q| ==> Q[i] == INIT_ENTRY
    requires 1 <= r < |P| && P[r].address == ROOT_HUB
    ensures Freed(P, Q, r)
  {
    hide Num, Parent, IsHub, Reserved, TreeInv;
    RootHubFields();
    FreeEntry();
    RootSubtreeIsAll(P, hc, r);
    RootHasNoParent(P, hc, r);
    hide PoolInv, InSubtree;
  }

  lemma FreeKeepsPool(P: seq<UsbDevice>, Q: seq<UsbDevice>, hc: nat, hc': nat, index: nat)
    requires PoolInv(P, hc) && |P| == |Q| && 0 < index < |P| && P[index].address != ROOT_HUB
    requires ThinInv(Q, hc') && Freed(P, Q, index) && hc' <= hc
    ensures PoolInv(Q, hc')
  {
    FreeEntry();
    RootHubFields();
    hide Num, Parent, IsHub, Reserved;
    FreedIsThinned(P, Q, index);
    var A, B := Addresses(P), Addresses(Q);
    if ROOT_HUB in A {
      var r :| 0 <= r < |A| && A[r] == ROOT_HUB;
      if InSubtree(A, index, r) {
        BelowIsAbove(A, 0, Num(A[index]));
      }
      assert B[r] == ROOT_HUB;
    }
  }

  lemma RootIsNotFree(P: seq<UsbDevice>, hc: nat)
    requires PoolInv(P, hc) && forall i :: 1 <= i < |P| ==> P[i].address == 0
    ensures hc == 0
  {
    assert Addresses(P)[0] == 0;
  }

  // Clearing a pool changes nothing exactly when nothing is in use.
  lemma ClearedIsSame(P: seq<UsbDevice>, Q: seq<UsbDevice>, hc: nat)
    requires PoolInv(P, hc) && |P| == |Q| && Q[0] == P[0]
    requires forall i :: 1 <= i < |Q| ==> Q[i] == INIT_ENTRY
    ensures P == Q && hc == 0 <==> forall i :: 1 <= i < |P| ==> P[i].address == 0
  {
    hide TreeInv;
    if forall i :: 1 <= i < |P| ==> P[i].address == 0 {
      RootIsNotFree(P, hc);
    }
  }

  // ----- whole runs -----

  datatype Pool = Pool(entries: seq<UsbDevice>, hubCounter: u8)

  datatype Op = Alloc(parent: u8, isHub: bool, port: u8) | Free(addr: u8)

  // What AllocAddress does to a pool.
  ghost predicate AllocOf(s: Pool, parent: u8, isHub: bool, port: u8, s': Pool) {
    if Reserved(parent) || port > 7 || s.hubCounter > MAX_HUBS || (isHub && s.hubCounter == MAX_HUBS)
       || !(exists i :: FirstFree(s.entries, i))
    then s' == s
    else
      exists i :: FirstFree(s.entries, i)
        && s' == Pool(WithAddress(s.entries, i, NewAddress(parent, isHub, port, s.hubCounter)),
                      if isHub then s.hubCounter + 1 else s.hubCounter)
  }

  predicate InUse(s: Pool, addr: u8, i: int) {
    1 <= i < |s.entries| && addr != 0 && s.entries[i].address == addr
  }

  // What FreeAddress does to a pool.
  ghost predicate FreeOf(s: Pool, addr: u8, s': Pool) {
    && |s.entries| == |s'.entries| >= 1
    && if addr == ROOT_HUB then
         && s'.hubCounter == 0 && s'.entries[0] == s.entries[0]
         && forall i :: 1 <= i < |s.entries| ==> s'.entries[i] == INIT_ENTRY
       else if !(exists i :: InUse(s, addr, i)) then s' == s
       else
         exists i :: InUse(s, addr, i) && Freed(s.entries, s'.entries, i)
           && CounterMoved(Addresses(s.entries), Addresses(s'.entries), s.hubCounter, s'.hubCounter)
  }

  ghost predicate Allowed(s: Pool, op: Op) {
    op.Alloc? ==> Attachable(Addresses(s.entries), op.parent, op.isHub, op.port)
  }

  ghost predicate Next(s: Pool, op: Op, s': Pool) {
    match op
    case Alloc(parent, isHub, port) => AllocOf(s, parent, isHub, port, s')
    case Free(addr) => FreeOf(s, addr, s')
  }

  predicate IsEmpty(s: Pool) {
    && 1 <= |s.entries| <= 255 && s.hubCounter == 0
    && forall i :: 0 <= i < |s.entries| ==> s.entries[i] == INIT_ENTRY
  }

  // A run of allocations and frees, starting from an empty pool.
  ghost predicate IsRun(states: seq<Pool>, ops: seq<Op>) {
    && |states| == |ops| + 1 && IsEmpty(states[0])
    && forall k :: 0 <= k < |ops| ==> Allowed(states[k], ops[k]) && Next(states[k], ops[k], states[k + 1])
  }

  lemma ThinnedFields(A: seq<u8>, B: seq<u8>)
    requires Thinned(A, B)
    ensures |A| == |B|
    ensures forall j :: 0 <= j < |A| && (IsHub(B[j]) || Parent(B[j]) != 0 || Reserved(B[j])) ==> B[j] == A[j]
  {
    FreeEntry();
    hide Num, Parent, IsHub, Reserved;
  }

  // A hub that is still live has a number within the counter.
  lemma LiveHubsAreCounted(A: seq<u8>, B: seq<u8>, hc: nat, hc': nat)
    requires Thinned(A, B) && TreeInv(A, hc) && CounterMoved(A, B, hc, hc')
    ensures hc' <= hc && forall i :: 0 <= i < |B| && IsHub(B[i]) ==> Num(B[i]) <= hc'
  {
    ThinnedFields(A, B);
    hide Num, Parent, IsHub, Reserved;
    forall i | 0 <= i < |B| && IsHub(B[i])
      ensures Num(B[i]) <= hc'
    {
      if Num(B[i]) > hc' {
        assert GaveUp(A, B, Num(B[i]));
        var k :| HubAt(A, k, Num(B[i])) && B[k] == 0;
        assert false;
      }
    }
  }

  // What hangs on a hub of a subtree belongs to the subtree.
  lemma ChildOfSubtree(A: seq<u8>, hc: nat, index: nat, k: nat, i: nat)
    requires TreeInv(A, hc) && index < |A| && k < |A| && i < |A|
    requires InSubtree(A, index, k) && HubAt(A, k, Parent(A[i]))
    ensures InSubtree(A, index, i)
  {
    hide Num, Parent, IsHub, Reserved;
    if k != index {
      BelowIsAbove(A, Parent(A[k]), Num(A[index]));
    }
  }

  lemma FreedKeepsTree(P: seq<UsbDevice>, Q: seq<UsbDevice>, hc: nat, hc': nat, index: nat)
    requires PoolInv(P, hc) && |P| == |Q| && 0 < index < |P| && Freed(P, Q, index)
    requires CounterMoved(Addresses(P), Addresses(Q), hc, hc')
    ensures ThinInv(Q, hc')
  {
    hide Num, Parent, IsHub, Reserved, InSubtree, CounterMoved, Thinned;
    FreedIsThinned(P, Q, index);
    var A, B := Addresses(P), Addresses(Q);
    LiveHubsAreCounted(A, B, hc, hc');
    ThinnedFields(A, B);
    forall i | 0 <= i < |B| && Parent(B[i]) != 0
      ensures exists k :: HubAt(B, k, Parent(B[i]))
    {
      var k :| HubAt(A, k, Parent(A[i]));
      if InSubtree(A, index, k) {
        ChildOfSubtree(A, hc, index, k, i);
      }
      assert HubAt(B, k, Parent(B[i]));
    }
  }

  lemma EmptyKeepsPool(s: Pool)
    requires IsEmpty(s)
    ensures PoolInv(s.entries, s.hubCounter)
  {
    FreeEntry();
    hide Num, Parent, IsHub, Reserved;
  }

  lemma ClearedKeepsPool(P: seq<UsbDevice>, Q: seq<UsbDevice>, hc: nat)
    requires PoolInv(P, hc) && |P| == |Q| && Q[0] == P[0]
    requires forall i :: 1 <= i < |Q| ==> Q[i] == INIT_ENTRY
    ensures PoolInv(Q, 0)
  {
    FreeEntry();
    hide Num, Parent, IsHub, Reserved;
    assert forall i :: 0 <= i < |Q| ==> Addresses(Q)[i] == 0;
  }

  lemma CounterDoesNotGrow(A: seq<u8>, B: seq<u8>, before: nat, after: nat)
    requires |A| == |B| && CounterMoved(A, B, before, after)
    ensures after <= before
  {
  }

  lemma NextKeepsPool(s: Pool, op: Op, s': Pool)
    requires PoolInv(s.entries, s.hubCounter) && Allowed(s, op) && Next(s, op, s')
    ensures PoolInv(s'.entries, s'.hubCounter)
  {
    hide PoolInv, ThinInv, Attachable, Freed, CounterMoved, TreeInv, Num, Parent, IsHub, Reserved;
    match op
    case Alloc(parent, isHub, port) =>
      if s' != s {
        var i :| FirstFree(s.entries, i)
                 && s' == Pool(WithAddress(s.entries, i, NewAddress(parent, isHub, port, s.hubCounter)),
                               if isHub then s.hubCounter + 1 else s.hubCounter);
        AllocKeepsPool(s.entries, s.hubCounter, i, parent, isHub, port);
      }
    case Free(addr) =>
      if addr == ROOT_HUB {
        ClearedKeepsPool(s.entries, s'.entries, s.hubCounter);
      } else if s' != s {
        var i :| InUse(s, addr, i) && Freed(s.entries, s'.entries, i)
                 && CounterMoved(Addresses(s.entries), Addresses(s'.entries), s.hubCounter, s'.hubCounter);
        FreedKeepsTree(s.entries, s'.entries, s.hubCounter, s'.hubCounter, i);
        CounterDoesNotGrow(Addresses(s.entries), Addresses(s'.entries), s.hubCounter, s'.hubCounter);
        FreeKeepsPool(s.entries, s'.entries, s.hubCounter, s'.hubCounter, i);
      }
  }

  // In every run the invariant holds all the time: live hub numbers are distinct, within
  // 1..hubCounter and above those of their parents, and live addresses are distinct.
  lemma {:induction false} RunsKeepPool(states: seq<Pool>, ops: seq<Op>, k: nat)
    requires IsRun(states, ops) && k < |states|
    ensures PoolInv(states[k].entries, states[k].hubCounter)
  {
    hide PoolInv, Next, Allowed, IsEmpty;
    if k == 0 {
      EmptyKeepsPool(states[0]);
    } else {
      RunsKeepPool(states, ops, k - 1);
      assert Allowed(states[k - 1], ops[k - 1]) && Next(states[k - 1], ops[k - 1], states[k]);
      NextKeepsPool(states[k - 1], ops[k - 1], states[k]);
    }
  }

  lemma PoolIsThin(s: Pool)
    requires PoolInv(s.entries, s.hubCounter)
    ensures ThinInv(s.entries, s.hubCounter) && |s.entries| >= 1
  {
  }

  lemma RootIsFreed(s: Pool, s': Pool)
    requires PoolInv(s.entries, s.hubCounter) && |s.entries| == |s'.entries| >= 1
    requires s'.hubCounter == 0 && s'.entries[0] == s.entries[0]
    requires forall i :: 1 <= i < |s.entries| ==> s'.entries[i] == INIT_ENTRY
    ensures FreeOf(s, ROOT_HUB, s') && PoolInv(s'.entries, s'.hubCounter)
  {
    ClearedKeepsPool(s.entries, s'.entries, s.hubCounter);
  }

  // What freeing the entry that was found for an address amounts to; for address 0 that is
  // a free entry, and nothing happens.
  lemma EntryIsFreed(s: Pool, addr: u8, index: nat, s': Pool)
    requires PoolInv(s.entries, s.hubCounter) && ThinInv(s'.entries, s'.hubCounter)
    requires |s.entries| == |s'.entries| && index < |s.entries| && addr != ROOT_HUB
    requires index != 0 ==> s.entries[index].address == addr && Freed(s.entries, s'.entries, index)
    requires index == 0 ==> s' == s && forall j :: 1 <= j < |s.entries| ==> s.entries[j].address != addr
    requires CounterMoved(Addresses(s.entries), Addresses(s'.entries), s.hubCounter, s'.hubCounter)
    ensures FreeOf(s, addr, s') && PoolInv(s'.entries, s'.hubCounter)
  {
    if index != 0 {
      if addr == 0 {
        FreeingNothing(s.entries, s'.entries, s.hubCounter, s'.hubCounter, index);
      } else {
        hide PoolInv, Freed, CounterMoved, ThinInv, TreeInv;
        CounterDoesNotGrow(Addresses(s.entries), Addresses(s'.entries), s.hubCounter, s'.hubCounter);
        FreeKeepsPool(s.entries, s'.entries, s.hubCounter, s'.hubCounter, index);
        assert InUse(s, addr, index);
      }
    }
  }

  // A live address has one entry only.
  lemma OneOwner(s: Pool, addr: u8, i: int)
    requires PoolInv(s.entries, s.hubCounter) && InUse(s, addr, i)
    ensures forall j :: InUse(s, addr, j) ==> j == i
  {
    hide TreeInv;
    var A := Addresses(s.entries);
    forall j | InUse(s, addr, j)
      ensures j == i
    {
      assert A[i] == A[j] && A[i] != 0;
    }
  }

  // What FreeOf means to a caller.
  lemma FreeMeans(s: Pool, addr: u8, s': Pool)
    requires PoolInv(s.entries, s.hubCounter) && FreeOf(s, addr, s')
    ensures |s.entries| == |s'.entries|
    ensures forall i :: InUse(s, addr, i) ==> Freed(s.entries, s'.entries, i)
    ensures addr != ROOT_HUB && !(exists i :: InUse(s, addr, i)) ==> s' == s
    ensures addr == ROOT_HUB ==>
              && s'.hubCounter == 0 && s'.entries[0] == s.entries[0]
              && forall i :: 1 <= i < |s.entries| ==> s'.entries[i] == INIT_ENTRY
    ensures addr != 0 && !(exists i :: InUse(s, addr, i)) ==>
              (s' == s <==> addr != ROOT_HUB || forall i :: 1 <= i < |s.entries| ==> s.entries[i].address == 0)
  {
    hide Freed, CounterMoved, TreeInv;
    if addr == ROOT_HUB {
      ClearedIsSame(s.entries, s'.entries, s.hubCounter);
    }
    forall i | InUse(s, addr, i)
      ensures Freed(s.entries, s'.entries, i)
    {
      if addr == ROOT_HUB {
        RootFreed(s.entries, s'.entries, s.hubCounter, i);
      } else {
        OneOwner(s, addr, i);
      }
    }
  }

  class AddressPoolImpl {
    const thePool: array<UsbDevice>
    var hubCounter: u8

    constructor (maxDevices: nat)
      requires 1 <= maxDevices <= 255
      ensures fresh(thePool) && thePool.Length == maxDevices
      ensures PoolInv(thePool[..], hubCounter)
      ensures hubCounter == 0 && forall i :: 0 <= i < maxDevices ==> thePool[i] == INIT_ENTRY
    {
      thePool := new UsbDevice[maxDevices](i => INIT_ENTRY);
      hubCounter := 0;
      new;
      InitAllAddresses();
      hide PoolInv;
      EmptyKeepsPool(Pool(thePool[..], hubCounter));
    }

    method InitEntry(index: nat)
      requires index < thePool.Length
      modifies thePool
      ensures thePool[..] == old(thePool[..])[index := INIT_ENTRY]
    {
      thePool[index] := INIT_ENTRY;
    }

    // The first entry from 1 on with this address, 0 when there is none.
    method FindAddressIndex(address: u8) returns (index: nat)
      requires thePool.Length >= 1
      ensures index < thePool.Length
      ensures index != 0 ==> thePool[index].address == address
      ensures forall j :: 1 <= j < (if index == 0 then thePool.Length else index) ==> thePool[j].address != address
    {
      for i := 1 to thePool.Length
        invariant forall j :: 1 <= j < i ==> thePool[j].address != address
      {
        if thePool[i].address == address {
          return i;
        }
      }
      return 0;
    }

    // The first entry from `start` on whose parent field is the number of this hub.
    method FindChildIndex(addr: u8, start: nat) returns (index: nat)
      requires thePool.Length >= 1
      ensures index < thePool.Length
      ensures var first := if start < 1 || start >= thePool.Length then 1 else start;
              && (index != 0 ==> first <= index && Parent(thePool[index].address) == Num(addr))
              && (forall j :: first <= j < (if index == 0 then thePool.Length else index) ==>
                    Parent(thePool[j].address) != Num(addr))
    {
      var first := if start < 1 || start >= thePool.Length then 1 else start;
      for i := first to thePool.Length
        invariant forall j :: first <= j < i ==> Parent(thePool[j].address) != Num(addr)
      {
        if Parent(thePool[i].address) == Num(addr) {
          return i;
        }
      }
      return 0;
    }

    // Frees entry `index` and everything below it, and nothing else.
    method FreeAddressByIndex(index: nat)
      requires index < thePool.Length && ThinInv(thePool[..], hubCounter)
      modifies this, thePool
      ensures ThinInv(thePool[..], hubCounter)
      ensures index == 0 ==> thePool[..] == old(thePool[..]) && hubCounter == old(hubCounter)
      ensures index != 0 ==> Freed(old(thePool[..]), thePool[..], index)
      ensures CounterMoved(old(Addresses(thePool[..])), Addresses(thePool[..]), old(hubCounter), hubCounter)
      decreases Rank(thePool[index].address)
    {
      hide Num, Parent, IsHub, Reserved, InSubtree, TreeInv, CounterMoved, Freed, PartlyFreed, Rank, Thinned;
      ghost var P, hc := thePool[..], hubCounter;
      CounterStays(Addresses(P), hc);
      if index == 0 {
        return;
      }
      var uda := thePool[index].address;
      NothingFreed(P, index);
      if IsHub(uda) {
        var i := FindChildIndex(uda, 1);
        while i != 0
          invariant i < thePool.Length && ThinInv(thePool[..], hubCounter)
          invariant PartlyFreed(P, thePool[..], index) && thePool[index] == P[index]
          invariant CounterMoved(Addresses(P), Addresses(thePool[..]), hc, hubCounter)
          invariant i != 0 ==> Parent(thePool[i].address) == Num(uda)
          invariant forall j :: 1 <= j < (if i == 0 then thePool.Length else i) ==>
                      Parent(thePool[j].address) != Num(uda)
          decreases if i == 0 then 0 else thePool.Length - i
        {
          ghost var Q, before := thePool[..], hubCounter;
          RankDrops(Addresses(Q), hubCounter, index, i);
          FreeAddressByIndex(i);
          AfterChild(P, Q, thePool[..], hc, before, hubCounter, index, i);
          i := FindChildIndex(uda, i);
        }
      }
      ghost var Q, before := thePool[..], hubCounter;
      if IsHub(uda) {
        NoChildLeft(Q, before, index);
      }
      AllFreed(P, Q, hc, before, index);
      FreeLeaf(Addresses(Q), before, index);
      if IsHub(uda) && hubCounter == Num(uda) {
        hubCounter := hubCounter - 1;
      }
      InitEntry(index);
      AfterEntry(P, Q, thePool[..], hc, before, hubCounter, index);
    }

    method InitAllAddresses()
      requires thePool.Length >= 1
      modifies this, thePool
      ensures hubCounter == 0 && thePool[0] == old(thePool[0])
      ensures forall i :: 1 <= i < thePool.Length ==> thePool[i] == INIT_ENTRY
    {
      for i := 1 to thePool.Length
        invariant thePool[0] == old(thePool[0])
        invariant forall j :: 1 <= j < i ==> thePool[j] == INIT_ENTRY
      {
        InitEntry(i);
      }
      hubCounter := 0;
    }

    // The entry of an address, with entry 0 for address 0; -1 stands for the null pointer.
    method GetUsbDevicePtr(addr: u8) returns (p: int)
      requires thePool.Length >= 1
      ensures -1 <= p < thePool.Length
      ensures addr == 0 ==> p == 0
      ensures addr != 0 && p >= 0 ==> p >= 1 && thePool[p].address == addr
      ensures p < 0 ==> forall j :: 1 <= j < thePool.Length ==> thePool[j].address != addr
    {
      if addr == 0 {
        return 0;
      }
      var index := FindAddressIndex(addr);
      return if index == 0 then -1 else index;
    }

    method AllocAddress(parent: u8, isHub: bool, port: u8) returns (addr: u8)
      requires thePool.Length >= 1 && hubCounter <= MAX_HUBS
      modifies this, thePool
      ensures Reserved(parent) || port > 7 || (isHub && old(hubCounter) == MAX_HUBS)
              || !(exists i :: FirstFree(old(thePool[..]), i))
              ==> addr == 0 && thePool[..] == old(thePool[..]) && hubCounter == old(hubCounter)
      ensures forall i :: FirstFree(old(thePool[..]), i) && !Reserved(parent) && port <= 7
                          && !(isHub && old(hubCounter) == MAX_HUBS) ==>
                && addr == NewAddress(parent, isHub, port, old(hubCounter))
                && thePool[..] == WithAddress(old(thePool[..]), i, addr)
                && hubCounter == if isHub then old(hubCounter) + 1 else old(hubCounter)
      ensures AllocOf(old(Pool(thePool[..], hubCounter)), parent, isHub, port, Pool(thePool[..], hubCounter))
      ensures old(PoolInv(thePool[..], hubCounter)) && Attachable(old(Addresses(thePool[..])), parent, isHub, port)
              ==> PoolInv(thePool[..], hubCounter)
                  && (addr != 0 ==> (exists i :: 1 <= i < thePool.Length && thePool[i].address == addr))
                  && (addr == 0 ==> thePool[..] == old(thePool[..]))
    {
      hide PoolInv, Attachable;
      if Reserved(parent) || port > 7 {
        return 0;
      }
      if isHub && hubCounter == MAX_HUBS {
        return 0;
      }
      var index := FindAddressIndex(0);
      if index == 0 {
        return 0;
      }
      ghost var pool, hc := thePool[..], hubCounter;
      assert FirstFree(pool, index);
      if parent == 0 {
        if isHub {
          addr := 0x41;
          hubCounter := hubCounter + 1;
        } else {
          addr := 1;
        }
      } else {
        if isHub {
          hubCounter := hubCounter + 1;
          addr := 64 + 8 * (parent % 8) + hubCounter;
        } else {
          addr := 8 * (parent % 8) + port;
        }
      }
      thePool[index] := thePool[index].(address := addr);
      assert thePool[..] == WithAddress(pool, index, addr);
      if PoolInv(pool, hc) && Attachable(Addresses(pool), parent, isHub, port) {
        AllocKeepsPool(pool, hc, index, parent, isHub, port);
      }
    }

    // A live address takes its whole subtree with it; address 0 and an unknown address
    // change nothing, except that 0x41 always clears the pool.
    method FreeAddress(addr: u8)
      requires PoolInv(thePool[..], hubCounter)
      modifies this, thePool
      ensures PoolInv(thePool[..], hubCounter)
      ensures forall i :: InUse(old(Pool(thePool[..], hubCounter)), addr, i) ==>
                Freed(old(thePool[..]), thePool[..], i)
      ensures addr == ROOT_HUB ==>
                && hubCounter == 0 && thePool[0] == old(thePool[0])
                && forall i :: 1 <= i < thePool.Length ==> thePool[i] == INIT_ENTRY
      ensures addr == 0 ==> thePool[..] == old(thePool[..]) && hubCounter == old(hubCounter)
      ensures addr != 0 && !(exists i :: InUse(old(Pool(thePool[..], hubCounter)), addr, i)) ==>
                (thePool[..] == old(thePool[..]) && hubCounter == old(hubCounter)
                 <==> addr != ROOT_HUB || forall i :: 1 <= i < thePool.Length ==> old(thePool[i]).address == 0)
      ensures FreeOf(old(Pool(thePool[..], hubCounter)), addr, Pool(thePool[..], hubCounter))
    {
      ghost var s := Pool(thePool[..], hubCounter);
      hide PoolInv, Freed, CounterMoved, ThinInv, TreeInv, FreeOf;
      if addr == ROOT_HUB {
        InitAllAddresses();
        RootIsFreed(s, Pool(thePool[..], hubCounter));
      } else {
        PoolIsThin(s);
        var index := FindAddressIndex(addr);
        FreeAddressByIndex(index);
        EntryIsFreed(s, addr, index, Pool(thePool[..], hubCounter));
      }
      FreeMeans(s, addr, Pool(thePool[..], hubCounter));
    }
  }

  // Freeing an address that is not in use can do harm: 0x41 was never handed out here,
  // yet the device at the root is gone.
  method ForeignRootAddress() returns (before: u8, after: u8)
    ensures before == 1 && after == 0
  {
    var pool := new AddressPoolImpl(2);
    assert FirstFree(pool.thePool[..], 1);
    before := pool.AllocAddress(0, false, 0);
    FreeEntry();
    pool.FreeAddress(ROOT_HUB);
    after := pool.thePool[1].address;
  }
}
