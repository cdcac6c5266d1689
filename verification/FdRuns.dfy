// What the operations on the descriptor table do to single descriptors, and which
// descriptors are open after many of them.
module FdRuns {
  import opened MachineInts
  import opened FdTable

  // ----- one operation -----

  // Every descriptor but i is as before.
  predicate OthersKept(t: Table, t': Table, i: int)
    requires TableOk(t) && TableOk(t')
  {
    forall j :: 0 <= j < MAX_FD && j != i ==> t'.fds[j] == t.fds[j]
  }

  // After close a descriptor above the standard streams is free, whatever the device says;
  // nothing else changes.
  lemma CloseFrees(t: Table, i: int, status: int)
    requires Inv(t) && (i < 0 || IsOpen(t, i))
    ensures var r := Close(t, i, status);
            && TableOk(r.table) && OthersKept(t, r.table, i) && r.table.max == t.max
            && (i > 2 ==> r.table.fds[i] == Fd(Nothing, false, false, 0))
            && (i <= 2 ==> r.table == t)
            && (r.rc == 0 <==> i >= 0 && status >= 0) && (r.rc == 0 || r.rc == -1)
            && (r.rc == -1 ==> r.error == if i < 0 then EBADFD else Driver(status))
  {
  }

  // A descriptor of the device is locked.
  predicate DeviceLocked(t: Table, dev: Dev)
    requires TableOk(t)
  {
    exists h :: 0 <= h < MAX_FD && t.fds[h].excl && t.fds[h].dev == dev
  }

  predicate Full(t: Table)
    requires TableOk(t)
  {
    forall i :: 0 <= i < MAX_FD ==> IsOpen(t, i)
  }

  // The scan up to alt_max_fd finds a lock wherever it is.
  lemma LockedSomewhere(t: Table, dev: Dev, i: nat, low: nat)
    requires Inv(t) && i < MAX_FD && t.fds[i] == FREE && dev != Nothing
    ensures Locked(t.fds[i := Fd(dev, false, dev.Device?, low)], i, Max(t.max, i)) <==> DeviceLocked(t, dev)
  {
    var fds, max := t.fds[i := Fd(dev, false, dev.Device?, low)], Max(t.max, i);
    if h :| 0 <= h < MAX_FD && t.fds[h].excl && t.fds[h].dev == dev {
      assert FdOk(t, h);
      assert h <= max && Blocks(fds, i, h);
    }
    if j :| 0 <= j <= max && Blocks(fds, i, j) {
      assert t.fds[j].excl && t.fds[j].dev == dev;
    }
  }

  // open succeeds exactly when there is such a device, the table has room, nobody holds a
  // lock on the device, and the device agrees.
  lemma OpenSucceedsExactly(t: Table, dev: Dev, low: nat, status: int)
    requires Inv(t)
    ensures var r := Open(t, dev, low, status);
            && (r.rc >= 0 <==> dev != Nothing && !Full(t) && !(dev.Device? && DeviceLocked(t, dev)) && status >= 0)
            && (r.rc < 0 ==>
                  && r.rc == -1
                  && r.error == (if dev == Nothing then ENODEV
                                 else if Full(t) then EMFILE
                                 else if dev.Device? && DeviceLocked(t, dev) then EACCES
                                 else Driver(status)))
  {
    FreeIsBeyondStreams(t);
    var i := FreeFrom(t.fds, 0);
    if dev != Nothing && i < MAX_FD {
      assert t.fds[i].dev == Nothing && FdOk(t, i);
      LockedSomewhere(t, dev, i, low);
      assert !IsOpen(t, i);
    } else if i == MAX_FD {
      assert Full(t);
    }
  }

  // What it opens is the lowest free descriptor, unlocked.
  lemma OpenTakesLowest(t: Table, dev: Dev, low: nat, status: int)
    requires Inv(t) && Open(t, dev, low, status).rc >= 0
    ensures var r := Open(t, dev, low, status);
            && 2 < r.rc < MAX_FD && !IsOpen(t, r.rc) && (forall j :: 0 <= j < r.rc ==> IsOpen(t, j))
            && TableOk(r.table) && OthersKept(t, r.table, r.rc) && r.table.max == Max(t.max, r.rc)
            && r.table.fds[r.rc] == Fd(dev, false, dev.Device?, low)
  {
    FreeIsBeyondStreams(t);
  }

  // A redirected stream refers to the device, unlocked; every other descriptor, the one that
  // was opened on the way included, is as before.
  lemma RedirectMoves(t: Table, stream: nat, dev: Dev, low: nat, status: int)
    requires Inv(t) && stream <= 2
    ensures var r := Redirect(t, stream, dev, low, status);
            && TableOk(r.table) && OthersKept(t, r.table, stream)
            && (r.rc == 0 <==> Open(t, dev, low, status).rc >= 0)
            && r.table.fds[stream] == if r.rc == 0 then Fd(dev, false, dev.Device?, low) else t.fds[stream]
  {
    FailedOpenRestores(t, dev, low, status);
    OpenMax(t, dev, low, status);
    if Open(t, dev, low, status).rc >= 0 {
      OpenTakesLowest(t, dev, low, status);
    }
    hide Open;
  }

  // Of ioctl only the two lock requests change anything, the lock of that descriptor, and
  // only for a device; a lock is set exactly when it is granted.
  lemma IoctlLocks(t: Table, i: int, req: Request, status: int)
    requires Inv(t) && (i < 0 || IsOpen(t, i))
    ensures var r := Ioctl(t, i, req, status);
            && TableOk(r.table) && OthersKept(t, r.table, i) && r.table.max == t.max
            && (i < 0 ==> r.table == t && r.rc == -1)
            && (i >= 0 ==>
                  && r.table.fds[i] == t.fds[i].(excl := r.table.fds[i].excl)
                  && (t.fds[i].device && req == TIOCEXCL ==>
                        (r.rc == 0 || r.rc == -1) && r.table.fds[i].excl == (t.fds[i].excl || r.rc == 0))
                  && (t.fds[i].device && req == TIOCNXCL ==> r.rc == 0 && !r.table.fds[i].excl)
                  && (!t.fds[i].device || req == OtherRequest ==> r.table == t && r.rc == status))
  {
  }

  // ----- which descriptors are open -----

  // Descriptor i above the standard streams is open after an operation exactly when it was
  // opened by it, or was open and was not closed by it.
  lemma StepOpens(t: Table, op: Op, i: nat)
    requires Inv(t) && Allowed(t, op) && 2 < i < MAX_FD
    ensures var r := Step(t, op);
            && TableOk(r.table)
            && (IsOpen(r.table, i)
                <==> (op.DoOpen? && r.rc == i) || (IsOpen(t, i) && !(op.DoClose? && op.fd == i)))
  {
    match op
    case DoOpen(dev, low, status) =>
      FailedOpenRestores(t, dev, low, status);
      OpenMax(t, dev, low, status);
      OpenSucceedsExactly(t, dev, low, status);
      hide Open;
    case DoClose(fd, status) => CloseFrees(t, fd, status);
    case DoIoctl(fd, req, status) => IoctlLocks(t, fd, req, status);
    case DoRedirect(stream, dev, low, status) => RedirectMoves(t, stream, dev, low, status);
  }

  // What the operations of a run return.
  function Results(t: Table, ops: seq<Op>): (rcs: seq<int>)
    requires Inv(t) && AllAllowed(t, ops)
    ensures |rcs| == |ops|
    decreases |ops|
  {
    if ops == [] then []
    else
      StepKeepsInv(t, ops[0]);
      [Step(t, ops[0]).rc] + Results(Step(t, ops[0]).table, ops[1..])
  }

  predicate Opens(ops: seq<Op>, rcs: seq<int>, k: int, i: nat)
    requires |rcs| == |ops|
  {
    0 <= k < |ops| && ops[k].DoOpen? && rcs[k] == i
  }

  predicate Closes(ops: seq<Op>, k: int, i: nat) {
    0 <= k < |ops| && ops[k].DoClose? && ops[k].fd == i
  }

  // Opened, or open from the start, and not closed since.
  ghost predicate Held(ops: seq<Op>, rcs: seq<int>, i: nat, before: bool)
    requires |rcs| == |ops|
  {
    || (exists k :: Opens(ops, rcs, k, i) && forall j :: k < j ==> !Closes(ops, j, i))
    || (before && forall j :: !Closes(ops, j, i))
  }

  lemma HeldFirst(op: Op, rc: int, ops: seq<Op>, rcs: seq<int>, i: nat, before: bool)
    requires |rcs| == |ops|
    ensures Held([op] + ops, [rc] + rcs, i, before)
            <==> Held(ops, rcs, i, (op.DoOpen? && rc == i) || (before && !(op.DoClose? && op.fd == i)))
  {
    var all, codes := [op] + ops, [rc] + rcs;
    assert forall k :: k > 0 ==> (Opens(all, codes, k, i) <==> Opens(ops, rcs, k - 1, i));
    assert forall k :: k > 0 ==> (Closes(all, k, i) <==> Closes(ops, k - 1, i));
    assert forall k :: k >= 0 ==> (Opens(all, codes, k + 1, i) <==> Opens(ops, rcs, k, i));
    assert forall k :: k >= 0 ==> (Closes(all, k + 1, i) <==> Closes(ops, k, i));
    assert Opens(all, codes, 0, i) <==> op.DoOpen? && rc == i;
    assert Closes(all, 0, i) <==> op.DoClose? && op.fd == i;
  }

  // After any run the open descriptors above the standard streams are exactly those that
  // were opened and not closed since: none leaks, and none is lost.
  lemma {:induction false} OpenAfterRun(t: Table, ops: seq<Op>, i: nat)
    requires Inv(t) && AllAllowed(t, ops) && 2 < i < MAX_FD
    ensures IsOpen(Run(t, ops), i) <==> Held(ops, Results(t, ops), i, IsOpen(t, i))
    decreases |ops|
  {
    if ops == [] {
    } else {
      hide Step, Held;
      StepKeepsInv(t, ops[0]);
      StepOpens(t, ops[0], i);
      var r := Step(t, ops[0]);
      OpenAfterRun(r.table, ops[1..], i);
      HeldFirst(ops[0], r.rc, ops[1..], Results(r.table, ops[1..]), i, IsOpen(t, i));
      assert [ops[0]] + ops[1..] == ops;
    }
  }

  // From the start of the system.
  lemma OpenFromStart(ops: seq<Op>, i: nat)
    requires Inv(INITIAL) && AllAllowed(INITIAL, ops) && 2 < i < MAX_FD
    ensures IsOpen(Run(INITIAL, ops), i)
            <==> exists k :: Opens(ops, Results(INITIAL, ops), k, i) && forall j :: k < j ==> !Closes(ops, j, i)
  {
    OpenAfterRun(INITIAL, ops, i);
  }

  // A device that is opened and closed again leaves the table as it was.
  lemma OpenThenClose(dev: Dev, low: nat)
    requires dev != Nothing
    ensures var a := Open(INITIAL, dev, low, 0);
            && a.rc == 3 && IsOpen(a.table, 3)
            && Close(a.table, 3, 0).rc == 0 && Close(a.table, 3, 0).table.fds == INITIAL.fds
  {
    InitialInv();
    OpenKeepsInv(INITIAL, dev, low, 0);
    OpenSucceedsExactly(INITIAL, dev, low, 0);
    assert !IsOpen(INITIAL, 3);
    OpenTakesLowest(INITIAL, dev, low, 0);
    CloseFrees(Open(INITIAL, dev, low, 0).table, 3, 0);
  }
}
