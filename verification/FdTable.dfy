// The file descriptor table: open, close, exclusive locks.
module FdTable {
  import opened MachineInts

  const MAX_FD: nat := 32

  // What alt_find_dev and alt_find_file come up with.
  datatype Dev = Nothing | Device(id: nat) | FileSystem(id: nat)

  const DEV_NULL := Device(0)

  // fd_flags, with the bits ALT_FD_EXCL and ALT_FD_DEV taken apart from the others.
  datatype Fd = Fd(dev: Dev, excl: bool, device: bool, low: nat)

  const FREE := Fd(Nothing, false, false, 0)

  datatype Error = None | ENODEV | EMFILE | EACCES | EBADFD | Driver(status: int)

  datatype Table = Table(fds: seq<Fd>, max: int)

  // Failures are -1 and the error; where the original returns the negated error number
  // itself, as alt_fd_lock does, that is the error here.
  datatype Result = Result(table: Table, rc: int, error: Error)

  // ----- what every operation keeps -----

  predicate TableOk(t: Table) {
    |t.fds| == MAX_FD && -1 <= t.max < MAX_FD
  }

  predicate FdOk(t: Table, i: nat)
    requires TableOk(t) && i < MAX_FD
  {
    var fd := t.fds[i];
    && (i <= 2 ==> fd.dev != Nothing)
    && (i > 2 && fd.dev != Nothing ==> i <= t.max)
    && (fd.dev == Nothing ==> fd == FREE)
    && (fd.excl ==> fd.device)
    && (fd.device ==> fd.dev.Device? && t.max > 2)
  }

  // A descriptor that is locked lies below every other one of the same device.
  predicate LockOk(t: Table, i: nat, j: nat)
    requires TableOk(t) && i < MAX_FD && j < MAX_FD
  {
    i != j && t.fds[i].excl && t.fds[i].dev == t.fds[j].dev ==> i < j
  }

  predicate Inv(t: Table) {
    && TableOk(t)
    && (forall i :: 0 <= i < MAX_FD ==> FdOk(t, i))
    && (forall i, j :: 0 <= i < MAX_FD && 0 <= j < MAX_FD ==> LockOk(t, i, j))
  }

  // ----- the operations -----

  // The first free descriptor from i on.
  function FreeFrom(fds: seq<Fd>, i: nat): (r: nat)
    requires i <= |fds|
    ensures i <= r <= |fds|
    ensures r < |fds| ==> fds[r].dev == Nothing
    ensures forall k :: i <= k < r ==> fds[k].dev != Nothing
    decreases |fds| - i
  {
    if i == |fds| || fds[i].dev == Nothing then i else FreeFrom(fds, i + 1)
  }

  // Descriptor j is locked for the device of descriptor i.
  predicate Blocks(fds: seq<Fd>, i: nat, j: nat)
    requires i < |fds| && j < |fds|
  {
    j != i && fds[j].excl && fds[j].dev == fds[i].dev
  }

  predicate Locked(fds: seq<Fd>, i: nat, max: int)
    requires i < |fds| && max < |fds|
  {
    exists j :: 0 <= j <= max && Blocks(fds, i, j)
  }

  // alt_release_fd: the standard streams are never released.
  function Release(fds: seq<Fd>, i: int): (r: seq<Fd>)
    requires i < |fds|
    ensures |r| == |fds|
  {
    if i > 2 then fds[i := FREE] else fds
  }

  // open, where `status` is what the open function of the device would return.
  function Open(t: Table, dev: Dev, low: nat, status: int): Result
    requires TableOk(t)
  {
    var i := FreeFrom(t.fds, 0);
    if dev == Nothing then Result(t, -1, ENODEV)
    else if i == MAX_FD then Result(t, -1, EMFILE)
    else
      var max := Max(t.max, i);
      var fds := t.fds[i := Fd(dev, false, dev.Device?, low)];
      if dev.Device? && Locked(fds, i, max) then Result(Table(Release(fds, i), max), -1, EACCES)
      else if status < 0 then Result(Table(Release(fds, i), max), -1, Driver(status))
      else Result(Table(fds, max), i, None)
  }

  predicate IsOpen(t: Table, i: int)
    requires TableOk(t)
  {
    0 <= i < MAX_FD && t.fds[i].dev != Nothing
  }

  function Close(t: Table, i: int, status: int): Result
    requires TableOk(t) && (i < 0 || IsOpen(t, i))
  {
    if i < 0 then Result(t, -1, EBADFD)
    else
      var t' := Table(Release(t.fds, i), t.max);
      if status < 0 then Result(t', -1, Driver(status)) else Result(t', 0, None)
  }

  // Another descriptor of the same device.
  predicate Shares(fds: seq<Fd>, i: nat, j: nat)
    requires i < |fds| && j < |fds|
  {
    j != i && fds[j].dev == fds[i].dev
  }

  // alt_fd_lock looks at the descriptors below alt_max_fd only.
  predicate LockRefused(t: Table, i: nat)
    requires TableOk(t) && i < MAX_FD
  {
    exists j :: 0 <= j < t.max && Shares(t.fds, i, j)
  }

  function Lock(t: Table, i: nat): Result
    requires TableOk(t) && i < MAX_FD
  {
    if LockRefused(t, i) then Result(t, -1, EACCES)
    else Result(t.(fds := t.fds[i := t.fds[i].(excl := true)]), 0, None)
  }

  function Unlock(t: Table, i: nat): Result
    requires TableOk(t) && i < MAX_FD
  {
    Result(t.(fds := t.fds[i := t.fds[i].(excl := false)]), 0, None)
  }

  datatype Request = TIOCEXCL | TIOCNXCL | OtherRequest

  // ioctl; `status` is what the device says to a request that it gets.
  function Ioctl(t: Table, i: int, req: Request, status: int): Result
    requires TableOk(t) && (i < 0 || IsOpen(t, i))
  {
    if i < 0 then Result(t, -1, EBADFD)
    else if t.fds[i].device && req == TIOCEXCL then Lock(t, i)
    else if t.fds[i].device && req == TIOCNXCL then Unlock(t, i)
    else Result(t, status, if status < 0 then Driver(status) else None)
  }

  // alt_open_fd, for one of the standard streams.
  function Redirect(t: Table, stream: nat, dev: Dev, low: nat, status: int): Result
    requires TableOk(t) && stream <= 2
  {
    var r := Open(t, dev, low, status);
    if r.rc < 0 then r
    else Result(Table(Release(r.table.fds[stream := r.table.fds[r.rc]], r.rc), r.table.max), 0, None)
  }

  datatype Op =
    | DoOpen(dev: Dev, low: nat, status: int)
    | DoClose(fd: int, status: int)
    | DoIoctl(fd: int, req: Request, status: int)
    | DoRedirect(stream: nat, dev: Dev, low: nat, status: int)

  // What the callers have to see to: only open descriptors, or negative ones, are used.
  predicate Allowed(t: Table, op: Op)
    requires TableOk(t)
  {
    match op
    case DoOpen(_, _, _) => true
    case DoClose(fd, _) => fd < 0 || IsOpen(t, fd)
    case DoIoctl(fd, _, _) => fd < 0 || IsOpen(t, fd)
    case DoRedirect(stream, _, _, _) => stream <= 2
  }

  function Step(t: Table, op: Op): Result
    requires TableOk(t) && Allowed(t, op)
  {
    match op
    case DoOpen(dev, low, status) => Open(t, dev, low, status)
    case DoClose(fd, status) => Close(t, fd, status)
    case DoIoctl(fd, req, status) => Ioctl(t, fd, req, status)
    case DoRedirect(stream, dev, low, status) => Redirect(t, stream, dev, low, status)
  }

  // The descriptor that open would use is beyond the standard streams.
  lemma FreeIsBeyondStreams(t: Table)
    requires Inv(t)
    ensures FreeFrom(t.fds, 0) > 2
  {
    assert FdOk(t, 0) && FdOk(t, 1) && FdOk(t, 2);
  }

  // While a descriptor is locked, no open of its device succeeds.
  lemma LockedDeviceCannotBeOpened(t: Table, h: nat, low: nat, status: int)
    requires Inv(t) && h < MAX_FD && t.fds[h].excl
    ensures var r := Open(t, t.fds[h].dev, low, status);
            r.rc == -1 && (r.error == EACCES || r.error == EMFILE)
  {
    var i := FreeFrom(t.fds, 0);
    FreeIsBeyondStreams(t);
    assert FdOk(t, h);
    if i < MAX_FD {
      assert Blocks(t.fds[i := Fd(t.fds[h].dev, false, true, low)], i, h);
    }
  }

  // A failed open leaves every descriptor as it was.
  lemma FailedOpenRestores(t: Table, dev: Dev, low: nat, status: int)
    requires Inv(t)
    ensures var r := Open(t, dev, low, status);
            && (r.rc < 0 ==> r.table.fds == t.fds)
            && (r.rc >= 0 ==>
                  && 2 < r.rc < MAX_FD && t.fds[r.rc] == FREE
                  && r.table.fds == t.fds[r.rc := Fd(dev, false, dev.Device?, low)])
            && r.table.max >= t.max
  {
    FreeIsBeyondStreams(t);
    var i := FreeFrom(t.fds, 0);
    if i < MAX_FD {
      assert FdOk(t, i);
    }
  }

  lemma OpenMax(t: Table, dev: Dev, low: nat, status: int)
    requires Inv(t)
    ensures var r := Open(t, dev, low, status);
            TableOk(r.table) && (r.rc >= 0 ==> r.rc <= r.table.max)
  {
  }

  lemma NewIsUnlocked(t: Table, dev: Dev, low: nat, status: int)
    requires Inv(t) && Open(t, dev, low, status).rc >= 0
    ensures forall h :: 0 <= h < MAX_FD && t.fds[h].excl ==> t.fds[h].dev != dev
  {
    forall h | 0 <= h < MAX_FD && t.fds[h].excl ensures t.fds[h].dev != dev {
      if t.fds[h].dev == dev {
        LockedDeviceCannotBeOpened(t, h, low, status);
      }
    }
  }

  lemma OpenKeepsInv(t: Table, dev: Dev, low: nat, status: int)
    requires Inv(t)
    ensures Inv(Open(t, dev, low, status).table)
  {
    var t' := Open(t, dev, low, status).table;
    var rc := Open(t, dev, low, status).rc;
    FailedOpenRestores(t, dev, low, status);
    OpenMax(t, dev, low, status);
    if rc >= 0 {
      NewIsUnlocked(t, dev, low, status);
    }
    hide Open;
    forall i | 0 <= i < MAX_FD ensures FdOk(t', i) {
      assert FdOk(t, i);
    }
    forall i, j | 0 <= i < MAX_FD && 0 <= j < MAX_FD ensures LockOk(t', i, j) {
      assert LockOk(t, i, j) && FdOk(t, i);
    }
  }

  lemma CloseKeepsInv(t: Table, i: int, status: int)
    requires Inv(t) && (i < 0 || IsOpen(t, i))
    ensures Inv(Close(t, i, status).table)
  {
    var t' := Close(t, i, status).table;
    forall k | 0 <= k < MAX_FD ensures FdOk(t', k) {
      assert FdOk(t, k);
    }
    forall k, j | 0 <= k < MAX_FD && 0 <= j < MAX_FD ensures LockOk(t', k, j) {
      assert LockOk(t, k, j) && FdOk(t, k);
    }
  }

  lemma LockKeepsInv(t: Table, i: nat)
    requires Inv(t) && i < MAX_FD && t.fds[i].device
    ensures Inv(Lock(t, i).table)
  {
    var t' := Lock(t, i).table;
    if !LockRefused(t, i) {
      forall k | 0 <= k < MAX_FD ensures FdOk(t', k) {
        assert FdOk(t, k);
      }
      forall k, j | 0 <= k < MAX_FD && 0 <= j < MAX_FD ensures LockOk(t', k, j) {
        assert LockOk(t, k, j) && FdOk(t, k) && FdOk(t, j) && FdOk(t, i);
        assert j < t.max ==> !Shares(t.fds, i, j);
        assert k < t.max ==> !Shares(t.fds, i, k);
      }
    }
  }

  lemma UnlockKeepsInv(t: Table, i: nat)
    requires Inv(t) && i < MAX_FD
    ensures Inv(Unlock(t, i).table)
  {
    var t' := Unlock(t, i).table;
    forall k | 0 <= k < MAX_FD ensures FdOk(t', k) {
      assert FdOk(t, k);
    }
    forall k, j | 0 <= k < MAX_FD && 0 <= j < MAX_FD ensures LockOk(t', k, j) {
      assert LockOk(t, k, j);
    }
  }

  lemma RedirectKeepsInv(t: Table, stream: nat, dev: Dev, low: nat, status: int)
    requires Inv(t) && stream <= 2
    ensures Inv(Redirect(t, stream, dev, low, status).table)
  {
    var r := Open(t, dev, low, status);
    var t' := Redirect(t, stream, dev, low, status).table;
    OpenKeepsInv(t, dev, low, status);
    FailedOpenRestores(t, dev, low, status);
    OpenMax(t, dev, low, status);
    if r.rc >= 0 {
      NewIsUnlocked(t, dev, low, status);
      hide Open;
      forall k | 0 <= k < MAX_FD ensures FdOk(t', k) {
        assert FdOk(r.table, k) && FdOk(r.table, r.rc);
      }
      forall k, j | 0 <= k < MAX_FD && 0 <= j < MAX_FD ensures LockOk(t', k, j) {
        assert LockOk(r.table, k, j) && FdOk(t, k);
      }
    }
  }

  lemma StepKeepsInv(t: Table, op: Op)
    requires Inv(t) && Allowed(t, op)
    ensures Inv(Step(t, op).table)
  {
    hide FdOk, LockOk;
    match op
    case DoOpen(dev, low, status) => OpenKeepsInv(t, dev, low, status);
    case DoClose(fd, status) => CloseKeepsInv(t, fd, status);
    case DoIoctl(fd, req, status) =>
      if fd >= 0 && t.fds[fd].device {
        LockKeepsInv(t, fd);
        UnlockKeepsInv(t, fd);
      }
    case DoRedirect(stream, dev, low, status) => RedirectKeepsInv(t, stream, dev, low, status);
  }

  // ----- whole runs -----

  predicate AllAllowed(t: Table, ops: seq<Op>)
    requires Inv(t)
    decreases |ops|
  {
    ops == [] || (Allowed(t, ops[0]) && (StepKeepsInv(t, ops[0]); AllAllowed(Step(t, ops[0]).table, ops[1..])))
  }

  function Run(t: Table, ops: seq<Op>): (r: Table)
    requires Inv(t) && AllAllowed(t, ops)
    ensures Inv(r)
    decreases |ops|
  {
    if ops == [] then t
    else
      StepKeepsInv(t, ops[0]);
      Run(Step(t, ops[0]).table, ops[1..])
  }

  const INITIAL := Table(seq(MAX_FD, i => if i <= 2 then Fd(DEV_NULL, false, false, 0) else FREE), -1)

  lemma InitialInv()
    ensures Inv(INITIAL)
  {
  }

  // close ends a lock, unless the descriptor is a standard stream: those keep it, although
  // the comment on alt_fd_lock names close as a way to release it.
  lemma CloseUnlocksExactly(t: Table, i: nat, status: int)
    requires Inv(t) && IsOpen(t, i) && t.fds[i].excl
    ensures Close(t, i, status).table.fds[i].excl <==> i <= 2
  {
  }

  // A standard stream that was redirected to a device, locked and closed is still locked.
  lemma ClosedStreamStaysLocked(dev: Dev, low: nat)
    requires dev.Device? && dev != DEV_NULL
    ensures var a := Redirect(INITIAL, 1, dev, low, 0);
            var b := Ioctl(a.table, 1, TIOCEXCL, 0);
            a.rc == 0 && b.rc == 0 && IsOpen(b.table, 1)
            && Close(b.table, 1, 0).rc == 0 && Close(b.table, 1, 0).table.fds[1].excl
            && Open(Close(b.table, 1, 0).table, dev, low, 0).rc == -1
  {
    InitialInv();
    assert INITIAL.fds[3] == FREE && FreeFrom(INITIAL.fds, 0) == 3;
    FailedOpenRestores(INITIAL, dev, low, 0);
    assert forall h :: 0 <= h < MAX_FD ==> !INITIAL.fds[h].excl;
    var a := Redirect(INITIAL, 1, dev, low, 0);
    assert a.table == Table(INITIAL.fds[1 := Fd(dev, false, true, low)], 3);
    RedirectKeepsInv(INITIAL, 1, dev, low, 0);
    assert !LockRefused(a.table, 1);
    var b := Ioctl(a.table, 1, TIOCEXCL, 0);
    LockKeepsInv(a.table, 1);
    CloseKeepsInv(b.table, 1, 0);
    LockedDeviceCannotBeOpened(Close(b.table, 1, 0).table, 1, low, 0);
  }

  // The operations that end the lock of descriptor h: its owner's own.
  predicate GivesUp(t: Table, op: Op, h: nat)
    requires TableOk(t)
  {
    || (op.DoClose? && op.fd == h && h > 2)
    || (op.DoIoctl? && op.fd == h && op.req == TIOCNXCL)
    || (op.DoRedirect? && op.stream == h && Open(t, op.dev, op.low, op.status).rc >= 0)
  }

  // A lock is lost by exactly these.
  lemma LockSurvivesStep(t: Table, op: Op, h: nat)
    requires Inv(t) && Allowed(t, op) && h < MAX_FD && t.fds[h].excl
    ensures Step(t, op).table.fds[h].excl <==> !GivesUp(t, op, h)
    ensures Step(t, op).table.fds[h].excl ==> Step(t, op).table.fds[h].dev == t.fds[h].dev
  {
    assert FdOk(t, h);
    match op
    case DoOpen(dev, low, status) =>
      FailedOpenRestores(t, dev, low, status);
    case DoRedirect(stream, dev, low, status) =>
      FailedOpenRestores(t, dev, low, status);
    case DoClose(fd, status) =>
      if fd == h {
        CloseUnlocksExactly(t, h, status);
      }
    case _ =>
  }

  // Nobody gives up the lock of h in the whole run.
  predicate NobodyGivesUp(t: Table, ops: seq<Op>, h: nat)
    requires Inv(t) && AllAllowed(t, ops)
    decreases |ops|
  {
    ops == [] ||
    (!GivesUp(t, ops[0], h)
     && (StepKeepsInv(t, ops[0]); NobodyGivesUp(Step(t, ops[0]).table, ops[1..], h)))
  }

  // Whatever else is opened, closed, locked and unlocked: until its owner gives it up, a
  // lock holds, and no open of the device succeeds.
  lemma {:induction false} LockHolds(t: Table, ops: seq<Op>, h: nat, low: nat, status: int)
    requires Inv(t) && AllAllowed(t, ops) && h < MAX_FD && t.fds[h].excl && NobodyGivesUp(t, ops, h)
    ensures var t' := Run(t, ops);
            && t'.fds[h].excl && t'.fds[h].dev == t.fds[h].dev
            && Open(t', t.fds[h].dev, low, status).rc == -1
    decreases |ops|
  {
    hide Open, Step, FdOk, LockOk, GivesUp;
    if ops == [] {
      LockedDeviceCannotBeOpened(t, h, low, status);
    } else {
      LockSurvivesStep(t, ops[0], h);
      StepKeepsInv(t, ops[0]);
      LockHolds(Step(t, ops[0]).table, ops[1..], h, low, status);
    }
  }

  // In every run, no two descriptors hold a lock on the same device.
  lemma OneLockPerDevice(ops: seq<Op>, h: nat, k: nat)
    requires Inv(INITIAL) && AllAllowed(INITIAL, ops) && h < MAX_FD && k < MAX_FD
    requires var t := Run(INITIAL, ops); t.fds[h].excl && t.fds[k].excl && t.fds[h].dev == t.fds[k].dev
    ensures h == k
  {
    var t := Run(INITIAL, ops);
    assert LockOk(t, h, k) && LockOk(t, k, h);
  }

  // ----- what alt_fd_lock promises, and what it does -----

  // It is to grant the lock when no other descriptor refers to the device.
  predicate Sole(t: Table, i: nat)
    requires TableOk(t) && i < MAX_FD
  {
    forall j :: 0 <= j < MAX_FD ==> !Shares(t.fds, i, j)
  }

  // It errs exactly when the one other descriptor of the device is the one at alt_max_fd,
  // which its loop leaves out.
  lemma LockIsRight(t: Table, i: nat)
    requires Inv(t) && i < MAX_FD && t.fds[i].device
    ensures (Lock(t, i).rc == 0 <==> Sole(t, i))
            <==> !(t.max >= 0 && Shares(t.fds, i, t.max)
                   && forall j :: 0 <= j < MAX_FD && Shares(t.fds, i, j) ==> j == t.max)
  {
    assert FdOk(t, i);
    forall j | 0 <= j < MAX_FD && Shares(t.fds, i, j) ensures j <= t.max {
      assert FdOk(t, j);
    }
  }

  // The two descriptors that are opened first on a device: the first can be locked although
  // the second is open.
  lemma LockBesideAnOpenDescriptor(dev: Dev, low: nat)
    requires dev.Device? && dev != DEV_NULL
    ensures var a := Open(INITIAL, dev, low, 0);
            var b := Open(a.table, dev, low, 0);
            a.rc == 3 && b.rc == 4 && Lock(b.table, 3).rc == 0 && !Sole(b.table, 3)
  {
    var a := Open(INITIAL, dev, low, 0);
    assert INITIAL.fds[3] == FREE && INITIAL.fds[4] == FREE && FreeFrom(INITIAL.fds, 0) == 3;
    InitialInv();
    FailedOpenRestores(INITIAL, dev, low, 0);
    assert forall h :: 0 <= h < MAX_FD ==> !INITIAL.fds[h].excl;
    assert a.rc == 3 && a.table.fds == INITIAL.fds[3 := Fd(dev, false, true, low)];
    OpenKeepsInv(INITIAL, dev, low, 0);
    assert a.table.fds[4] == FREE && FreeFrom(a.table.fds, 0) == 4;
    FailedOpenRestores(a.table, dev, low, 0);
    assert forall h :: 0 <= h < MAX_FD ==> !a.table.fds[h].excl;
    var b := Open(a.table, dev, low, 0);
    assert b.rc == 4 && b.table.max == 4;
    assert !LockRefused(b.table, 3);
    assert Shares(b.table.fds, 3, 4);
  }

  // ----- the table in memory -----

  lemma FreeEntry(t: Table, i: nat)
    requires Inv(t) && i == FreeFrom(t.fds, 0) && i < MAX_FD
    ensures t.fds[i] == FREE
  {
    assert FdOk(t, i);
  }

  // alt_fd_list and alt_max_fd.
  class FdList {
    const fds: array<Fd>
    var maxFd: int

    constructor ()
      ensures Valid() && State() == INITIAL && fresh(fds)
    {
      fds := new Fd[MAX_FD](i => if i <= 2 then Fd(DEV_NULL, false, false, 0) else FREE);
      maxFd := -1;
      new;
      InitialInv();
      assert fds[..] == INITIAL.fds;
    }

    ghost predicate Valid()
      reads this, fds
    {
      fds.Length == MAX_FD && Inv(Table(fds[..], maxFd))
    }

    ghost function State(): (t: Table)
      requires Valid()
      reads this, fds
      ensures Inv(t)
    {
      Table(fds[..], maxFd)
    }

    // The lowest free descriptor, now of device dev; or a negative number.
    method GetFd(dev: Dev) returns (rc: int)
      requires fds.Length == MAX_FD && maxFd < MAX_FD && dev != Nothing
      modifies this`maxFd, fds
      ensures var i := FreeFrom(old(fds[..]), 0);
              if i == MAX_FD then rc < 0 && fds[..] == old(fds[..]) && maxFd == old(maxFd)
              else rc == i && fds[..] == old(fds[..])[i := old(fds[i]).(dev := dev)] && maxFd == Max(old(maxFd), i)
    {
      ghost var before := fds[..];
      for i := 0 to MAX_FD
        invariant fds[..] == before && maxFd == old(maxFd)
        invariant FreeFrom(before, 0) == FreeFrom(before, i)
      {
        if fds[i].dev == Nothing {
          assert before[i] == fds[i];
          fds[i] := fds[i].(dev := dev);
          if i > maxFd {
            maxFd := i;
          }
          return i;
        }
      }
      return -1;
    }

    // Marks descriptor i as a device, and looks for a lock on it.
    method FileLocked(i: nat) returns (locked: bool)
      requires fds.Length == MAX_FD && i < MAX_FD && maxFd < MAX_FD
      modifies fds
      ensures fds[..] == old(fds[..])[i := old(fds[i]).(device := true)]
      ensures locked == Locked(fds[..], i, maxFd)
    {
      fds[i] := fds[i].(device := true);
      ghost var after := fds[..];
      var j := 0;
      while j <= maxFd
        invariant fds[..] == after && 0 <= j <= Max(maxFd + 1, 0)
        invariant forall k :: 0 <= k < j ==> !Blocks(after, i, k)
        decreases maxFd - j
      {
        if fds[j].dev == fds[i].dev && fds[j].excl && j != i {
          assert Blocks(after, i, j);
          return true;
        }
        assert !Blocks(after, i, j);
        j := j + 1;
      }
      return false;
    }

    method ReleaseFd(fd: int)
      requires fds.Length == MAX_FD && fd < MAX_FD
      modifies fds
      ensures fds[..] == Release(old(fds[..]), fd)
    {
      if fd > 2 {
        fds[fd] := fds[fd].(excl := false, device := false, low := 0);
        fds[fd] := fds[fd].(dev := Nothing);
      }
    }

    method AltOpen(dev: Dev, low: nat, openStatus: int) returns (rc: int, error: Error)
      requires Valid()
      modifies this`maxFd, fds
      ensures Valid()
      ensures Result(State(), rc, error) == Open(old(State()), dev, low, openStatus)
    {
      hide FdOk, LockOk, Locked, FreeFrom;
      ghost var t := State();
      OpenKeepsInv(t, dev, low, openStatus);
      if dev == Nothing {
        return -1, ENODEV;
      }
      var index := GetFd(dev);
      if index < 0 {
        return -1, EMFILE;
      }
      FreeEntry(t, index);
      fds[index] := fds[index].(excl := false, device := false, low := low);
      if dev.Device? {
        var locked := FileLocked(index);
        assert fds[..] == t.fds[index := Fd(dev, false, true, low)];
        if locked {
          ReleaseFd(index);
          return -1, EACCES;
        }
      }
      assert fds[..] == t.fds[index := Fd(dev, false, dev.Device?, low)];
      if openStatus < 0 {
        ReleaseFd(index);
        return -1, Driver(openStatus);
      }
      return index, None;
    }

    method AltClose(fildes: int, closeStatus: int) returns (rc: int, error: Error)
      requires Valid() && (fildes < 0 || IsOpen(State(), fildes))
      modifies fds
      ensures Valid()
      ensures Result(State(), rc, error) == Close(old(State()), fildes, closeStatus)
    {
      CloseKeepsInv(State(), fildes, closeStatus);
      if fildes < 0 {
        return -1, EBADFD;
      }
      ReleaseFd(fildes);
      if closeStatus < 0 {
        return -1, Driver(closeStatus);
      }
      return 0, None;
    }

    method FdLock(i: nat) returns (rc: int, error: Error)
      requires Valid() && i < MAX_FD && fds[i].device
      modifies fds
      ensures Valid()
      ensures Result(State(), rc, error) == Lock(old(State()), i)
    {
      LockKeepsInv(State(), i);
      ghost var t := State();
      var j := 0;
      while j < maxFd
        invariant fds[..] == t.fds && 0 <= j <= Max(maxFd, 0)
        invariant forall k :: 0 <= k < j ==> !Shares(t.fds, i, k)
        decreases maxFd - j
      {
        if j != i && fds[j].dev == fds[i].dev {
          assert Shares(t.fds, i, j);
          return -1, EACCES;
        }
        assert !Shares(t.fds, i, j);
        j := j + 1;
      }
      fds[i] := fds[i].(excl := true);
      return 0, None;
    }

    method FdUnlock(i: nat) returns (rc: int, error: Error)
      requires Valid() && i < MAX_FD
      modifies fds
      ensures Valid()
      ensures Result(State(), rc, error) == Unlock(old(State()), i)
    {
      UnlockKeepsInv(State(), i);
      fds[i] := fds[i].(excl := false);
      return 0, None;
    }

    method AltIoctl(file: int, req: Request, status: int) returns (rc: int, error: Error)
      requires Valid() && (file < 0 || IsOpen(State(), file))
      modifies fds
      ensures Valid()
      ensures Result(State(), rc, error) == Ioctl(old(State()), file, req, status)
    {
      hide FdOk, LockOk, Lock, Unlock;
      if file < 0 {
        return -1, EBADFD;
      }
      if fds[file].device {
        if req == TIOCEXCL {
          rc, error := FdLock(file);
          return;
        } else if req == TIOCNXCL {
          rc, error := FdUnlock(file);
          return;
        }
      }
      return status, if status < 0 then Driver(status) else None;
    }

    // alt_open_fd.
    method OpenFd(stream: nat, dev: Dev, low: nat, openStatus: int)
      requires Valid() && stream <= 2
      modifies this`maxFd, fds
      ensures Valid()
      ensures State() == Redirect(old(State()), stream, dev, low, openStatus).table
    {
      RedirectKeepsInv(State(), stream, dev, low, openStatus);
      FailedOpenRestores(State(), dev, low, openStatus);
      hide FdOk, LockOk, Open;
      var fd, error := AltOpen(dev, low, openStatus);
      if fd >= 0 {
        fds[stream] := fds[fd];
        ReleaseFd(fd);
      }
    }
  }
}
