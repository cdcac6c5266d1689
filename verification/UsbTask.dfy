// USB::Task: the enumeration state machine, one call at a time.
module UsbTask {
  import opened Clock
  import opened MachineInts

  const DETACHED_INITIALIZE: u8 := 0x11
  const DETACHED_WAIT_FOR_DEVICE: u8 := 0x12
  const DETACHED_ILLEGAL: u8 := 0x13
  const ATTACHED_SETTLE: u8 := 0x20
  const ATTACHED_RESET_DEVICE: u8 := 0x30
  const ATTACHED_WAIT_RESET_COMPLETE: u8 := 0x40
  const ATTACHED_WAIT_SOF: u8 := 0x50
  const ATTACHED_WAIT_RESET: u8 := 0x51
  const CONFIGURING: u8 := 0x80
  const RUNNING: u8 := 0x90
  const ERROR: u8 := 0xa0
  const SETTLE_DELAY: nat := 200
  const RESET_DELAY: nat := 20
  const INIT_INCOMPLETE: u8 := 0xD2
  const NUMDEVICES: nat := 16

  datatype Vbus = SE0 | SE1 | FSHOST | LSHOST

  // What one call of Task meets: the bus sample, the (at most two) clock readings, whether
  // the bus reset is over, whether a frame interrupt is pending, and what Configuring returns.
  datatype Input = Input(vbus: Vbus, attachMs: nat, ms: nat, resetDone: bool, frameIrq: bool, rcode: u8)

  datatype Action = Poll(i: nat) | Init | Release(i: nat) | BusReset | StartFrames | Configure(lowspeed: bool)

  datatype Host = Host(state: u8, delay: u32, error: u8)

  predicate Known(state: u8) {
    || state == DETACHED_INITIALIZE || state == DETACHED_WAIT_FOR_DEVICE || state == DETACHED_ILLEGAL
    || state == ATTACHED_SETTLE || state == ATTACHED_WAIT_RESET_COMPLETE || state == ATTACHED_WAIT_SOF
    || state == ATTACHED_WAIT_RESET || state == CONFIGURING || state == RUNNING || state == ERROR
  }

  // (state & USB_STATE_MASK) == USB_STATE_DETACHED
  predicate Detached(state: u8) {
    0x10 <= state < 0x20
  }

  // (int32_t)(millis() - delay) >= 0
  predicate Reached(ms: nat, delay: u32) {
    !Before(Wrap32(ms), delay)
  }

  // ----- one call -----

  // The switch on the bus sample.
  function Sample(h: Host, x: Input): Host {
    match x.vbus
    case SE1 => h.(state := DETACHED_ILLEGAL)
    case SE0 => if Detached(h.state) then h else h.(state := DETACHED_INITIALIZE)
    case _ =>
      if Detached(h.state) then h.(state := ATTACHED_SETTLE, delay := Wrap32(Wrap32(x.attachMs) + SETTLE_DELAY))
      else h
  }

  function Configured(h: Host, rcode: u8): Host {
    if rcode == 0 then h.(state := RUNNING)
    else if rcode != INIT_INCOMPLETE then h.(state := ERROR, error := rcode)
    else h
  }

  // The switch on the state.
  function Advance(h: Host, x: Input): Host {
    if h.state == DETACHED_INITIALIZE then h.(state := DETACHED_WAIT_FOR_DEVICE)
    else if h.state == ATTACHED_SETTLE then
      if Reached(x.ms, h.delay) then h.(state := ATTACHED_WAIT_RESET_COMPLETE) else h
    else if h.state == ATTACHED_RESET_DEVICE then h.(state := ATTACHED_WAIT_RESET_COMPLETE)
    else if h.state == ATTACHED_WAIT_RESET_COMPLETE then
      if x.resetDone then h.(state := ATTACHED_WAIT_SOF) else h
    else if h.state == ATTACHED_WAIT_SOF then
      if x.frameIrq
      then h.(state := ATTACHED_WAIT_RESET, delay := Wrap32(Wrap32(x.ms) + RESET_DELAY)) else h
    else if h.state == ATTACHED_WAIT_RESET then
      if Reached(x.ms, h.delay) then Configured(h.(state := CONFIGURING), x.rcode) else h
    else if h.state == CONFIGURING then Configured(h, x.rcode)
    else h
  }

  function Step(h: Host, x: Input): Host {
    Advance(Sample(h, x), x)
  }

  // The registered drivers among the first n.
  function PollAll(registered: seq<bool>, n: nat): seq<Action>
    requires n <= |registered|
  {
    if n == 0 then []
    else if registered[n - 1] then PollAll(registered, n - 1) + [Poll(n - 1)]
    else PollAll(registered, n - 1)
  }

  function ReleaseAll(registered: seq<bool>, n: nat): seq<Action>
    requires n <= |registered|
  {
    if n == 0 then []
    else if registered[n - 1] then ReleaseAll(registered, n - 1) + [Release(n - 1)]
    else ReleaseAll(registered, n - 1)
  }

  // What a call does after it has polled the drivers.
  function Work(h: Host, x: Input, registered: seq<bool>): seq<Action> {
    if h.state == DETACHED_INITIALIZE then [Init] + ReleaseAll(registered, |registered|)
    else if h.state == ATTACHED_SETTLE then if Reached(x.ms, h.delay) then [BusReset] else []
    else if h.state == ATTACHED_RESET_DEVICE then [BusReset]
    else if h.state == ATTACHED_WAIT_RESET_COMPLETE then if x.resetDone then [StartFrames] else []
    else if h.state == ATTACHED_WAIT_RESET then
      if Reached(x.ms, h.delay) then [Configure(x.vbus == LSHOST)] else []
    else if h.state == CONFIGURING then [Configure(x.vbus == LSHOST)]
    else []
  }

  function Actions(h: Host, x: Input, registered: seq<bool>): seq<Action> {
    PollAll(registered, |registered|) + Work(Sample(h, x), x, registered)
  }

  class UsbHost {
    var usbTaskState: u8
    var delay: u32
    var usbError: u8
    // devConfig[i] != NULL
    const devConfig: seq<bool>
    ghost var log: seq<Action>

    constructor (devConfig: seq<bool>)
      requires |devConfig| == NUMDEVICES
      ensures this.devConfig == devConfig && log == []
      ensures State() == Host(DETACHED_INITIALIZE, 0, 0)
    {
      usbTaskState, delay, usbError := DETACHED_INITIALIZE, 0, 0;
      this.devConfig := devConfig;
      log := [];
    }

    function State(): Host
      reads this
    {
      Host(usbTaskState, delay, usbError)
    }

    method PollDrivers()
      modifies this`log
      ensures log == old(log) + PollAll(devConfig, |devConfig|)
    {
      for i := 0 to |devConfig|
        invariant log == old(log) + PollAll(devConfig, i)
      {
        if devConfig[i] {
          log := log + [Poll(i)];
        }
      }
    }

    method ReleaseDrivers()
      modifies this`log
      ensures log == old(log) + ReleaseAll(devConfig, |devConfig|)
    {
      for i := 0 to |devConfig|
        invariant log == old(log) + ReleaseAll(devConfig, i)
      {
        if devConfig[i] {
          log := log + [Release(i)];
        }
      }
    }

    method Task(x: Input)
      modifies this
      ensures State() == Step(old(State()), x)
      ensures log == old(log) + Actions(old(State()), x, devConfig)
    {
      hide Reached, PollAll, ReleaseAll;
      var lowspeed := false;
      match x.vbus {
        case SE1 =>
          usbTaskState := DETACHED_ILLEGAL;
        case SE0 =>
          if !Detached(usbTaskState) {
            usbTaskState := DETACHED_INITIALIZE;
          }
        case _ =>
          lowspeed := x.vbus == LSHOST;
          if Detached(usbTaskState) {
            delay := Wrap32(Wrap32(x.attachMs) + SETTLE_DELAY);
            usbTaskState := ATTACHED_SETTLE;
          }
      }
      ghost var sampled := Sample(old(State()), x);
      assert State() == sampled;
      PollDrivers();
      label polled:
      if usbTaskState == DETACHED_INITIALIZE {
        log := log + [Init];
        ReleaseDrivers();
        usbTaskState := DETACHED_WAIT_FOR_DEVICE;
      } else if usbTaskState == ATTACHED_SETTLE || usbTaskState == ATTACHED_RESET_DEVICE {
        if usbTaskState == ATTACHED_RESET_DEVICE || Reached(x.ms, delay) {
          log := log + [BusReset];
          usbTaskState := ATTACHED_WAIT_RESET_COMPLETE;
        }
      } else if usbTaskState == ATTACHED_WAIT_RESET_COMPLETE {
        if x.resetDone {
          log := log + [StartFrames];
          usbTaskState := ATTACHED_WAIT_SOF;
        }
      } else if usbTaskState == ATTACHED_WAIT_SOF {
        if x.frameIrq {
          usbTaskState := ATTACHED_WAIT_RESET;
          delay := Wrap32(Wrap32(x.ms) + RESET_DELAY);
        }
      } else if usbTaskState == ATTACHED_WAIT_RESET || usbTaskState == CONFIGURING {
        if usbTaskState == CONFIGURING || Reached(x.ms, delay) {
          log := log + [Configure(lowspeed)];
          usbTaskState := CONFIGURING;
          if x.rcode != 0 {
            if x.rcode != INIT_INCOMPLETE {
              usbError := x.rcode;
              usbTaskState := ERROR;
            }
          } else {
            usbTaskState := RUNNING;
          }
        }
      }
      assert log == old@polled(log) + Work(sampled, x, devConfig);
    }
  }

  // ----- whole runs -----

  function Run(h: Host, xs: seq<Input>): Host {
    if xs == [] then h else Step(Run(h, xs[..|xs| - 1]), xs[|xs| - 1])
  }

  // The calls that brought a device to RUNNING.
  datatype Milestones = Milestones(attach: nat, reset: nat, finished: nat, frame: nat, waited: nat, configured: nat)

  // Every sample from call k on showed a device.
  predicate Present(xs: seq<Input>, k: nat) {
    forall i :: k <= i < |xs| ==> xs[i].vbus == FSHOST || xs[i].vbus == LSHOST
  }

  predicate Attached(h: Host, xs: seq<Input>, m: Milestones) {
    && m.attach < |xs| && Present(xs, m.attach)
    && Detached(Run(h, xs[..m.attach]).state)
  }

  predicate HasReset(h: Host, xs: seq<Input>, m: Milestones) {
    && m.attach <= m.reset < |xs|
    && (0 <= xs[m.reset].ms - xs[m.attach].attachMs < 0x8000_0000 ==>
          xs[m.reset].ms - xs[m.attach].attachMs >= SETTLE_DELAY)
    && Work(Sample(Run(h, xs[..m.reset]), xs[m.reset]), xs[m.reset], []) == [BusReset]
  }

  predicate HasFinished(h: Host, xs: seq<Input>, m: Milestones) {
    && m.reset < m.finished < |xs| && xs[m.finished].resetDone
    && Work(Sample(Run(h, xs[..m.finished]), xs[m.finished]), xs[m.finished], []) == [StartFrames]
  }

  predicate HasFrame(xs: seq<Input>, m: Milestones) {
    m.finished < m.frame < |xs| && xs[m.frame].frameIrq
  }

  predicate HasWaited(h: Host, xs: seq<Input>, m: Milestones) {
    && m.frame < m.waited < |xs|
    && (0 <= xs[m.waited].ms - xs[m.frame].ms < 0x8000_0000 ==>
          xs[m.waited].ms - xs[m.frame].ms >= RESET_DELAY)
  }

  predicate IsConfigured(h: Host, xs: seq<Input>, m: Milestones) {
    && m.waited <= m.configured < |xs| && xs[m.configured].rcode == 0
    && Work(Sample(Run(h, xs[..m.configured]), xs[m.configured]), xs[m.configured], [])
       == [Configure(xs[m.configured].vbus == LSHOST)]
  }

  // The milestones of a run: the last call made in each of the states on the way.
  function Marks(h: Host, xs: seq<Input>): (m: Milestones) {
    if xs == [] then Milestones(0, 0, 0, 0, 0, 0)
    else
      var n := |xs| - 1;
      var m, before := Marks(h, xs[..n]), Run(h, xs[..n]).state;
      Milestones(if Detached(before) then n else m.attach,
                 if Detached(before) || before == ATTACHED_SETTLE then n else m.reset,
                 if before == ATTACHED_WAIT_RESET_COMPLETE then n else m.finished,
                 if before == ATTACHED_WAIT_SOF then n else m.frame,
                 if before == ATTACHED_WAIT_RESET then n else m.waited,
                 if before == ATTACHED_WAIT_RESET || before == CONFIGURING then n else m.configured)
  }

  // How the states of an attached device follow each other, and on what condition.
  predicate Advances(h: Host, x: Input) {
    var h', w := Advance(h, x), Work(h, x, []);
    && (h' == h || h'.state > h.state)
    && (h.state == ATTACHED_SETTLE ==>
          h' == h || (h'.state == ATTACHED_WAIT_RESET_COMPLETE && Reached(x.ms, h.delay) && w == [BusReset]))
    && (h.state == ATTACHED_WAIT_RESET_COMPLETE ==>
          h' == h || (h'.state == ATTACHED_WAIT_SOF && x.resetDone && w == [StartFrames]))
    && (h.state == ATTACHED_WAIT_SOF ==>
          || h' == h
          || (x.frameIrq && h' == h.(state := ATTACHED_WAIT_RESET, delay := Wrap32(Wrap32(x.ms) + RESET_DELAY))))
    && (h.state == ATTACHED_WAIT_RESET ==> h' == h || (h'.state >= CONFIGURING && Reached(x.ms, h.delay)))
    && (h'.state == RUNNING && h.state != RUNNING ==>
          && (h.state == ATTACHED_WAIT_RESET || h.state == CONFIGURING)
          && x.rcode == 0 && w == [Configure(x.vbus == LSHOST)])
  }

  // Where one call can lead.
  lemma Transitions(h: Host, x: Input)
    requires Known(h.state)
    ensures var h', s := Step(h, x), Sample(h, x);
            && Known(h'.state)
            && (!Detached(h'.state) ==> (x.vbus == FSHOST || x.vbus == LSHOST))
            && (Detached(h.state) && !Detached(h'.state) ==>
                  && s == h.(state := ATTACHED_SETTLE, delay := Wrap32(Wrap32(x.attachMs) + SETTLE_DELAY))
                  && (h' == s || (h'.state == ATTACHED_WAIT_RESET_COMPLETE && Reached(x.ms, s.delay)
                                  && Work(s, x, []) == [BusReset])))
            && (!Detached(h.state) && !Detached(h'.state) ==> s == h && h' == Advance(h, x) && Advances(h, x))
  {
    hide Reached, Wrap32;
  }

  lemma {:induction false} KnownRun(h: Host, xs: seq<Input>)
    requires Known(h.state)
    ensures Known(Run(h, xs).state)
  {
    if xs == [] {
    } else {
      KnownRun(h, xs[..|xs| - 1]);
      Transitions(Run(h, xs[..|xs| - 1]), xs[|xs| - 1]);
    }
  }

  // The state before the last call, and what that call can do.
  lemma LastCall(h: Host, xs: seq<Input>)
    requires Known(h.state) && xs != []
    ensures var n := |xs| - 1;
            var before, now, x := Run(h, xs[..n]), Run(h, xs), xs[n];
            var s := Sample(before, x);
            && Known(before.state) && Known(now.state)
            && (!Detached(now.state) ==> x.vbus == FSHOST || x.vbus == LSHOST)
            && (Detached(before.state) && !Detached(now.state) ==>
                  && s == before.(state := ATTACHED_SETTLE, delay := Wrap32(Wrap32(x.attachMs) + SETTLE_DELAY))
                  && (now == s || (now.state == ATTACHED_WAIT_RESET_COMPLETE && Reached(x.ms, s.delay)
                                   && Work(s, x, []) == [BusReset])))
            && (!Detached(before.state) && !Detached(now.state) ==>
                  s == before && now == Advance(before, x) && Advances(before, x))
            && (forall k :: 0 <= k <= n ==> xs[..n][..k] == xs[..k])
  {
    hide Advances, Advance, Sample, Work, Wrap32, Reached, Known;
    KnownRun(h, xs[..|xs| - 1]);
    Transitions(Run(h, xs[..|xs| - 1]), xs[|xs| - 1]);
  }

  lemma RunNone(h: Host)
    ensures Run(h, []) == h
  {
  }

  lemma {:induction false} AttachedRun(h: Host, xs: seq<Input>)
    requires Known(h.state) && Detached(h.state)
    ensures !Detached(Run(h, xs).state) ==> Attached(h, xs, Marks(h, xs))
  {
    hide Run, Advance, Sample, Work, Wrap32, Reached, Known, Advances;
    if xs == [] {
      RunNone(h);
    } else {
      AttachedRun(h, xs[..|xs| - 1]);
      LastCall(h, xs);
    }
  }

  lemma {:induction false} SettleRun(h: Host, xs: seq<Input>)
    requires Known(h.state) && Detached(h.state)
    ensures var m := Marks(h, xs);
            Run(h, xs).state == ATTACHED_SETTLE ==>
              m.attach < |xs| && Run(h, xs).delay == Wrap32(Wrap32(xs[m.attach].attachMs) + SETTLE_DELAY)
  {
    hide Run, Advance, Sample, Work, Wrap32, Reached;
    if xs == [] {
      RunNone(h);
    } else {
      SettleRun(h, xs[..|xs| - 1]);
      LastCall(h, xs);
    }
  }

  lemma {:induction false} ResetRun(h: Host, xs: seq<Input>)
    requires Known(h.state) && Detached(h.state)
    ensures Run(h, xs).state >= ATTACHED_WAIT_RESET_COMPLETE ==> HasReset(h, xs, Marks(h, xs))
  {
    hide Run, Advance, Sample, Work, Wrap32, Before;
    if xs == [] {
      RunNone(h);
    } else {
      var n := |xs| - 1;
      var m := Marks(h, xs);
      ResetRun(h, xs[..n]);
      SettleRun(h, xs[..n]);
      LastCall(h, xs);
      if m.reset == n && m.attach < |xs| && xs[m.attach].attachMs <= xs[n].ms {
        DeadlineIsExact(xs[m.attach].attachMs, SETTLE_DELAY, xs[n].ms);
      }
    }
  }

  lemma {:induction false} FinishedRun(h: Host, xs: seq<Input>)
    requires Known(h.state) && Detached(h.state)
    ensures Run(h, xs).state >= ATTACHED_WAIT_SOF ==> HasFinished(h, xs, Marks(h, xs))
  {
    hide Run, Advance, Sample, Work, Wrap32, Reached;
    if xs == [] {
      RunNone(h);
    } else {
      ResetRun(h, xs[..|xs| - 1]);
      FinishedRun(h, xs[..|xs| - 1]);
      LastCall(h, xs);
    }
  }

  lemma {:induction false} FrameRun(h: Host, xs: seq<Input>)
    requires Known(h.state) && Detached(h.state)
    ensures Run(h, xs).state >= ATTACHED_WAIT_RESET ==> HasFrame(xs, Marks(h, xs))
  {
    hide Run, Advance, Sample, Work, Wrap32, Reached;
    if xs != [] {
      FinishedRun(h, xs[..|xs| - 1]);
      FrameRun(h, xs[..|xs| - 1]);
      LastCall(h, xs);
    } else {
      RunNone(h);
    }
  }

  lemma {:induction false} WaitingRun(h: Host, xs: seq<Input>)
    requires Known(h.state) && Detached(h.state)
    ensures var m := Marks(h, xs);
            Run(h, xs).state == ATTACHED_WAIT_RESET ==>
              m.frame < |xs| && Run(h, xs).delay == Wrap32(Wrap32(xs[m.frame].ms) + RESET_DELAY)
  {
    hide Run, Advance, Sample, Work, Wrap32, Reached;
    if xs != [] {
      WaitingRun(h, xs[..|xs| - 1]);
      LastCall(h, xs);
    } else {
      RunNone(h);
    }
  }

  lemma {:induction false} WaitedRun(h: Host, xs: seq<Input>)
    requires Known(h.state) && Detached(h.state)
    ensures Run(h, xs).state >= CONFIGURING ==> HasWaited(h, xs, Marks(h, xs))
  {
    hide Run, Advance, Sample, Work, Wrap32, Before;
    if xs == [] {
      RunNone(h);
    } else {
      var n, m := |xs| - 1, Marks(h, xs);
      FrameRun(h, xs[..n]);
      WaitingRun(h, xs[..n]);
      WaitedRun(h, xs[..n]);
      LastCall(h, xs);
      if m.waited == n && m.frame < n && xs[m.frame].ms <= xs[n].ms {
        DeadlineIsExact(xs[m.frame].ms, RESET_DELAY, xs[n].ms);
      }
    }
  }

  lemma {:induction false} ConfiguredRun(h: Host, xs: seq<Input>)
    requires Known(h.state) && Detached(h.state)
    ensures Run(h, xs).state == RUNNING ==> IsConfigured(h, xs, Marks(h, xs))
  {
    hide Run, Advance, Sample, Work, Wrap32, Reached;
    if xs == [] {
      RunNone(h);
    } else {
      WaitedRun(h, xs[..|xs| - 1]);
      ConfiguredRun(h, xs[..|xs| - 1]);
      LastCall(h, xs);
    }
  }

  // Whenever the state is RUNNING, then since the latest attach no SE0 or SE1 was sampled,
  // the settle delay went by, a bus reset was issued and later found finished, a frame
  // interrupt was seen after that, 20 ms more went by, and Configuring returned 0.
  lemma RunningIsSafe(h: Host, xs: seq<Input>)
    requires Known(h.state) && Detached(h.state) && Run(h, xs).state == RUNNING
    ensures var m := Marks(h, xs);
            && Attached(h, xs, m) && HasReset(h, xs, m) && HasFinished(h, xs, m)
            && HasFrame(xs, m) && HasWaited(h, xs, m) && IsConfigured(h, xs, m)
  {
    AttachedRun(h, xs);
    ResetRun(h, xs);
    FinishedRun(h, xs);
    FrameRun(h, xs);
    WaitedRun(h, xs);
    ConfiguredRun(h, xs);
  }

  // The state was RUNNING all through the run.
  predicate KeepsRunning(h: Host, xs: seq<Input>) {
    forall k :: 0 <= k <= |xs| ==> Run(h, xs[..k]).state == RUNNING
  }

  lemma RunningStep(h: Host, x: Input)
    requires h.state == RUNNING
    ensures Step(h, x).state == RUNNING <==> x.vbus == FSHOST || x.vbus == LSHOST
  {
  }

  lemma KeepsRunningNone(h: Host)
    requires h.state == RUNNING
    ensures KeepsRunning(h, [])
  {
  }

  lemma KeepsRunningNow(h: Host, xs: seq<Input>)
    requires KeepsRunning(h, xs)
    ensures Run(h, xs).state == RUNNING
  {
    assert xs[..|xs|] == xs;
  }

  lemma KeepsRunningSnoc(h: Host, xs: seq<Input>)
    requires xs != []
    ensures KeepsRunning(h, xs) <==> KeepsRunning(h, xs[..|xs| - 1]) && Run(h, xs).state == RUNNING
  {
    hide Run;
    var n := |xs| - 1;
    assert xs[..|xs|] == xs;
    assert forall k :: 0 <= k <= n ==> xs[..n][..k] == xs[..k];
  }

  lemma RunLast(h: Host, xs: seq<Input>)
    requires xs != []
    ensures Run(h, xs) == Step(Run(h, xs[..|xs| - 1]), xs[|xs| - 1])
  {
  }

  // RUNNING lasts as long as the device: through a run it is never left, if and only if
  // every sample shows a device.
  lemma {:induction false} RunningLasts(h: Host, xs: seq<Input>)
    requires h.state == RUNNING
    ensures KeepsRunning(h, xs) <==> Present(xs, 0)
    decreases |xs|
  {
    hide Run, Step, KeepsRunning;
    if xs == [] {
      RunNone(h);
      KeepsRunningNone(h);
    } else {
      var n := |xs| - 1;
      RunningLasts(h, xs[..n]);
      RunLast(h, xs);
      KeepsRunningSnoc(h, xs);
      if KeepsRunning(h, xs[..n]) {
        KeepsRunningNow(h, xs[..n]);
        RunningStep(Run(h, xs[..n]), xs[n]);
      }
    }
  }

  // The first result of Configuring that does not ask for more time.
  function FirstResult(xs: seq<Input>): (k: nat)
    ensures k <= |xs| && (k < |xs| ==> xs[k].rcode != INIT_INCOMPLETE)
    ensures forall i :: 0 <= i < k ==> xs[i].rcode == INIT_INCOMPLETE
  {
    if xs == [] || xs[0].rcode != INIT_INCOMPLETE then 0 else 1 + FirstResult(xs[1..])
  }

  lemma ConfiguringStep(h: Host, x: Input)
    requires h.state == CONFIGURING || h.state == RUNNING || h.state == ERROR
    requires x.vbus == FSHOST || x.vbus == LSHOST
    ensures Step(h, x) == if h.state == CONFIGURING then Configured(h, x.rcode) else h
  {
  }

  lemma FirstResultSnoc(xs: seq<Input>)
    requires xs != []
    ensures var n, k := |xs| - 1, FirstResult(xs[..|xs| - 1]);
            FirstResult(xs) == if k < n then k else if xs[n].rcode == INIT_INCOMPLETE then |xs| else n
  {
    var n := |xs| - 1;
    var k, k' := FirstResult(xs[..n]), FirstResult(xs);
    hide FirstResult;
    assert forall i :: 0 <= i < n ==> xs[..n][i] == xs[i];
  }

  // While the device is there, Configuring is called until it has a result, and that decides
  // for good: RUNNING after success, and otherwise ERROR, with the result kept.
  lemma {:induction false} ConfiguringDecides(h: Host, xs: seq<Input>)
    requires h.state == CONFIGURING && Present(xs, 0)
    ensures var k, h' := FirstResult(xs), Run(h, xs);
            if k == |xs| then h' == h
            else if xs[k].rcode == 0 then h' == h.(state := RUNNING)
            else h' == h.(state := ERROR, error := xs[k].rcode)
    decreases |xs|
  {
    if xs == [] {
      RunNone(h);
    } else {
      hide Run, Step, FirstResult;
      var n := |xs| - 1;
      assert xs[n].vbus == FSHOST || xs[n].vbus == LSHOST;
      ConfiguringDecides(h, xs[..n]);
      ConfiguringStep(Run(h, xs[..n]), xs[n]);
      RunLast(h, xs);
      FirstResultSnoc(xs);
    }
  }

  lemma {:induction false} PollAllMeans(registered: seq<bool>, n: nat, i: nat)
    requires n <= |registered|
    ensures Poll(i) in PollAll(registered, n) <==> i < n && registered[i]
    ensures |PollAll(registered, n)| <= n
  {
    if n == 0 {
    } else {
      PollAllMeans(registered, n - 1, i);
    }
  }

  lemma {:induction false} ReleasesAreNoPolls(registered: seq<bool>, n: nat, i: nat)
    requires n <= |registered|
    ensures Poll(i) !in ReleaseAll(registered, n)
  {
    if n == 0 {
    } else {
      ReleasesAreNoPolls(registered, n - 1, i);
    }
  }

  // Every registered driver is polled, in every state, and before anything else is done.
  lemma DriversArePolled(h: Host, x: Input, registered: seq<bool>, i: nat)
    ensures Poll(i) in Actions(h, x, registered) <==> i < |registered| && registered[i]
    ensures |PollAll(registered, |registered|)| <= |registered|
    ensures PollAll(registered, |registered|) <= Actions(h, x, registered)
  {
    PollAllMeans(registered, |registered|, i);
    ReleasesAreNoPolls(registered, |registered|, i);
    hide PollAll, ReleaseAll, Reached, Sample;
  }

  // ----- detaching -----

  function AllActions(h: Host, xs: seq<Input>, registered: seq<bool>): seq<Action> {
    if xs == [] then []
    else
      var n := |xs| - 1;
      AllActions(h, xs[..n], registered) + Actions(Run(h, xs[..n]), xs[n], registered)
  }

  // The initialisations of the controller and the releases among the actions.
  function Releases(actions: seq<Action>): seq<Action> {
    if actions == [] then []
    else if actions[0].Release? || actions[0].Init? then [actions[0]] + Releases(actions[1..])
    else Releases(actions[1..])
  }

  lemma {:induction false} ReleasesAppend(a: seq<Action>, b: seq<Action>)
    ensures Releases(a + b) == Releases(a) + Releases(b)
  {
    if a == [] {
      assert a + b == b;
    } else {
      ReleasesAppend(a[1..], b);
      assert (a + b)[1..] == a[1..] + b;
      assert [a[0]] + (Releases(a[1..]) + Releases(b)) == [a[0]] + Releases(a[1..]) + Releases(b);
    }
  }

  lemma ReleasesOne(a: Action)
    ensures Releases([a]) == if a.Release? || a.Init? then [a] else []
  {
  }

  lemma {:induction false} ReleasesOf(registered: seq<bool>, n: nat)
    requires n <= |registered|
    ensures Releases(PollAll(registered, n)) == []
    ensures Releases(ReleaseAll(registered, n)) == ReleaseAll(registered, n)
  {
    if n == 0 {
    } else {
      ReleasesOf(registered, n - 1);
      hide Releases;
      if registered[n - 1] {
        ReleasesAppend(PollAll(registered, n - 1), [Poll(n - 1)]);
        ReleasesAppend(ReleaseAll(registered, n - 1), [Release(n - 1)]);
        ReleasesOne(Poll(n - 1));
        ReleasesOne(Release(n - 1));
      }
    }
  }

  // Every registered driver is released, and only those.
  lemma {:induction false} ReleaseAllMeans(registered: seq<bool>, n: nat, i: nat)
    requires n <= |registered|
    ensures Release(i) in ReleaseAll(registered, n) <==> i < n && registered[i]
  {
    if n == 0 {
    } else {
      ReleaseAllMeans(registered, n - 1, i);
    }
  }

  lemma ReleasesOfCall(h: Host, x: Input, registered: seq<bool>)
    ensures Releases(Actions(h, x, registered)) ==
            if Sample(h, x).state == DETACHED_INITIALIZE then [Init] + ReleaseAll(registered, |registered|) else []
  {
    var w := Work(Sample(h, x), x, registered);
    ReleasesOf(registered, |registered|);
    ReleasesAppend(PollAll(registered, |registered|), w);
    hide Sample, Reached, PollAll, ReleaseAll;
    if Sample(h, x).state == DETACHED_INITIALIZE {
      ReleasesAppend([Init], ReleaseAll(registered, |registered|));
      ReleasesOne(Init);
    } else if w != [] {
      assert w == [w[0]] && !w[0].Release? && !w[0].Init?;
      ReleasesOne(w[0]);
    }
    hide Releases;
  }

  // From the call that finds an attached device gone: all the calls leave it detached.
  predicate StaysDetached(h: Host, xs: seq<Input>) {
    forall k :: 0 < k <= |xs| ==> Detached(Run(h, xs[..k]).state)
  }

  lemma LastDetached(h: Host, xs: seq<Input>)
    requires xs != [] && StaysDetached(h, xs)
    ensures Detached(Run(h, xs).state) && StaysDetached(h, xs[..|xs| - 1])
    ensures Run(h, xs) == Step(Run(h, xs[..|xs| - 1]), xs[|xs| - 1])
  {
    var front := xs[..|xs| - 1];
    RunLast(h, xs);
    hide Run;
    assert xs[..|xs|] == xs;
    assert forall k :: 0 < k <= |front| ==> front[..k] == xs[..k];
  }

  lemma NoActions(h: Host, registered: seq<bool>)
    ensures Releases(AllActions(h, [], registered)) == []
  {
  }

  lemma LastReleases(h: Host, xs: seq<Input>, registered: seq<bool>)
    requires xs != []
    ensures var n := |xs| - 1;
            Releases(AllActions(h, xs, registered)) ==
            Releases(AllActions(h, xs[..n], registered)) +
            if Sample(Run(h, xs[..n]), xs[n]).state == DETACHED_INITIALIZE
            then [Init] + ReleaseAll(registered, |registered|) else []
  {
    hide Releases, Actions, Run, Sample, ReleaseAll;
    var n := |xs| - 1;
    ReleasesOfCall(Run(h, xs[..n]), xs[n], registered);
    ReleasesAppend(AllActions(h, xs[..n], registered), Actions(Run(h, xs[..n]), xs[n], registered));
  }

  // Until the next attach the controller is initialised and the drivers are released once, in
  // the very call that saw SE0; but if the device went with SE1, not at all.
  lemma {:induction false} DetachReleases(h: Host, xs: seq<Input>, registered: seq<bool>)
    requires Known(h.state) && !Detached(h.state) && xs != [] && StaysDetached(h, xs)
    ensures xs[0].vbus == SE0 || xs[0].vbus == SE1
    ensures Run(h, xs).state == DETACHED_ILLEGAL || (xs[0].vbus == SE0 && Run(h, xs).state == DETACHED_WAIT_FOR_DEVICE)
    ensures Releases(AllActions(h, xs, registered)) ==
            if xs[0].vbus == SE0 then [Init] + ReleaseAll(registered, |registered|) else []
  {
    hide Releases, Actions, AllActions, ReleaseAll, Wrap32, Reached, Run;
    var n := |xs| - 1;
    var front, x := xs[..n], xs[n];
    var before := Run(h, front);
    LastReleases(h, xs, registered);
    LastDetached(h, xs);
    if n == 0 {
      RunNone(h);
      assert front == [];
      NoActions(h, registered);
    } else {
      DetachReleases(h, front, registered);
    }
  }
}
