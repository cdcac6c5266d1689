// How far a device gets after it is attached, told from what the calls of Task meet.
module UsbProgress {
  import opened Clock
  import opened MachineInts
  import opened UsbTask

  // The first call from number k on that meets the condition, |xs| if there is none.
  function First(xs: seq<Input>, k: nat, test: Input -> bool): (i: nat)
    requires k <= |xs|
    ensures k <= i <= |xs| && (i < |xs| ==> test(xs[i]))
    ensures forall j :: k <= j < i ==> !test(xs[j])
    decreases |xs| - k
  {
    if k == |xs| || test(xs[k]) then k else First(xs, k + 1, test)
  }

  // The delay after `from` is over at `now`, as 32-bit time tells it.
  predicate Passed(from: nat, delay: nat, now: nat) {
    (now - from - delay) % 0x1_0000_0000 < 0x8000_0000
  }

  // That is real time, unless 2^31 ms go by.
  lemma PassedMeans(from: nat, delay: nat, now: nat)
    requires 0 <= now - from < 0x8000_0000 && delay <= 0x8000_0000
    ensures Passed(from, delay, now) <==> now - from >= delay
  {
  }

  lemma PassedIsReached(from: nat, delay: nat, now: nat)
    requires delay < 0x8000_0000
    ensures Passed(from, delay, now) <==> Reached(now, Wrap32(Wrap32(from) + delay))
  {
    DeadlineIsExact(from, delay, now);
  }

  // What a call has to meet.
  function Over(from: nat, delay: nat): Input -> bool {
    (x: Input) => Passed(from, delay, x.ms)
  }

  function ResetDone(): Input -> bool {
    (x: Input) => x.resetDone
  }

  function FrameBegun(): Input -> bool {
    (x: Input) => x.frameIrq
  }

  function HasResult(): Input -> bool {
    (x: Input) => x.rcode != 0xD2
  }

  // ----- the calls in which a device gets on -----

  // The first call of xs is the one that finds the device attached.  The settle time of
  // 200 ms is over,
  function Settled(xs: seq<Input>): (i: nat)
    requires xs != []
    ensures i <= |xs|
  {
    First(xs, 0, Over(xs[0].attachMs, 200))
  }

  // in a later call the bus reset is done,
  function Reset(xs: seq<Input>): (i: nat)
    requires xs != []
    ensures Settled(xs) <= i <= |xs|
  {
    First(xs, Min(Settled(xs) + 1, |xs|), ResetDone())
  }

  // in a later one a frame has begun,
  function Frame(xs: seq<Input>): (i: nat)
    requires xs != []
    ensures Reset(xs) <= i <= |xs|
  {
    First(xs, Min(Reset(xs) + 1, |xs|), FrameBegun())
  }

  // in a later one 20 ms have passed since then,
  function Waited(xs: seq<Input>): (i: nat)
    requires xs != []
    ensures Frame(xs) <= i <= |xs|
  {
    if Frame(xs) == |xs| then |xs| else First(xs, Frame(xs) + 1, Over(xs[Frame(xs)].ms, 20))
  }

  // and in that one or a later one Configuring has a result.
  function Result(xs: seq<Input>): (i: nat)
    requires xs != []
    ensures Waited(xs) <= i <= |xs|
  {
    First(xs, Waited(xs), HasResult())
  }

  // Where the calls lead.
  function StateAfter(xs: seq<Input>): u8
    requires xs != []
  {
    var n := |xs|;
    if Settled(xs) == n then 0x20
    else if Reset(xs) == n then 0x40
    else if Frame(xs) == n then 0x50
    else if Waited(xs) == n then 0x51
    else if Result(xs) == n then 0x80
    else if xs[Result(xs)].rcode == 0 then 0x90
    else 0xA0
  }

  // ----- one more call -----

  lemma {:induction false} FirstIs(xs: seq<Input>, k: nat, test: Input -> bool, i: nat)
    requires k <= i <= |xs| && (i < |xs| ==> test(xs[i])) && forall j :: k <= j < i ==> !test(xs[j])
    ensures First(xs, k, test) == i
    decreases i - k
  {
    if k == i {
    } else {
      FirstIs(xs, k + 1, test, i);
    }
  }

  lemma FirstSnoc(xs: seq<Input>, k: nat, test: Input -> bool)
    requires xs != [] && k < |xs|
    ensures var n := |xs| - 1;
            var f := First(xs[..n], k, test);
            First(xs, k, test) == if f < n then f else if test(xs[n]) then n else n + 1
  {
    hide First;
    var n := |xs| - 1;
    var f := First(xs[..n], k, test);
    assert forall j :: k <= j < f ==> xs[..n][j] == xs[j];
    FirstIs(xs, k, test, if f < n then f else if test(xs[n]) then n else n + 1);
  }

  // The index f of a call among the first ones, when there is one call more.
  function More(f: nat, n: nat, now: bool): nat {
    if f < n then f else if now then n else n + 1
  }

  lemma SettledSnoc(xs: seq<Input>)
    requires |xs| > 1
    ensures var n := |xs| - 1;
            Settled(xs) == More(Settled(xs[..n]), n, Passed(xs[0].attachMs, 200, xs[n].ms))
  {
    hide First, Passed;
    FirstSnoc(xs, 0, Over(xs[0].attachMs, 200));
  }

  lemma ResetSnoc(xs: seq<Input>)
    requires |xs| > 1
    ensures var n := |xs| - 1;
            Reset(xs) == More(Reset(xs[..n]), n, Settled(xs[..n]) < n && xs[n].resetDone)
  {
    hide First, Passed, Settled;
    var n := |xs| - 1;
    SettledSnoc(xs);
    if Settled(xs[..n]) < n {
      FirstSnoc(xs, Settled(xs) + 1, ResetDone());
    }
  }

  lemma FrameSnoc(xs: seq<Input>)
    requires |xs| > 1
    ensures var n := |xs| - 1;
            Frame(xs) == More(Frame(xs[..n]), n, Reset(xs[..n]) < n && xs[n].frameIrq)
  {
    hide First, Passed, Reset;
    var n := |xs| - 1;
    ResetSnoc(xs);
    if Reset(xs[..n]) < n {
      FirstSnoc(xs, Reset(xs) + 1, FrameBegun());
    }
  }

  lemma WaitedSnoc(xs: seq<Input>)
    requires |xs| > 1
    ensures var n, f := |xs| - 1, Frame(xs[..|xs| - 1]);
            Waited(xs) == More(Waited(xs[..n]), n, f < n && Passed(xs[f].ms, 20, xs[n].ms))
  {
    hide First, Passed, Frame;
    var n := |xs| - 1;
    FrameSnoc(xs);
    if Frame(xs[..n]) < n {
      FirstSnoc(xs, Frame(xs) + 1, Over(xs[Frame(xs)].ms, 20));
    }
  }

  lemma ResultSnoc(xs: seq<Input>)
    requires |xs| > 1
    ensures var n := |xs| - 1;
            Result(xs) == More(Result(xs[..n]), n, Waited(xs) <= n && xs[n].rcode != 0xD2)
  {
    hide First, Waited;
    var n := |xs| - 1;
    WaitedSnoc(xs);
    if Waited(xs) <= n {
      FirstSnoc(xs, Waited(xs), HasResult());
    }
  }

  // ----- the run -----

  // The host after the calls xs, the deadline that it waits for and the error included.
  predicate On(h: Host, xs: seq<Input>)
    requires xs != []
  {
    var n := |xs|;
    && h.state == StateAfter(xs)
    && (Settled(xs) == n ==> h.delay == Wrap32(Wrap32(xs[0].attachMs) + 200))
    && (Frame(xs) < n == Waited(xs) ==> h.delay == Wrap32(Wrap32(xs[Frame(xs)].ms) + 20))
    && (Result(xs) < n && xs[Result(xs)].rcode != 0 ==> h.error == xs[Result(xs)].rcode)
  }

  predicate IsDevice(x: Input) {
    x.vbus == FSHOST || x.vbus == LSHOST
  }

  // One call for an attached device, state by state.
  lemma StepInState(h: Host, x: Input)
    requires IsDevice(x)
    ensures h.state == 0x20 ==> Step(h, x) == if Reached(x.ms, h.delay) then h.(state := 0x40) else h
    ensures h.state == 0x40 ==> Step(h, x) == if x.resetDone then h.(state := 0x50) else h
    ensures h.state == 0x50 ==>
              Step(h, x) == if x.frameIrq then Host(0x51, Wrap32(Wrap32(x.ms) + 20), h.error) else h
    ensures h.state == 0x51 && !Reached(x.ms, h.delay) ==> Step(h, x) == h
    ensures (h.state == 0x51 && Reached(x.ms, h.delay)) || h.state == 0x80 ==>
              Step(h, x) == if x.rcode == 0xD2 then h.(state := 0x80)
                            else if x.rcode == 0 then h.(state := 0x90)
                            else Host(0xA0, h.delay, x.rcode)
    ensures h.state == 0x90 || h.state == 0xA0 ==> Step(h, x) == h
    ensures Detached(h.state) ==>
              var d := Wrap32(Wrap32(x.attachMs) + 200);
              Step(h, x) == Host(if Reached(x.ms, d) then 0x40 else 0x20, d, h.error)
  {
    hide Reached, Wrap32;
  }

  lemma OnFirst(h: Host, x: Input)
    requires Detached(h.state) && IsDevice(x)
    ensures On(Step(h, x), [x])
  {
    StepInState(h, x);
    PassedIsReached(x.attachMs, 200, x.ms);
    hide Passed, Reached, Wrap32, Step;
    assert Settled([x]) == if Passed(x.attachMs, 200, x.ms) then 0 else 1;
  }

  lemma OnNext(h: Host, xs: seq<Input>)
    requires |xs| > 1 && On(h, xs[..|xs| - 1]) && IsDevice(xs[|xs| - 1])
    ensures On(Step(h, xs[|xs| - 1]), xs)
  {
    hide Passed, Reached, Wrap32, Step, Settled, Reset, Frame, Waited, Result;
    var n := |xs| - 1;
    SettledSnoc(xs);
    ResetSnoc(xs);
    FrameSnoc(xs);
    WaitedSnoc(xs);
    ResultSnoc(xs);
    StepInState(h, xs[n]);
    PassedIsReached(xs[0].attachMs, 200, xs[n].ms);
    if Frame(xs[..n]) < n {
      PassedIsReached(xs[Frame(xs[..n])].ms, 20, xs[n].ms);
    }
  }

  // From the call that finds a device attached, and as long as it stays: what the calls meet
  // decides, in this order and in no other way, how far it gets.
  lemma {:induction false} DeviceGetsOn(h: Host, xs: seq<Input>)
    requires Detached(h.state) && xs != [] && Present(xs, 0)
    ensures On(Run(h, xs), xs)
    decreases |xs|
  {
    hide Step, On;
    var n := |xs| - 1;
    RunLast(h, xs);
    if n == 0 {
      assert xs == [xs[0]] && xs[..0] == [];
      RunNone(h);
      OnFirst(h, xs[0]);
    } else {
      assert IsDevice(xs[n]);
      DeviceGetsOn(h, xs[..n]);
      OnNext(Run(h, xs[..n]), xs);
    }
  }

  // What a call does in each state besides polling the drivers.
  lemma WorkInState(h: Host, x: Input)
    requires IsDevice(x)
    ensures var w := Work(Sample(h, x), x, []);
            && (h.state == 0x20 ==> w == if Reached(x.ms, h.delay) then [BusReset] else [])
            && (h.state == 0x40 ==> w == if x.resetDone then [StartFrames] else [])
            && (h.state == 0x50 || h.state == 0x90 || h.state == 0xA0 ==> w == [])
            && (h.state == 0x51 && !Reached(x.ms, h.delay) ==> w == [])
            && ((h.state == 0x51 && Reached(x.ms, h.delay)) || h.state == 0x80 ==> w == [Configure(x.vbus == LSHOST)])
            && (Detached(h.state) ==>
                  w == if Reached(x.ms, Wrap32(Wrap32(x.attachMs) + 200)) then [BusReset] else [])
  {
    hide Reached, Wrap32;
  }

  // The actions of the last of the calls xs.
  function WorkAfter(xs: seq<Input>): seq<Action>
    requires xs != []
  {
    var n := |xs| - 1;
    if Settled(xs) == n then [BusReset]
    else if Reset(xs) == n then [StartFrames]
    else if Waited(xs) <= n <= Result(xs) then [Configure(xs[n].vbus == LSHOST)]
    else []
  }

  lemma WorkOnce(h: Host, x: Input)
    requires Detached(h.state) && IsDevice(x)
    ensures Work(Sample(h, x), x, []) == WorkAfter([x])
  {
    WorkInState(h, x);
    PassedIsReached(x.attachMs, 200, x.ms);
    hide Passed, Reached, Wrap32, Work, Sample;
    assert Settled([x]) == if Passed(x.attachMs, 200, x.ms) then 0 else 1;
  }

  lemma WorkNext(h: Host, xs: seq<Input>)
    requires |xs| > 1 && On(h, xs[..|xs| - 1]) && IsDevice(xs[|xs| - 1])
    ensures Work(Sample(h, xs[|xs| - 1]), xs[|xs| - 1], []) == WorkAfter(xs)
  {
    hide Passed, Reached, Wrap32, Work, Sample, Settled, Reset, Frame, Waited, Result;
    var n := |xs| - 1;
    SettledSnoc(xs);
    ResetSnoc(xs);
    FrameSnoc(xs);
    WaitedSnoc(xs);
    ResultSnoc(xs);
    WorkInState(h, xs[n]);
    PassedIsReached(xs[0].attachMs, 200, xs[n].ms);
    if Frame(xs[..n]) < n {
      PassedIsReached(xs[Frame(xs[..n])].ms, 20, xs[n].ms);
    }
  }

  // The bus reset, the start of the frames and the calls of Configuring are made in just
  // those calls of Task that the way of the device names, each of the first two once.
  lemma DeviceIsServed(h: Host, xs: seq<Input>)
    requires Detached(h.state) && xs != [] && Present(xs, 0)
    ensures var n := |xs| - 1;
            Work(Sample(Run(h, xs[..n]), xs[n]), xs[n], []) == WorkAfter(xs)
  {
    hide Work, Sample, WorkAfter, On;
    var n := |xs| - 1;
    assert IsDevice(xs[n]);
    if n == 0 {
      assert xs == [xs[0]] && xs[..0] == [];
      RunNone(h);
      WorkOnce(h, xs[0]);
    } else {
      DeviceGetsOn(h, xs[..n]);
      WorkNext(Run(h, xs[..n]), xs);
    }
  }

  // ----- in real time -----

  // The clock does not run backwards, and less than 2^31 ms go by.
  predicate Clocked(xs: seq<Input>) {
    && (forall i :: 0 <= i < |xs| ==> xs[0].attachMs <= xs[i].ms < xs[0].attachMs + 0x8000_0000)
    && (forall i, j :: 0 <= i <= j < |xs| ==> xs[i].ms <= xs[j].ms)
  }

  // Four calls in this order: past the settle time, with the bus reset done, with a frame,
  // and 20 ms after that.
  predicate FourCalls(xs: seq<Input>, a: nat, b: nat, c: nat, d: nat) {
    && a < b < c < d < |xs|
    && xs[a].ms - xs[0].attachMs >= 200 && xs[b].resetDone && xs[c].frameIrq && xs[d].ms - xs[c].ms >= 20
  }

  lemma FirstIsFirst(xs: seq<Input>, k: nat, test: Input -> bool, j: nat)
    requires k <= j < |xs| && test(xs[j])
    ensures First(xs, k, test) <= j
  {
  }

  lemma NoEarlierCalls(xs: seq<Input>, a: nat, b: nat, c: nat, d: nat)
    requires Clocked(xs) && FourCalls(xs, a, b, c, d)
    ensures Waited(xs) <= d
  {
    PassedMeans(xs[0].attachMs, 200, xs[a].ms);
    FirstIsFirst(xs, 0, Over(xs[0].attachMs, 200), a);
    FirstIsFirst(xs, Settled(xs) + 1, ResetDone(), b);
    FirstIsFirst(xs, Reset(xs) + 1, FrameBegun(), c);
    var f := Frame(xs);
    assert xs[f].ms <= xs[c].ms <= xs[d].ms;
    PassedMeans(xs[f].ms, 20, xs[d].ms);
    FirstIsFirst(xs, f + 1, Over(xs[f].ms, 20), d);
  }

  lemma TheFourCalls(xs: seq<Input>)
    requires xs != [] && Clocked(xs) && Waited(xs) < |xs|
    ensures FourCalls(xs, Settled(xs), Reset(xs), Frame(xs), Waited(xs))
  {
    hide First;
    PassedMeans(xs[0].attachMs, 200, xs[Settled(xs)].ms);
    PassedMeans(xs[Frame(xs)].ms, 20, xs[Waited(xs)].ms);
  }

  lemma FourCallsInside(xs: seq<Input>, a: nat, b: nat, c: nat, d: nat)
    requires FourCalls(xs, a, b, c, d)
    ensures d < |xs|
  {
  }

  lemma WaitedMeans(xs: seq<Input>)
    requires xs != []
    ensures StateAfter(xs) >= CONFIGURING <==> Waited(xs) < |xs|
  {
    hide Settled, Reset, Frame, Waited, Result;
  }

  // In real time: a device that stays is configured if and only if there are four such calls.
  lemma ConfiguringIsReached(h: Host, xs: seq<Input>)
    requires Detached(h.state) && xs != [] && Present(xs, 0) && Clocked(xs)
    ensures Run(h, xs).state >= CONFIGURING <==> exists a, b, c, d :: FourCalls(xs, a, b, c, d)
  {
    hide Run, StateAfter, Waited, FourCalls, Clocked;
    DeviceGetsOn(h, xs);
    WaitedMeans(xs);
    if Waited(xs) < |xs| {
      TheFourCalls(xs);
    }
    if a, b, c, d :| FourCalls(xs, a, b, c, d) {
      NoEarlierCalls(xs, a, b, c, d);
      FourCallsInside(xs, a, b, c, d);
    }
  }
}
