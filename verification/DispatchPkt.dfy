// dispatchPkt: launching one packet, again and again, under a retry limit and a deadline.
module DispatchPkt {
  import opened Clock
  import opened MachineInts
  import opened UsbCodes

  const NAK_MAX_POWER: u8 := 15

  // ----- the NAK limit of an endpoint -----

  function Pow2(n: nat): (r: nat)
    ensures r >= 1
  {
    if n == 0 then 1 else 2 * Pow2(n - 1)
  }

  // SetAddress: 2^bmNakPower - 1, with the power capped.
  function NakLimit(bmNakPower: u8): nat {
    Pow2(Min(bmNakPower, NAK_MAX_POWER)) - 1
  }

  lemma {:induction false} Pow2Monotone(m: nat, n: nat)
    requires m <= n
    ensures 1 <= Pow2(m) <= Pow2(n)
    decreases n
  {
    if m < n {
      Pow2Monotone(m, n - 1);
    } else if m > 0 {
      Pow2Monotone(m - 1, n - 1);
    }
  }

  lemma NakLimitFits(bmNakPower: u8)
    ensures NakLimit(bmNakPower) <= 0x7FFF && (NakLimit(bmNakPower) == 0 <==> bmNakPower == 0)
  {
    Pow2Monotone(Min(bmNakPower, NAK_MAX_POWER), 15);
    assert Pow2(15) == 2 * Pow2(14) == 4 * Pow2(13) == 8 * Pow2(12) == 0x8000;
    if bmNakPower > 0 {
      Pow2Monotone(1, Min(bmNakPower, NAK_MAX_POWER));
      assert Pow2(1) == 2;
    }
  }

  // 1, 3, 7 and so on, up to 15 bits.
  lemma NakLimitDoubles(bmNakPower: u8)
    requires bmNakPower < 255
    ensures NakLimit(0) == 0
    ensures bmNakPower < 15 ==> NakLimit(bmNakPower + 1) == 2 * NakLimit(bmNakPower) + 1
    ensures bmNakPower >= 15 ==> NakLimit(bmNakPower + 1) == NakLimit(bmNakPower)
  {
  }

  // ----- what a run of launches looks like -----

  function Count(s: seq<u8>, x: u8): nat {
    if s == [] then 0 else (if s[|s| - 1] == x then 1 else 0) + Count(s[..|s| - 1], x)
  }

  // Answers after which the packet is launched again.
  predicate Retries(s: seq<u8>, nakLimit: nat) {
    && (forall i :: 0 <= i < |s| ==> s[i] == NAK || s[i] == TIMEOUT)
    && (nakLimit > 0 ==> Count(s, NAK) < nakLimit)
    && Count(s, TIMEOUT) < RETRY_LIMIT
  }

  lemma {:induction false} RetriesAdd(s: seq<u8>)
    requires forall i :: 0 <= i < |s| ==> s[i] == NAK || s[i] == TIMEOUT
    ensures |s| == Count(s, NAK) + Count(s, TIMEOUT)
  {
    if s == [] {
    } else {
      RetriesAdd(s[..|s| - 1]);
    }
  }

  // The launches of one call: retries, and one more that ended it.
  predicate Launches(s: seq<u8>, nakLimit: nat) {
    s != [] ==> Retries(s[..|s| - 1], nakLimit)
  }

  // Whatever the device answers, a call ends after at most nakLimit + 2 launches.
  lemma LaunchesAreBounded(s: seq<u8>, nakLimit: nat)
    requires Launches(s, nakLimit) && nakLimit > 0
    ensures |s| <= nakLimit + 2
  {
    if s != [] {
      RetriesAdd(s[..|s| - 1]);
    }
  }

  // Why no further launch follows.
  predicate IsLast(s: seq<u8>, nakLimit: nat)
    requires s != []
  {
    var rcode := s[|s| - 1];
    || (rcode != NAK && rcode != TIMEOUT)
    || (rcode == NAK && nakLimit > 0 && Count(s, NAK) == nakLimit)
    || (rcode == TIMEOUT && Count(s, TIMEOUT) == RETRY_LIMIT)
  }

  // One more answer: either the retries go on, or it was the last.
  lemma RetryAgain(s: seq<u8>, rcode: u8, nakLimit: nat)
    requires Retries(s, nakLimit)
    ensures var t := s + [rcode];
            && Count(t, NAK) == Count(s, NAK) + (if rcode == NAK then 1 else 0)
            && Count(t, TIMEOUT) == Count(s, TIMEOUT) + (if rcode == TIMEOUT then 1 else 0)
            && (nakLimit > 0 ==> Count(s, NAK) < nakLimit) && Count(s, TIMEOUT) < RETRY_LIMIT
            && Launches(t, nakLimit)
            && (IsLast(t, nakLimit) <==> !Retries(t, nakLimit))
            && (IsLast(t, nakLimit) <==>
                  || (rcode != NAK && rcode != TIMEOUT)
                  || (rcode == NAK && nakLimit > 0 && Count(t, NAK) == nakLimit)
                  || (rcode == TIMEOUT && Count(t, TIMEOUT) == RETRY_LIMIT))
  {
  }

  // The third timeout is the last, and the deadline is five seconds.
  lemma ThirdTimeoutIsLast(nakLimit: nat)
    ensures !IsLast([14], nakLimit) && !IsLast([14, 14], nakLimit) && IsLast([14, 14, 14], nakLimit)
    ensures XFER_TIMEOUT == 5000
  {
    assert [14, 14, 14][..2] == [14, 14] && [14, 14][..1] == [14] && [14][..0] == [];
    assert Count([], 14) == 0 && Count([14], 14) == 1 && Count([14, 14], 14) == 2 && Count([14, 14, 14], 14) == 3;
  }

  // The two counters of a call; without a limit the NAK counter is free to wrap around.
  predicate Counted(s: seq<u8>, nakLimit: nat, nakCount: u16, retryCount: u8) {
    retryCount == Count(s, TIMEOUT) && (nakLimit > 0 ==> nakCount == Count(s, NAK))
  }

  // The switch on the result code.
  method Judge(rcode: u8, nakLimit: u16, naks: u16, tries: u8, ghost s: seq<u8>)
    returns (stop: bool, nakCount: u16, retryCount: u8)
    requires Retries(s, nakLimit) && Counted(s, nakLimit, naks, tries)
    ensures Launches(s + [rcode], nakLimit)
    ensures stop <==> IsLast(s + [rcode], nakLimit)
    ensures !stop ==> Retries(s + [rcode], nakLimit) && Counted(s + [rcode], nakLimit, nakCount, retryCount)
  {
    RetryAgain(s, rcode, nakLimit);
    hide Retries, Count, Launches, IsLast;
    nakCount, retryCount := naks, tries;
    if rcode == NAK {
      nakCount := Wrap16(nakCount + 1);
      return nakLimit != 0 && nakCount == nakLimit, nakCount, retryCount;
    } else if rcode == TIMEOUT {
      retryCount := retryCount + 1;
      return retryCount == RETRY_LIMIT, nakCount, retryCount;
    } else {
      return true, nakCount, retryCount;
    }
  }

  // ----- the host controller and the clock -----

  // The k-th clock reading, whether a poll right after it would see the transfer done, and
  // what HRSL holds after the k-th launch.
  datatype Env = Env(clock: seq<nat>, polls: seq<bool>, hrsl: seq<u8>)

  predicate EnvOk(e: Env) {
    |e.clock| == |e.polls| == |e.hrsl|
  }

  // From reading r on the clock does not run backwards, reaches the deadline by reading h,
  // and is not read so rarely that 2^31 ms go by unseen.
  ghost predicate Ticking(e: Env, r: nat, h: nat) {
    && EnvOk(e) && r <= h && h + 1 < |e.clock|
    && (forall i, j :: r <= i <= j <= h + 1 ==> e.clock[i] <= e.clock[j])
    && e.clock[h] - e.clock[r] >= XFER_TIMEOUT && e.clock[h + 1] - e.clock[r] < 0x8000_0000
  }

  // Reading k is past the deadline of a call that began with reading r.
  predicate Over(e: Env, r: nat, k: nat) {
    r < |e.clock| && k < |e.clock| ==> e.clock[k] - e.clock[r] >= XFER_TIMEOUT
  }

  // The first reading from k on after which there is nothing to wait for: the transfer is
  // done, or the deadline is over.
  function WaitEnd(e: Env, r: nat, k: nat): (w: nat)
    requires EnvOk(e)
    ensures w >= k && (w < |e.clock| ==> e.polls[w] || Over(e, r, w))
    decreases |e.clock| - k
  {
    if k >= |e.clock| || e.polls[k] || Over(e, r, k) then k else WaitEnd(e, r, k + 1)
  }

  lemma {:induction false} WaitEndIsFirst(e: Env, r: nat, k: nat, j: nat)
    requires EnvOk(e) && k <= j < WaitEnd(e, r, k)
    ensures j < |e.clock| && !e.polls[j] && !Over(e, r, j)
    decreases |e.clock| - k
  {
    if j == k {
    } else {
      WaitEndIsFirst(e, r, k + 1, j);
    }
  }

  // The reading with which launch j of the call begins, if the call gets that far: right
  // after the one that ended the wait for the launch before.
  function Begin(e: Env, r: nat, j: nat): nat
    requires EnvOk(e)
  {
    if j == 0 then r + 1 else WaitEnd(e, r, Begin(e, r, j - 1) + 1) + 1
  }

  // The codes of the n launches from number l on.
  function Answers(e: Env, l: nat, n: nat): (s: seq<u8>)
    requires l + n <= |e.hrsl|
    ensures |s| == n && forall j :: 0 <= j < n ==> s[j] == e.hrsl[l + j] % 16
  {
    seq(n, j requires 0 <= j < n => e.hrsl[l + j] % 16)
  }

  // The first n launches all begin before the deadline.
  predicate InTime(e: Env, r: nat, n: nat)
    requires EnvOk(e)
  {
    forall j :: 0 <= j < n ==> !Over(e, r, Begin(e, r, j))
  }

  // Some of the launches of a call: each begins before the deadline, and only answers that
  // are retried precede the latest.
  predicate Going(e: Env, r: nat, l: nat, nakLimit: nat, s: seq<u8>)
    requires EnvOk(e)
  {
    l + |s| <= |e.hrsl| && s == Answers(e, l, |s|) && InTime(e, r, |s|) && Launches(s, nakLimit)
  }

  // All of them: the latest is a last one, or the next would begin too late.
  predicate Dispatched(e: Env, r: nat, l: nat, nakLimit: nat, s: seq<u8>)
    requires EnvOk(e)
  {
    && Going(e, r, l, nakLimit, s)
    && ((s != [] && IsLast(s, nakLimit)) || Over(e, r, Begin(e, r, |s|)))
  }

  lemma GoingFirst(e: Env, r: nat, l: nat, nakLimit: nat)
    requires EnvOk(e) && l <= |e.hrsl|
    ensures Begin(e, r, 0) == r + 1 && Going(e, r, l, nakLimit, [])
  {
  }

  lemma BeginNext(e: Env, r: nat, n: nat)
    requires EnvOk(e)
    ensures Begin(e, r, n + 1) == WaitEnd(e, r, Begin(e, r, n) + 1) + 1
    ensures InTime(e, r, n) && !Over(e, r, Begin(e, r, n)) ==> InTime(e, r, n + 1)
  {
    hide WaitEnd, Over;
  }

  lemma AnswersNext(e: Env, l: nat, n: nat)
    requires l + n < |e.hrsl|
    ensures Answers(e, l, n + 1) == Answers(e, l, n) + [e.hrsl[l + n] % 16]
  {
  }

  lemma GoingNext(e: Env, r: nat, l: nat, nakLimit: nat, s: seq<u8>)
    requires EnvOk(e) && l + |s| < |e.hrsl|
    requires Going(e, r, l, nakLimit, s) && Retries(s, nakLimit) && !Over(e, r, Begin(e, r, |s|))
    ensures Begin(e, r, |s| + 1) == WaitEnd(e, r, Begin(e, r, |s|) + 1) + 1
    ensures Going(e, r, l, nakLimit, s + [e.hrsl[l + |s|] % 16])
  {
    hide WaitEnd, Begin, Over, InTime, Answers, Launches, Retries, Count, IsLast;
    RetryAgain(s, e.hrsl[l + |s|] % 16, nakLimit);
    BeginNext(e, r, |s|);
    AnswersNext(e, l, |s|);
  }

  lemma Concluded(e: Env, r: nat, l: nat, nakLimit: nat, s: seq<u8>)
    requires EnvOk(e) && Going(e, r, l, nakLimit, s)
    requires (s != [] && IsLast(s, nakLimit)) || Over(e, r, Begin(e, r, |s|))
    ensures Dispatched(e, r, l, nakLimit, s)
  {
  }

  // Before the next launch: its first reading is the latest one.
  predicate Ready(e: Env, r: nat, h: nat, l: nat, nakLimit: nat, s: seq<u8>, readings: nat, launches: nat) {
    && EnvOk(e) && Going(e, r, l, nakLimit, s) && Retries(s, nakLimit) && launches == l + |s|
    && r + 2 + |s| <= readings <= h + 2 && readings == Begin(e, r, |s|) + 1
  }

  // After the last one.
  predicate Finished(e: Env, r: nat, h: nat, l: nat, nakLimit: nat, s: seq<u8>, readings: nat, launches: nat) {
    && EnvOk(e) && Dispatched(e, r, l, nakLimit, s) && launches == l + |s|
    && r + 2 <= readings <= h + 2 && r + 1 + |s| <= readings
    && readings == Begin(e, r, |s|) + if s != [] && IsLast(s, nakLimit) then 0 else 1
  }

  lemma ReadyAtFirst(e: Env, r: nat, h: nat, l: nat, nakLimit: nat)
    requires EnvOk(e) && l <= |e.hrsl| && r <= h
    ensures Ready(e, r, h, l, nakLimit, [], r + 2, l)
  {
    GoingFirst(e, r, l, nakLimit);
  }

  // A launch that begins in time, the reading that ended its wait, and its answer.
  lemma ReadyNext(e: Env, r: nat, h: nat, l: nat, nakLimit: nat, s: seq<u8>, readings: nat, launches: nat)
    requires Ready(e, r, h, l, nakLimit, s, readings, launches) && !Over(e, r, readings - 1) && launches < |e.hrsl|
    requires WaitEnd(e, r, readings) <= h
    ensures var s' := s + [e.hrsl[launches] % 16];
            var w := WaitEnd(e, r, readings) + 1;
            if IsLast(s', nakLimit) then Finished(e, r, h, l, nakLimit, s', w, launches + 1)
            else Ready(e, r, h, l, nakLimit, s', w + 1, launches + 1)
  {
    hide Going, Retries, IsLast, WaitEnd, Over, Launches, Begin, Count, Dispatched;
    GoingNext(e, r, l, nakLimit, s);
    RetryAgain(s, e.hrsl[launches] % 16, nakLimit);
    if IsLast(s + [e.hrsl[launches] % 16], nakLimit) {
      Concluded(e, r, l, nakLimit, s + [e.hrsl[launches] % 16]);
    }
  }

  lemma RetriesGoOn(s: seq<u8>, nakLimit: nat)
    requires Retries(s, nakLimit)
    ensures s != [] ==> !IsLast(s, nakLimit)
  {
  }

  lemma ReadyTooLate(e: Env, r: nat, h: nat, l: nat, nakLimit: nat, s: seq<u8>, readings: nat, launches: nat)
    requires Ready(e, r, h, l, nakLimit, s, readings, launches) && Over(e, r, readings - 1)
    ensures Finished(e, r, h, l, nakLimit, s, readings, launches)
  {
    RetriesGoOn(s, nakLimit);
    hide Retries, IsLast, Over, Launches, Begin;
    Concluded(e, r, l, nakLimit, s);
  }

  lemma {:induction false} BeginsAfter(e: Env, r: nat, j: nat)
    requires EnvOk(e)
    ensures Begin(e, r, j) > r
  {
    if j == 0 {
    } else {
      BeginsAfter(e, r, j - 1);
    }
  }

  lemma {:induction false} LaterIsOver(e: Env, r: nat, h: nat, i: nat, j: nat)
    requires Ticking(e, r, h) && i <= j && Over(e, r, Begin(e, r, i)) && Begin(e, r, j) <= h
    ensures Over(e, r, Begin(e, r, j))
    decreases j
  {
    hide WaitEnd;
    if i == j {
    } else {
      LaterIsOver(e, r, h, i, j - 1);
      assert Begin(e, r, j - 1) < Begin(e, r, j);
      BeginsAfter(e, r, j - 1);
    }
  }

  lemma {:induction false} RetriesPrefix(s: seq<u8>, nakLimit: nat, n: nat)
    requires Retries(s, nakLimit) && n <= |s|
    ensures Retries(s[..n], nakLimit)
    decreases |s|
  {
    if n == |s| {
      assert s[..n] == s;
    } else {
      assert s[..|s| - 1][..n] == s[..n];
      RetriesPrefix(s[..|s| - 1], nakLimit, n);
    }
  }

  // The result is the first answer that is a last one, if its launch began in time: then it
  // ends the call, and otherwise the deadline ended it before.
  lemma FirstLastIsResult(e: Env, r: nat, h: nat, l: nat, nakLimit: nat, s: seq<u8>, n: nat)
    requires Ticking(e, r, h) && Dispatched(e, r, l, nakLimit, s)
    requires l + n < |e.hrsl| && IsLast(Answers(e, l, n + 1), nakLimit)
    requires forall k :: 0 < k <= n ==> !IsLast(Answers(e, l, k), nakLimit)
    requires Begin(e, r, n) <= h
    ensures if Over(e, r, Begin(e, r, n)) then |s| <= n && Over(e, r, Begin(e, r, |s|))
            else s == Answers(e, l, n + 1)
  {
    hide IsLast, Begin, Over;
    if |s| > n + 1 {
      assert s[..|s| - 1][..n + 1] == Answers(e, l, n + 1);
      RetriesPrefix(s[..|s| - 1], nakLimit, n + 1);
      RetriesGoOn(s[..|s| - 1][..n + 1], nakLimit);
    } else if |s| <= n {
      if !Over(e, r, Begin(e, r, n)) && Over(e, r, Begin(e, r, |s|)) {
        LaterIsOver(e, r, h, |s|, n);
      }
    }
  }

  lemma NoAnswer()
    ensures LastCode([]) == 0
  {
  }

  lemma LastAnswer(s: seq<u8>, rcode: u8)
    ensures LastCode(s + [rcode]) == rcode
  {
  }

  lemma NotLonger(e: Env, r: nat, l: nat, nakLimit: nat, s: seq<u8>, t: seq<u8>)
    requires EnvOk(e) && Dispatched(e, r, l, nakLimit, s) && Dispatched(e, r, l, nakLimit, t)
    ensures |t| <= |s|
  {
    hide Begin, Over, IsLast, Retries;
    var front := if t == [] then [] else t[..|t| - 1];
    assert forall i :: 0 <= i < |s| && i < |t| ==> s[i] == t[i];
    assert |s| < |t| ==> front[..|s|] == s;
    if |s| < |t| {
      RetriesPrefix(front, nakLimit, |s|);
      RetriesGoOn(front[..|s|], nakLimit);
    }
  }

  // The environment decides what a call launches.
  lemma DispatchedUniquely(e: Env, r: nat, l: nat, nakLimit: nat, s: seq<u8>, t: seq<u8>)
    requires EnvOk(e) && Dispatched(e, r, l, nakLimit, s) && Dispatched(e, r, l, nakLimit, t)
    ensures s == t
  {
    hide Begin, Over, IsLast, InTime, Launches;
    NotLonger(e, r, l, nakLimit, s, t);
    NotLonger(e, r, l, nakLimit, t, s);
  }

  // A NAK within the limit is retried at once: the device answers it after 1 ms, acknowledges
  // the second launch, and the call ends with that.
  lemma NakIsRetried()
    ensures Dispatched(Env([0, 0, 1, 1, 2], [false, false, true, false, true], [4, 0, 0, 0, 0]), 0, 0, 127, [4, 0])
  {
    var e := Env([0, 0, 1, 1, 2], [false, false, true, false, true], [4, 0, 0, 0, 0]);
    assert WaitEnd(e, 0, 2) == 2;
    assert Begin(e, 0, 0) == 1 && Begin(e, 0, 1) == 3;
    hide WaitEnd, Begin;
    assert !Over(e, 0, 1) && !Over(e, 0, 3);
    assert Answers(e, 0, 2) == [4, 0];
    assert Count([], 4) == 0 && Count([], 14) == 0 && [4][..0] == [] && [4, 0][..1] == [4];
    assert Retries([4], 127);
  }

  class HostController {
    const env: Env
    var readings: nat
    var launches: nat
    ghost var log: seq<u8>

    constructor (env: Env)
      ensures this.env == env && readings == 0 && launches == 0 && log == []
    {
      this.env := env;
      readings, launches, log := 0, 0, [];
    }

    method Millis() returns (ms: u32)
      requires readings < |env.clock|
      modifies this`readings
      ensures ms == Wrap32(env.clock[old(readings)]) && readings == old(readings) + 1
    {
      ms := Wrap32(env.clock[readings]);
      readings := readings + 1;
    }

    // HXFRDNIRQ, as polled after the latest reading.
    method TransferDone() returns (done: bool)
      requires 0 < readings <= |env.polls|
      ensures done == env.polls[readings - 1]
    {
      done := env.polls[readings - 1];
    }

    // The low four bits of HRSL after a transfer.
    method HostResult() returns (rcode: u8)
      requires launches < |env.hrsl|
      ensures rcode == env.hrsl[launches] % 16
    {
      rcode := env.hrsl[launches] % 16;
    }

    // What the test of the deadline says about reading k.
    lemma Reading(r: nat, h: nat, k: nat)
      requires Ticking(env, r, h) && r <= k <= h + 1
      ensures Before(Wrap32(env.clock[k]), Wrap32(Wrap32(env.clock[r]) + XFER_TIMEOUT)) <==> !Over(env, r, k)
      ensures Over(env, r, k) <==> env.clock[k] - env.clock[r] >= XFER_TIMEOUT
      ensures k >= h ==> Over(env, r, k)
    {
      hide Before, Wrap32;
      DeadlineIsExact(env.clock[r], XFER_TIMEOUT, env.clock[k]);
    }

    // Waits for the completion of the transfer or for the deadline, and no longer.
    method Wait(timeout: u32, ghost r: nat, ghost h: nat)
      requires Ticking(env, r, h) && r < readings <= h && timeout == Wrap32(Wrap32(env.clock[r]) + XFER_TIMEOUT)
      modifies this`readings
      ensures old(readings) < readings <= h + 1 && readings == WaitEnd(env, r, old(readings)) + 1
    {
      hide Before, Wrap32, Over;
      ghost var first := readings;
      var now := Millis();
      Reading(r, h, first);
      while Before(now, timeout)
        invariant first < readings <= h + 1 && now == Wrap32(env.clock[readings - 1])
        invariant WaitEnd(env, r, first) == WaitEnd(env, r, readings - 1)
        decreases h + 1 - readings
      {
        Reading(r, h, readings - 1);
        var done := TransferDone();
        if done {
          break;
        }
        now := Millis();
      }
      Reading(r, h, readings - 1);
    }

    // One launch, its completion, and its result code.
    method Launch(timeout: u32, ghost r: nat, ghost h: nat) returns (rcode: u8)
      requires Ticking(env, r, h) && r < readings <= h && timeout == Wrap32(Wrap32(env.clock[r]) + XFER_TIMEOUT)
      requires launches < |env.hrsl|
      modifies this
      ensures old(readings) < readings <= h + 1 && launches == old(launches) + 1
      ensures readings == WaitEnd(env, r, old(readings)) + 1
      ensures rcode == env.hrsl[old(launches)] % 16 && log == old(log) + [rcode]
    {
      Wait(timeout, r, h);
      rcode := HostResult();
      launches := launches + 1;
      log := log + [rcode];
    }

    lemma RangeOf(r: nat, h: nat)
      requires Ticking(env, r, h)
      ensures r < h && h + 1 < |env.clock| == |env.hrsl| && EnvOk(env)
    {
    }

    // One turn of the loop: the next launch, and what its answer means.
    method LaunchNext(timeout: u32, nakLimit: u16, naks: u16, tries: u8, ghost r: nat, ghost h: nat, ghost l: nat,
                      ghost s: seq<u8>)
      returns (rcode: u8, stop: bool, nakCount: u16, retryCount: u8)
      requires Ticking(env, r, h) && timeout == Wrap32(Wrap32(env.clock[r]) + XFER_TIMEOUT)
      requires Ready(env, r, h, l, nakLimit, s, readings, launches) && !Over(env, r, readings - 1)
      requires l + h <= |env.hrsl| && Counted(s, nakLimit, naks, tries)
      modifies this
      ensures log == old(log) + [rcode] && rcode < 16 && old(readings) < readings <= h + 1
      ensures stop ==> Finished(env, r, h, l, nakLimit, s + [rcode], readings, launches)
      ensures !stop ==> Ready(env, r, h, l, nakLimit, s + [rcode], readings + 1, launches)
                        && Counted(s + [rcode], nakLimit, nakCount, retryCount)
    {
      hide Retries, Counted, Launches, IsLast, Wrap32, Over, Begin, WaitEnd, Going, Finished;
      Reading(r, h, readings - 1);
      rcode := Launch(timeout, r, h);
      ReadyNext(env, r, h, l, nakLimit, s, old(readings), old(launches));
      stop, nakCount, retryCount := Judge(rcode, nakLimit, naks, tries, s);
    }

    // Reads the clock: is the deadline still ahead?
    method IsEarly(timeout: u32, ghost r: nat, ghost h: nat) returns (early: bool)
      requires Ticking(env, r, h) && r < readings <= h + 1
      requires timeout == Wrap32(Wrap32(env.clock[r]) + XFER_TIMEOUT)
      modifies this`readings
      ensures readings == old(readings) + 1 && (early <==> !Over(env, r, old(readings))) && (early ==> readings <= h)
    {
      hide Before, Wrap32, Over;
      Reading(r, h, readings);
      var now := Millis();
      early := Before(now, timeout);
    }

    // The loop, from the reading after the one that set the deadline.
    method LaunchAll(timeout: u32, nakLimit: u16, ghost r: nat, ghost h: nat) returns (rcode: u8, ghost s: seq<u8>)
      requires Ticking(env, r, h) && launches + h <= |env.hrsl|
      requires readings == r + 1 && timeout == Wrap32(Wrap32(env.clock[r]) + XFER_TIMEOUT)
      modifies this
      ensures log == old(log) + s && rcode == LastCode(s) < 16
      ensures Finished(env, r, h, old(launches), nakLimit, s, readings, launches)
    {
      ghost var l := launches;
      s, rcode := [], 0;
      assert Counted(s, nakLimit, 0, 0);
      hide Counted, Wrap32, Ticking, Over, Ready, Finished, LastCode;
      RangeOf(r, h);
      NoAnswer();
      ReadyAtFirst(env, r, h, l, nakLimit);
      var retryCount: u8, nakCount: u16 := 0, 0;
      var early := IsEarly(timeout, r, h);
      while early
        invariant r + 2 <= readings <= h + 2 && (early <==> !Over(env, r, readings - 1))
        invariant log == old(log) + s && rcode == LastCode(s) < 16
        invariant Ready(env, r, h, l, nakLimit, s, readings, launches) && Counted(s, nakLimit, nakCount, retryCount)
        decreases h + 2 - readings
      {
        var stop;
        rcode, stop, nakCount, retryCount := LaunchNext(timeout, nakLimit, nakCount, retryCount, r, h, l, s);
        LastAnswer(s, rcode);
        s := s + [rcode];
        if stop {
          return;
        }
        early := IsEarly(timeout, r, h);
      }
      ReadyTooLate(env, r, h, l, nakLimit, s, readings, launches);
    }

    // The result code of the last launch; 0 when the deadline was over before the first.
    // The comment above the original promises 0xff for a timeout, but that value is
    // overwritten before it can be returned.
    method Dispatch(nakLimit: u16, ghost h: nat) returns (rcode: u8, ghost s: seq<u8>)
      requires Ticking(env, readings, h) && launches + h <= |env.hrsl|
      modifies this
      ensures log == old(log) + s && rcode == LastCode(s) < 16
      ensures Finished(env, old(readings), h, old(launches), nakLimit, s, readings, launches)
    {
      hide Finished, LastCode, Wrap32;
      ghost var r := readings;
      var now := Millis();
      var timeout := Wrap32(now + XFER_TIMEOUT);
      rcode, s := LaunchAll(timeout, nakLimit, r, h);
    }
  }
}
