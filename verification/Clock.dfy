// Deadlines on a 32-bit millisecond clock that wraps around.
module Clock {
  import opened MachineInts

  // (int32_t)(millis() - deadline) < 0
  predicate Before(millis: u32, deadline: u32) {
    Signed32(Wrap32(millis - deadline)) < 0
  }

  // What the wrapped, signed comparison says about the unbounded clock, for a deadline n ms
  // after `start`: as long as less than 2^31 ms have gone by, exactly that it is not over.
  lemma DeadlineIsExact(start: nat, n: nat, now: nat)
    requires n < 0x8000_0000
    ensures Before(Wrap32(now), Wrap32(Wrap32(start) + n)) <==> Wrap32(now - start - n) >= 0x8000_0000
    ensures 0 <= now - start < 0x8000_0000 ==>
              (Before(Wrap32(now), Wrap32(Wrap32(start) + n)) <==> now - start < n)
  {
    var wide := Wrap32(start) + n;
    var k := now / 0x1_0000_0000 - start / 0x1_0000_0000 - wide / 0x1_0000_0000;
    WrapDiv(now);
    WrapDiv(start);
    WrapDiv(wide);
    WrapShift(now - start - n, -k);
    assert Wrap32(Wrap32(now) - Wrap32(wide)) == Wrap32(now - start - n) by {
      hide Wrap32;
      assert Wrap32(now) - Wrap32(wide) == now - start - n + 0x1_0000_0000 * -k;
    }
  }
}
