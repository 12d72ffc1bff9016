/** From a client's relative deadline to the parameters a worker is scheduled with. The client
    multiplies in 32 bits and adds in 64; the worker's share of the driver subtracts in 64 bits,
    keeps 32 of them, and compares a signed with an unsigned number. */
module Deadline {
  import opened MachineInt
  import opened KeyOrder

  const NS_PER_SEC := 1_000_000_000
  const NS_PER_MS := 1_000_000

  /** `msec * 1000000` on an unsigned int. */
  function MsecToNsec(msec: u32): u32 { Wrap32(msec * NS_PER_MS) }

  /** Deadline of a request made at time `clock`, in nanoseconds since boot. */
  function ClientDeadline(clock: nat, relMs: u32): u64 {
    if relMs == 0 then BEST_EFFORT else Wrap64(clock + MsecToNsec(relMs))
  }

  /** The part of the four request functions that fills in the absolute deadline. */
  method AbsoluteDeadline(clockWorks: bool, sec: nat, nsec: nat, relMs: u32) returns (deadline: u64)
    requires nsec < NS_PER_SEC
    ensures deadline == ClientDeadline(sec * NS_PER_SEC + nsec, if clockWorks then relMs else 0)
  {
    var ms := relMs;
    if !clockWorks {
      ms := 0;
    }
    if ms == 0 {
      deadline := Wrap64(-1);
    } else {
      Wrap64Sum(sec * NS_PER_SEC, nsec);
      Wrap64Sum(sec * NS_PER_SEC + nsec, MsecToNsec(ms));
      hide Wrap64, Wrap32;
      deadline := Wrap64(sec * NS_PER_SEC);
      deadline := Wrap64(deadline + nsec);
      deadline := Wrap64(deadline + MsecToNsec(ms));
    }
  }

  /** A call of sched_setattr. */
  datatype Policy = BestEffort | RealTime(runtime: int, period: int, deadline: int)

  /** What is documented: the smaller of the period and of what is left until the deadline,
      best effort when nothing is left. */
  function Documented(left: int, budget: u32, period: u32): Policy {
    if left <= 0 then BestEffort
    else RealTime(budget, period, if left > period then period else left)
  }

  /** The number an `int` gets that is assigned a 64-bit difference. */
  function Truncated(left: int): int { AsInt(Wrap64(left)) }

  function FirstAttempt(deadline: u64, now: nat, budget: u32, period: u32): Policy {
    if deadline == BEST_EFFORT then BestEffort else Documented(Truncated(deadline - now), budget, period)
  }

  /** Real time with the service's budget and period, and with the smaller of two numbers as
      deadline. */
  predicate AsksFor(p: Policy, budget: u32, period: u32, left: int) {
    && p.RealTime? && p.runtime == budget && p.period == period
    && p.deadline <= left && p.deadline <= period && (p.deadline == left || p.deadline == period)
  }

  /** For every deadline and clock: best effort without a deadline, or when what is left,
      brought into [-2^31, 2^31) by a multiple of 2^32, is not positive; real time otherwise,
      for the smaller of that number and the period. */
  lemma AttemptExactly(deadline: u64, now: nat, budget: u32, period: u32)
    ensures var p, left := FirstAttempt(deadline, now, budget, period), (deadline - now + 2_147_483_648) % 4_294_967_296 - 2_147_483_648;
      && (p == BestEffort <==> deadline == 0xffff_ffff_ffff_ffff || left <= 0)
      && (p != BestEffort ==> AsksFor(p, budget, period, left))
  {
    TruncatedLowBits(deadline - now);
    TruncatedFromLowBits(deadline - now);
    var x := deadline - now;
    var q := x / TWO_32;
    assert x == q * TWO_32 + Wrap32(x);
    assert x + TWO_31 == q * TWO_32 + (Wrap32(x) + TWO_31);
    Wrap32Shift(Wrap32(x) + TWO_31, q);
  }

  /** The calls for a request with this much time left: best effort exactly when nothing is
      left; else real time, for what is left or one period, whichever is smaller, and best
      effort after a refusal. */
  predicate MeetsDeadline(calls: seq<Policy>, left: int, budget: u32, period: u32, accepted: bool) {
    && |calls| > 0 && (calls[0] == BestEffort <==> left <= 0)
    && (left > 0 ==> AsksFor(calls[0], budget, period, left))
    && calls[1..] == if left > 0 && !accepted then [BestEffort] else []
  }

  lemma InRangeCalls(deadline: u64, now: nat, budget: u32, period: u32, accepted: bool)
    ensures var first, left := FirstAttempt(deadline, now, budget, period), deadline - now;
      var calls := [first] + if first.RealTime? && !accepted then [BestEffort] else [];
      && (deadline == 0xffff_ffff_ffff_ffff ==> calls == [BestEffort])
      && (deadline != 0xffff_ffff_ffff_ffff && -2_147_483_648 <= left < 2_147_483_648 ==>
            MeetsDeadline(calls, left, budget, period, accepted))
  {
    AttemptExactly(deadline, now, budget, period);
    hide FirstAttempt;
  }

  /** The dispatch in linber_Start_Job. `accepted` tells whether the kernel takes the
      real-time parameters; the calls made are returned in order. */
  method Dispatch(deadline: u64, now: nat, budget: u32, period: u32, accepted: bool) returns (calls: seq<Policy>)
    ensures var first := FirstAttempt(deadline, now, budget, period);
      calls == [first] + if first.RealTime? && !accepted then [BestEffort] else []
    ensures deadline == 0xffff_ffff_ffff_ffff ==> calls == [BestEffort]
    ensures deadline != 0xffff_ffff_ffff_ffff && -2_147_483_648 <= deadline - now < 2_147_483_648 ==>
      MeetsDeadline(calls, deadline - now, budget, period, accepted)
  {
    InRangeCalls(deadline, now, budget, period, accepted);
    if deadline == Wrap64(-1) {
      return [BestEffort];
    }
    var rel := AsInt(Wrap64(deadline - Wrap64(now)));
    Wrap64Difference(deadline, now);
    if rel <= 0 {
      return [BestEffort];
    }
    rel := AsInt(if Wrap32(rel) > period then period else Wrap32(rel));
    calls := [RealTime(budget, period, Wrap64(rel))];
    if !accepted {
      calls := calls + [BestEffort];
    }
  }

  /** Truncation keeps the low 32 bits. */
  lemma TruncatedLowBits(x: int)
    ensures Wrap32(Truncated(x)) == Wrap32(x)
    ensures -TWO_31 <= Truncated(x) < TWO_31
    ensures Truncated(x) == x <==> -TWO_31 <= x < TWO_31
  {
    var q := x / TWO_64;
    assert Wrap64(x) == x - q * TWO_64;
    assert x - q * TWO_64 == x + (-q * TWO_32) * TWO_32;
    assert (x + (-q * TWO_32) * TWO_32) % TWO_32 == x % TWO_32;
  }

  /** For every 64-bit deadline and any clock: a real-time attempt asks for the service's own
      budget and period and for a deadline of at most one period, and at least one nanosecond
      unless the period is zero. */
  lemma DispatchBound(deadline: u64, now: nat, budget: u32, period: u32)
    ensures var p := FirstAttempt(deadline, now, budget, period);
      p.RealTime? ==>
        && p.runtime == budget && p.period == period
        && 0 <= p.deadline <= period && p.deadline < TWO_31
        && (p.deadline > 0 <==> period > 0)
  {
    TruncatedLowBits(deadline - now);
  }

  /** When truncating what is left makes no difference to the attempt. */
  predicate TruncationFits(left: int, period: u32) {
    if left <= 0 then Wrap32(left) == 0 || Wrap32(left) >= TWO_31
    else left < TWO_31 || (Wrap32(left) < TWO_31 && Wrap32(left) >= (if period == 0 then 1 else period))
  }

  /** Which time left is dispatched as documented: exactly these. */
  lemma TruncatedAttempt(left: int, budget: u32, period: u32)
    ensures Documented(Truncated(left), budget, period) == Documented(left, budget, period) <==> TruncationFits(left, period)
  {
    TruncatedLowBits(left);
    var y := Truncated(left);
    if left > 0 {
      assert y <= left;
    }
    assert y == if Wrap32(left) < TWO_31 then Wrap32(left) else Wrap32(left) - TWO_32;
  }

  lemma DispatchExactly(deadline: u64, now: nat, budget: u32, period: u32)
    ensures FirstAttempt(deadline, now, budget, period)
              == (if deadline == BEST_EFFORT then BestEffort else Documented(deadline - now, budget, period))
            <==> deadline == BEST_EFFORT || TruncationFits(deadline - now, period)
  {
    TruncatedAttempt(deadline - now, budget, period);
  }

  /** Within two seconds there is nothing to fear. */
  lemma DispatchInRange(deadline: u64, now: nat, budget: u32, period: u32)
    requires deadline != BEST_EFFORT && -TWO_31 <= deadline - now < TWO_31
    ensures FirstAttempt(deadline, now, budget, period) == Documented(deadline - now, budget, period)
  {
    TruncatedLowBits(deadline - now);
  }

  /** The client's multiplication is exact up to 4294 ms. */
  lemma ClientExactly(relMs: u32)
    ensures MsecToNsec(relMs) == relMs * NS_PER_MS <==> relMs <= 4294
  {
  }

  /** A deadline of 4295 ms is queued as one of 32704 ns: before that of a request made at the
      same time with one millisecond. */
  lemma WrappedDeadlineOvertakes(clock: nat)
    requires clock + TWO_32 <= TWO_63 - 2
    ensures ClientDeadline(clock, 4295) == clock + 32_704
    ensures Before(ClientDeadline(clock, 4295), ClientDeadline(clock, 1))
  {
    assert Wrap64(-967_296) == TWO_64 - 967_296;
  }

  /** In the first 292 years after boot the queue keeps requests in the order of their due
      times, if the clients stay within 4294 ms. */
  lemma ClientOrder(clockA: nat, a: u32, clockB: nat, b: u32)
    requires clockA + TWO_32 <= TWO_63 - 2 && clockB + TWO_32 <= TWO_63 - 2
    requires 1 <= a <= 4294 && 1 <= b <= 4294
    ensures Before(ClientDeadline(clockA, a), ClientDeadline(clockB, b)) <==> clockA + a * NS_PER_MS < clockB + b * NS_PER_MS
  {
    ShortDeadline(clockA, a);
    ShortDeadline(clockB, b);
    hide *;
    CompareMatchesUnsigned(clockA + a * NS_PER_MS, clockB + b * NS_PER_MS);
    BeforeIsNegative(clockA + a * NS_PER_MS, clockB + b * NS_PER_MS);
  }

  /** Against every request that asks for no more time and is due earlier, at whatever times
      the two were made, a request of relMs milliseconds is queued behind. */
  ghost predicate KeepsItsPlace(relMs: u32) {
    forall clockA: nat, a: u32, clockB: nat ::
      1 <= a <= relMs && clockA + TWO_32 <= TWO_63 - 2 && clockB + TWO_32 <= TWO_63 - 2
      && clockA + a * NS_PER_MS < clockB + relMs * NS_PER_MS ==>
        Before(ClientDeadline(clockA, a), ClientDeadline(clockB, relMs))
  }

  /** Exactly the deadlines up to 4294 ms keep their place. */
  lemma KeepsItsPlaceExactly(relMs: u32)
    requires relMs >= 1
    ensures KeepsItsPlace(relMs) <==> relMs <= 4294
  {
    if relMs <= 4294 {
      forall clockA: nat, a: u32, clockB: nat
        | 1 <= a <= relMs && clockA + TWO_32 <= TWO_63 - 2 && clockB + TWO_32 <= TWO_63 - 2
          && clockA + a * NS_PER_MS < clockB + relMs * NS_PER_MS
        ensures Before(ClientDeadline(clockA, a), ClientDeadline(clockB, relMs))
      {
        ClientOrder(clockA, a, clockB, relMs);
      }
    } else {
      Overtaken(relMs);
    }
  }

  /** A request of 4294 ms made almost a millisecond later is due earlier and not queued before. */
  lemma Overtaken(relMs: u32)
    requires relMs > 4294
    ensures 967_296 + 4294 * NS_PER_MS < relMs * NS_PER_MS
    ensures !Before(ClientDeadline(967_296, 4294), ClientDeadline(0, relMs))
  {
    ShortDeadline(967_296, 4294);
    assert ClientDeadline(967_296, 4294) == TWO_32;
    assert ClientDeadline(0, relMs) < TWO_32;
    CompareMatchesUnsigned(ClientDeadline(967_296, 4294), ClientDeadline(0, relMs));
    BeforeIsNegative(ClientDeadline(967_296, 4294), ClientDeadline(0, relMs));
  }

  lemma ShortDeadline(clock: nat, relMs: u32)
    requires clock + TWO_32 <= TWO_63 - 2 && 1 <= relMs <= 4294
    ensures ClientDeadline(clock, relMs) == clock + relMs * NS_PER_MS < TWO_63
  {
    ClientExactly(relMs);
  }

  lemma BeforeIsNegative(a: u64, b: u64)
    requires Sign(Compare(a, b)) == Sign(a - b)
    ensures Before(a, b) <==> a < b
  {
    hide Compare;
  }

  /** Requests without a deadline share one key, whenever they are made, and it compares before
      every deadline of the first 292 years. */
  lemma WithoutDeadlineFirst(clock: nat, otherClock: nat, relMs: u32)
    requires clock + TWO_32 <= TWO_63 - 2 && relMs > 0
    ensures ClientDeadline(otherClock, 0) == ClientDeadline(clock, 0) == 0xffff_ffff_ffff_ffff
    ensures Before(ClientDeadline(otherClock, 0), ClientDeadline(clock, relMs))
    ensures !Before(ClientDeadline(clock, relMs), ClientDeadline(otherClock, 0))
  {
    BestEffortLastExactly(ClientDeadline(clock, relMs));
  }

  /** What clients compute lies in the half circle that starts at the best-effort key. */
  lemma ClientInWindow(clock: nat, relMs: u32)
    requires clock + TWO_32 <= TWO_63 - 2
    ensures InWindow(BEST_EFFORT, ClientDeadline(clock, relMs))
  {
    BestEffortWindow(ClientDeadline(clock, relMs));
  }

  /** End to end the two losses cancel: the client drops the multiples of 2^32 ns that the
      driver would drop anyway. So a request of relMs milliseconds, looked at `later`
      nanoseconds after it was made, is dispatched as documented exactly when the time really
      left fits. */
  lemma EndToEndExactly(clock: nat, relMs: u32, later: nat, budget: u32, period: u32)
    requires relMs > 0 && clock + TWO_32 <= TWO_63 - 2
    ensures var left := relMs * NS_PER_MS - later;
      && FirstAttempt(ClientDeadline(clock, relMs), clock + later, budget, period) == Documented(Truncated(left), budget, period)
      && (FirstAttempt(ClientDeadline(clock, relMs), clock + later, budget, period) == Documented(left, budget, period)
          <==> TruncationFits(left, period))
  {
    var left := relMs * NS_PER_MS - later;
    var seen := MsecToNsec(relMs) - later;
    assert ClientDeadline(clock, relMs) - (clock + later) == seen;
    var q := relMs * NS_PER_MS / TWO_32;
    assert left == seen + q * TWO_32;
    SameLowBits(seen, q);
    TruncatedAttempt(left, budget, period);
  }

  lemma SameLowBits(x: int, q: int)
    ensures Truncated(x + q * TWO_32) == Truncated(x)
  {
    Wrap32Shift(x, q);
    TruncatedFromLowBits(x);
    TruncatedFromLowBits(x + q * TWO_32);
    hide Truncated, Wrap32;
  }

  lemma TruncatedFromLowBits(x: int)
    ensures Truncated(x) == if Wrap32(x) < TWO_31 then Wrap32(x) else Wrap32(x) - TWO_32
  {
    TruncatedLowBits(x);
  }

  /** The documented promise, for clients that stay below 2148 ms and are not more than two
      seconds late. */
  lemma EndToEnd(clock: nat, relMs: u32, later: nat, budget: u32, period: u32)
    requires 1 <= relMs <= 2147 && clock + TWO_32 <= TWO_63 - 2 && later - relMs * NS_PER_MS <= TWO_31
    ensures FirstAttempt(ClientDeadline(clock, relMs), clock + later, budget, period)
         == Documented(relMs * NS_PER_MS - later, budget, period)
  {
    EndToEndExactly(clock, relMs, later, budget, period);
  }

  /** Three seconds ahead is taken for the past. */
  lemma ThreeSecondsIsExpired(clock: nat, budget: u32, period: u32)
    requires clock + TWO_32 <= TWO_63 - 2
    ensures FirstAttempt(ClientDeadline(clock, 3000), clock, budget, period) == BestEffort
    ensures Documented(3000 * NS_PER_MS, budget, period).RealTime?
  {
    EndToEndExactly(clock, 3000, 0, budget, period);
    assert Truncated(3_000_000_000) == 3_000_000_000 - TWO_32;
  }
}
