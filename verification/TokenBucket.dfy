/**
  Token buckets over exact reals, with the clock as a nondecreasing input: the pipeline's rate
  limiter (any cost per call, burst = rate times a multiplier) and the gateway's (one token per
  request, burst = twice the rate).
 */
module TokenBucket {

  datatype Bucket = Bucket(rate: real, capacity: real, tokens: real, last: real) {
    /** A bucket with a sensible rate, neither overdrawn nor overfull. */
    ghost predicate Valid() {
      rate >= 0.0 && 0.0 <= tokens <= capacity
    }
  }

  function NewBucket(ratePerSec: real, burst: real, now: real): Bucket {
    Bucket(ratePerSec, ratePerSec * burst, ratePerSec * burst, now)
  }

  function NewGatewayBucket(rps: int, now: real): Bucket {
    var cap := if rps < 1 then 1.0 else rps as real;
    Bucket(cap, cap * 2.0, cap, now)
  }

  /** Tokens accrued from one moment to another. */
  function Accrued(rate: real, from: real, upto: real): real {
    (upto - from) * rate
  }

  lemma AccruedInFull(rate: real, from: real, upto: real)
    ensures Accrued(rate, from, upto) == (upto - from) * rate
  {
  }

  function Refilled(b: Bucket, now: real): Bucket {
    var tokens := b.tokens + Accrued(b.rate, b.last, now);
    b.(tokens := if tokens > b.capacity then b.capacity else tokens, last := now)
  }

  function Admits(b: Bucket, now: real, cost: real): bool {
    Refilled(b, now).tokens >= cost
  }

  function After(b: Bucket, now: real, cost: real): Bucket {
    var r := Refilled(b, now);
    if Admits(b, now, cost) then r.(tokens := r.tokens - cost) else r
  }

  datatype Call = Call(time: real, cost: real)

  /** Times do not go back, from the bucket's clock on, and costs are not negative. */
  ghost predicate Ordered(start: real, calls: seq<Call>) {
    && (forall i | 0 <= i < |calls| :: start <= calls[i].time && calls[i].cost >= 0.0)
    && forall i, j | 0 <= i < j < |calls| :: calls[i].time <= calls[j].time
  }

  /** The bucket after the whole trace. */
  function BucketAfter(b: Bucket, calls: seq<Call>): Bucket {
    if calls == [] then b
    else
      var last := calls[|calls| - 1];
      After(BucketAfter(b, calls[..|calls| - 1]), last.time, last.cost)
  }

  function Decision(b: Bucket, calls: seq<Call>, i: nat): bool
    requires i < |calls|
  {
    Admits(BucketAfter(b, calls[..i]), calls[i].time, calls[i].cost)
  }

  /** Cost admitted by calls i up to but not including j. */
  function Admitted(b: Bucket, calls: seq<Call>, i: nat, j: nat): real
    requires i <= j <= |calls|
  {
    if i == j then 0.0 else Admitted(b, calls, i, j - 1) + if Decision(b, calls, j - 1) then calls[j - 1].cost else 0.0
  }

  /** A new bucket starts full, and is a sensible one exactly for a rate and a burst that give it a
      rate and a capacity that are not negative. */
  lemma NewBucketIsFull(ratePerSec: real, burst: real, now: real)
    ensures var b := NewBucket(ratePerSec, burst, now); b.tokens == b.capacity && Refilled(b, now) == b
    ensures NewBucket(ratePerSec, burst, now).Valid() <==> ratePerSec == 0.0 || (ratePerSec > 0.0 && burst >= 0.0)
  {
    if ratePerSec >= 0.0 {
      ProductSign(ratePerSec, burst);
    }
    assert Accrued(ratePerSec, now, now) == 0.0;
  }

  lemma ProductSign(x: real, y: real)
    requires x >= 0.0
    ensures x * y >= 0.0 <==> x == 0.0 || y >= 0.0
  {
    if x > 0.0 && y < 0.0 {
      assert x * y < 0.0;
    }
  }

  lemma NewGatewayBucketIsValid(rps: int, now: real)
    ensures NewGatewayBucket(rps, now).Valid()
  {
  }

  /** A gateway bucket starts with a second's worth of tokens, and its first request takes one. */
  lemma FirstRequest(rps: int, now: real)
    ensures var cap, b := if rps < 1 then 1.0 else rps as real, NewGatewayBucket(rps, now);
            && b == Bucket(cap, cap + cap, cap, now)
            && Admits(b, now, 1.0) && After(b, now, 1.0) == Bucket(cap, cap + cap, cap - 1.0, now)
  {
    assert Accrued(NewGatewayBucket(rps, now).rate, now, now) == 0.0;
  }

  lemma RateTimes(rate: real, a: real, b: real, c: real)
    ensures Accrued(rate, b, c) + Accrued(rate, a, b) == Accrued(rate, a, c)
  {
  }

  lemma Accrues(rate: real, a: real, b: real)
    requires rate >= 0.0 && a <= b
    ensures Accrued(rate, a, b) >= 0.0
  {
  }

  lemma StepStaysValid(b: Bucket, now: real, cost: real)
    requires b.Valid() && b.last <= now && cost >= 0.0
    ensures After(b, now, cost).Valid() && Refilled(b, now).Valid()
    ensures After(b, now, cost).last == now
    ensures After(b, now, cost).rate == b.rate && After(b, now, cost).capacity == b.capacity
  {
    hide Accrued;
    Accrues(b.rate, b.last, now);
    var accrued := Accrued(b.rate, b.last, now);
    assert Refilled(b, now).tokens == if b.tokens + accrued > b.capacity then b.capacity else b.tokens + accrued;
  }

  /** One invariant over every trace: never overdrawn, never overfull. */
  lemma {:induction false} TraceStaysValid(b: Bucket, calls: seq<Call>)
    requires b.Valid() && Ordered(b.last, calls)
    ensures BucketAfter(b, calls).Valid()
    ensures BucketAfter(b, calls).rate == b.rate && BucketAfter(b, calls).capacity == b.capacity
    ensures BucketAfter(b, calls).last == if calls == [] then b.last else calls[|calls| - 1].time
  {
    hide After;
    if calls != [] {
      var init, c := calls[..|calls| - 1], calls[|calls| - 1];
      TraceStaysValid(b, init);
      var before := BucketAfter(b, init);
      assert before.last <= c.time && c.cost >= 0.0;
      StepStaysValid(before, c.time, c.cost);
      assert BucketAfter(b, calls) == After(before, c.time, c.cost);
    }
  }

  // ----- the exact rule -----

  /** The constraint window [j, i] puts on x more tokens at call i: what was admitted since call j
      plus x stays within the capacity plus what accrued since call j. */
  ghost predicate WindowAllows(b: Bucket, calls: seq<Call>, j: nat, i: nat, x: real)
    requires j <= i < |calls|
  {
    Admitted(b, calls, j, i) + x <= b.capacity + Accrued(b.rate, calls[j].time, calls[i].time)
  }

  /** The same for the window from the bucket's creation, which started with b.tokens. */
  ghost predicate StartAllows(b: Bucket, calls: seq<Call>, i: nat, x: real)
    requires i < |calls|
  {
    Admitted(b, calls, 0, i) + x <= b.tokens + Accrued(b.rate, b.last, calls[i].time)
  }

  ghost predicate AllWindowsAllow(b: Bucket, calls: seq<Call>, i: nat, x: real)
    requires i < |calls|
  {
    StartAllows(b, calls, i, x) && forall j: nat | j <= i :: WindowAllows(b, calls, j, i, x)
  }

  /** Extending every earlier window by one call. */
  lemma WindowExtends(b: Bucket, calls: seq<Call>, j: nat, i: nat, x: real)
    requires j < i < |calls|
    ensures var spent := if Decision(b, calls, i - 1) then calls[i - 1].cost else 0.0;
            WindowAllows(b, calls, j, i, x)
            <==> WindowAllows(b, calls, j, i - 1, x + spent - Accrued(b.rate, calls[i - 1].time, calls[i].time))
  {
    hide Decision, Accrued;
    RateTimes(b.rate, calls[j].time, calls[i - 1].time, calls[i].time);
  }

  lemma StartExtends(b: Bucket, calls: seq<Call>, i: nat, x: real)
    requires 0 < i < |calls|
    ensures var spent := if Decision(b, calls, i - 1) then calls[i - 1].cost else 0.0;
            StartAllows(b, calls, i, x)
            <==> StartAllows(b, calls, i - 1, x + spent - Accrued(b.rate, calls[i - 1].time, calls[i].time))
  {
    hide Decision, Accrued;
    RateTimes(b.rate, b.last, calls[i - 1].time, calls[i].time);
  }

  /** A refill covers x exactly when the capacity does and the tokens plus what accrued do. */
  lemma RefillCovers(b: Bucket, now: real, x: real)
    ensures Refilled(b, now).tokens >= x <==> b.capacity >= x && b.tokens + Accrued(b.rate, b.last, now) >= x
  {
  }

  /** The tokens on hand at call i cover x exactly when every window allows x. */
  lemma {:induction false} TokensAreTheTightestWindow(b: Bucket, calls: seq<Call>, i: nat, x: real)
    requires b.Valid() && Ordered(b.last, calls) && i < |calls|
    ensures Refilled(BucketAfter(b, calls[..i]), calls[i].time).tokens >= x <==> AllWindowsAllow(b, calls, i, x)
    decreases i
  {
    hide Admits, After, Decision, Refilled, BucketAfter, Accrued;
    if i == 0 {
      FirstCall(b, calls, x);
    } else {
      var spent := if Decision(b, calls, i - 1) then calls[i - 1].cost else 0.0;
      var y := x + spent - Accrued(b.rate, calls[i - 1].time, calls[i].time);
      var prev := Refilled(BucketAfter(b, calls[..i - 1]), calls[i - 1].time);
      AfterOneCall(b, calls, i);
      RefillCovers(BucketAfter(b, calls[..i]), calls[i].time, x);
      TraceStaysValid(b, calls[..i]);
      assert Refilled(BucketAfter(b, calls[..i]), calls[i].time).tokens >= x <==> b.capacity >= x && prev.tokens >= y;
      TokensAreTheTightestWindow(b, calls, i - 1, y);
      WindowsStep(b, calls, i, x, y);
    }
  }

  lemma FirstCall(b: Bucket, calls: seq<Call>, x: real)
    requires calls != []
    ensures Refilled(BucketAfter(b, calls[..0]), calls[0].time).tokens >= x <==> AllWindowsAllow(b, calls, 0, x)
  {
    assert calls[..0] == [];
    hide Accrued, Refilled;
    RefillCovers(b, calls[0].time, x);
    EmptyWindow(b, calls, 0, x);
  }

  /** All windows at call i allow x exactly when the capacity does and all windows at the call
      before allow what is needed there. */
  lemma WindowsStep(b: Bucket, calls: seq<Call>, i: nat, x: real, y: real)
    requires 0 < i < |calls|
    requires y == x + (if Decision(b, calls, i - 1) then calls[i - 1].cost else 0.0)
                    - Accrued(b.rate, calls[i - 1].time, calls[i].time)
    ensures AllWindowsAllow(b, calls, i, x) <==> b.capacity >= x && AllWindowsAllow(b, calls, i - 1, y)
  {
    hide Decision, StartAllows, WindowAllows;
    StartExtends(b, calls, i, x);
    forall j: nat | j < i ensures WindowAllows(b, calls, j, i, x) <==> WindowAllows(b, calls, j, i - 1, y) {
      WindowExtends(b, calls, j, i, x);
    }
    EmptyWindow(b, calls, i, x);
    if AllWindowsAllow(b, calls, i, x) {
      var h := i - 1;
      forall j: nat | j <= h ensures WindowAllows(b, calls, j, h, y) {
        assert WindowAllows(b, calls, j, i, x);
      }
      assert WindowAllows(b, calls, i, i, x);
    }
    if b.capacity >= x && AllWindowsAllow(b, calls, i - 1, y) {
      forall j: nat | j <= i ensures WindowAllows(b, calls, j, i, x) {
        if j < i {
          assert WindowAllows(b, calls, j, i - 1, y);
        }
      }
    }
  }

  lemma EmptyWindow(b: Bucket, calls: seq<Call>, i: nat, x: real)
    requires i < |calls|
    ensures WindowAllows(b, calls, i, i, x) <==> x <= b.capacity
  {
  }

  lemma AfterOneCall(b: Bucket, calls: seq<Call>, i: nat)
    requires 0 < i < |calls|
    ensures var prev := Refilled(BucketAfter(b, calls[..i - 1]), calls[i - 1].time);
            var spent := if Decision(b, calls, i - 1) then calls[i - 1].cost else 0.0;
            BucketAfter(b, calls[..i]) == prev.(tokens := prev.tokens - spent)
  {
    assert calls[..i][..i - 1] == calls[..i - 1];
  }

  /** Main result: the limiter admits a call exactly when no window ending at it, counted from any
      earlier call or from the bucket's creation, would exceed its allowance. */
  lemma AdmitsExactly(b: Bucket, calls: seq<Call>, i: nat)
    requires b.Valid() && Ordered(b.last, calls) && i < |calls|
    ensures Decision(b, calls, i) <==> AllWindowsAllow(b, calls, i, calls[i].cost)
  {
    TokensAreTheTightestWindow(b, calls, i, calls[i].cost);
  }

  /** Main result: the cost admitted in any window is at most the capacity plus rate times length. */
  lemma {:induction false} WindowBound(b: Bucket, calls: seq<Call>, i: nat, j: nat)
    requires b.Valid() && Ordered(b.last, calls) && i <= j < |calls|
    ensures Admitted(b, calls, i, j + 1) <= b.capacity + Accrued(b.rate, calls[i].time, calls[j].time)
    decreases j
  {
    hide Decision, AllWindowsAllow, BucketAfter, Refilled, Accrued;
    AdmitsExactly(b, calls, j);
    if Decision(b, calls, j) {
      WindowOf(b, calls, i, j, calls[j].cost);
    } else if i < j {
      WindowBound(b, calls, i, j - 1);
      assert Admitted(b, calls, i, j + 1) == Admitted(b, calls, i, j);
      Longer(b.rate, calls[i].time, calls[j - 1].time, calls[j].time);
    } else {
      assert Admitted(b, calls, i, i) == 0.0;
      assert Admitted(b, calls, i, j + 1) == Admitted(b, calls, i, i);
      Accrues(b.rate, calls[i].time, calls[j].time);
      assert b.capacity >= 0.0;
    }
  }

  lemma Longer(rate: real, a: real, b: real, c: real)
    requires rate >= 0.0 && a <= b <= c
    ensures 0.0 <= Accrued(rate, a, b) <= Accrued(rate, a, c)
  {
    hide Accrued;
    RateTimes(rate, a, b, c);
    Accrues(rate, a, b);
    Accrues(rate, b, c);
  }

  lemma WindowOf(b: Bucket, calls: seq<Call>, j: nat, i: nat, x: real)
    requires j <= i < |calls| && AllWindowsAllow(b, calls, i, x)
    ensures WindowAllows(b, calls, j, i, x)
  {
  }

  // ----- rejected calls leave no trace -----

  lemma RefillsCompose(b: Bucket, t: real, u: real)
    requires b.rate >= 0.0 && t <= u
    ensures Refilled(Refilled(b, t), u) == Refilled(b, u)
  {
    hide Accrued;
    RateTimes(b.rate, b.last, t, u);
    Accrues(b.rate, t, u);
  }

  function Keep<T>(s: seq<T>, keep: seq<bool>): seq<T>
    requires |s| == |keep|
  {
    if s == [] then []
    else Keep(s[..|s| - 1], keep[..|s| - 1]) + if keep[|s| - 1] then [s[|s| - 1]] else []
  }

  lemma KeepSnoc<T>(s: seq<T>, keep: seq<bool>, n: nat)
    requires |s| == |keep| == n + 1
    ensures Keep(s, keep) == Keep(s[..n], keep[..n]) + if keep[n] then [s[n]] else []
  {
  }

  function Decisions(b: Bucket, calls: seq<Call>): (d: seq<bool>)
    ensures |d| == |calls|
  {
    if calls == [] then []
    else
      var last := calls[|calls| - 1];
      Decisions(b, calls[..|calls| - 1]) + [Admits(BucketAfter(b, calls[..|calls| - 1]), last.time, last.cost)]
  }

  /** The rate never changes. */
  lemma {:induction false} RateIsConstant(b: Bucket, calls: seq<Call>)
    ensures BucketAfter(b, calls).rate == b.rate
  {
    if calls != [] {
      RateIsConstant(b, calls[..|calls| - 1]);
    }
  }

  lemma BucketSnoc(b: Bucket, calls: seq<Call>, c: Call)
    ensures BucketAfter(b, calls + [c]) == After(BucketAfter(b, calls), c.time, c.cost)
    ensures Decisions(b, calls + [c]) == Decisions(b, calls) + [Admits(BucketAfter(b, calls), c.time, c.cost)]
  {
    hide After, Admits;
    assert (calls + [c])[..|calls|] == calls;
  }

  /** Buckets that refill alike decide alike and stay alike; a rejected call changes nothing later. */
  lemma RefilledAlike(full: Bucket, kept: Bucket, c: Call, later: real)
    requires Refilled(full, c.time) == Refilled(kept, c.time)
    requires full.rate == kept.rate && full.rate >= 0.0 && c.time <= later
    ensures Admits(full, c.time, c.cost) == Admits(kept, c.time, c.cost)
    ensures After(full, c.time, c.cost) == After(kept, c.time, c.cost)
    ensures !Admits(full, c.time, c.cost) ==>
              Refilled(After(full, c.time, c.cost), later) == Refilled(full, later) == Refilled(kept, later)
  {
    hide Refilled;
    RefillsCompose(full, c.time, later);
    RefillsCompose(kept, c.time, later);
  }

  /** Runs that refill alike decide the next call alike, and still do after it. */
  lemma OneMoreCall(b: Bucket, full: seq<Call>, kept: seq<Call>, c: Call, later: real)
    requires Refilled(BucketAfter(b, full), c.time) == Refilled(BucketAfter(b, kept), c.time)
    requires b.rate >= 0.0 && c.time <= later
    ensures var admitted := Admits(BucketAfter(b, full), c.time, c.cost);
            && Decisions(b, kept + [c]) == Decisions(b, kept) + [admitted]
            && BucketAfter(b, full + [c]) == BucketAfter(b, kept + [c])
            && (!admitted ==> Refilled(BucketAfter(b, full + [c]), later) == Refilled(BucketAfter(b, kept), later))
  {
    hide Refilled, Admits, After, BucketAfter;
    BucketSnoc(b, full, c);
    BucketSnoc(b, kept, c);
    RateIsConstant(b, full);
    RateIsConstant(b, kept);
    RefilledAlike(BucketAfter(b, full), BucketAfter(b, kept), c, later);
  }

  /** Main result: leaving out any rejected calls changes no other decision, and the bucket refills
      to the same level at any later time. */
  lemma {:induction false} ErasingRejectedCalls(b: Bucket, calls: seq<Call>, keep: seq<bool>, later: real)
    requires b.Valid() && Ordered(b.last, calls) && |keep| == |calls|
    requires forall i | 0 <= i < |calls| && !keep[i] :: !Decisions(b, calls)[i]
    requires forall i | 0 <= i < |calls| :: calls[i].time <= later
    ensures Decisions(b, Keep(calls, keep)) == Keep(Decisions(b, calls), keep)
    ensures Refilled(BucketAfter(b, calls), later) == Refilled(BucketAfter(b, Keep(calls, keep)), later)
    decreases |calls|
  {
    hide Refilled, Admits, After, BucketAfter, Accrued;
    if calls != [] {
      var n := |calls| - 1;
      var init, last, kept := calls[..n], calls[n], Keep(calls[..n], keep[..n]);
      assert calls == init + [last];
      BucketSnoc(b, init, last);
      assert forall i | 0 <= i < n :: Decisions(b, init)[i] == Decisions(b, calls)[i];
      ErasingRejectedCalls(b, init, keep[..n], last.time);
      OneMoreCall(b, init, kept, last, later);
      KeepSnoc(calls, keep, n);
      KeepSnoc(Decisions(b, calls), keep, n);
      assert Decisions(b, calls)[..n] == Decisions(b, init);
      hide Decisions, Keep, Ordered;
      if !keep[n] {
        assert !Decisions(b, calls)[n];
        assert kept + [] == kept;
      }
    }
  }
}
