/** The limiters as objects: one bucket each, and the gateway's registry of one per model. */
module RateLimiters {
  import opened TokenBucket

  // ----- the registry over values -----

  datatype Limits = Limits(defaultRps: int, modelRps: map<string, int>) {
    function RpsFor(model: string): int {
      if model in modelRps then modelRps[model] else defaultRps
    }
  }

  datatype Request = Request(model: string, time: real)

  /** The bucket a request meets: the model's, created now if this is its first request. */
  function BucketFor(limits: Limits, buckets: map<string, Bucket>, r: Request): Bucket {
    if r.model in buckets then buckets[r.model] else NewGatewayBucket(limits.RpsFor(r.model), r.time)
  }

  function Served(limits: Limits, buckets: map<string, Bucket>, r: Request): map<string, Bucket> {
    buckets[r.model := After(BucketFor(limits, buckets, r), r.time, 1.0)]
  }

  function Allowed(limits: Limits, buckets: map<string, Bucket>, r: Request): bool {
    Admits(BucketFor(limits, buckets, r), r.time, 1.0)
  }

  function BucketsAfter(limits: Limits, requests: seq<Request>): map<string, Bucket> {
    if requests == [] then map[]
    else Served(limits, BucketsAfter(limits, requests[..|requests| - 1]), requests[|requests| - 1])
  }

  /** The requests of one model, as calls of one token. */
  function CallsOf(requests: seq<Request>, model: string): (calls: seq<Call>)
    ensures |calls| <= |requests|
  {
    if requests == [] then []
    else
      var last := requests[|requests| - 1];
      CallsOf(requests[..|requests| - 1], model) + if last.model == model then [Call(last.time, 1.0)] else []
  }

  /** The model's own bucket, as if created at its first request. */
  function OwnBucket(limits: Limits, requests: seq<Request>, model: string): Bucket
    requires CallsOf(requests, model) != []
  {
    NewGatewayBucket(limits.RpsFor(model), CallsOf(requests, model)[0].time)
  }

  lemma CallsSnoc(b: Bucket, calls: seq<Call>, c: Call)
    ensures BucketAfter(b, calls + [c]) == After(BucketAfter(b, calls), c.time, c.cost)
  {
    BucketSnoc(b, calls, c);
  }

  /** The registry keeps, for every model seen, exactly the bucket that model's calls alone produce. */
  lemma {:induction false} ModelsDoNotInteract(limits: Limits, requests: seq<Request>, model: string)
    ensures model in BucketsAfter(limits, requests) <==> CallsOf(requests, model) != []
    ensures CallsOf(requests, model) != [] ==>
              BucketsAfter(limits, requests)[model]
              == BucketAfter(OwnBucket(limits, requests, model), CallsOf(requests, model))
  {
    hide After, Admits, NewGatewayBucket, BucketAfter;
    if requests != [] {
      var init, last := requests[..|requests| - 1], requests[|requests| - 1];
      ModelsDoNotInteract(limits, init, model);
      if last.model == model {
        var earlier := CallsOf(init, model);
        CallsSnoc(OwnBucket(limits, requests, model), earlier, Call(last.time, 1.0));
        if earlier == [] {
          NoCalls(OwnBucket(limits, requests, model));
        }
      } else {
        assert CallsOf(requests, model) == CallsOf(init, model);
      }
    }
  }

  lemma NoCalls(b: Bucket)
    ensures BucketAfter(b, []) == b
  {
  }

  /** Main result: each request is decided as if its model's bucket, created at the model's first
      request, saw only that model's requests. */
  lemma EachModelIsLimitedAlone(limits: Limits, requests: seq<Request>, i: nat)
    requires i < |requests|
    ensures var r, own := requests[i], CallsOf(requests[..i + 1], requests[i].model);
            && own != []
            && Allowed(limits, BucketsAfter(limits, requests[..i]), r)
               == Decision(OwnBucket(limits, requests[..i + 1], r.model), own, |own| - 1)
  {
    hide After, Admits, NewGatewayBucket, BucketAfter, BucketsAfter, CallsOf;
    var r := requests[i];
    var before, upto := requests[..i], requests[..i + 1];
    var earlier, own := CallsOf(before, r.model), CallsOf(upto, r.model);
    OwnCalls(before, r);
    assert upto == before + [r];
    assert own[..|own| - 1] == earlier;
    ModelsDoNotInteract(limits, before, r.model);
    if earlier == [] {
      NoCalls(OwnBucket(limits, upto, r.model));
    }
  }

  lemma OwnCalls(before: seq<Request>, r: Request)
    ensures CallsOf(before + [r], r.model) == CallsOf(before, r.model) + [Call(r.time, 1.0)]
  {
    assert (before + [r])[..|before|] == before;
  }

  // ----- the objects -----

  class Limiter {
    const rate: real
    const capacity: real
    var tokens: real
    var last: real

    ghost function View(): Bucket
      reads this
    {
      Bucket(rate, capacity, tokens, last)
    }

    /** newBucket of the pipeline processor. */
    constructor PerSecond(ratePerSec: real, burst: real, now: real)
      ensures View() == NewBucket(ratePerSec, burst, now)
      ensures rate == ratePerSec && capacity == ratePerSec * burst && tokens == capacity && last == now
    {
      rate, capacity, tokens, last := ratePerSec, ratePerSec * burst, ratePerSec * burst, now;
    }

    /** NewTokenBucket of the gateway. */
    constructor PerModel(rps: int, now: real)
      ensures View() == NewGatewayBucket(rps, now)
      ensures rate == (if rps < 1 then 1.0 else rps as real) && capacity == rate + rate && tokens == rate && last == now
    {
      var cap := rps as real;
      if cap < 1.0 {
        cap := 1.0;
      }
      rate, capacity, tokens, last := cap, cap * 2.0, cap, now;
    }

    /** tryConsume, and with n = 1 the gateway's Allow. */
    method TryConsume(n: int, now: real) returns (ok: bool)
      modifies this
      ensures ok == Admits(old(View()), now, n as real)
      ensures View() == After(old(View()), now, n as real)
      ensures var level := old(tokens) + (now - old(last)) * rate;
              var refilled := if level > capacity then capacity else level;
              (ok <==> refilled >= n as real) && tokens == (if ok then refilled - n as real else refilled) && last == now
    {
      var elapsed := now - last;
      ghost var accrued := Accrued(rate, last, now);
      AccruedInFull(rate, last, now);
      assert elapsed * rate == accrued;
      hide Accrued;
      last := now;
      tokens := tokens + elapsed * rate;
      if tokens > capacity {
        tokens := capacity;
      }
      var cost := n as real;
      if tokens < cost {
        return false;
      }
      tokens := tokens - cost;
      ok := true;
    }
  }

  class Registry {
    const limits: Limits
    var limiters: map<string, Limiter>

    /** No two models share a limiter. */
    ghost predicate Valid()
      reads this
    {
      forall m, n | m in limiters && n in limiters && m != n :: limiters[m] != limiters[n]
    }

    ghost function View(): map<string, Bucket>
      reads this, limiters.Values
    {
      map m | m in limiters :: limiters[m].View()
    }

    constructor (defaultRps: int, modelRps: map<string, int>)
      ensures Valid() && View() == map[] && limits == Limits(defaultRps, modelRps)
    {
      limits := Limits(defaultRps, modelRps);
      limiters := map[];
    }

    method Allow(model: string, now: real) returns (ok: bool)
      requires Valid()
      modifies this, limiters.Values
      ensures Valid()
      ensures ok == Allowed(limits, old(View()), Request(model, now))
      ensures View() == Served(limits, old(View()), Request(model, now))
      ensures model !in old(limiters) ==>
                && ok && model in limiters
                && var rps := if model in limits.modelRps then limits.modelRps[model] else limits.defaultRps;
                   var cap := if rps < 1 then 1.0 else rps as real;
                   limiters[model].View() == Bucket(cap, cap + cap, cap - 1.0, now)
      ensures forall m | m in old(limiters) :: m in limiters && limiters[m] == old(limiters[m])
      ensures forall l | l in limiters.Values :: l in old(limiters.Values) || fresh(l)
    {
      hide After, Admits, NewGatewayBucket;
      ghost var before := View();
      FirstRequest(limits.RpsFor(model), now);
      var limiter := LimiterFor(model, now);
      ok := limiter.TryConsume(1, now);
      assert forall m | m in limiters && m != model :: limiters[m].View() == before[m];
    }

    /** The model's limiter, created if this is its first request. */
    method LimiterFor(model: string, now: real) returns (limiter: Limiter)
      requires Valid()
      modifies this
      ensures Valid() && model in limiters && limiter == limiters[model]
      ensures limiter.View() == BucketFor(limits, old(View()), Request(model, now))
      ensures limiters == old(limiters)[model := limiter]
      ensures if model in old(limiters) then limiter == old(limiters)[model] else fresh(limiter)
      ensures model !in old(limiters) ==>
                var rps := if model in limits.modelRps then limits.modelRps[model] else limits.defaultRps;
                && limiter.rate == (if rps < 1 then 1.0 else rps as real) && limiter.capacity == limiter.rate + limiter.rate
                && limiter.tokens == limiter.rate && limiter.last == now
    {
      hide NewGatewayBucket;
      if model !in limiters {
        limiter := new Limiter.PerModel(limits.RpsFor(model), now);
        limiters := limiters[model := limiter];
      }
      limiter := limiters[model];
    }
  }
}
