/**
  Choosing backends: the healthy ones that serve the model, shuffled in place. A draw at position
  i is a number below the rest's length; a larger weight further back is pulled forward.
 */
module Shuffling {

  datatype Backend = Backend(id: string, models: seq<string>, weight: int, healthy: bool)

  predicate Supports(b: Backend, model: string) {
    exists k | 0 <= k < |b.models| :: b.models[k] == model
  }

  /** What the random source may answer for a list of n: draw i is below n - i. */
  predicate Draws(draws: seq<nat>, n: nat) {
    |draws| == n && forall i | 0 <= i < n :: draws[i] < n - i
  }

  function Step(s: seq<Backend>, i: nat, j: nat): (r: seq<Backend>)
    requires i <= j < |s|
    ensures |r| == |s|
  {
    if s[j].weight > s[i].weight then s[i := s[j]][j := s[i]] else s
  }

  /** The first n turns of the loop. */
  function Shuffled(s: seq<Backend>, draws: seq<nat>, n: nat): (r: seq<Backend>)
    requires Draws(draws, |s|) && n <= |s|
    ensures |r| == |s|
  {
    if n == 0 then s else Step(Shuffled(s, draws, n - 1), n - 1, n - 1 + draws[n - 1])
  }

  method WeightedShuffle(a: array<Backend>, draws: seq<nat>)
    requires Draws(draws, a.Length)
    modifies a
    ensures a[..] == Shuffled(old(a[..]), draws, a.Length)
  {
    if a.Length <= 1 {
      assert a.Length == 1 ==> draws[0] == 0;
      return;
    }
    for i := 0 to a.Length
      invariant a[..] == Shuffled(old(a[..]), draws, i)
    {
      var j := i + draws[i];
      if a[j].weight > a[i].weight {
        a[i], a[j] := a[j], a[i];
      }
    }
  }

  // ----- a turn permutes, never lowers a prefix, never adds an inversion -----

  lemma SwapPermutes(s: seq<Backend>, i: nat, j: nat)
    requires i <= j < |s|
    ensures multiset(Step(s, i, j)) == multiset(s)
  {
  }

  function PrefixWeight(s: seq<Backend>, n: nat): int
    requires n <= |s|
  {
    if n == 0 then 0 else PrefixWeight(s, n - 1) + s[n - 1].weight
  }

  lemma {:induction false} StepRaisesPrefix(s: seq<Backend>, i: nat, j: nat, n: nat)
    requires i <= j < |s| && n <= |s|
    ensures PrefixWeight(Step(s, i, j), n) ==
            PrefixWeight(s, n) + if s[j].weight > s[i].weight && i < n <= j then s[j].weight - s[i].weight else 0
  {
    if n > 0 {
      StepRaisesPrefix(s, i, j, n - 1);
    }
  }

  /** The pairs that stand in the wrong order: a smaller weight before a larger one. */
  ghost function Inversions(s: seq<Backend>): set<(int, int)> {
    set p: int, q: int | 0 <= p < q < |s| && s[p].weight < s[q].weight :: (p, q)
  }

  lemma {:induction false} InjectionBound(a: set<(int, int)>, b: set<(int, int)>, f: ((int, int)) -> (int, int))
    requires forall x | x in a :: f(x) in b
    requires forall x, y | x in a && y in a && f(x) == f(y) :: x == y
    ensures |a| <= |b|
    decreases |a|
  {
    if a != {} {
      var x :| x in a;
      InjectionBound(a - {x}, b - {f(x)}, f);
    }
  }

  function Other(p: int, i: int, j: int): int {
    if p == i then j else if p == j then i else p
  }

  /** Where a pair of the swapped list stood before: partners outside i..j follow the swap. */
  function Origin(x: (int, int), i: int, j: int): (int, int) {
    if x.0 < i then (x.0, Other(x.1, i, j))
    else if x.1 > j then (Other(x.0, i, j), x.1)
    else x
  }

  lemma OriginIsInversion(s: seq<Backend>, i: nat, j: nat, x: (int, int))
    requires i < j < |s| && s[j].weight > s[i].weight && x in Inversions(Step(s, i, j))
    ensures Origin(x, i, j) in Inversions(s) && Origin(x, i, j) != (i, j)
  {
  }

  lemma OriginIsInjective(i: int, j: int, x: (int, int), y: (int, int))
    requires i < j && x.0 < x.1 && y.0 < y.1 && Origin(x, i, j) == Origin(y, i, j)
    ensures x == y
  {
  }

  /** A swap removes at least one inversion and adds none. */
  lemma SwapLowersInversions(s: seq<Backend>, i: nat, j: nat)
    requires i <= j < |s|
    ensures |Inversions(Step(s, i, j))| <= |Inversions(s)|
    ensures s[j].weight > s[i].weight ==> |Inversions(Step(s, i, j))| < |Inversions(s)|
  {
    if s[j].weight > s[i].weight {
      var a, b := Inversions(Step(s, i, j)), Inversions(s);
      forall x | x in a ensures Origin(x, i, j) in b - {(i as int, j as int)} {
        OriginIsInversion(s, i, j, x);
      }
      forall x, y | x in a && y in a && Origin(x, i, j) == Origin(y, i, j) ensures x == y {
        OriginIsInjective(i, j, x, y);
      }
      InjectionBound(a, b - {(i as int, j as int)}, x => Origin(x, i, j));
    }
  }

  lemma {:induction false} ShufflePermutes(s: seq<Backend>, draws: seq<nat>, n: nat)
    requires Draws(draws, |s|) && n <= |s|
    ensures multiset(Shuffled(s, draws, n)) == multiset(s)
  {
    hide Step;
    if n > 0 {
      ShufflePermutes(s, draws, n - 1);
      SwapPermutes(Shuffled(s, draws, n - 1), n - 1, n - 1 + draws[n - 1]);
    }
  }

  /** Main result: for every run of draws, no prefix ends up lighter than it was. */
  lemma {:induction false} ShuffleRaisesPrefixes(s: seq<Backend>, draws: seq<nat>, n: nat, k: nat)
    requires Draws(draws, |s|) && n <= |s| && k <= |s|
    ensures PrefixWeight(s, k) <= PrefixWeight(Shuffled(s, draws, n), k)
  {
    hide Step, PrefixWeight;
    if n > 0 {
      ShuffleRaisesPrefixes(s, draws, n - 1, k);
      StepRaisesPrefix(Shuffled(s, draws, n - 1), n - 1, n - 1 + draws[n - 1], k);
    }
  }

  lemma NoSwapNoChange(s: seq<Backend>, i: nat, j: nat)
    requires i <= j < |s| && s[j].weight <= s[i].weight
    ensures Step(s, i, j) == s
  {
  }

  /** Main result: for every run of draws, either nothing moved or inversions became fewer. */
  lemma {:induction false} ShuffleLowersInversions(s: seq<Backend>, draws: seq<nat>, n: nat)
    requires Draws(draws, |s|) && n <= |s|
    ensures Shuffled(s, draws, n) == s || |Inversions(Shuffled(s, draws, n))| < |Inversions(s)|
  {
    hide Inversions, Step;
    if n > 0 {
      ShuffleLowersInversions(s, draws, n - 1);
      var t, i, j := Shuffled(s, draws, n - 1), n - 1, n - 1 + draws[n - 1];
      SwapLowersInversions(t, i, j);
      if t[j].weight <= t[i].weight {
        NoSwapNoChange(t, i, j);
      }
    }
  }

  // ----- when there is anything to shuffle -----

  ghost predicate Descending(s: seq<Backend>) {
    forall p, q | 0 <= p < q < |s| :: s[p].weight >= s[q].weight
  }

  lemma {:induction false} DescendingStays(s: seq<Backend>, draws: seq<nat>, n: nat)
    requires Draws(draws, |s|) && n <= |s| && Descending(s)
    ensures Shuffled(s, draws, n) == s
  {
    if n > 0 {
      DescendingStays(s, draws, n - 1);
    }
  }

  /** The draws that touch one pair only. */
  function Pulling(n: nat, p: nat, q: nat): (r: seq<nat>)
    requires p < q < n
    ensures Draws(r, n)
  {
    seq(n, k => if k == p then q - p else 0)
  }

  lemma {:induction false} PullingSwaps(s: seq<Backend>, p: nat, q: nat, n: nat)
    requires p < q < |s| && s[p].weight < s[q].weight && n <= |s|
    ensures Shuffled(s, Pulling(|s|, p, q), n) == if n <= p then s else s[p := s[q]][q := s[p]]
  {
    if n > 0 {
      PullingSwaps(s, p, q, n - 1);
    }
  }

  /** Main result: the draws can move something exactly when a heavier backend stands behind a
      lighter one. In particular a list of equal weights is never reordered. */
  lemma ShuffleMovesExactly(s: seq<Backend>)
    ensures (exists draws :: Draws(draws, |s|) && Shuffled(s, draws, |s|) != s) <==> !Descending(s)
  {
    forall draws | Draws(draws, |s|) && Descending(s) ensures Shuffled(s, draws, |s|) == s {
      DescendingStays(s, draws, |s|);
    }
    if !Descending(s) {
      var p: nat, q: nat :| 0 <= p < q < |s| && s[p].weight < s[q].weight;
      PullingSwaps(s, p, q, |s|);
      var draws := Pulling(|s|, p, q);
      assert Shuffled(s, draws, |s|)[p] == s[q];
      assert Draws(draws, |s|) && Shuffled(s, draws, |s|) != s;
    }
  }

  /** Equal weights alone do not fix an order: a heavier backend further back can carry one of two
      equal backends past the other. */
  lemma EqualWeightsCanBeReordered(a: Backend, b: Backend, c: Backend)
    requires a.weight == b.weight < c.weight
    ensures Draws([2, 0, 0], 3) && Shuffled([a, b, c], [2, 0, 0], 3) == [c, b, a]
  {
    var s, draws: seq<nat> := [a, b, c], [2, 0, 0];
    assert Shuffled(s, draws, 0) == s;
    assert Shuffled(s, draws, 1) == [c, b, a];
    assert Shuffled(s, draws, 2) == [c, b, a];
  }

  lemma EqualWeightsNeverMove(s: seq<Backend>, draws: seq<nat>)
    requires Draws(draws, |s|) && forall i, j | 0 <= i < j < |s| :: s[i].weight == s[j].weight
    ensures Shuffled(s, draws, |s|) == s
  {
    DescendingStays(s, draws, |s|);
  }

  // ----- the candidates of a request -----

  function Matching(backends: seq<Backend>, model: string): seq<Backend> {
    if backends == [] then []
    else
      var last := backends[|backends| - 1];
      Matching(backends[..|backends| - 1], model) + if last.healthy && Supports(last, model) then [last] else []
  }

  /** Matching keeps the healthy backends that list the model, all of them, at increasing positions. */
  lemma {:induction false} MatchingPositions(backends: seq<Backend>, model: string) returns (at: seq<nat>)
    ensures |at| == |Matching(backends, model)| && forall i, j | 0 <= i < j < |at| :: at[i] < at[j]
    ensures forall i | 0 <= i < |at| :: at[i] < |backends| && Matching(backends, model)[i] == backends[at[i]]
    ensures forall k: nat :: k in at <==> k < |backends| && backends[k].healthy && model in backends[k].models
  {
    if backends == [] {
      at := [];
    } else {
      var n := |backends| - 1;
      assert Supports(backends[n], model) <==> model in backends[n].models;
      hide Supports;
      var before := MatchingPositions(backends[..n], model);
      at := before + if backends[n].healthy && Supports(backends[n], model) then [n] else [];
      forall k: nat ensures k in at <==> k < |backends| && backends[k].healthy && model in backends[k].models {
        assert k in at <==> k in before || (k == n && backends[n].healthy && Supports(backends[n], model));
      }
    }
  }

  lemma MatchingNone(model: string)
    ensures Matching([], model) == []
  {
  }

  lemma MatchingSnoc(backends: seq<Backend>, last: Backend, model: string)
    ensures Matching(backends + [last], model)
            == Matching(backends, model) + if last.healthy && Supports(last, model) then [last] else []
  {
    hide Supports;
    assert (backends + [last])[..|backends|] == backends;
  }

  lemma CountSnoc(s: seq<Backend>, last: Backend, b: Backend)
    ensures multiset(s + [last])[b] == multiset(s)[b] + if last == b then 1 else 0
  {
  }

  lemma {:induction false} MatchingCounts(backends: seq<Backend>, model: string, b: Backend)
    ensures multiset(Matching(backends, model))[b] ==
            if b.healthy && Supports(b, model) then multiset(backends)[b] else 0
  {
    if backends != [] {
      var rest, last := backends[..|backends| - 1], backends[|backends| - 1];
      assert backends == rest + [last];
      MatchingCounts(rest, model, b);
      hide Supports, Matching;
      MatchingSnoc(rest, last, model);
      CountSnoc(rest, last, b);
      CountSnoc(Matching(rest, model), last, b);
      assert Matching(rest, model) + [] == Matching(rest, model);
    }
  }

  function Healthy(backends: seq<Backend>): seq<Backend> {
    if backends == [] then []
    else
      var last := backends[|backends| - 1];
      Healthy(backends[..|backends| - 1]) + if last.healthy then [last] else []
  }

  lemma {:induction false} MatchingOfHealthy(backends: seq<Backend>, model: string)
    ensures Matching(Healthy(backends), model) == Matching(backends, model)
  {
    hide Supports;
    if backends != [] {
      var n := |backends| - 1;
      MatchingOfHealthy(backends[..n], model);
      var rest := Healthy(backends[..n]);
      assert (rest + [backends[n]])[..|rest|] == rest;
      assert rest + [] == rest;
      HealthyIsHealthy(backends[..n]);
    }
  }

  lemma {:induction false} HealthyIsHealthy(backends: seq<Backend>)
    ensures forall b | b in Healthy(backends) :: b.healthy
  {
    if backends != [] {
      HealthyIsHealthy(backends[..|backends| - 1]);
    }
  }

  method GetHealthyBackends(backends: seq<Backend>) returns (healthy: seq<Backend>)
    ensures healthy == Healthy(backends)
    ensures forall b :: b in healthy <==> b in backends && b.healthy
  {
    healthy := [];
    for i := 0 to |backends|
      invariant healthy == Healthy(backends[..i])
      invariant forall b :: b in healthy <==> b in backends[..i] && b.healthy
    {
      assert backends[..i + 1][..i] == backends[..i] && backends[..i + 1] == backends[..i] + [backends[i]];
      if backends[i].healthy {
        healthy := healthy + [backends[i]];
      }
    }
    assert backends[..|backends|] == backends;
  }

  method SupportsModel(b: Backend, model: string) returns (r: bool)
    ensures r <==> Supports(b, model)
    ensures r <==> model in b.models
  {
    for k := 0 to |b.models|
      invariant forall m | 0 <= m < k :: b.models[m] != model
    {
      if b.models[k] == model {
        return true;
      }
    }
    return false;
  }

  /** For every run of draws the candidates are the healthy backends serving the model, each as
      often as it is listed, in the shuffled order. */
  method FindBackends(backends: seq<Backend>, model: string, draws: seq<nat>) returns (r: seq<Backend>)
    requires Draws(draws, |Matching(backends, model)|)
    ensures r == Shuffled(Matching(backends, model), draws, |draws|)
    ensures forall b :: multiset(r)[b] == if b.healthy && Supports(b, model) then multiset(backends)[b] else 0
  {
    hide Supports, Matching, Shuffled;
    var healthy := GetHealthyBackends(backends);
    MatchingOfHealthy(backends, model);
    HealthyIsHealthy(backends);
    MatchingNone(model);
    var matched: seq<Backend> := [];
    for i := 0 to |healthy|
      invariant matched == Matching(healthy[..i], model)
    {
      assert healthy[..i + 1] == healthy[..i] + [healthy[i]];
      MatchingSnoc(healthy[..i], healthy[i], model);
      assert matched + [] == matched;
      var supports := SupportsModel(healthy[i], model);
      if supports {
        matched := matched + [healthy[i]];
      }
    }
    assert healthy[..|healthy|] == healthy;
    var a := new Backend[|matched|](i requires 0 <= i < |matched| => matched[i]);
    assert a[..] == matched;
    WeightedShuffle(a, draws);
    r := a[..];
    ShufflePermutes(matched, draws, |draws|);
    forall b ensures multiset(r)[b] == if b.healthy && Supports(b, model) then multiset(backends)[b] else 0 {
      MatchingCounts(backends, model, b);
    }
  }
}

/**
  Trying the candidates in turn. What each backend does with the request is an arbitrary input.
 */
module Failover {

  datatype Outcome =
    | NoRequest                                  // the request could not be built
    | Unreachable                                // the call failed
    | Response(status: int, body: string)

  datatype Reply =
    | GatewayError(status: int)
    | Forwarded(candidate: nat, status: int, body: string, streamed: bool)

  /** The client's side of one request: replies written, backends called, bodies left open. */
  class Exchange {
    var replies: seq<Reply>
    var calls: seq<nat>
    var open: set<nat>

    constructor ()
      ensures replies == [] && calls == [] && open == {}
    {
      replies, calls, open := [], [], {};
    }

    method WriteError(status: int)
      modifies this`replies
      ensures replies == old(replies) + [GatewayError(status)]
    {
      replies := replies + [GatewayError(status)];
    }

    /** Write the response, then close its body. */
    method Forward(i: nat, resp: Outcome, isStream: bool)
      requires resp.Response?
      modifies this`replies, this`open
      ensures replies == old(replies) + [Forwarded(i, resp.status, resp.body, isStream && resp.status == 200)]
      ensures open == old(open) - {i}
    {
      replies := replies + [Forwarded(i, resp.status, resp.body, isStream && resp.status == 200)];
      open := open - {i};
    }

    /** The failover loop. */
    method TryEach(outcomes: seq<Outcome>, isStream: bool)
      modifies this
      ensures replies == old(replies) + [Expected(outcomes, isStream)]
      ensures calls == old(calls) + Called(outcomes, Tried(outcomes))
      ensures open == old(open) - Answering(outcomes, Tried(outcomes))
    {
      for i := 0 to |outcomes|
        invariant replies == old(replies)
        invariant calls == old(calls) + Called(outcomes, i)
        invariant open == old(open) - Answering(outcomes, i)
        invariant forall k | 0 <= k < i :: !Accepted(outcomes, k)
      {
        if outcomes[i].NoRequest? {
          continue;
        }
        calls := calls + [i];
        if outcomes[i].Unreachable? {
          continue;
        }
        open := open + {i};
        if outcomes[i].status >= 500 && i < |outcomes| - 1 {
          open := open - {i};
          continue;
        }
        Forward(i, outcomes[i], isStream);
        FirstAcceptedIs(outcomes, i);
        return;
      }
      NoneAccepted(outcomes);
      WriteError(502);
    }

    /** One request: unreadable, without a model, over its rate, without a backend, or routed. */
    method ProxyInference(readable: bool, model: string, allowed: bool, outcomes: seq<Outcome>, isStream: bool)
      requires replies == [] && calls == [] && open == {}
      modifies this
      ensures replies == [ReplyTo(readable, model, allowed, outcomes, isStream)]
      ensures !readable || model == "" ==> replies == [GatewayError(400)]
      ensures readable && model != "" && !allowed ==> replies == [GatewayError(429)]
      ensures readable && model != "" && allowed && outcomes == [] ==> replies == [GatewayError(503)]
      ensures readable && model != "" && allowed && outcomes != [] ==>
                && |replies| == 1
                && ((forall k | 0 <= k < |outcomes| :: !outcomes[k].Response?) ==> replies[0] == GatewayError(502))
                && forall k: nat | k < |outcomes| && outcomes[k].Response? && outcomes[k].status < 500
                     && (forall m | 0 <= m < k :: outcomes[m].Response? ==> outcomes[m].status >= 500) ::
                     replies[0] == Forwarded(k, outcomes[k].status, outcomes[k].body, isStream && outcomes[k].status == 200)
      ensures open == {}
      ensures calls != [] ==> readable && model != "" && allowed
    {
      if !readable {
        WriteError(400);
        return;
      }
      if model == "" {
        WriteError(400);
        return;
      }
      if !allowed {
        WriteError(429);
        return;
      }
      if |outcomes| == 0 {
        WriteError(503);
        return;
      }
      TryEach(outcomes, isStream);
      FailoverPicks(outcomes, isStream);
    }
  }

  /** The answer that ends the loop: below 500, or from the last candidate. */
  predicate Accepted(outcomes: seq<Outcome>, k: nat)
    requires k < |outcomes|
  {
    outcomes[k].Response? && (outcomes[k].status < 500 || k == |outcomes| - 1)
  }

  /** How many candidates are tried. */
  function Tried(outcomes: seq<Outcome>): (n: nat)
    ensures n <= |outcomes|
  {
    if exists k | 0 <= k < |outcomes| :: Accepted(outcomes, k) then FirstAccepted(outcomes, 0) + 1 else |outcomes|
  }

  function FirstAccepted(outcomes: seq<Outcome>, from: nat): (n: nat)
    requires exists k | from <= k < |outcomes| :: Accepted(outcomes, k)
    ensures from <= n < |outcomes| && Accepted(outcomes, n) && forall k | from <= k < n :: !Accepted(outcomes, k)
    decreases |outcomes| - from
  {
    if Accepted(outcomes, from) then from else FirstAccepted(outcomes, from + 1)
  }

  function Expected(outcomes: seq<Outcome>, isStream: bool): Reply {
    if exists k | 0 <= k < |outcomes| :: Accepted(outcomes, k) then
      var k := FirstAccepted(outcomes, 0);
      Forwarded(k, outcomes[k].status, outcomes[k].body, isStream && outcomes[k].status == 200)
    else GatewayError(502)
  }

  function ReplyTo(readable: bool, model: string, allowed: bool, outcomes: seq<Outcome>, isStream: bool): Reply {
    if !readable || model == "" then GatewayError(400)
    else if !allowed then GatewayError(429)
    else if outcomes == [] then GatewayError(503)
    else Expected(outcomes, isStream)
  }

  function Called(outcomes: seq<Outcome>, n: nat): seq<nat>
    requires n <= |outcomes|
  {
    if n == 0 then [] else Called(outcomes, n - 1) + if outcomes[n - 1].NoRequest? then [] else [n - 1]
  }

  function Answering(outcomes: seq<Outcome>, n: nat): set<nat>
    requires n <= |outcomes|
  {
    set k: nat | k < n && outcomes[k].Response?
  }

  lemma FirstAcceptedIs(outcomes: seq<Outcome>, i: nat)
    requires i < |outcomes| && Accepted(outcomes, i) && forall k | 0 <= k < i :: !Accepted(outcomes, k)
    ensures Tried(outcomes) == i + 1 && FirstAccepted(outcomes, 0) == i
  {
  }

  lemma NoneAccepted(outcomes: seq<Outcome>)
    requires forall k | 0 <= k < |outcomes| :: !Accepted(outcomes, k)
    ensures Tried(outcomes) == |outcomes|
  {
  }

  /** Main result: the reply comes from the first candidate below 500; else from the last one, if
      that one answered at all; else it is the gateway's own 502. */
  lemma FailoverPicks(outcomes: seq<Outcome>, isStream: bool)
    requires outcomes != []
    ensures var r, last := Expected(outcomes, isStream), outcomes[|outcomes| - 1];
            && (forall k: nat :: k < |outcomes| && outcomes[k].Response? && outcomes[k].status < 500
                  && (forall m | 0 <= m < k :: outcomes[m].Response? ==> outcomes[m].status >= 500)
                  ==> r == Forwarded(k, outcomes[k].status, outcomes[k].body, isStream && outcomes[k].status == 200))
            && ((forall m | 0 <= m < |outcomes| :: outcomes[m].Response? ==> outcomes[m].status >= 500) ==>
                  r == if last.Response? then Forwarded(|outcomes| - 1, last.status, last.body, false) else GatewayError(502))
  {
    var last := |outcomes| - 1;
    forall k: nat | k < |outcomes| && outcomes[k].Response? && outcomes[k].status < 500
      && (forall m | 0 <= m < k :: outcomes[m].Response? ==> outcomes[m].status >= 500)
      ensures Expected(outcomes, isStream) == Forwarded(k, outcomes[k].status, outcomes[k].body, isStream && outcomes[k].status == 200)
    {
      assert Accepted(outcomes, k);
      FirstAcceptedIs(outcomes, k);
    }
    if outcomes[last].Response? {
      assert Accepted(outcomes, last);
    }
  }

  /** The candidates called are those whose request could be built, in order, as long as nobody
      before them answered below 500. */
  lemma CalledExactly(outcomes: seq<Outcome>)
    ensures var called := Called(outcomes, Tried(outcomes));
            && (forall i, j | 0 <= i < j < |called| :: called[i] < called[j])
            && forall k: nat :: k in called <==>
                 && k < |outcomes| && !outcomes[k].NoRequest?
                 && forall m | 0 <= m < k :: outcomes[m].Response? ==> outcomes[m].status >= 500
  {
    var called := Called(outcomes, Tried(outcomes));
    CalledAscends(outcomes, Tried(outcomes));
    forall k: nat
      ensures k in called <==>
                && k < |outcomes| && !outcomes[k].NoRequest?
                && forall m | 0 <= m < k :: outcomes[m].Response? ==> outcomes[m].status >= 500
    {
      if k < |outcomes| {
        TriedExactly(outcomes, k);
      }
    }
  }

  lemma TriedExactly(outcomes: seq<Outcome>, k: nat)
    requires k < |outcomes|
    ensures k < Tried(outcomes) <==> forall m | 0 <= m < k :: outcomes[m].Response? ==> outcomes[m].status >= 500
  {
    if m: nat :| m < k && outcomes[m].Response? && outcomes[m].status < 500 {
      assert Accepted(outcomes, m);
    }
    if k >= Tried(outcomes) {
      assert Accepted(outcomes, Tried(outcomes) - 1);
    }
  }

  lemma {:induction false} CalledAscends(outcomes: seq<Outcome>, n: nat)
    requires n <= |outcomes|
    ensures var called := Called(outcomes, n);
            && (forall i, j | 0 <= i < j < |called| :: called[i] < called[j])
            && forall k: nat :: k in called <==> k < n && !outcomes[k].NoRequest?
  {
    if n > 0 {
      CalledAscends(outcomes, n - 1);
      var before := Called(outcomes, n - 1);
      assert Called(outcomes, n) == before + if outcomes[n - 1].NoRequest? then [] else [n - 1];
      hide Called;
      forall k: nat ensures k in Called(outcomes, n) <==> k < n && !outcomes[k].NoRequest? {
        assert k in Called(outcomes, n) <==> k in before || (k == n - 1 && !outcomes[n - 1].NoRequest?);
      }
      assert forall i | 0 <= i < |before| :: before[i] in before;
    }
  }

  /** The client sees an error status exactly when nobody answered below 500. */
  lemma ClientErrorExactly(outcomes: seq<Outcome>, isStream: bool)
    requires outcomes != []
    ensures Expected(outcomes, isStream).status >= 500 <==>
            forall m | 0 <= m < |outcomes| :: outcomes[m].Response? ==> outcomes[m].status >= 500
  {
    if m :| 0 <= m < |outcomes| && outcomes[m].Response? && outcomes[m].status < 500 {
      assert Accepted(outcomes, m);
      var k := FirstAccepted(outcomes, 0);
      assert k <= m;
    }
  }
}
