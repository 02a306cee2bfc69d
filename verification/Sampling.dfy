/**
  Head sampling of trace payloads, over values: which spans a rate keeps, and what that does to
  the tree of resources, scopes and spans. Rates are exact reals.
 */
module Sampling {
  import opened Values

  /** Everything about a span but its trace id is carried along untouched. */
  datatype Span = Span(traceId: Bytes, body: int)

  datatype ScopeTree = ScopeTree(scope: int, spans: seq<Span>)

  datatype ResourceTree = ResourceTree(resource: int, scopes: seq<ScopeTree>)

  datatype Payload = Payload(resources: seq<ResourceTree>, spanCount: int)

  /** 64-bit FNV-1a. */
  function Fnv64(h: bv64, id: Bytes): bv64
    decreases |id|
  {
    if id == [] then h else Fnv64(Fnv64Step(h, id[0]), id[1..])
  }

  function Fnv64Step(h: bv64, b: bv8): bv64 {
    (h ^ (b as bv64)) * 1099511628211
  }

  function HashValue(id: Bytes): nat {
    (Fnv64(14695981039346656037, id) >> 1) as nat
  }

  /** Half of the published 64-bit FNV-1a values of two test strings. */
  lemma PublishedHashes()
    ensures HashValue([0x61]) == 0xaf63dc4c8601ec8c / 2
    ensures HashValue([0x66, 0x6f, 0x6f, 0x62, 0x61, 0x72]) == 0x85944171f73967e8 / 2
  {
    Fnv64First(14695981039346656037, 0x61, [], 0xaf63dc4c8601ec8c);
    Fnv64First(14695981039346656037, 0x66, [0x6f, 0x6f, 0x62, 0x61, 0x72], 0xaf63db4c8601ead9);
    Fnv64First(0xaf63db4c8601ead9, 0x6f, [0x6f, 0x62, 0x61, 0x72], 0x8985907b541d342);
    Fnv64First(0x8985907b541d342, 0x6f, [0x62, 0x61, 0x72], 0xdcb27518fed9d577);
    Fnv64First(0xdcb27518fed9d577, 0x62, [0x61, 0x72], 0xdd120e790c2512af);
    Fnv64First(0xdd120e790c2512af, 0x61, [0x72], 0xcac165afa2fef40a);
    Fnv64First(0xcac165afa2fef40a, 0x72, [], 0x85944171f73967e8);
  }

  lemma Fnv64First(h: bv64, b: bv8, rest: Bytes, next: bv64)
    requires Fnv64Step(h, b) == next
    ensures Fnv64(h, [b] + rest) == Fnv64(next, rest)
  {
    hide Fnv64Step;
    assert ([b] + rest)[1..] == rest;
  }

  function ShouldSample(id: Bytes, threshold: nat): bool {
    id == [] || HashValue(id) < threshold
  }

  function Clamp(rate: real): (r: real)
    ensures 0.0 <= r <= 1.0
    ensures 0.0 <= rate <= 1.0 ==> r == rate
    ensures (rate < 0.0 ==> r == 0.0) && (rate > 1.0 ==> r == 1.0)
  {
    if rate < 0.0 then 0.0 else if rate > 1.0 then 1.0 else rate
  }

  const TWO_63: int := 0x8000_0000_0000_0000

  function Threshold(rate: real): nat
    requires 0.0 <= rate
  {
    (rate * (TWO_63 as real)).Floor
  }

  /** A rate keeps the spans without a trace id, and those whose hash, out of 2^63, is a whole step
      below the rate. */
  lemma KeptExactly(id: Bytes, rate: real)
    requires 0.0 <= rate
    ensures ShouldSample(id, Threshold(rate)) <==> id == [] || (HashValue(id) + 1) as real <= rate * 9223372036854775808.0
  {
    hide HashValue;
    FloorAbove(HashValue(id), rate * (TWO_63 as real));
  }

  lemma FloorAbove(n: nat, x: real)
    ensures n < x.Floor <==> (n + 1) as real <= x
  {
  }

  // ----- the filter -----

  function KeepSpans(spans: seq<Span>, threshold: nat): seq<Span> {
    if spans == [] then []
    else
      var last := spans[|spans| - 1];
      KeepSpans(spans[..|spans| - 1], threshold) + if ShouldSample(last.traceId, threshold) then [last] else []
  }

  /** Scopes keep their sampled spans; scopes left without spans are dropped. */
  function KeepScopes(scopes: seq<ScopeTree>, threshold: nat): seq<ScopeTree> {
    if scopes == [] then []
    else
      var last := scopes[|scopes| - 1];
      var spans := KeepSpans(last.spans, threshold);
      KeepScopes(scopes[..|scopes| - 1], threshold) + if spans != [] then [ScopeTree(last.scope, spans)] else []
  }

  function KeepResources(resources: seq<ResourceTree>, threshold: nat): seq<ResourceTree> {
    if resources == [] then []
    else
      var last := resources[|resources| - 1];
      var scopes := KeepScopes(last.scopes, threshold);
      KeepResources(resources[..|resources| - 1], threshold) + if scopes != [] then [ResourceTree(last.resource, scopes)] else []
  }

  function CountInScopes(scopes: seq<ScopeTree>): nat {
    if scopes == [] then 0 else CountInScopes(scopes[..|scopes| - 1]) + |scopes[|scopes| - 1].spans|
  }

  function CountSpans(resources: seq<ResourceTree>): nat {
    if resources == [] then 0
    else CountSpans(resources[..|resources| - 1]) + CountInScopes(resources[|resources| - 1].scopes)
  }

  /** One pass at a clamped rate. A full rate passes the payload on as it is, a zero rate drops it. */
  function Sampled(p: Option<Payload>, rate: real): Option<Payload>
    requires 0.0 <= rate <= 1.0
  {
    if p.None? then None
    else if rate >= 1.0 then p
    else if rate <= 0.0 then None
    else
      var kept := KeepResources(p.value.resources, Threshold(rate));
      if kept == [] then None else Some(Payload(kept, CountSpans(kept)))
  }

  /** The filter keeps the sampled spans, all of them, at increasing positions. */
  lemma {:induction false} KeptPositions(spans: seq<Span>, threshold: nat) returns (at: seq<nat>)
    ensures |at| == |KeepSpans(spans, threshold)| && forall i, j | 0 <= i < j < |at| :: at[i] < at[j]
    ensures forall i | 0 <= i < |at| :: at[i] < |spans| && KeepSpans(spans, threshold)[i] == spans[at[i]]
    ensures forall k: nat :: k in at <==> k < |spans| && ShouldSample(spans[k].traceId, threshold)
  {
    hide ShouldSample;
    if spans == [] {
      at := [];
    } else {
      var n := |spans| - 1;
      var before := KeptPositions(spans[..n], threshold);
      at := before + if ShouldSample(spans[n].traceId, threshold) then [n] else [];
      assert KeepSpans(spans, threshold)
             == KeepSpans(spans[..n], threshold) + if ShouldSample(spans[n].traceId, threshold) then [spans[n]] else [];
      assert forall i | 0 <= i < |before| :: before[i] in before;
      hide KeepSpans;
      forall k: nat ensures k in at <==> k < |spans| && ShouldSample(spans[k].traceId, threshold) {
        assert k in at <==> k in before || (k == n && ShouldSample(spans[n].traceId, threshold));
      }
    }
  }

  // ----- all spans of a tree, in order -----

  function SpansOfScopes(scopes: seq<ScopeTree>): seq<Span> {
    if scopes == [] then [] else SpansOfScopes(scopes[..|scopes| - 1]) + scopes[|scopes| - 1].spans
  }

  function SpansOf(resources: seq<ResourceTree>): seq<Span> {
    if resources == [] then []
    else SpansOf(resources[..|resources| - 1]) + SpansOfScopes(resources[|resources| - 1].scopes)
  }

  lemma {:induction false} KeepSpansAppend(u: seq<Span>, v: seq<Span>, threshold: nat)
    ensures KeepSpans(u + v, threshold) == KeepSpans(u, threshold) + KeepSpans(v, threshold)
  {
    hide ShouldSample;
    if v == [] {
      assert u + v == u;
    } else {
      var n := |v| - 1;
      assert (u + v)[..|u + v| - 1] == u + v[..n];
      KeepSpansAppend(u, v[..n], threshold);
    }
  }

  lemma {:induction false} KeptSpansOfScopes(scopes: seq<ScopeTree>, threshold: nat)
    ensures SpansOfScopes(KeepScopes(scopes, threshold)) == KeepSpans(SpansOfScopes(scopes), threshold)
  {
    hide KeepSpans;
    if scopes == [] {
      EmptyKeepsNothing(threshold);
    } else {
      var n := |scopes| - 1;
      var rest, spans := KeepScopes(scopes[..n], threshold), KeepSpans(scopes[n].spans, threshold);
      KeptSpansOfScopes(scopes[..n], threshold);
      KeepSpansAppend(SpansOfScopes(scopes[..n]), scopes[n].spans, threshold);
      if spans != [] {
        assert KeepScopes(scopes, threshold)[..|rest|] == rest;
      } else {
        assert KeepScopes(scopes, threshold) == rest + [] == rest;
      }
    }
  }

  lemma EmptyKeepsNothing(threshold: nat)
    ensures KeepSpans([], threshold) == []
  {
  }

  /** Filtering the tree is filtering its spans, in order. */
  lemma {:induction false} KeptSpansOf(resources: seq<ResourceTree>, threshold: nat)
    ensures SpansOf(KeepResources(resources, threshold)) == KeepSpans(SpansOf(resources), threshold)
  {
    hide KeepSpans, KeepScopes, SpansOfScopes;
    if resources == [] {
      EmptyKeepsNothing(threshold);
    } else {
      var n := |resources| - 1;
      var rest, scopes := KeepResources(resources[..n], threshold), KeepScopes(resources[n].scopes, threshold);
      KeptSpansOf(resources[..n], threshold);
      KeptSpansOfScopes(resources[n].scopes, threshold);
      KeepSpansAppend(SpansOf(resources[..n]), SpansOfScopes(resources[n].scopes), threshold);
      if scopes != [] {
        assert KeepResources(resources, threshold)[..|rest|] == rest;
      } else {
        assert KeepResources(resources, threshold) == rest + [] == rest;
        NoScopesNoSpans();
      }
    }
  }

  lemma NoScopesNoSpans()
    ensures SpansOfScopes([]) == []
  {
  }

  lemma {:induction false} CountIsLengthOfScopes(scopes: seq<ScopeTree>)
    ensures CountInScopes(scopes) == |SpansOfScopes(scopes)|
  {
    if scopes != [] {
      CountIsLengthOfScopes(scopes[..|scopes| - 1]);
    }
  }

  lemma {:induction false} CountIsLength(resources: seq<ResourceTree>)
    ensures CountSpans(resources) == |SpansOf(resources)|
  {
    if resources != [] {
      CountIsLength(resources[..|resources| - 1]);
      CountIsLengthOfScopes(resources[|resources| - 1].scopes);
    }
  }

  /** No empty scope and no empty resource survives. */
  ghost predicate Dense(resources: seq<ResourceTree>) {
    forall r | r in resources :: r.scopes != [] && forall s | s in r.scopes :: s.spans != []
  }

  lemma {:induction false} KeptScopesAreDense(scopes: seq<ScopeTree>, threshold: nat)
    ensures forall s | s in KeepScopes(scopes, threshold) :: s.spans != []
  {
    hide KeepSpans;
    if scopes != [] {
      KeptScopesAreDense(scopes[..|scopes| - 1], threshold);
    }
  }

  lemma {:induction false} KeptIsDense(resources: seq<ResourceTree>, threshold: nat)
    ensures Dense(KeepResources(resources, threshold))
  {
    hide KeepScopes;
    if resources != [] {
      KeptIsDense(resources[..|resources| - 1], threshold);
      KeptScopesAreDense(resources[|resources| - 1].scopes, threshold);
    }
  }

  /** Main result: a sampled payload holds exactly the sampled spans in their order, counts them
      correctly, and has no empty branches. */
  lemma SampledHoldsExactlyTheSampledSpans(p: Payload, rate: real)
    requires 0.0 < rate < 1.0
    ensures var out := Sampled(Some(p), rate);
            && (out.None? <==> KeepSpans(SpansOf(p.resources), Threshold(rate)) == [])
            && (out.Some? ==>
                  && SpansOf(out.value.resources) == KeepSpans(SpansOf(p.resources), Threshold(rate))
                  && out.value.spanCount == |SpansOf(out.value.resources)|
                  && Dense(out.value.resources))
  {
    var kept := KeepResources(p.resources, Threshold(rate));
    KeptSpansOf(p.resources, Threshold(rate));
    CountIsLength(kept);
    KeptIsDense(p.resources, Threshold(rate));
    DenseHasSpans(kept);
    hide KeepResources, KeepSpans, Dense;
  }

  lemma DenseHasSpans(resources: seq<ResourceTree>)
    requires Dense(resources)
    ensures SpansOf(resources) == [] <==> resources == []
  {
    if resources != [] {
      var r := resources[|resources| - 1];
      assert r in resources;
      assert r.scopes[|r.scopes| - 1] in r.scopes;
      assert SpansOfScopes(r.scopes) != [];
    }
  }

  // ----- two rates -----

  /** The order of the rates is the order of the thresholds. */
  lemma ThresholdIsMonotone(r: real, s: real)
    requires 0.0 <= r <= s
    ensures Threshold(r) <= Threshold(s)
  {
    assert r * (TWO_63 as real) <= s * (TWO_63 as real);
  }

  function Min(a: nat, b: nat): nat { if a <= b then a else b }

  lemma KeepOne(span: Span, threshold: nat)
    ensures KeepSpans([span], threshold) == if ShouldSample(span.traceId, threshold) then [span] else []
  {
    assert [span][..0] == [];
  }

  lemma {:induction false} KeepSpansTwice(spans: seq<Span>, a: nat, b: nat)
    ensures KeepSpans(KeepSpans(spans, a), b) == KeepSpans(spans, Min(a, b))
  {
    hide HashValue;
    if spans != [] {
      var n := |spans| - 1;
      var last := spans[n];
      KeepSpansTwice(spans[..n], a, b);
      var piece := if ShouldSample(last.traceId, a) then [last] else [];
      KeepSpansAppend(KeepSpans(spans[..n], a), piece, b);
      KeepOne(last, b);
      EmptyKeepsNothing(b);
      assert ShouldSample(last.traceId, Min(a, b)) <==> ShouldSample(last.traceId, a) && ShouldSample(last.traceId, b);
    }
  }

  lemma {:induction false} KeepScopesAppend(u: seq<ScopeTree>, v: seq<ScopeTree>, threshold: nat)
    requires |v| <= 1
    ensures KeepScopes(u + v, threshold) == KeepScopes(u, threshold) + KeepScopes(v, threshold)
  {
    hide KeepSpans;
    if v == [] {
      assert u + v == u;
    } else {
      assert (u + v)[..|u + v| - 1] == u;
      assert v[..0] == [];
    }
  }

  lemma {:induction false} KeepScopesTwice(scopes: seq<ScopeTree>, a: nat, b: nat)
    ensures KeepScopes(KeepScopes(scopes, a), b) == KeepScopes(scopes, Min(a, b))
  {
    hide KeepSpans, Min;
    if scopes != [] {
      var n := |scopes| - 1;
      var spans := KeepSpans(scopes[n].spans, a);
      KeepScopesTwice(scopes[..n], a, b);
      KeepSpansTwice(scopes[n].spans, a, b);
      EmptyKeepsNothing(b);
      var piece := if spans != [] then [ScopeTree(scopes[n].scope, spans)] else [];
      KeepScopesAppend(KeepScopes(scopes[..n], a), piece, b);
      if spans != [] {
        assert piece[..0] == [];
      }
    }
  }

  lemma {:induction false} KeepResourcesAppend(u: seq<ResourceTree>, v: seq<ResourceTree>, threshold: nat)
    requires |v| <= 1
    ensures KeepResources(u + v, threshold) == KeepResources(u, threshold) + KeepResources(v, threshold)
  {
    hide KeepScopes;
    if v == [] {
      assert u + v == u;
    } else {
      assert (u + v)[..|u + v| - 1] == u;
      assert v[..0] == [];
    }
  }

  lemma NoScopesKept(threshold: nat)
    ensures KeepScopes([], threshold) == []
  {
  }

  lemma {:induction false} KeepResourcesTwice(resources: seq<ResourceTree>, a: nat, b: nat)
    ensures KeepResources(KeepResources(resources, a), b) == KeepResources(resources, Min(a, b))
  {
    hide KeepScopes, Min;
    if resources != [] {
      var n := |resources| - 1;
      var scopes := KeepScopes(resources[n].scopes, a);
      KeepResourcesTwice(resources[..n], a, b);
      KeepScopesTwice(resources[n].scopes, a, b);
      NoScopesKept(b);
      var piece := if scopes != [] then [ResourceTree(resources[n].resource, scopes)] else [];
      KeepResourcesAppend(KeepResources(resources[..n], a), piece, b);
      if scopes != [] {
        assert piece[..0] == [];
      }
    }
  }

  /** Main result: two passes are one pass at the smaller rate, tree and count alike. */
  lemma TwoPassesAreTheSmallerRate(p: Option<Payload>, r: real, s: real)
    requires 0.0 <= r <= 1.0 && 0.0 <= s <= 1.0
    ensures Sampled(Sampled(p, r), s) == Sampled(p, if r <= s then r else s)
  {
    hide Threshold;
    if p.Some? && 0.0 < r < 1.0 && 0.0 < s < 1.0 {
      if r <= s {
        ThresholdIsMonotone(r, s);
      } else {
        ThresholdIsMonotone(s, r);
      }
      KeepResourcesTwice(p.value.resources, Threshold(r), Threshold(s));
      NothingKept(Threshold(s));
    }
  }

  lemma NothingKept(threshold: nat)
    ensures KeepResources([], threshold) == []
  {
  }

  /** The spans a pass lets through, in order. */
  function SpansAfter(p: Payload, rate: real): seq<Span>
    requires 0.0 <= rate <= 1.0
  {
    var out := Sampled(Some(p), rate);
    if out.None? then [] else SpansOf(out.value.resources)
  }

  lemma {:induction false} FewerAtLowerThreshold(spans: seq<Span>, a: nat, b: nat)
    requires a <= b
    ensures multiset(KeepSpans(spans, a)) <= multiset(KeepSpans(spans, b)) <= multiset(spans)
  {
    hide HashValue;
    if spans != [] {
      var init, last := spans[..|spans| - 1], spans[|spans| - 1];
      FewerAtLowerThreshold(init, a, b);
      assert spans == init + [last];
      assert multiset(spans) == multiset(init) + multiset{last};
      KeepLast(spans, a);
      KeepLast(spans, b);
      assert ShouldSample(last.traceId, a) ==> ShouldSample(last.traceId, b);
      hide KeepSpans, ShouldSample;
    }
  }

  lemma KeepLast(spans: seq<Span>, threshold: nat)
    requires spans != []
    ensures var last := spans[|spans| - 1];
            multiset(KeepSpans(spans, threshold))
            == multiset(KeepSpans(spans[..|spans| - 1], threshold)) + if ShouldSample(last.traceId, threshold) then multiset{last} else multiset{}
  {
    hide ShouldSample;
  }

  /** Main result: raising the rate only adds spans. */
  lemma HigherRateKeepsMore(p: Payload, r: real, s: real)
    requires 0.0 <= r <= s <= 1.0
    ensures multiset(SpansAfter(p, r)) <= multiset(SpansAfter(p, s))
  {
    hide Threshold, KeepSpans, SpansOf, KeepResources, Dense;
    if 0.0 < r && r < 1.0 {
      ThresholdIsMonotone(r, s);
      SampledHoldsExactlyTheSampledSpans(p, r);
      FewerAtLowerThreshold(SpansOf(p.resources), Threshold(r), Threshold(s));
      if s < 1.0 {
        SampledHoldsExactlyTheSampledSpans(p, s);
      }
    }
  }
}
