/**
  The sampler as it runs: slices compacted in place over their own backing arrays, at three
  levels. The nodes of a payload are not shared, which the footprints say.
 */
module Sampler {
  import opened Values
  import opened Sampling

  lemma KeepSpansStep(spans: seq<Span>, i: nat, threshold: nat)
    requires i < |spans|
    ensures KeepSpans(spans[..i + 1], threshold)
            == KeepSpans(spans[..i], threshold) + if ShouldSample(spans[i].traceId, threshold) then [spans[i]] else []
  {
    hide ShouldSample;
    assert spans[..i + 1][..i] == spans[..i];
  }

  /** A slice of spans: the first `count` cells of its backing array. */
  class ScopeSpans {
    const scope: int
    const spans: array<Span>
    var count: nat

    constructor (scope: int, spans: array<Span>)
      ensures this.scope == scope && this.spans == spans && count == spans.Length
    {
      this.scope, this.spans, this.count := scope, spans, spans.Length;
    }

    ghost function Repr(): set<object> {
      {this, spans}
    }

    ghost predicate Valid()
      reads Repr()
    {
      count <= spans.Length
    }

    ghost function View(): ScopeTree
      requires Valid()
      reads Repr()
    {
      ScopeTree(scope, spans[..count])
    }

    /** The innermost loop: append to spans[:0] while ranging over spans. */
    method Filter(threshold: nat) returns (kept: bool)
      requires Valid()
      modifies Repr()
      ensures Valid()
      ensures kept <==> KeepSpans(old(View().spans), threshold) != []
      ensures kept ==> View() == ScopeTree(old(View().scope), KeepSpans(old(View().spans), threshold))
      ensures !kept ==> View() == old(View())
    {
      hide ShouldSample, KeepSpans;
      ghost var before := spans[..count];
      ghost var after: seq<Span> := [];
      EmptyKeepsNothing(threshold);
      var w := 0;
      for i := 0 to count
        invariant 0 <= w <= i && count == old(count)
        invariant after == KeepSpans(before[..i], threshold) && |after| == w
        invariant forall k | 0 <= k < w :: spans[k] == after[k]
        invariant forall k | i <= k < count :: spans[k] == before[k]
        invariant w == 0 ==> spans[..] == old(spans[..])
      {
        KeepSpansStep(before, i, threshold);
        if ShouldSample(spans[i].traceId, threshold) {
          after := after + [spans[i]];
          spans[w] := spans[i];
          w := w + 1;
        }
      }
      assert before[..count] == before;
      assert spans[..w] == after;
      kept := w > 0;
      if kept {
        count := w;
      }
    }
  }

  /** Every scope of the list is well formed, and `owned` holds all its parts. */
  ghost predicate ScopesIn(list: seq<ScopeSpans>, owned: set<object>)
    reads owned
  {
    forall k | 0 <= k < |list| :: list[k].Repr() <= owned && list[k].Valid()
  }

  ghost predicate Unshared(list: seq<ScopeSpans>) {
    forall i, j | 0 <= i < j < |list| :: list[i].Repr() !! list[j].Repr()
  }

  lemma UnsharedNone()
    ensures Unshared([])
  {
  }

  lemma UnsharedSnoc(list: seq<ScopeSpans>, s: ScopeSpans)
    requires Unshared(list) && forall k | 0 <= k < |list| :: list[k].Repr() !! s.Repr()
    ensures Unshared(list + [s])
  {
    hide ScopeSpans.Repr;
  }

  lemma OthersDiffer(list: seq<ScopeSpans>, i: nat)
    requires Unshared(list) && i < |list|
    ensures forall k | 0 <= k < |list| && k != i :: list[k].Repr() !! list[i].Repr()
  {
    hide ScopeSpans.Repr;
  }

  ghost function ScopeViews(list: seq<ScopeSpans>, owned: set<object>): (r: seq<ScopeTree>)
    requires ScopesIn(list, owned)
    reads owned
    ensures |r| == |list| && forall k | 0 <= k < |r| :: r[k] == list[k].View()
  {
    if list == [] then []
    else ScopeViews(list[..|list| - 1], owned) + [list[|list| - 1].View()]
  }

  lemma KeepScopesStart(threshold: nat)
    ensures KeepScopes([], threshold) == []
  {
  }

  lemma KeepScopesStep(scopes: seq<ScopeTree>, i: nat, threshold: nat)
    requires i < |scopes|
    ensures KeepScopes(scopes[..i + 1], threshold) ==
            var spans := KeepSpans(scopes[i].spans, threshold);
            KeepScopes(scopes[..i], threshold) + if spans != [] then [ScopeTree(scopes[i].scope, spans)] else []
  {
    assert scopes[..i + 1][..i] == scopes[..i];
  }

  /** The first w cells hold well-formed scopes that show `after`. */
  ghost predicate ScopesFront(scopes: array<ScopeSpans>, w: nat, after: seq<ScopeTree>, owned: set<object>)
    reads scopes, owned
  {
    && w == |after| <= scopes.Length
    && forall k | 0 <= k < w :: scopes[k].Repr() <= owned && scopes[k].Valid() && scopes[k].View() == after[k]
  }

  /** The loop body for one scope: filter it, and append it if something is left. */
  method CompactScope(scopes: array<ScopeSpans>, w: nat, s: ScopeSpans, threshold: nat, ghost after: seq<ScopeTree>, ghost owned: set<object>)
    returns (kept: bool)
    requires w < scopes.Length && scopes !in owned && s.Repr() <= owned && s.Valid()
    requires ScopesFront(scopes, w, after, owned) && forall k | 0 <= k < w :: scopes[k].Repr() !! s.Repr()
    modifies scopes, s.Repr()
    ensures kept <==> KeepSpans(old(s.View().spans), threshold) != []
    ensures kept ==> ScopesFront(scopes, w + 1, after + [ScopeTree(old(s.View().scope), KeepSpans(old(s.View().spans), threshold))], owned)
    ensures !kept ==> ScopesFront(scopes, w, after, owned)
    ensures forall k | 0 <= k < scopes.Length :: scopes[k] == if kept && k == w then s else old(scopes[k])
  {
    hide KeepSpans, ScopeSpans.Valid, ScopeSpans.View, ScopeSpans.Repr;
    kept := s.Filter(threshold);
    if kept {
      scopes[w] := s;
    }
  }

  /** The middle loop: append to scopes[:0] while ranging over scopes. */
  method CompactScopes(scopes: array<ScopeSpans>, count: nat, threshold: nat, ghost owned: set<object>) returns (w: nat)
    requires count <= scopes.Length && scopes !in owned
    requires ScopesIn(scopes[..count], owned) && Unshared(scopes[..count])
    modifies scopes, owned
    ensures w <= count && ScopesIn(scopes[..w], owned) && Unshared(scopes[..w])
    ensures ScopeViews(scopes[..w], owned) == KeepScopes(old(ScopeViews(scopes[..count], owned)), threshold)
  {
    hide ScopeViews, KeepScopes, ScopeSpans.Valid, ScopeSpans.View, ScopeSpans.Repr, Unshared, ScopesFront, KeepSpans;
    UnsharedNone();
    KeepScopesStart(threshold);
    NoScopesFront(scopes, owned);
    ghost var list := scopes[..count];
    ghost var before := ScopeViews(list, owned);
    ghost var after: seq<ScopeTree> := [];
    w := 0;
    for i := 0 to count
      invariant w <= i
      invariant forall k | i <= k < count :: scopes[k] == list[k]
      invariant forall k, j | 0 <= k < w && i <= j < count :: scopes[k].Repr() !! list[j].Repr()
      invariant Unshared(scopes[..w])
      invariant after == KeepScopes(before[..i], threshold)
      invariant ScopesFront(scopes, w, after, owned)
      invariant forall k | i <= k < count :: list[k].Valid() && list[k].View() == before[k]
    {
      var s := scopes[i];
      OthersDiffer(list, i);
      ghost var done := scopes[..w];
      var kept := CompactScope(scopes, w, s, threshold, after, owned);
      KeepScopesStep(before, i, threshold);
      if kept {
        after := after + [ScopeTree(before[i].scope, KeepSpans(before[i].spans, threshold))];
        UnsharedSnoc(done, s);
        w := w + 1;
        assert scopes[..w] == done + [s];
      } else {
        assert scopes[..w] == done;
      }
    }
    assert before[..count] == before;
    ScopesFrontShows(scopes, w, after, owned);
  }

  lemma NoScopesFront(scopes: array<ScopeSpans>, owned: set<object>)
    ensures ScopesFront(scopes, 0, [], owned)
  {
  }

  lemma ScopesFrontShows(scopes: array<ScopeSpans>, w: nat, after: seq<ScopeTree>, owned: set<object>)
    requires ScopesFront(scopes, w, after, owned)
    ensures ScopesIn(scopes[..w], owned) && ScopeViews(scopes[..w], owned) == after
  {
    hide ScopeSpans.Valid, ScopeSpans.View, ScopeSpans.Repr;
  }

  /** A slice of scopes. `owned` holds the parts of its scopes. */
  class ResourceSpans {
    const resource: int
    const scopes: array<ScopeSpans>
    ghost const owned: set<object>
    var count: nat

    constructor (resource: int, scopes: array<ScopeSpans>, ghost owned: set<object>)
      requires scopes !in owned && ScopesIn(scopes[..], owned) && Unshared(scopes[..])
      ensures Valid() && View() == ResourceTree(resource, ScopeViews(scopes[..], owned))
    {
      this.resource, this.scopes, this.owned, this.count := resource, scopes, owned, scopes.Length;
      new;
      assert scopes[..count] == scopes[..];
    }

    ghost function Repr(): set<object> {
      {this, scopes} + owned
    }

    ghost predicate Valid()
      reads Repr()
    {
      && count <= scopes.Length && this !in owned && scopes !in owned
      && ScopesIn(scopes[..count], owned) && Unshared(scopes[..count])
    }

    ghost function View(): ResourceTree
      requires Valid()
      reads Repr()
    {
      ResourceTree(resource, ScopeViews(scopes[..count], owned))
    }

    /** A resource left without scopes is dropped by the caller. */
    method Filter(threshold: nat) returns (kept: bool)
      requires Valid()
      modifies Repr()
      ensures kept <==> KeepScopes(old(View().scopes), threshold) != []
      ensures kept ==> Valid() && View() == ResourceTree(old(View().resource), KeepScopes(old(View().scopes), threshold))
    {
      hide KeepScopes, ScopeViews;
      var w := CompactScopes(scopes, count, threshold, owned);
      kept := w > 0;
      if kept {
        count := w;
      }
    }
  }

  ghost predicate ResourcesIn(list: seq<ResourceSpans>, owned: set<object>)
    reads owned
  {
    forall k | 0 <= k < |list| :: list[k].Repr() <= owned && list[k].Valid()
  }

  ghost predicate Disjoint(list: seq<ResourceSpans>) {
    forall i, j | 0 <= i < j < |list| :: list[i].Repr() !! list[j].Repr()
  }

  lemma DisjointNone()
    ensures Disjoint([])
  {
  }

  lemma DisjointSnoc(list: seq<ResourceSpans>, r: ResourceSpans)
    requires Disjoint(list) && forall k | 0 <= k < |list| :: list[k].Repr() !! r.Repr()
    ensures Disjoint(list + [r])
  {
    hide ResourceSpans.Repr;
  }

  lemma OthersDisjoint(list: seq<ResourceSpans>, i: nat)
    requires Disjoint(list) && i < |list|
    ensures forall k | 0 <= k < |list| && k != i :: list[k].Repr() !! list[i].Repr()
  {
    hide ResourceSpans.Repr;
  }

  ghost function ResourceViews(list: seq<ResourceSpans>, owned: set<object>): (r: seq<ResourceTree>)
    requires ResourcesIn(list, owned)
    reads owned
    ensures |r| == |list| && forall k | 0 <= k < |r| :: r[k] == list[k].View()
  {
    if list == [] then []
    else ResourceViews(list[..|list| - 1], owned) + [list[|list| - 1].View()]
  }

  lemma KeepResourcesStart(threshold: nat)
    ensures KeepResources([], threshold) == []
  {
  }

  lemma KeepResourcesStep(resources: seq<ResourceTree>, i: nat, threshold: nat)
    requires i < |resources|
    ensures KeepResources(resources[..i + 1], threshold) ==
            var scopes := KeepScopes(resources[i].scopes, threshold);
            KeepResources(resources[..i], threshold) + if scopes != [] then [ResourceTree(resources[i].resource, scopes)] else []
  {
    assert resources[..i + 1][..i] == resources[..i];
  }

  /** The first w cells hold well-formed resources that show `after`. */
  ghost predicate ResourcesFront(resources: array<ResourceSpans>, w: nat, after: seq<ResourceTree>, owned: set<object>)
    reads resources, owned
  {
    && w == |after| <= resources.Length
    && forall k | 0 <= k < w :: resources[k].Repr() <= owned && resources[k].Valid() && resources[k].View() == after[k]
  }

  /** The loop body for one resource: filter it, and append it if something is left. */
  method CompactResource(resources: array<ResourceSpans>, w: nat, r: ResourceSpans, threshold: nat, ghost after: seq<ResourceTree>, ghost owned: set<object>)
    returns (kept: bool)
    requires w < resources.Length && resources !in owned && r.Repr() <= owned && r.Valid()
    requires ResourcesFront(resources, w, after, owned) && forall k | 0 <= k < w :: resources[k].Repr() !! r.Repr()
    modifies resources, r.Repr()
    ensures kept <==> KeepScopes(old(r.View().scopes), threshold) != []
    ensures kept ==> ResourcesFront(resources, w + 1, after + [ResourceTree(old(r.View().resource), KeepScopes(old(r.View().scopes), threshold))], owned)
    ensures !kept ==> ResourcesFront(resources, w, after, owned)
    ensures forall k | 0 <= k < resources.Length :: resources[k] == if kept && k == w then r else old(resources[k])
  {
    hide KeepScopes, ResourceSpans.Valid, ResourceSpans.View, ResourceSpans.Repr;
    kept := r.Filter(threshold);
    if kept {
      resources[w] := r;
    }
  }

  /** The outer loop: append to resources[:0] while ranging over resources. */
  method CompactResources(resources: array<ResourceSpans>, count: nat, threshold: nat, ghost owned: set<object>)
    returns (w: nat)
    requires count <= resources.Length && resources !in owned
    requires ResourcesIn(resources[..count], owned) && Disjoint(resources[..count])
    modifies resources, owned
    ensures w <= count && ResourcesIn(resources[..w], owned) && Disjoint(resources[..w])
    ensures ResourceViews(resources[..w], owned) == KeepResources(old(ResourceViews(resources[..count], owned)), threshold)
  {
    hide ResourceViews, KeepResources, ResourceSpans.Valid, ResourceSpans.View, ResourceSpans.Repr, Disjoint, ResourcesFront, KeepScopes;
    DisjointNone();
    KeepResourcesStart(threshold);
    NoResourcesFront(resources, owned);
    ghost var list := resources[..count];
    ghost var before := ResourceViews(list, owned);
    ghost var after: seq<ResourceTree> := [];
    w := 0;
    for i := 0 to count
      invariant w <= i
      invariant forall k | i <= k < count :: resources[k] == list[k]
      invariant forall k, j | 0 <= k < w && i <= j < count :: resources[k].Repr() !! list[j].Repr()
      invariant Disjoint(resources[..w])
      invariant after == KeepResources(before[..i], threshold)
      invariant ResourcesFront(resources, w, after, owned)
      invariant forall k | i <= k < count :: list[k].Valid() && list[k].View() == before[k]
    {
      var r := resources[i];
      OthersDisjoint(list, i);
      ghost var done := resources[..w];
      var kept := CompactResource(resources, w, r, threshold, after, owned);
      KeepResourcesStep(before, i, threshold);
      if kept {
        after := after + [ResourceTree(before[i].resource, KeepScopes(before[i].scopes, threshold))];
        DisjointSnoc(done, r);
        w := w + 1;
        assert resources[..w] == done + [r];
      } else {
        assert resources[..w] == done;
      }
    }
    assert before[..count] == before;
    ResourcesFrontShows(resources, w, after, owned);
  }

  lemma NoResourcesFront(resources: array<ResourceSpans>, owned: set<object>)
    ensures ResourcesFront(resources, 0, [], owned)
  {
  }

  lemma ResourcesFrontShows(resources: array<ResourceSpans>, w: nat, after: seq<ResourceTree>, owned: set<object>)
    requires ResourcesFront(resources, w, after, owned)
    ensures ResourcesIn(resources[..w], owned) && ResourceViews(resources[..w], owned) == after
  {
    hide ResourceSpans.Valid, ResourceSpans.View, ResourceSpans.Repr;
  }

  /** A payload; one without data carries nothing. */
  class TracePayload {
    const hasData: bool
    const resources: array<ResourceSpans>
    ghost const owned: set<object>
    var count: nat
    var spanCount: int

    constructor (hasData: bool, resources: array<ResourceSpans>, spanCount: int, ghost owned: set<object>)
      requires resources !in owned && ResourcesIn(resources[..], owned) && Disjoint(resources[..])
      ensures Valid() && View() == Payload(ResourceViews(resources[..], owned), spanCount)
    {
      this.hasData, this.resources, this.owned, this.spanCount := hasData, resources, owned, spanCount;
      this.count := resources.Length;
      new;
      assert resources[..count] == resources[..];
    }

    ghost function Repr(): set<object> {
      {this, resources} + owned
    }

    ghost predicate Valid()
      reads Repr()
    {
      && count <= resources.Length && this !in owned && resources !in owned
      && ResourcesIn(resources[..count], owned) && Disjoint(resources[..count])
    }

    ghost function View(): Payload
      requires Valid()
      reads Repr()
    {
      Payload(ResourceViews(resources[..count], owned), spanCount)
    }

    /** The nested recount. */
    method Recount() returns (n: nat)
      requires Valid()
      ensures n == CountSpans(View().resources)
    {
      hide ScopeViews, ResourceViews;
      ghost var trees := View().resources;
      n := 0;
      for i := 0 to count
        invariant n == CountSpans(trees[..i])
      {
        var r := resources[i];
        assert r == resources[..count][i];
        ghost var scopes := trees[i].scopes;
        var m := 0;
        for j := 0 to r.count
          invariant n == CountSpans(trees[..i]) + CountInScopes(scopes[..j])
        {
          assert scopes[j] == r.scopes[..r.count][j].View();
          n := n + r.scopes[j].count;
          assert scopes[..j + 1][..j] == scopes[..j];
        }
        assert scopes[..r.count] == scopes;
        assert trees[..i + 1][..i] == trees[..i];
      }
      assert trees[..count] == trees;
    }
  }

  ghost function Seen(payload: TracePayload?): Option<Payload>
    requires payload != null ==> payload.Valid()
    reads if payload == null then {} else payload.Repr()
  {
    if payload == null || !payload.hasData then None else Some(payload.View())
  }

  /** The processor holds the current rate, clamped whenever it is set. */
  class Processor {
    var rate: real

    constructor (rate: real)
      ensures this.rate == Clamp(rate)
      ensures this.rate == if rate < 0.0 then 0.0 else if rate > 1.0 then 1.0 else rate
    {
      this.rate := if rate < 0.0 then 0.0 else if rate > 1.0 then 1.0 else rate;
    }

    method SetRate(rate: real)
      modifies this
      ensures this.rate == Clamp(rate)
      ensures this.rate == if rate < 0.0 then 0.0 else if rate > 1.0 then 1.0 else rate
    {
      var r := rate;
      if r < 0.0 { r := 0.0; }
      if r > 1.0 { r := 1.0; }
      this.rate := r;
    }

    /** What comes out in place is what the pure filter gives. */
    method ProcessTraces(payload: TracePayload?) returns (out: TracePayload?)
      requires 0.0 <= rate <= 1.0
      requires payload != null ==> payload.Valid() && this !in payload.Repr()
      modifies if payload == null then {} else payload.Repr()
      ensures out != null ==> out == payload && out.Valid()
      ensures Seen(out) == Sampled(old(Seen(payload)), rate)
      ensures rate >= 1.0 ==> Seen(out) == old(Seen(payload))
      ensures rate <= 0.0 ==> out == null
    {
      hide KeepResources, ResourceViews, CountSpans, Threshold;
      if payload == null || !payload.hasData {
        return null;
      }
      if rate >= 1.0 {
        return payload;
      }
      if rate <= 0.0 {
        return null;
      }
      var w := CompactResources(payload.resources, payload.count, Threshold(rate), payload.owned);
      if w == 0 {
        return null;
      }
      payload.count := w;
      payload.spanCount := payload.Recount();
      return payload;
    }
  }
}
