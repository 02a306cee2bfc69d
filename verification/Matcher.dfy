/** Node selection: filter the fitting nodes, then the tightest fit or the first fit. */
module Matcher {
  import opened Values
  import opened Jobs

  datatype Strategy = BestFit | FirstFit

  datatype NodeScore = NodeScore(node: Node, residual: int)

  ghost predicate SortedByResidual(s: seq<NodeScore>) {
    forall i, j | 0 <= i < j < |s| :: s[i].residual <= s[j].residual
  }

  /** sort.Slice by residual; the order among equals is not part of the contract. */
  function SortByResidual(s: seq<NodeScore>): (r: seq<NodeScore>)
    ensures SortedByResidual(r) && multiset(r) == multiset(s)
  {
    if s == [] then []
    else
      assert s == [s[0]] + s[1..];
      InsertByResidual(SortByResidual(s[1..]), s[0])
  }

  function InsertByResidual(s: seq<NodeScore>, x: NodeScore): (r: seq<NodeScore>)
    requires SortedByResidual(s)
    ensures SortedByResidual(r) && multiset(r) == multiset(s) + multiset{x}
    ensures r != [] && (r[0] == x || (s != [] && r[0] == s[0]))
  {
    if s == [] || x.residual <= s[0].residual then [x] + s
    else
      assert s == [s[0]] + s[1..];
      var rest := InsertByResidual(s[1..], x);
      [s[0]] + rest
  }

  lemma SameMembers<T>(a: seq<T>, b: seq<T>)
    requires multiset(a) == multiset(b)
    ensures forall x :: x in a <==> x in b
  {
    forall x ensures x in a <==> x in b {
      assert x in a <==> x in multiset(a);
      assert x in b <==> x in multiset(b);
    }
  }

  /** MatchNode. It fails exactly when nothing fits; best fit leaves the fewest GPUs free. */
  method MatchNode(nodes: seq<Node>, gpu: int, gpuMem: int, strategy: Strategy) returns (r: Option<Node>)
    ensures r.None? <==> forall node | node in nodes :: !Fits(node, gpu, gpuMem)
    ensures r.Some? ==> r.value in nodes && Fits(r.value, gpu, gpuMem)
    ensures r.Some? ==>
              && r.value.status == Online && r.value.availGpu >= gpu
              && (gpuMem > 0 ==>
                    |set i | 0 <= i < |r.value.gpus| && r.value.gpus[i].totalMem - r.value.gpus[i].usedMem >= gpuMem| >= gpu)
    ensures r.Some? && strategy == BestFit ==>
              forall node | node in nodes && Fits(node, gpu, gpuMem) :: r.value.availGpu <= node.availGpu
    ensures r.Some? && strategy == FirstFit ==>
              exists i :: 0 <= i < |nodes| && nodes[i] == r.value && forall j | 0 <= j < i :: !Fits(nodes[j], gpu, gpuMem)
  {
    var candidates: seq<NodeScore> := [];
    ghost var first := 0;
    for n := 0 to |nodes|
      invariant forall c | c in candidates ::
                  c.node in nodes[..n] && Fits(c.node, gpu, gpuMem) && c.residual == c.node.availGpu - gpu
      invariant forall node | node in nodes[..n] && Fits(node, gpu, gpuMem) ::
                  NodeScore(node, node.availGpu - gpu) in candidates
      invariant candidates == [] ==> first == n
      invariant candidates != [] ==> first < n && nodes[first] == candidates[0].node
      invariant forall j | 0 <= j < first :: !Fits(nodes[j], gpu, gpuMem)
    {
      var node := nodes[n];
      assert nodes[..n + 1] == nodes[..n] + [node];
      var ok := node.IsSchedulable() && node.CanFitGpu(gpu);
      if ok && gpuMem > 0 {
        ok := CanFitGpuMemory(node, gpu, gpuMem);
      }
      if ok {
        candidates := candidates + [NodeScore(node, node.availGpu - gpu)];
      } else if candidates == [] {
        first := first + 1;
      }
    }
    assert nodes[..|nodes|] == nodes;
    if candidates == [] {
      return None;
    }
    assert candidates[0] in candidates;
    match strategy
    case FirstFit =>
      r := Some(candidates[0].node);
      FitsInFull(r.value, gpu, gpuMem);
    case BestFit =>
      var sorted := SortByResidual(candidates);
      Tightest(candidates, sorted);
      r := Some(sorted[0].node);
      FitsInFull(r.value, gpu, gpuMem);
  }

  lemma Tightest(candidates: seq<NodeScore>, sorted: seq<NodeScore>)
    requires multiset(sorted) == multiset(candidates) && SortedByResidual(sorted) && candidates != []
    ensures sorted != [] && sorted[0] in candidates
    ensures forall c | c in candidates :: sorted[0].residual <= c.residual
  {
    SameMembers(sorted, candidates);
    assert candidates[0] in sorted;
    assert sorted[0] in sorted;
  }
}
