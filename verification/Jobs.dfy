/** Jobs, executions and nodes as the scheduler and the services see them. */
module Jobs {
  import opened Values

  /** nextID: a prefix, the clock, and a process-wide counter that never repeats. */
  datatype Id = Id(prefix: string, nanos: int, value: nat)

  type NodeId = string

  datatype Status = Pending | Scheduled | Running | Succeeded | Failed | Retrying | Cancelled

  /** `gpuMem` is the parsed MiB value of the memory request; `assignedNode` is the metadata entry
      of that name, empty when absent. */
  datatype Job = Job(
    id: Id,
    status: Status,
    priority: int,
    createdAt: int,
    gpu: int,
    gpuMem: int,
    maxRetries: int,
    retryCount: int,
    lastError: string,
    assignedNode: NodeId)
  {
    predicate CanSchedule() { status == Pending || status == Retrying }

    predicate CanCancel() { status == Pending || status == Scheduled || status == Retrying }

    predicate CanRetry() { status == Failed || status == Retrying }
  }

  datatype ExecutionStatus = ExecRunning | ExecSucceeded | ExecFailed

  datatype Execution = Execution(id: Id, jobId: Id, attempt: int, status: ExecutionStatus, error: string)

  datatype NodeStatus = Online | Offline | Drain

  datatype Gpu = Gpu(totalMem: int, usedMem: int) {
    function FreeMem(): int { totalMem - usedMem }
  }

  datatype Node = Node(id: NodeId, status: NodeStatus, gpus: seq<Gpu>, totalGpu: int, availGpu: int) {
    predicate IsSchedulable() { status == Online }

    predicate CanFitGpu(requested: int) { availGpu >= requested }
  }

  /** How many devices have at least `min` free. */
  function CountFree(gpus: seq<Gpu>, min: int): nat {
    if gpus == [] then 0
    else CountFree(gpus[..|gpus| - 1], min) + if gpus[|gpus| - 1].FreeMem() >= min then 1 else 0
  }

  lemma {:induction false} CountFreeCounts(gpus: seq<Gpu>, min: int)
    ensures CountFree(gpus, min) == |set i | 0 <= i < |gpus| && gpus[i].totalMem - gpus[i].usedMem >= min|
  {
    var free := set i | 0 <= i < |gpus| && gpus[i].totalMem - gpus[i].usedMem >= min;
    if gpus != [] {
      var n := |gpus| - 1;
      CountFreeCounts(gpus[..n], min);
      var before := set i | 0 <= i < |gpus[..n]| && gpus[..n][i].totalMem - gpus[..n][i].usedMem >= min;
      assert free == before + if gpus[n].totalMem - gpus[n].usedMem >= min then {n} else {};
    }
  }

  predicate MemoryFits(node: Node, count: int, minMem: int) {
    if minMem <= 0 then node.CanFitGpu(count) else CountFree(node.gpus, minMem) >= count
  }

  method CanFitGpuMemory(node: Node, count: int, minMem: int) returns (fits: bool)
    ensures fits == MemoryFits(node, count, minMem)
    ensures minMem <= 0 ==> (fits <==> node.availGpu >= count)
    ensures minMem > 0 ==>
              (fits <==> |set i | 0 <= i < |node.gpus| && node.gpus[i].totalMem - node.gpus[i].usedMem >= minMem| >= count)
  {
    CountFreeCounts(node.gpus, minMem);
    if minMem <= 0 {
      return node.CanFitGpu(count);
    }
    var matched := 0;
    for i := 0 to |node.gpus|
      invariant matched == CountFree(node.gpus[..i], minMem)
    {
      assert node.gpus[..i + 1][..i] == node.gpus[..i];
      if node.gpus[i].FreeMem() >= minMem {
        matched := matched + 1;
      }
    }
    assert node.gpus[..|node.gpus|] == node.gpus;
    fits := matched >= count;
  }

  /** A fitting node is online, with enough free GPUs, of which enough have the memory asked for. */
  lemma FitsInFull(node: Node, gpu: int, gpuMem: int)
    ensures Fits(node, gpu, gpuMem) <==>
              && node.status == Online && node.availGpu >= gpu
              && (gpuMem > 0 ==>
                    |set i | 0 <= i < |node.gpus| && node.gpus[i].totalMem - node.gpus[i].usedMem >= gpuMem| >= gpu)
  {
    CountFreeCounts(node.gpus, gpuMem);
  }

  /** The matcher's test of one node. */
  predicate Fits(node: Node, gpu: int, gpuMem: int) {
    && node.IsSchedulable()
    && node.CanFitGpu(gpu)
    && (gpuMem > 0 ==> MemoryFits(node, gpu, gpuMem))
  }
}
