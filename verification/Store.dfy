/** The in-memory repository and the lifecycle counters, each method one critical section. */
module Store {
  import opened Values
  import opened Jobs
  import opened PriorityQueue

  /** Every map is keyed by the identifier its values carry. */
  ghost predicate JobsKeyed(jobs: map<Id, Job>) {
    forall id | id in jobs :: jobs[id].id == id
  }

  ghost predicate NodesKeyed(nodes: map<NodeId, Node>) {
    forall id | id in nodes :: nodes[id].id == id
  }

  /** The stable part of sort.Slice by priority and age: a sorted permutation. */
  function SortJobs(s: seq<Job>): (r: seq<Job>)
    ensures InOrder(r) && multiset(r) == multiset(s)
  {
    if s == [] then []
    else
      assert s == [s[0]] + s[1..];
      InsertJob(SortJobs(s[1..]), s[0])
  }

  function InsertJob(s: seq<Job>, x: Job): (r: seq<Job>)
    requires InOrder(s)
    ensures InOrder(r) && multiset(r) == multiset(s) + multiset{x}
    ensures forall i | 0 <= i < |r| :: r[i] == x || r[i] in s
  {
    if s == [] || !Less(s[0], x) then
      assert forall i | 0 <= i < |s| :: !Less(s[i], x);
      [x] + s
    else
      assert s == [s[0]] + s[1..];
      var rest := InsertJob(s[1..], x);
      AheadOfRest(s, x, rest);
      [s[0]] + rest
  }

  lemma AheadOfRest(s: seq<Job>, x: Job, rest: seq<Job>)
    requires InOrder(s) && s != [] && Less(s[0], x)
    requires InOrder(rest) && forall i | 0 <= i < |rest| :: rest[i] == x || rest[i] in s[1..]
    ensures InOrder([s[0]] + rest)
  {
    forall i | 0 <= i < |rest| ensures !Less(rest[i], s[0]) {
      assert rest[i] in s[1..] ==> exists j :: 0 < j < |s| && s[j] == rest[i];
    }
  }

  /** The list holds every stored job once. */
  ghost predicate ListsJobs(items: seq<Job>, jobs: map<Id, Job>) {
    && (forall job :: job in items <==> job.id in jobs && jobs[job.id] == job)
    && (forall i, j | 0 <= i < j < |items| :: items[i].id != items[j].id)
  }

  /** The list holds every stored online node once. */
  ghost predicate ListsOnlineNodes(items: seq<Node>, nodes: map<NodeId, Node>) {
    && (forall node :: node in items <==> node.id in nodes && nodes[node.id] == node && node.IsSchedulable())
    && forall i, j | 0 <= i < j < |items| :: items[i].id != items[j].id
  }

  datatype Error = NotFound | InsufficientGpu(avail: int, requested: int)

  datatype Result = Ok | Err(error: Error)

  /** The bookkeeping of AllocateGPU and ReleaseGPU on one node. */
  function Take(node: Node, count: int): Node {
    node.(availGpu := node.availGpu - count)
  }

  function Give(node: Node, count: int): Node {
    var avail := node.availGpu + count;
    node.(availGpu := if avail > node.totalGpu then node.totalGpu else avail)
  }

  class MemoryStore {
    var jobs: map<Id, Job>
    var executions: map<Id, Execution>
    var jobIndex: map<Id, seq<Id>>
    var nodes: map<NodeId, Node>

    ghost predicate Keyed()
      reads this
    {
      JobsKeyed(jobs) && NodesKeyed(nodes)
    }

    constructor ()
      ensures jobs == map[] && executions == map[] && jobIndex == map[] && nodes == map[]
      ensures Keyed()
    {
      jobs, executions, jobIndex, nodes := map[], map[], map[], map[];
    }

    method CreateJob(job: Job)
      requires Keyed()
      modifies this`jobs
      ensures Keyed() && jobs == old(jobs)[job.id := job]
    {
      jobs := jobs[job.id := job];
    }

    method UpdateJob(job: Job) returns (r: Result)
      requires Keyed()
      modifies this`jobs
      ensures Keyed()
      ensures job.id in old(jobs) ==> r == Ok && jobs == old(jobs)[job.id := job]
      ensures job.id !in old(jobs) ==> r == Err(NotFound) && jobs == old(jobs)
    {
      if job.id !in jobs {
        return Err(NotFound);
      }
      jobs := jobs[job.id := job];
      r := Ok;
    }

    method GetJob(id: Id) returns (r: Option<Job>)
      ensures r == if id in jobs then Some(jobs[id]) else None
    {
      r := if id in jobs then Some(jobs[id]) else None;
    }

    /** Map iteration in any order, then the sort. */
    method ListJobs() returns (items: seq<Job>)
      requires Keyed()
      ensures ListsJobs(items, jobs) && InOrder(items)
      ensures forall i, j | 0 <= i < j < |items| ::
                items[j].priority < items[i].priority
                || (items[j].priority == items[i].priority && items[j].createdAt >= items[i].createdAt)
    {
      var unsorted: seq<Job> := [];
      var rest := jobs.Keys;
      while rest != {}
        invariant rest <= jobs.Keys
        invariant forall job :: job in unsorted <==> job.id in jobs && job.id !in rest && jobs[job.id] == job
        invariant forall i, j | 0 <= i < j < |unsorted| :: unsorted[i].id != unsorted[j].id
        decreases rest
      {
        var id :| id in rest;
        rest := rest - {id};
        unsorted := unsorted + [jobs[id]];
      }
      items := SortJobs(unsorted);
      SortKeepsListing(unsorted, items, jobs);
    }

    method CreateExecution(execution: Execution)
      modifies this`executions, this`jobIndex
      ensures executions == old(executions)[execution.id := execution]
      ensures jobIndex == old(jobIndex)[execution.jobId := IndexOf(old(jobIndex), execution.jobId) + [execution.id]]
    {
      executions := executions[execution.id := execution];
      jobIndex := jobIndex[execution.jobId := IndexOf(jobIndex, execution.jobId) + [execution.id]];
    }

    method UpdateExecution(execution: Execution) returns (r: Result)
      modifies this`executions
      ensures execution.id in old(executions) ==> r == Ok && executions == old(executions)[execution.id := execution]
      ensures execution.id !in old(executions) ==> r == Err(NotFound) && executions == old(executions)
    {
      if execution.id !in executions {
        return Err(NotFound);
      }
      executions := executions[execution.id := execution];
      r := Ok;
    }

    method RegisterNode(node: Node)
      requires Keyed()
      modifies this`nodes
      ensures Keyed() && nodes == old(nodes)[node.id := node]
    {
      nodes := nodes[node.id := node];
    }

    method ListOnlineNodes() returns (items: seq<Node>)
      requires Keyed()
      ensures ListsOnlineNodes(items, nodes)
    {
      items := [];
      var rest := nodes.Keys;
      while rest != {}
        invariant rest <= nodes.Keys
        invariant forall node :: node in items <==>
                    node.id in nodes && node.id !in rest && nodes[node.id] == node && node.IsSchedulable()
        invariant forall i, j | 0 <= i < j < |items| :: items[i].id != items[j].id
        decreases rest
      {
        var id :| id in rest;
        rest := rest - {id};
        if nodes[id].IsSchedulable() {
          items := items + [nodes[id]];
        }
      }
    }

    method AllocateGpu(nodeId: NodeId, count: int) returns (r: Result)
      requires Keyed()
      modifies this`nodes
      ensures Keyed()
      ensures r.Ok? <==> nodeId in old(nodes) && old(nodes)[nodeId].availGpu >= count
      ensures nodes == if r.Ok? then old(nodes)[nodeId := Take(old(nodes)[nodeId], count)] else old(nodes)
      ensures r.Ok? ==> nodes[nodeId] == old(nodes)[nodeId].(availGpu := old(nodes)[nodeId].availGpu - count)
      ensures r == Err(NotFound) <==> nodeId !in old(nodes)
    {
      if nodeId !in nodes {
        return Err(NotFound);
      }
      var node := nodes[nodeId];
      if node.availGpu < count {
        return Err(InsufficientGpu(node.availGpu, count));
      }
      nodes := nodes[nodeId := Take(node, count)];
      r := Ok;
    }

    method ReleaseGpu(nodeId: NodeId, count: int) returns (r: Result)
      requires Keyed()
      modifies this`nodes
      ensures Keyed()
      ensures r == if nodeId in old(nodes) then Ok else Err(NotFound)
      ensures nodes == if r.Ok? then old(nodes)[nodeId := Give(old(nodes)[nodeId], count)] else old(nodes)
      ensures r.Ok? ==> nodes[nodeId] == old(nodes)[nodeId].(availGpu := nodes[nodeId].availGpu)
      ensures r.Ok? && old(nodes)[nodeId].availGpu + count <= old(nodes)[nodeId].totalGpu ==>
                nodes[nodeId].availGpu == old(nodes)[nodeId].availGpu + count
      ensures r.Ok? && old(nodes)[nodeId].availGpu + count > old(nodes)[nodeId].totalGpu ==>
                nodes[nodeId].availGpu == nodes[nodeId].totalGpu
    {
      if nodeId !in nodes {
        return Err(NotFound);
      }
      nodes := nodes[nodeId := Give(nodes[nodeId], count)];
      r := Ok;
    }
  }

  function IndexOf(jobIndex: map<Id, seq<Id>>, jobId: Id): seq<Id> {
    if jobId in jobIndex then jobIndex[jobId] else []
  }

  /** Sorting a listing gives a listing. */
  lemma SortKeepsListing(unsorted: seq<Job>, items: seq<Job>, jobs: map<Id, Job>)
    requires ListsJobs(unsorted, jobs) && multiset(items) == multiset(unsorted)
    ensures ListsJobs(items, jobs)
  {
    forall job ensures job in items <==> job in unsorted {
      assert job in items <==> job in multiset(items);
      assert job in unsorted <==> job in multiset(unsorted);
    }
    forall i, j | 0 <= i < j < |items| ensures items[i].id != items[j].id {
      assert items[i] in items && items[j] in items;
      if items[i] == items[j] {
        TwoOccurrences(items, i, j);
        OneOccurrence(unsorted, items[i]);
      }
    }
  }

  lemma TwoOccurrences(s: seq<Job>, i: nat, j: nat)
    requires i < j < |s| && s[i] == s[j]
    ensures multiset(s)[s[i]] >= 2
  {
    assert s == s[..i] + [s[i]] + s[i + 1..j] + [s[j]] + s[j + 1..];
  }

  lemma {:induction false} OneOccurrence(s: seq<Job>, x: Job)
    requires forall i, j | 0 <= i < j < |s| :: s[i].id != s[j].id
    ensures multiset(s)[x] <= 1
  {
    if s != [] {
      assert s == [s[0]] + s[1..];
      OneOccurrence(s[1..], x);
      if s[0] == x {
        assert x !in s[1..];
        assert multiset(s[1..])[x] == 0;
      }
    }
  }
}

module Telemetry {

  class Metrics {
    var submitted: nat
    var scheduled: nat
    var running: nat
    var succeeded: nat
    var failed: nat
    var retried: nat
    var cancelled: nat
    var executionCount: nat

    constructor ()
      ensures submitted == scheduled == running == succeeded == failed == retried == cancelled == executionCount == 0
    {
      submitted, scheduled, running, succeeded := 0, 0, 0, 0;
      failed, retried, cancelled, executionCount := 0, 0, 0, 0;
    }

    method IncSubmitted() modifies this`submitted ensures submitted == old(submitted) + 1 { submitted := submitted + 1; }
    method IncScheduled() modifies this`scheduled ensures scheduled == old(scheduled) + 1 { scheduled := scheduled + 1; }
    method IncRunning() modifies this`running ensures running == old(running) + 1 { running := running + 1; }
    method IncSucceeded() modifies this`succeeded ensures succeeded == old(succeeded) + 1 { succeeded := succeeded + 1; }
    method IncFailed() modifies this`failed ensures failed == old(failed) + 1 { failed := failed + 1; }
    method IncRetried() modifies this`retried ensures retried == old(retried) + 1 { retried := retried + 1; }
    method IncCancelled() modifies this`cancelled ensures cancelled == old(cancelled) + 1 { cancelled := cancelled + 1; }
    method ObserveRuntime() modifies this`executionCount ensures executionCount == old(executionCount) + 1 { executionCount := executionCount + 1; }
  }
}
