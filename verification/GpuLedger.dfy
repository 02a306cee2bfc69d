/**
  Any number of dispatchers scheduling at once, each repository call a critical section of its
  own: pick a job, list the online nodes, match on that possibly stale list, allocate, mark.
  A scheduling pass reads all its jobs at once, picking many of them together, each as a call of
  its own, and drops the ones its limit does not reach. Releases are steps of their own, because
  no code path calls them.

  `grants` is the ledger of all allocations made so far. It is bookkeeping, not program state.
 */
module GpuLedger {
  import opened Values
  import opened Jobs
  import opened Matcher
  import opened Store
  import opened Dispatcher

  datatype Grant = Grant(job: Id, node: NodeId, count: int, released: bool)

  /** What one dispatcher call has done so far. */
  datatype Call =
    | Idle
    | Chosen(job: Job)
    | Listed(job: Job, items: seq<Node>)
    | Matched(job: Job, node: NodeId)
    | Marking(job: Job, target: Option<NodeId>)

  datatype State = State(
    nodes: map<NodeId, Node>,
    jobs: map<Id, Job>,
    calls: map<nat, Call>,
    grants: seq<Grant>)

  datatype Step =
    | Pick(d: nat, id: Id)
    | Drop(d: nat)
    | List(d: nat, items: seq<Node>)
    | Match(d: nat, found: Option<NodeId>)
    | Allocate(d: nat)
    | Mark(d: nat)
    | Release(id: Id)
    | SetStatus(id: Id, status: Status)
    | Submit(job: Job)

  function CallOf(s: State, d: nat): Call {
    if d in s.calls then s.calls[d] else Idle
  }

  /** A picked job nothing has been done for yet. */
  predicate IsUnplaced(call: Call) {
    call.Chosen? || (call.Marking? && call.target.None?)
  }

  /** A match result on the listed nodes, stale or not. */
  ghost predicate MatchOn(items: seq<Node>, job: Job, found: Option<NodeId>, strategy: Strategy) {
    match found
    case None => forall node | node in items :: !Fits(node, job.gpu, job.gpuMem)
    case Some(id) =>
      exists node :: node in items && node.id == id && Fits(node, job.gpu, job.gpuMem)
                     && (strategy == BestFit ==>
                           forall other | other in items && Fits(other, job.gpu, job.gpuMem) :: node.availGpu <= other.availGpu)
  }

  ghost predicate Enabled(s: State, step: Step, strategy: Strategy) {
    match step
    case Pick(d, id) => CallOf(s, d).Idle? && id in s.jobs && s.jobs[id].CanSchedule()
    case Drop(d) => IsUnplaced(CallOf(s, d))
    case List(d, items) => CallOf(s, d).Chosen? && ListsOnlineNodes(items, s.nodes)
    case Match(d, found) =>
      && CallOf(s, d).Listed?
      && MatchOn(CallOf(s, d).items, CallOf(s, d).job, found, strategy)
    case Allocate(d) => CallOf(s, d).Matched?
    case Mark(d) => CallOf(s, d).Marking?
    case Release(id) => id in s.jobs
    case SetStatus(id, _) => id in s.jobs
    case Submit(job) => job.id !in s.jobs
  }

  /** The ledger entry a release of the stored job gives back. */
  ghost predicate Holds(s: State, id: Id, i: nat) {
    && i < |s.grants|
    && id in s.jobs
    && s.grants[i] == Grant(id, s.jobs[id].assignedNode, s.jobs[id].gpu, false)
  }

  ghost function Settle(s: State, id: Id): seq<Grant> {
    if i: nat :| Holds(s, id, i) then s.grants[i := s.grants[i].(released := true)] else s.grants
  }

  ghost function Next(s: State, step: Step): State {
    match step
    case Pick(d, id) =>
      if id in s.jobs then
        var job := s.jobs[id];
        s.(calls := s.calls[d := if job.gpu > 0 then Chosen(job) else Marking(job, None)])
      else s
    case Drop(d) =>
      if IsUnplaced(CallOf(s, d)) then s.(calls := s.calls[d := Idle]) else s
    case List(d, items) =>
      if CallOf(s, d).Chosen? then s.(calls := s.calls[d := Listed(CallOf(s, d).job, items)]) else s
    case Match(d, found) =>
      if CallOf(s, d).Listed? then
        s.(calls := s.calls[d := if found.Some? then Matched(CallOf(s, d).job, found.value) else Idle])
      else s
    case Allocate(d) =>
      if CallOf(s, d).Matched? then
        var Matched(job, id) := CallOf(s, d);
        if id in s.nodes && s.nodes[id].availGpu >= job.gpu then
          s.(nodes := s.nodes[id := Take(s.nodes[id], job.gpu)],
             calls := s.calls[d := Marking(job, Some(id))],
             grants := s.grants + [Grant(job.id, id, job.gpu, false)])
        else s.(calls := s.calls[d := Idle])
      else s
    case Mark(d) =>
      if CallOf(s, d).Marking? then
        var Marking(job, target) := CallOf(s, d);
        var marked := Marked(Turn(job, if target.Some? then OnNode(target.value) else NoNode));
        s.(jobs := if job.id in s.jobs then s.jobs[job.id := marked] else s.jobs, calls := s.calls[d := Idle])
      else s
    case Release(id) =>
      if id in s.jobs && s.jobs[id].assignedNode != "" && s.jobs[id].gpu != 0 && s.jobs[id].assignedNode in s.nodes then
        var node := s.jobs[id].assignedNode;
        s.(nodes := s.nodes[node := Give(s.nodes[node], s.jobs[id].gpu)], grants := Settle(s, id))
      else s
    case SetStatus(id, status) =>
      if id in s.jobs then s.(jobs := s.jobs[id := s.jobs[id].(status := status)]) else s
    case Submit(job) => s.(jobs := s.jobs[job.id := job])
  }

  /** GPUs of a node granted and not yet given back. */
  function Outstanding(grants: seq<Grant>, id: NodeId): int {
    if grants == [] then 0
    else
      var last := grants[|grants| - 1];
      Outstanding(grants[..|grants| - 1], id) + if last.node == id && !last.released then last.count else 0
  }

  /** The conservation law: free plus outstanding is what the node started with. */
  ghost predicate Balanced(start: map<NodeId, Node>, s: State) {
    && s.nodes.Keys == start.Keys
    && forall id | id in start ::
         && s.nodes[id] == start[id].(availGpu := s.nodes[id].availGpu)
         && s.nodes[id].availGpu + Outstanding(s.grants, id) == start[id].availGpu
  }

  /** Grants are positive, and so are the requests of the calls about to allocate. */
  ghost predicate Positive(s: State) {
    && (forall i | 0 <= i < |s.grants| :: s.grants[i].count > 0)
    && (forall d | d in s.calls && (s.calls[d].Chosen? || s.calls[d].Listed? || s.calls[d].Matched?) :: s.calls[d].job.gpu > 0)
  }

  ghost predicate Bounded(s: State) {
    forall id | id in s.nodes :: 0 <= s.nodes[id].availGpu <= s.nodes[id].totalGpu
  }

  /** Nodes with consistent counts, nobody scheduling, nothing granted. */
  ghost predicate Quiet(s: State) {
    s.calls == map[] && s.grants == [] && Bounded(s)
  }

  /** The starting condition: a quiet store, and node names that are not empty, as validated. */
  ghost predicate Init(s: State) {
    Quiet(s) && JobsKeyed(s.jobs) && NodesKeyed(s.nodes) && "" !in s.nodes
  }

  ghost predicate Inv(start: map<NodeId, Node>, s: State) {
    Balanced(start, s) && Positive(s) && Bounded(s)
  }

  lemma {:induction false} OutstandingSnoc(grants: seq<Grant>, g: Grant, id: NodeId)
    ensures Outstanding(grants + [g], id)
            == Outstanding(grants, id) + if g.node == id && !g.released then g.count else 0
  {
    assert (grants + [g])[..|grants|] == grants;
  }

  /** Settling one entry lowers its node's outstanding count by the entry and no other's. */
  lemma {:induction false} OutstandingSettled(grants: seq<Grant>, i: nat, id: NodeId)
    requires i < |grants| && !grants[i].released
    ensures Outstanding(grants[i := grants[i].(released := true)], id)
            == Outstanding(grants, id) - if grants[i].node == id then grants[i].count else 0
    decreases |grants|
  {
    var settled := grants[i := grants[i].(released := true)];
    var n := |grants| - 1;
    if i == n {
      assert settled[..n] == grants[..n];
    } else {
      assert settled[..n] == grants[..n][i := grants[i].(released := true)];
      OutstandingSettled(grants[..n], i, id);
    }
  }

  lemma {:induction false} OutstandingNonnegative(grants: seq<Grant>, id: NodeId)
    requires forall i | 0 <= i < |grants| :: grants[i].count > 0
    ensures Outstanding(grants, id) >= 0
  {
    if grants != [] {
      OutstandingNonnegative(grants[..|grants| - 1], id);
    }
  }

  /** The release of this job's record is a call that changes nothing, or fails. */
  predicate NothingToRelease(s: State, id: Id) {
    id !in s.jobs || s.jobs[id].assignedNode == "" || s.jobs[id].gpu == 0 || s.jobs[id].assignedNode !in s.nodes
  }

  /** The node the release goes to has all its GPUs free, so that the clamp swallows it. */
  predicate NodeIsFree(s: State, id: Id) {
    && id in s.jobs && s.jobs[id].gpu > 0 && s.jobs[id].assignedNode in s.nodes
    && var node := s.nodes[s.jobs[id].assignedNode];
       node.availGpu == node.totalGpu
  }

  /** A release that cannot upset the ledger. */
  ghost predicate Benign(s: State, step: Step) {
    step.Release? ==> NothingToRelease(s, step.id) || NodeIsFree(s, step.id) || exists i: nat :: Holds(s, step.id, i)
  }

  lemma AllocateKeepsInv(start: map<NodeId, Node>, s: State, d: nat)
    requires Inv(start, s) && CallOf(s, d).Matched?
    ensures Inv(start, Next(s, Allocate(d)))
  {
    var Matched(job, id) := CallOf(s, d);
    if id in s.nodes && s.nodes[id].availGpu >= job.gpu {
      forall other | other in start
        ensures Outstanding(s.grants + [Grant(job.id, id, job.gpu, false)], other)
                == Outstanding(s.grants, other) + if other == id then job.gpu else 0
      {
        OutstandingSnoc(s.grants, Grant(job.id, id, job.gpu, false), other);
      }
    }
  }

  /** The clamp of ReleaseGPU never cuts a disciplined release. */
  lemma ReleaseIsNotClamped(start: map<NodeId, Node>, s: State, id: Id)
    requires Inv(start, s) && (forall n | n in start :: start[n].availGpu <= start[n].totalGpu)
    requires id in s.jobs && s.jobs[id].assignedNode in s.nodes && exists i: nat :: Holds(s, id, i)
    ensures var node := s.nodes[s.jobs[id].assignedNode];
            Give(node, s.jobs[id].gpu).availGpu == node.availGpu + s.jobs[id].gpu
  {
    var i: nat :| Holds(s, id, i);
    var node := s.jobs[id].assignedNode;
    OutstandingSettled(s.grants, i, node);
    OutstandingNonnegative(s.grants[i := s.grants[i].(released := true)], node);
  }

  lemma SettleSubtracts(s: State, id: Id)
    requires id in s.jobs && exists i: nat :: Holds(s, id, i)
    ensures |Settle(s, id)| == |s.grants| && forall i | 0 <= i < |s.grants| :: Settle(s, id)[i].count == s.grants[i].count
    ensures forall node :: Outstanding(Settle(s, id), node)
                           == Outstanding(s.grants, node) - if node == s.jobs[id].assignedNode then s.jobs[id].gpu else 0
  {
    var i: nat :| Holds(s, id, i) && Settle(s, id) == s.grants[i := s.grants[i].(released := true)];
    forall node
      ensures Outstanding(Settle(s, id), node)
              == Outstanding(s.grants, node) - if node == s.jobs[id].assignedNode then s.jobs[id].gpu else 0
    {
      OutstandingSettled(s.grants, i, node);
    }
  }

  lemma RecordedReleaseKeepsInv(start: map<NodeId, Node>, s: State, id: Id)
    requires Inv(start, s) && (forall n | n in start :: start[n].availGpu <= start[n].totalGpu)
    requires !NothingToRelease(s, id) && exists i: nat :: Holds(s, id, i)
    ensures Inv(start, Next(s, Release(id)))
  {
    ReleaseIsNotClamped(start, s, id);
    SettleSubtracts(s, id);
    hide Holds, Settle;
  }

  lemma ReleaseKeepsInv(start: map<NodeId, Node>, s: State, id: Id)
    requires Inv(start, s) && (forall n | n in start :: start[n].availGpu <= start[n].totalGpu)
    requires Benign(s, Release(id))
    ensures Inv(start, Next(s, Release(id)))
  {
    if !NothingToRelease(s, id) {
      var node := s.jobs[id].assignedNode;
      if exists i: nat :: Holds(s, id, i) {
        RecordedReleaseKeepsInv(start, s, id);
      } else {
        assert Give(s.nodes[node], s.jobs[id].gpu) == s.nodes[node];
      }
    }
  }

  /** A release that gives back no recorded grant keeps the balance exactly when the node has all
      its GPUs free, where the clamp swallows it. */
  lemma UnrecordedReleaseExactly(start: map<NodeId, Node>, s: State, id: Id)
    requires Inv(start, s) && id in s.jobs && s.jobs[id].gpu > 0
    requires s.jobs[id].assignedNode != "" && s.jobs[id].assignedNode in s.nodes
    requires forall i: nat :: !Holds(s, id, i)
    ensures var node := s.nodes[s.jobs[id].assignedNode];
            Balanced(start, Next(s, Release(id))) <==> node.availGpu == node.totalGpu
  {
    var name := s.jobs[id].assignedNode;
    var s' := Next(s, Release(id));
    assert s'.grants == s.grants;
    if s.nodes[name].availGpu == s.nodes[name].totalGpu {
      assert Give(s.nodes[name], s.jobs[id].gpu) == s.nodes[name];
    }
  }

  /** Any release that is not benign breaks the balance at once. */
  lemma BadReleaseUnbalances(start: map<NodeId, Node>, s: State, id: Id)
    requires Inv(start, s) && !Benign(s, Release(id))
    ensures !Balanced(start, Next(s, Release(id)))
  {
    if s.jobs[id].gpu > 0 {
      UnrecordedReleaseExactly(start, s, id);
    } else {
      var node := s.jobs[id].assignedNode;
      var s' := Next(s, Release(id));
      assert s'.grants == s.grants && s'.nodes[node].availGpu != s.nodes[node].availGpu;
    }
  }

  lemma StepKeepsInv(start: map<NodeId, Node>, s: State, step: Step, strategy: Strategy)
    requires Inv(start, s) && (forall n | n in start :: start[n].availGpu <= start[n].totalGpu)
    requires Enabled(s, step, strategy) && Benign(s, step)
    ensures Inv(start, Next(s, step))
  {
    match step
    case Allocate(d) => AllocateKeepsInv(start, s, d);
    case Release(id) => ReleaseKeepsInv(start, s, id);
    case _ =>
  }

  // ----- all interleavings -----

  ghost predicate Legal(s: State, schedule: seq<Step>, strategy: Strategy)
    decreases |schedule|
  {
    schedule == [] || (Enabled(s, schedule[0], strategy) && Legal(Next(s, schedule[0]), schedule[1..], strategy))
  }

  ghost function Execute(s: State, schedule: seq<Step>): State
    decreases |schedule|
  {
    if schedule == [] then s else Execute(Next(s, schedule[0]), schedule[1..])
  }

  ghost predicate BalancedThroughout(start: map<NodeId, Node>, s: State, schedule: seq<Step>)
    decreases |schedule|
  {
    Balanced(start, s) && (schedule == [] || BalancedThroughout(start, Next(s, schedule[0]), schedule[1..]))
  }

  ghost predicate BenignThroughout(s: State, schedule: seq<Step>)
    decreases |schedule|
  {
    schedule == [] || (Benign(s, schedule[0]) && BenignThroughout(Next(s, schedule[0]), schedule[1..]))
  }

  /** Main result: under every interleaving of dispatchers on stale snapshots, with any releases at
      all, free plus outstanding grants stays constant throughout exactly when each release gives
      back a recorded grant, does nothing, or goes to an entirely free node. Then every node also
      keeps 0 <= free <= total. */
  lemma {:induction false} BalanceExactly(start: map<NodeId, Node>, s: State, schedule: seq<Step>, strategy: Strategy)
    requires Inv(start, s) && (forall n | n in start :: start[n].availGpu <= start[n].totalGpu)
    requires Legal(s, schedule, strategy)
    ensures BalancedThroughout(start, s, schedule) <==> BenignThroughout(s, schedule)
    ensures BenignThroughout(s, schedule) ==> Inv(start, Execute(s, schedule))
    decreases |schedule|
  {
    hide Balanced, Enabled, Benign, Next;
    assert Balanced(start, s);
    if schedule != [] {
      if Benign(s, schedule[0]) {
        StepKeepsInv(start, s, schedule[0], strategy);
        BalanceExactly(start, Next(s, schedule[0]), schedule[1..], strategy);
      } else {
        OnlyReleasesAreBad(s, schedule[0]);
        BadReleaseUnbalances(start, s, schedule[0].id);
      }
    }
  }

  lemma OnlyReleasesAreBad(s: State, step: Step)
    requires !Benign(s, step)
    ensures step.Release?
  {
  }

  /** The same from every starting store in which nothing is granted yet. */
  lemma EveryRunBalances(s: State, schedule: seq<Step>, strategy: Strategy)
    requires Quiet(s) && Legal(s, schedule, strategy)
    ensures BalancedThroughout(s.nodes, s, schedule) <==> BenignThroughout(s, schedule)
    ensures BenignThroughout(s, schedule) ==> Inv(s.nodes, Execute(s, schedule))
  {
    BalanceExactly(s.nodes, s, schedule, strategy);
  }

  /** Main result: without releases every node keeps 0 <= free <= total, and free plus all grants
      ever made on it is what it started with. */
  lemma {:induction false} DispatchersNeverOvercommit(start: map<NodeId, Node>, s: State, schedule: seq<Step>, strategy: Strategy)
    requires Inv(start, s) && (forall n | n in start :: start[n].availGpu <= start[n].totalGpu)
    requires Legal(s, schedule, strategy) && forall i | 0 <= i < |schedule| :: !schedule[i].Release?
    requires forall i | 0 <= i < |s.grants| :: !s.grants[i].released
    ensures Inv(start, Execute(s, schedule))
    ensures forall i | 0 <= i < |Execute(s, schedule).grants| :: !Execute(s, schedule).grants[i].released
    decreases |schedule|
  {
    hide Inv, Enabled;
    if schedule != [] {
      StepKeepsInv(start, s, schedule[0], strategy);
      DispatchersNeverOvercommit(start, Next(s, schedule[0]), schedule[1..], strategy);
    }
  }
}
