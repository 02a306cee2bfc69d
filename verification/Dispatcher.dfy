/**
  The dispatcher: rank the schedulable jobs, place each on the tightest fitting node, allocate,
  mark. `SchedulePending` run alone is a greedy pass, described by the turns it takes.
 */
module Dispatcher {
  import opened Values
  import opened Jobs
  import opened PriorityQueue
  import opened Matcher
  import opened Store
  import opened Telemetry

  // ----- greedy passes over values -----

  datatype Placement = OnNode(node: NodeId) | NoNode | Skipped

  /** One popped job and what became of it. */
  datatype Turn = Turn(job: Job, placement: Placement)

  ghost predicate FitsSomewhere(nodes: map<NodeId, Node>, job: Job) {
    exists id :: id in nodes && Fits(nodes[id], job.gpu, job.gpuMem)
  }

  /** A CPU job is always placed, without a node. A GPU job goes to a fitting node, under best fit
      one with the fewest free GPUs, and is skipped exactly when no node fits. */
  ghost predicate GreedyTurn(nodes: map<NodeId, Node>, turn: Turn, strategy: Strategy) {
    if turn.job.gpu <= 0 then turn.placement.NoNode?
    else
      match turn.placement
      case NoNode => false
      case Skipped => !FitsSomewhere(nodes, turn.job)
      case OnNode(id) =>
        && id in nodes
        && Fits(nodes[id], turn.job.gpu, turn.job.gpuMem)
        && (strategy == BestFit ==>
              forall other | other in nodes && Fits(nodes[other], turn.job.gpu, turn.job.gpuMem) ::
                nodes[id].availGpu <= nodes[other].availGpu)
  }

  function NodesAfter(nodes: map<NodeId, Node>, turns: seq<Turn>): map<NodeId, Node> {
    if turns == [] then nodes
    else
      var before := NodesAfter(nodes, turns[..|turns| - 1]);
      var turn := turns[|turns| - 1];
      if turn.placement.OnNode? && turn.placement.node in before
      then before[turn.placement.node := Take(before[turn.placement.node], turn.job.gpu)]
      else before
  }

  ghost predicate GreedyPass(nodes: map<NodeId, Node>, turns: seq<Turn>, strategy: Strategy) {
    forall i | 0 <= i < |turns| :: GreedyTurn(NodesAfter(nodes, turns[..i]), turns[i], strategy)
  }

  function Marked(turn: Turn): Job {
    turn.job.(status := Scheduled,
              assignedNode := if turn.placement.OnNode? && turn.placement.node != "" then turn.placement.node else turn.job.assignedNode)
  }

  /** The placed jobs, as stored, in the order they were placed. */
  function PlacedJobs(turns: seq<Turn>): (placed: seq<Job>)
    ensures |placed| <= |turns|
  {
    if turns == [] then []
    else
      var last := turns[|turns| - 1];
      PlacedJobs(turns[..|turns| - 1]) + if last.placement.Skipped? then [] else [Marked(last)]
  }

  function JobsAfter(jobs: map<Id, Job>, turns: seq<Turn>): map<Id, Job> {
    if turns == [] then jobs
    else
      var before := JobsAfter(jobs, turns[..|turns| - 1]);
      var last := turns[|turns| - 1];
      if last.placement.Skipped? then before else before[last.job.id := Marked(last)]
  }

  function Popped(turns: seq<Turn>): (jobs: seq<Job>)
    ensures |jobs| == |turns| && forall i | 0 <= i < |turns| :: jobs[i] == turns[i].job
  {
    seq(|turns|, i requires 0 <= i < |turns| => turns[i].job)
  }

  // ----- what a pass guarantees -----

  /** Only the free GPU count of a node ever changes, and it only shrinks. */
  ghost predicate OnlyShrank(before: map<NodeId, Node>, after: map<NodeId, Node>) {
    && after.Keys == before.Keys
    && forall id | id in before ::
         && after[id] == before[id].(availGpu := after[id].availGpu)
         && after[id].availGpu <= before[id].availGpu
  }

  lemma {:induction false} PassOnlyShrinks(nodes: map<NodeId, Node>, turns: seq<Turn>, strategy: Strategy, from: nat)
    requires GreedyPass(nodes, turns, strategy) && from <= |turns|
    ensures OnlyShrank(NodesAfter(nodes, turns[..from]), NodesAfter(nodes, turns))
    decreases |turns|
  {
    if from == |turns| {
      assert turns[..from] == turns;
    } else {
      var shorter := turns[..|turns| - 1];
      assert forall i | 0 <= i < |shorter| :: turns[..i] == shorter[..i];
      assert turns[..from] == shorter[..from];
      hide GreedyTurn, NodesAfter, OnlyShrank;
      TurnOnlyShrinks(nodes, turns, strategy);
      PassOnlyShrinks(nodes, shorter, strategy, from);
      ShrankTwice(NodesAfter(nodes, turns[..from]), NodesAfter(nodes, shorter), NodesAfter(nodes, turns));
    }
  }

  lemma ShrankTwice(a: map<NodeId, Node>, b: map<NodeId, Node>, c: map<NodeId, Node>)
    requires OnlyShrank(a, b) && OnlyShrank(b, c)
    ensures OnlyShrank(a, c)
  {
  }

  lemma TurnOnlyShrinks(nodes: map<NodeId, Node>, turns: seq<Turn>, strategy: Strategy)
    requires turns != []
    requires GreedyTurn(NodesAfter(nodes, turns[..|turns| - 1]), turns[|turns| - 1], strategy)
    ensures OnlyShrank(NodesAfter(nodes, turns[..|turns| - 1]), NodesAfter(nodes, turns))
  {
  }

  lemma NoFitStaysNoFit(before: map<NodeId, Node>, after: map<NodeId, Node>, job: Job)
    requires OnlyShrank(before, after) && !FitsSomewhere(before, job)
    ensures !FitsSomewhere(after, job)
  {
    forall id | id in after ensures !Fits(after[id], job.gpu, job.gpuMem) {
      assert !Fits(before[id], job.gpu, job.gpuMem);
    }
  }

  /** A job skipped at its turn fitted no node then and fits none when the pass ends. */
  lemma SkippedNeverFits(nodes: map<NodeId, Node>, turns: seq<Turn>, strategy: Strategy, i: nat)
    requires GreedyPass(nodes, turns, strategy) && i < |turns| && turns[i].placement.Skipped?
    ensures !FitsSomewhere(NodesAfter(nodes, turns[..i]), turns[i].job)
    ensures !FitsSomewhere(NodesAfter(nodes, turns), turns[i].job)
  {
    PassOnlyShrinks(nodes, turns, strategy, i);
    assert GreedyTurn(NodesAfter(nodes, turns[..i]), turns[i], strategy);
    NoFitStaysNoFit(NodesAfter(nodes, turns[..i]), NodesAfter(nodes, turns), turns[i].job);
  }

  /** The turns and the jobs never popped together are the candidates, best first. */
  ghost predicate RanksCandidates(candidates: seq<Job>, turns: seq<Turn>, left: seq<Job>) {
    && multiset(candidates) == multiset(Popped(turns)) + multiset(left)
    && InOrder(Popped(turns))
    && forall job, i | job in left && 0 <= i < |turns| :: !Less(job, turns[i].job)
  }

  /** Main result: when a pass places fewer jobs than asked for, every candidate it did not place
      fits no online node any more. */
  lemma NothingLeftFits(nodes: map<NodeId, Node>, candidates: seq<Job>, turns: seq<Turn>, left: seq<Job>,
                        strategy: Strategy, limit: nat, job: Job)
    requires GreedyPass(nodes, turns, strategy) && RanksCandidates(candidates, turns, left)
    requires left != [] ==> |PlacedJobs(turns)| == limit
    requires |PlacedJobs(turns)| < limit && job in candidates
    requires forall i | 0 <= i < |turns| && turns[i].job == job :: turns[i].placement.Skipped?
    ensures job.gpu > 0 && !FitsSomewhere(NodesAfter(nodes, turns), job)
  {
    assert multiset(left) == multiset{};
    assert job in multiset(candidates) && job in multiset(Popped(turns));
    var i :| 0 <= i < |turns| && Popped(turns)[i] == job;
    assert GreedyTurn(NodesAfter(nodes, turns[..i]), turns[i], strategy);
    SkippedNeverFits(nodes, turns, strategy, i);
  }

  /** Main result: a pass never delays a job for one behind it. When a job was placed on a node
      while an earlier popped one was skipped, the skipped one fitted nowhere at its own turn. */
  lemma NoPriorityInversion(nodes: map<NodeId, Node>, turns: seq<Turn>, strategy: Strategy, i: nat, j: nat)
    requires GreedyPass(nodes, turns, strategy) && InOrder(Popped(turns)) && i < |turns| && j < |turns|
    requires var a, b := turns[i].job, turns[j].job;
             a.priority > b.priority || (a.priority == b.priority && a.createdAt < b.createdAt)
    requires turns[i].placement.Skipped?
    ensures i < j && !FitsSomewhere(NodesAfter(nodes, turns[..j]), turns[i].job)
  {
    hide FitsSomewhere, NodesAfter, GreedyTurn;
    assert Popped(turns)[i] == turns[i].job && Popped(turns)[j] == turns[j].job;
    var shorter := turns[..j];
    assert forall k | 0 <= k < j :: turns[..k] == shorter[..k];
    assert shorter[i] == turns[i];
    SkippedNeverFits(nodes, shorter, strategy, i);
  }

  // ----- the dispatcher itself -----

  function FilterSchedulable(jobs: seq<Job>): (out: seq<Job>)
    ensures forall job :: job in out <==> job in jobs && job.CanSchedule()
  {
    if jobs == [] then []
    else
      var out := FilterSchedulable(jobs[..|jobs| - 1]);
      var last := jobs[|jobs| - 1];
      if last.CanSchedule() then out + [last] else out
  }

  datatype Outcome = Placed(job: Job) | Refused

  class Dispatch {
    const repo: MemoryStore
    const metrics: Metrics
    const strategy: Strategy

    constructor (repo: MemoryStore, metrics: Metrics, strategy: Strategy)
      ensures this.repo == repo && this.metrics == metrics && this.strategy == strategy
    {
      this.repo := repo;
      this.metrics := metrics;
      this.strategy := strategy;
    }

    method MarkScheduled(job: Job, node: Option<NodeId>) returns (marked: Job)
      requires repo.Keyed() && job.id in repo.jobs
      modifies repo`jobs, metrics`scheduled
      ensures repo.Keyed() && repo.jobs == old(repo.jobs)[job.id := marked]
      ensures marked == Marked(Turn(job, if node.Some? then OnNode(node.value) else NoNode))
      ensures marked == job.(status := Scheduled, assignedNode := marked.assignedNode)
      ensures marked.assignedNode == if node.Some? && node.value != "" then node.value else job.assignedNode
      ensures metrics.scheduled == old(metrics.scheduled) + 1
    {
      marked := job.(status := Scheduled);
      if node.Some? && node.value != "" {
        marked := marked.(assignedNode := node.value);
      }
      var r := repo.UpdateJob(marked);
      metrics.IncScheduled();
    }

    /** placeJob and placeGPUJob, with no other call on the repository in between. */
    method PlaceJob(job: Job) returns (outcome: Outcome, ghost turn: Turn)
      requires repo.Keyed() && job.id in repo.jobs
      modifies repo`jobs, repo`nodes, metrics`scheduled
      ensures repo.Keyed() && turn.job == job
      ensures !job.CanSchedule() ==> outcome == Refused && turn.placement.Skipped?
      ensures job.CanSchedule() ==> GreedyTurn(old(repo.nodes), turn, strategy)
      ensures turn.placement.Skipped? ==>
                outcome == Refused && repo.jobs == old(repo.jobs) && repo.nodes == old(repo.nodes)
                && metrics.scheduled == old(metrics.scheduled)
      ensures !turn.placement.Skipped? ==>
                outcome == Placed(Marked(turn)) && repo.jobs == old(repo.jobs)[job.id := Marked(turn)]
                && metrics.scheduled == old(metrics.scheduled) + 1
      ensures turn.placement.NoNode? ==> repo.nodes == old(repo.nodes)
      ensures turn.placement.OnNode? ==>
                turn.placement.node in old(repo.nodes)
                && repo.nodes == old(repo.nodes)[turn.placement.node := Take(old(repo.nodes)[turn.placement.node], job.gpu)]
      ensures job.status != Pending && job.status != Retrying ==> outcome == Refused
      ensures (job.status == Pending || job.status == Retrying) && job.gpu <= 0 ==> outcome == Placed(job.(status := Scheduled))
      ensures turn.placement.OnNode? && turn.placement.node != "" ==>
                outcome == Placed(job.(status := Scheduled, assignedNode := turn.placement.node))
      ensures turn.placement.OnNode? ==>
                var before, after := old(repo.nodes)[turn.placement.node], repo.nodes[turn.placement.node];
                before.status == Online && before.availGpu >= job.gpu && after == before.(availGpu := before.availGpu - job.gpu)
    {
      turn := Turn(job, Skipped);
      if !job.CanSchedule() {
        return Refused, turn;
      }
      if job.gpu <= 0 {
        var marked := MarkScheduled(job, None);
        return Placed(marked), Turn(job, NoNode);
      }
      var online := repo.ListOnlineNodes();
      var target := MatchNode(online, job.gpu, job.gpuMem, strategy);
      OnlineNodesSuffice(online, repo.nodes, job);
      if target.None? {
        return Refused, turn;
      }
      turn := Turn(job, OnNode(target.value.id));
      assert GreedyTurn(repo.nodes, turn, strategy) by {
        forall other | other in repo.nodes && Fits(repo.nodes[other], job.gpu, job.gpuMem)
          ensures repo.nodes[other] in online
        {
        }
      }
      var r := repo.AllocateGpu(target.value.id, job.gpu);
      var marked := MarkScheduled(job, Some(target.value.id));
      outcome := Placed(marked);
    }

    /** Main result: one call is a greedy pass over the schedulable jobs, best first, that stops
        at the limit or when no candidate is left. */
    method SchedulePending(limit: nat)
      returns (scheduled: seq<Job>, ghost turns: seq<Turn>, ghost left: seq<Job>)
      requires repo.Keyed()
      modifies repo`jobs, repo`nodes, metrics`scheduled
      ensures repo.Keyed()
      ensures exists jobs :: ListsJobs(jobs, old(repo.jobs)) && RanksCandidates(FilterSchedulable(jobs), turns, left)
      ensures GreedyPass(old(repo.nodes), turns, strategy)
      ensures repo.nodes == NodesAfter(old(repo.nodes), turns)
      ensures repo.jobs == JobsAfter(old(repo.jobs), turns)
      ensures scheduled == PlacedJobs(turns) && |scheduled| <= limit
      ensures left != [] ==> |scheduled| == limit
      ensures forall p | p in scheduled :: p.status == Scheduled
      ensures forall p, l | p in scheduled && l in left ::
                l.priority < p.priority || (l.priority == p.priority && l.createdAt >= p.createdAt)
      ensures forall i, j | 0 <= i < j < |scheduled| ::
                scheduled[j].priority < scheduled[i].priority
                || (scheduled[j].priority == scheduled[i].priority && scheduled[j].createdAt >= scheduled[i].createdAt)
      ensures metrics.scheduled == old(metrics.scheduled) + |scheduled|
    {
      var jobs := repo.ListJobs();
      var candidates := FilterSchedulable(jobs);
      var queue := new Queue(candidates);
      scheduled, turns := [], [];
      NoTurns(repo.nodes, repo.jobs, strategy);
      NoTurnsRank(candidates, queue.items);
      hide RanksCandidates, GreedyPass, GreedyTurn, NodesAfter, JobsAfter, PlacedJobs, IsHeap;
      while queue.items != [] && |scheduled| < limit
        invariant fresh(queue) && repo.Keyed() && IsHeap(queue.items)
        invariant RanksCandidates(candidates, turns, queue.items)
        invariant GreedyPass(old(repo.nodes), turns, strategy)
        invariant repo.nodes == NodesAfter(old(repo.nodes), turns)
        invariant repo.jobs == JobsAfter(old(repo.jobs), turns)
        invariant forall job | job in queue.items :: job.id in repo.jobs && job.CanSchedule()
        invariant scheduled == PlacedJobs(turns) && |scheduled| <= limit
        invariant metrics.scheduled == old(metrics.scheduled) + |scheduled|
        decreases |queue.items|
      {
        ghost var before := queue.items;
        var job := queue.Pop();
        PopKeepsRanking(candidates, turns, before, queue.items, job);
        var outcome;
        ghost var turn;
        outcome, turn := PlaceJob(job);
        PassSnoc(old(repo.nodes), old(repo.jobs), turns, turn, strategy);
        turns := turns + [turn];
        if outcome.Placed? {
          scheduled := scheduled + [outcome.job];
        }
      }
      left := queue.items;
      PlacedBeforeLeft(candidates, turns, left);
    }

    method ReleaseJobResources(job: Job) returns (r: Result)
      requires repo.Keyed()
      modifies repo`nodes
      ensures repo.Keyed()
      ensures job.assignedNode == "" || job.gpu == 0 ==> r == Ok && repo.nodes == old(repo.nodes)
      ensures job.assignedNode != "" && job.gpu != 0 && job.assignedNode in old(repo.nodes) ==>
                r == Ok
                && repo.nodes == old(repo.nodes)[job.assignedNode := Give(old(repo.nodes)[job.assignedNode], job.gpu)]
      ensures job.assignedNode != "" && job.gpu != 0 && job.assignedNode !in old(repo.nodes) ==>
                r == Err(NotFound) && repo.nodes == old(repo.nodes)
    {
      if job.assignedNode == "" || job.gpu == 0 {
        return Ok;
      }
      r := repo.ReleaseGpu(job.assignedNode, job.gpu);
    }
  }

  /** Placed jobs keep their turns' order, highest priority first and oldest first among equals, and
      no job left behind belongs before one of them. */
  lemma PlacedBeforeLeft(candidates: seq<Job>, turns: seq<Turn>, left: seq<Job>)
    requires RanksCandidates(candidates, turns, left)
    ensures var placed := PlacedJobs(turns);
            && (forall p | p in placed :: p.status == Scheduled)
            && (forall p, l | p in placed && l in left ::
                  l.priority < p.priority || (l.priority == p.priority && l.createdAt >= p.createdAt))
            && forall i, j | 0 <= i < j < |placed| ::
                 placed[j].priority < placed[i].priority
                 || (placed[j].priority == placed[i].priority && placed[j].createdAt >= placed[i].createdAt)
  {
    var at := PlacedPositions(turns);
    forall p, l | p in PlacedJobs(turns) && l in left
      ensures l.priority < p.priority || (l.priority == p.priority && l.createdAt >= p.createdAt)
    {
      var i :| 0 <= i < |at| && PlacedJobs(turns)[i] == p;
      assert !Less(l, turns[at[i]].job);
    }
    forall i, j | 0 <= i < j < |at|
      ensures var p, q := PlacedJobs(turns)[i], PlacedJobs(turns)[j];
              q.priority < p.priority || (q.priority == p.priority && q.createdAt >= p.createdAt)
    {
      assert !Less(Popped(turns)[at[j]], Popped(turns)[at[i]]);
    }
  }

  /** The placed jobs are those of the turns not skipped, in order. */
  lemma {:induction false} PlacedPositions(turns: seq<Turn>) returns (at: seq<nat>)
    ensures |at| == |PlacedJobs(turns)| && forall i, j | 0 <= i < j < |at| :: at[i] < at[j]
    ensures forall i | 0 <= i < |at| :: at[i] < |turns| && PlacedJobs(turns)[i] == Marked(turns[at[i]])
    ensures forall k: nat :: k in at <==> k < |turns| && !turns[k].placement.Skipped?
  {
    PlacedUnfolds(turns);
    hide PlacedJobs, Marked;
    if turns == [] {
      at := [];
    } else {
      var n := |turns| - 1;
      var init, last := turns[..n], turns[n];
      var before := PlacedPositions(init);
      at := before + if last.placement.Skipped? then [] else [n];
      assert forall i | 0 <= i < |before| :: before[i] in before && init[before[i]] == turns[before[i]];
      forall k: nat ensures k in at <==> k < |turns| && !turns[k].placement.Skipped? {
        assert k in at <==> k in before || (k == n && !last.placement.Skipped?);
        assert k < n ==> init[k] == turns[k];
      }
    }
  }

  lemma PlacedUnfolds(turns: seq<Turn>)
    ensures if turns == [] then PlacedJobs(turns) == []
            else PlacedJobs(turns) == PlacedJobs(turns[..|turns| - 1])
                                      + if turns[|turns| - 1].placement.Skipped? then [] else [Marked(turns[|turns| - 1])]
  {
  }

  lemma NoTurns(nodes: map<NodeId, Node>, jobs: map<Id, Job>, strategy: Strategy)
    ensures GreedyPass(nodes, [], strategy)
    ensures NodesAfter(nodes, []) == nodes && JobsAfter(jobs, []) == jobs && PlacedJobs([]) == []
  {
  }

  lemma NoTurnsRank(candidates: seq<Job>, items: seq<Job>)
    requires multiset(items) == multiset(candidates)
    ensures RanksCandidates(candidates, [], items)
    ensures forall job | job in items :: job in candidates
  {
    SameMembers(items, candidates);
  }

  /** One more greedy turn extends the pass and its effects. */
  lemma PassSnoc(nodes: map<NodeId, Node>, jobs: map<Id, Job>, turns: seq<Turn>, turn: Turn, strategy: Strategy)
    requires GreedyPass(nodes, turns, strategy) && GreedyTurn(NodesAfter(nodes, turns), turn, strategy)
    ensures GreedyPass(nodes, turns + [turn], strategy)
    ensures NodesAfter(nodes, turns + [turn])
            == var before := NodesAfter(nodes, turns);
               if turn.placement.OnNode? && turn.placement.node in before
               then before[turn.placement.node := Take(before[turn.placement.node], turn.job.gpu)] else before
    ensures PlacedJobs(turns + [turn]) == PlacedJobs(turns) + if turn.placement.Skipped? then [] else [Marked(turn)]
    ensures JobsAfter(jobs, turns + [turn])
            == if turn.placement.Skipped? then JobsAfter(jobs, turns) else JobsAfter(jobs, turns)[turn.job.id := Marked(turn)]
  {
    hide GreedyTurn, Marked, Take;
    PassExtends(nodes, turns, turn, strategy);
    assert (turns + [turn])[..|turns|] == turns;
  }

  lemma PassExtends(nodes: map<NodeId, Node>, turns: seq<Turn>, turn: Turn, strategy: Strategy)
    requires GreedyPass(nodes, turns, strategy) && GreedyTurn(NodesAfter(nodes, turns), turn, strategy)
    ensures GreedyPass(nodes, turns + [turn], strategy)
  {
    hide GreedyTurn, NodesAfter;
    var longer := turns + [turn];
    forall i | 0 <= i < |longer| ensures GreedyTurn(NodesAfter(nodes, longer[..i]), longer[i], strategy) {
      assert longer[..i] == turns[..i];
      assert turns[..|turns|] == turns;
    }
  }

  /** Offline and draining nodes never fit, so the online ones decide. */
  lemma OnlineNodesSuffice(online: seq<Node>, nodes: map<NodeId, Node>, job: Job)
    requires NodesKeyed(nodes) && ListsOnlineNodes(online, nodes)
    ensures (forall node | node in online :: !Fits(node, job.gpu, job.gpuMem)) <==> !FitsSomewhere(nodes, job)
  {
    forall id | id in nodes && Fits(nodes[id], job.gpu, job.gpuMem) ensures nodes[id] in online {
    }
  }

  lemma PoppedSnoc(turns: seq<Turn>, turn: Turn)
    ensures Popped(turns + [turn]) == Popped(turns) + [turn.job]
  {
  }

  /** Popping one more job extends the ranking by it. */
  lemma PopKeepsRanking(candidates: seq<Job>, turns: seq<Turn>, before: seq<Job>, after: seq<Job>, job: Job)
    requires RanksCandidates(candidates, turns, before)
    requires multiset(before) == multiset(after) + multiset{job}
    requires forall other | other in before :: !Less(other, job)
    ensures job in before && forall other | other in after :: other in before
    ensures forall turn: Turn | turn.job == job :: RanksCandidates(candidates, turns + [turn], after)
  {
    assert job in multiset(before) && job in before;
    forall other | other in after ensures other in before {
      assert other in multiset(after);
      assert other in multiset(before);
    }
    forall turn: Turn | turn.job == job ensures RanksCandidates(candidates, turns + [turn], after) {
      PoppedSnoc(turns, turn);
      assert multiset(Popped(turns) + [job]) == multiset(Popped(turns)) + multiset{job};
      forall i, j | 0 <= i < j < |turns| + 1
        ensures !Less(Popped(turns + [turn])[j], Popped(turns + [turn])[i])
      {
        if j == |turns| {
          assert job in before && !Less(job, turns[i].job);
        } else {
          assert !Less(Popped(turns)[j], Popped(turns)[i]);
        }
      }
    }
  }
}
