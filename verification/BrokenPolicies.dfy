/**
  Runs that break one of the callers' rules and keep the others: each rule is needed.
 */
module BrokenPolicies {
  import opened Values
  import opened Jobs
  import opened Matcher
  import opened Store
  import opened GpuLedger
  import opened PlacementPolicy

  ghost function OwedAfter(s: State, owed: set<Id>, schedule: seq<Step>): set<Id>
    decreases |schedule|
  {
    if schedule == [] then owed else OwedAfter(Next(s, schedule[0]), Owed(s, owed, schedule[0]), schedule[1..])
  }

  lemma {:induction false} RunsConcatenate(s: State, owed: set<Id>, first: seq<Step>, second: seq<Step>, strategy: Strategy)
    ensures Legal(s, first + second, strategy) <==> Legal(s, first, strategy) && Legal(Execute(s, first), second, strategy)
    ensures Execute(s, first + second) == Execute(Execute(s, first), second)
    ensures OwedAfter(s, owed, first + second) == OwedAfter(Execute(s, first), OwedAfter(s, owed, first), second)
    decreases |first|
  {
    hide Enabled, Next, Owed;
    if first == [] {
      assert first + second == second;
    } else {
      assert (first + second)[1..] == first[1..] + second;
      RunsConcatenate(Next(s, first[0]), Owed(s, owed, first[0]), first[1..], second, strategy);
    }
  }

  lemma {:induction false} RulesConcatenate(rule: Rule, s: State, owed: set<Id>, first: seq<Step>, second: seq<Step>)
    ensures Throughout(rule, s, owed, first + second)
            <==> Throughout(rule, s, owed, first) && Throughout(rule, Execute(s, first), OwedAfter(s, owed, first), second)
    decreases |first|
  {
    hide Next, Owed;
    if first == [] {
      assert first + second == second;
    } else {
      assert (first + second)[1..] == first[1..] + second;
      RulesConcatenate(rule, Next(s, first[0]), Owed(s, owed, first[0]), first[1..], second);
    }
  }

  /** One step before a run, with all the rules. */
  lemma Prepended(s: State, owed: set<Id>, step: Step, rest: seq<Step>, strategy: Strategy)
    ensures var run := [step] + rest;
            && (Legal(s, run, strategy) <==> Enabled(s, step, strategy) && Legal(Next(s, step), rest, strategy))
            && Execute(s, run) == Execute(Next(s, step), rest)
            && OwedAfter(s, owed, run) == OwedAfter(Next(s, step), Owed(s, owed, step), rest)
    ensures Throughout(Exclusive, s, owed, [step] + rest) <==>
              Exclusive(s, owed, step) && Throughout(Exclusive, Next(s, step), Owed(s, owed, step), rest)
    ensures Throughout(Returned, s, owed, [step] + rest) <==>
              Returned(s, owed, step) && Throughout(Returned, Next(s, step), Owed(s, owed, step), rest)
    ensures Throughout(Settled, s, owed, [step] + rest) <==>
              Settled(s, owed, step) && Throughout(Settled, Next(s, step), Owed(s, owed, step), rest)
    ensures Throughout(Once, s, owed, [step] + rest) <==>
              Once(s, owed, step) && Throughout(Once, Next(s, step), Owed(s, owed, step), rest)
  {
    hide Enabled, Next, Owed, Exclusive, Returned, Settled, Once;
    assert ([step] + rest)[1..] == rest;
  }

  /** A fitting node, under best fit one with the fewest free GPUs, for a schedulable GPU job. */
  ghost predicate Room(s: State, id: Id, node: NodeId, strategy: Strategy) {
    && NodesKeyed(s.nodes) && id in s.jobs && s.jobs[id].id == id && s.jobs[id].CanSchedule() && s.jobs[id].gpu > 0
    && node in s.nodes && node != "" && Fits(s.nodes[node], s.jobs[id].gpu, s.jobs[id].gpuMem)
    && (strategy == BestFit ==>
          forall other | other in s.nodes && Fits(s.nodes[other], s.jobs[id].gpu, s.jobs[id].gpuMem) ::
            s.nodes[node].availGpu <= s.nodes[other].availGpu)
  }

  /** Every store has a listing of its online nodes. */
  lemma {:induction false} ListingExists(nodes: map<NodeId, Node>) returns (items: seq<Node>)
    requires NodesKeyed(nodes)
    ensures ListsOnlineNodes(items, nodes)
    decreases |nodes|
  {
    if nodes == map[] {
      items := [];
    } else {
      var id :| id in nodes;
      var rest := nodes - {id};
      items := ListingExists(rest);
      if nodes[id].IsSchedulable() {
        items := items + [nodes[id]];
      }
    }
  }

  ghost function Listing(nodes: map<NodeId, Node>): (items: seq<Node>)
    requires NodesKeyed(nodes)
    ensures ListsOnlineNodes(items, nodes)
  {
    SomeListing(nodes);
    var items :| ListsOnlineNodes(items, nodes);
    items
  }

  lemma SomeListing(nodes: map<NodeId, Node>)
    requires NodesKeyed(nodes)
    ensures exists items :: ListsOnlineNodes(items, nodes)
  {
    var items := ListingExists(nodes);
  }

  ghost function Granting(s: State, d: nat, id: Id, node: NodeId): State
    requires id in s.jobs && node in s.nodes
  {
    var job := s.jobs[id];
    s.(nodes := s.nodes[node := Take(s.nodes[node], job.gpu)],
       calls := s.calls[d := Marking(job, Some(node))],
       grants := s.grants + [Grant(id, node, job.gpu, false)])
  }

  /** A node with room for two jobs has room for the second after the first. */
  lemma StillHasRoom(s: State, d: nat, id: Id, other: Id, node: NodeId, strategy: Strategy)
    requires Room(s, id, node, strategy) && Room(s, other, node, strategy)
    requires s.nodes[node].availGpu >= s.jobs[id].gpu + s.jobs[other].gpu
    ensures Room(Granting(s, d, id, node), other, node, strategy)
  {
  }

  ghost function GrantSteps(s: State, d: nat, id: Id, node: NodeId): seq<Step>
    requires NodesKeyed(s.nodes)
  {
    [Pick(d, id), List(d, Listing(s.nodes)), Match(d, Some(node)), Allocate(d)]
  }

  /** A call of an idle dispatcher, up to the allocation. */
  lemma GrantRun(s: State, owed: set<Id>, d: nat, id: Id, node: NodeId, strategy: Strategy)
    requires Room(s, id, node, strategy) && CallOf(s, d).Idle?
    ensures var run := GrantSteps(s, d, id, node);
            && Legal(s, run, strategy) && Execute(s, run) == Granting(s, d, id, node) && OwedAfter(s, owed, run) == owed
            && (!Held(s, id) ==> Throughout(Exclusive, s, owed, run))
            && (id !in owed ==> Throughout(Returned, s, owed, run))
            && Throughout(Settled, s, owed, run) && Throughout(Once, s, owed, run)
  {
    var items := Listing(s.nodes);
    var s1 := Next(s, Pick(d, id));
    var s2 := Next(s1, List(d, items));
    var s3 := Next(s2, Match(d, Some(node)));
    GrantStates(s, d, id, node, strategy);
    hide Enabled, Next, Granting, Held, Fits, NothingToRelease, Legal, Execute, OwedAfter, Throughout, Room, Listing;
    NoSteps(s3, owed, strategy);
    NoSteps(Next(s3, Allocate(d)), owed, strategy);
    var run1 := [Allocate(d)] + [];
    var run2 := [Match(d, Some(node))] + run1;
    var run3 := [List(d, items)] + run2;
    Prepended(s3, owed, Allocate(d), [], strategy);
    Prepended(s2, owed, Match(d, Some(node)), run1, strategy);
    Prepended(s1, owed, List(d, items), run2, strategy);
    Prepended(s, owed, Pick(d, id), run3, strategy);
    assert GrantSteps(s, d, id, node) == [Pick(d, id)] + run3;
  }

  lemma NoSteps(s: State, owed: set<Id>, strategy: Strategy)
    ensures Legal(s, [], strategy) && Execute(s, []) == s && OwedAfter(s, owed, []) == owed
    ensures Throughout(Exclusive, s, owed, []) && Throughout(Returned, s, owed, [])
    ensures Throughout(Settled, s, owed, []) && Throughout(Once, s, owed, [])
  {
  }

  lemma GrantStates(s: State, d: nat, id: Id, node: NodeId, strategy: Strategy)
    requires Room(s, id, node, strategy) && CallOf(s, d).Idle?
    ensures var items := Listing(s.nodes);
            var s1 := Next(s, Pick(d, id));
            var s2 := Next(s1, List(d, items));
            var s3 := Next(s2, Match(d, Some(node)));
            && Enabled(s, Pick(d, id), strategy) && Enabled(s1, List(d, items), strategy)
            && Enabled(s2, Match(d, Some(node)), strategy) && Enabled(s3, Allocate(d), strategy)
            && Next(s3, Allocate(d)) == Granting(s, d, id, node)
  {
    MatchFindsRoom(s, id, node, strategy);
    ListedStates(s, d, id, Listing(s.nodes), strategy);
    var s2 := s.(calls := s.calls[d := Listed(s.jobs[id], Listing(s.nodes))]);
    assert Next(s2, Match(d, Some(node))) == s.(calls := s.calls[d := Matched(s.jobs[id], node)]);
    hide MatchOn, ListsOnlineNodes, Room, Fits, Listing;
  }

  lemma ListedStates(s: State, d: nat, id: Id, items: seq<Node>, strategy: Strategy)
    requires id in s.jobs && s.jobs[id].CanSchedule() && s.jobs[id].gpu > 0
    requires CallOf(s, d).Idle? && ListsOnlineNodes(items, s.nodes)
    ensures var s1 := Next(s, Pick(d, id));
            && Enabled(s, Pick(d, id), strategy) && Enabled(s1, List(d, items), strategy)
            && Next(s1, List(d, items)) == s.(calls := s.calls[d := Listed(s.jobs[id], items)])
  {
    hide ListsOnlineNodes;
    assert Next(s, Pick(d, id)) == s.(calls := s.calls[d := Chosen(s.jobs[id])]);
  }

  lemma MatchFindsRoom(s: State, id: Id, node: NodeId, strategy: Strategy)
    requires Room(s, id, node, strategy)
    ensures MatchOn(Listing(s.nodes), s.jobs[id], Some(node), strategy)
    ensures s.jobs[id].CanSchedule() && s.jobs[id].gpu > 0 && s.jobs[id].id == id && s.nodes[node].availGpu >= s.jobs[id].gpu
  {
    assert s.nodes[node] in Listing(s.nodes);
  }

  /** An unreleased grant and a free dispatcher are enough for a second one: whenever the job's
      record is schedulable again, or still, and its node has room. */
  lemma SecondGrant(s: State, owed: set<Id>, d: nat, id: Id, node: NodeId, i: nat, strategy: Strategy)
    requires Room(s, id, node, strategy) && CallOf(s, d).Idle?
    requires i < |s.grants| && s.grants[i].job == id && !s.grants[i].released
    ensures var run := GrantSteps(s, d, id, node);
            Legal(s, run, strategy) && !OneGrantEach(Execute(s, run).grants)
  {
    GrantRun(s, owed, d, id, node, strategy);
    var grants := Granting(s, d, id, node).grants;
    assert !grants[i].released && !grants[|s.grants|].released && grants[i].job == grants[|s.grants|].job;
  }

  /** The rule against overlapping calls is needed: two calls pick the job at once. */
  lemma OverlappingCallsGrantTwice(s: State, id: Id, node: NodeId, strategy: Strategy) returns (schedule: seq<Step>)
    requires Init(s) && Room(s, id, node, strategy) && s.nodes[node].availGpu >= 2 * s.jobs[id].gpu
    ensures Legal(s, schedule, strategy)
    ensures Throughout(Returned, s, {}, schedule) && Throughout(Once, s, {}, schedule)
    ensures !OneGrantEach(Execute(s, schedule).grants)
  {
    var first := GrantSteps(s, 0, id, node);
    GrantRun(s, {}, 0, id, node, strategy);
    var mid := Granting(s, 0, id, node);
    StillHasRoom(s, 0, id, id, node, strategy);
    assert mid.grants[0] == Grant(id, node, s.jobs[id].gpu, false) && CallOf(mid, 1).Idle?;
    hide Granting, Room, Init, Enabled, Next;
    var second := GrantSteps(mid, 1, id, node);
    GrantRun(mid, {}, 1, id, node, strategy);
    SecondGrant(mid, {}, 1, id, node, 0, strategy);
    schedule := first + second;
    RunsConcatenate(s, {}, first, second, strategy);
    RulesConcatenate(Returned, s, {}, first, second);
    RulesConcatenate(Once, s, {}, first, second);
  }

  /** After the call is recorded, and the status set. */
  function Recorded(s: State, d: nat, id: Id, node: NodeId, status: Status): State {
    if id !in s.jobs then s else s.(jobs := s.jobs[id := s.jobs[id].(status := status, assignedNode := node)], calls := s.calls[d := Idle])
  }

  /** A whole call of an idle dispatcher. */
  lemma PlaceRun(s: State, owed: set<Id>, d: nat, id: Id, node: NodeId, strategy: Strategy)
    requires Room(s, id, node, strategy) && CallOf(s, d).Idle? && !Held(s, id) && id !in owed
    ensures var run := GrantSteps(s, d, id, node) + [Mark(d)];
            && Legal(s, run, strategy) && OwedAfter(s, owed, run) == owed + {id}
            && Execute(s, run) == Recorded(Granting(s, d, id, node), d, id, node, Scheduled)
            && Throughout(Exclusive, s, owed, run) && Throughout(Returned, s, owed, run)
            && Throughout(Settled, s, owed, run) && Throughout(Once, s, owed, run)
  {
    var first, granted := GrantSteps(s, d, id, node), Granting(s, d, id, node);
    GrantRun(s, owed, d, id, node, strategy);
    assert Next(granted, Mark(d)) == Recorded(granted, d, id, node, Scheduled);
    assert Owed(granted, owed, Mark(d)) == owed + {id} && Enabled(granted, Mark(d), strategy);
    hide Granting, Room, Enabled, Next, Recorded, Owed;
    assert [Mark(d)] == [Mark(d)] + [];
    NoSteps(Next(granted, Mark(d)), owed + {id}, strategy);
    Prepended(granted, owed, Mark(d), [], strategy);
    Joined(s, owed, first, [Mark(d)], strategy);
  }

  /** Two runs one after the other, with all the rules. */
  lemma Joined(s: State, owed: set<Id>, first: seq<Step>, second: seq<Step>, strategy: Strategy)
    ensures Legal(s, first + second, strategy) <==> Legal(s, first, strategy) && Legal(Execute(s, first), second, strategy)
    ensures Execute(s, first + second) == Execute(Execute(s, first), second)
    ensures OwedAfter(s, owed, first + second) == OwedAfter(Execute(s, first), OwedAfter(s, owed, first), second)
    ensures Throughout(Exclusive, s, owed, first + second) <==>
              Throughout(Exclusive, s, owed, first) && Throughout(Exclusive, Execute(s, first), OwedAfter(s, owed, first), second)
    ensures Throughout(Returned, s, owed, first + second) <==>
              Throughout(Returned, s, owed, first) && Throughout(Returned, Execute(s, first), OwedAfter(s, owed, first), second)
    ensures Throughout(Settled, s, owed, first + second) <==>
              Throughout(Settled, s, owed, first) && Throughout(Settled, Execute(s, first), OwedAfter(s, owed, first), second)
    ensures Throughout(Once, s, owed, first + second) <==>
              Throughout(Once, s, owed, first) && Throughout(Once, Execute(s, first), OwedAfter(s, owed, first), second)
  {
    RunsConcatenate(s, owed, first, second, strategy);
    RulesConcatenate(Exclusive, s, owed, first, second);
    RulesConcatenate(Returned, s, owed, first, second);
    RulesConcatenate(Settled, s, owed, first, second);
    RulesConcatenate(Once, s, owed, first, second);
  }

  /** The rule to release first is needed too: a job that failed and is retried is placed again by
      calls that never overlap. */
  lemma RetriedJobIsGrantedTwice(s: State, id: Id, node: NodeId, strategy: Strategy) returns (schedule: seq<Step>)
    requires Init(s) && Room(s, id, node, strategy) && s.nodes[node].availGpu >= 2 * s.jobs[id].gpu
    ensures Legal(s, schedule, strategy)
    ensures Throughout(Exclusive, s, {}, schedule) && Throughout(Once, s, {}, schedule)
    ensures !OneGrantEach(Execute(s, schedule).grants)
  {
    hide Granting, Init, Enabled, Next, Recorded, Held, Fits;
    var first := GrantSteps(s, 0, id, node) + [Mark(0)];
    NothingHeld(s, 0, id);
    PlaceRun(s, {}, 0, id, node, strategy);
    var placed := Recorded(Granting(s, 0, id, node), 0, id, node, Scheduled);
    var retried := Next(placed, SetStatus(id, Retrying));
    RetriedHasRoom(s, id, node, strategy);
    var third := GrantSteps(retried, 0, id, node);
    GrantRun(retried, {id}, 0, id, node, strategy);
    SecondGrant(retried, {id}, 0, id, node, 0, strategy);
    Prepended(placed, {id}, SetStatus(id, Retrying), third, strategy);
    Joined(s, {}, first, [SetStatus(id, Retrying)] + third, strategy);
    assert {} + {id} == {id};
    schedule := first + ([SetStatus(id, Retrying)] + third);
  }

  lemma NothingHeld(s: State, d: nat, id: Id)
    requires Init(s)
    ensures !Held(s, id) && CallOf(s, d).Idle?
  {
  }

  lemma RetriedHasRoom(s: State, id: Id, node: NodeId, strategy: Strategy)
    requires Init(s) && Room(s, id, node, strategy) && s.nodes[node].availGpu >= 2 * s.jobs[id].gpu
    ensures var placed := Recorded(Granting(s, 0, id, node), 0, id, node, Scheduled);
            var retried := Next(placed, SetStatus(id, Retrying));
            && Enabled(placed, SetStatus(id, Retrying), strategy)
            && Room(retried, id, node, strategy) && !Held(retried, id) && CallOf(retried, 0).Idle?
            && 0 < |retried.grants| && retried.grants[0] == Grant(id, node, s.jobs[id].gpu, false)
  {
  }

  /** Both jobs hold GPUs of the node. */
  ghost predicate BothHold(s: State, both: State, id: Id, other: Id, node: NodeId, strategy: Strategy)
    requires Room(s, id, node, strategy) && Room(s, other, node, strategy)
  {
    && both.nodes == s.nodes[node := s.nodes[node].(availGpu := s.nodes[node].availGpu - s.jobs[id].gpu - s.jobs[other].gpu)]
    && both.grants == [Grant(id, node, s.jobs[id].gpu, false), Grant(other, node, s.jobs[other].gpu, false)]
    && id in both.jobs && both.jobs[id] == s.jobs[id].(status := Scheduled, assignedNode := node)
    && forall d | d in both.calls :: both.calls[d].Idle?
  }

  /** And so is the rule to release once: a placement released twice takes GPUs that another job
      still holds, in a run that keeps every other rule. */
  lemma ReleasedTwiceUnbalances(s: State, id: Id, other: Id, node: NodeId, strategy: Strategy) returns (schedule: seq<Step>)
    requires Init(s) && id != other && Room(s, id, node, strategy) && Room(s, other, node, strategy)
    requires s.nodes[node].availGpu >= s.jobs[id].gpu + s.jobs[other].gpu
    ensures Legal(s, schedule, strategy)
    ensures Throughout(Exclusive, s, {}, schedule) && Throughout(Returned, s, {}, schedule) && Throughout(Settled, s, {}, schedule)
    ensures !Balanced(s.nodes, Execute(s, schedule))
  {
    hide Granting, Init, Enabled, Next, Recorded, Held, BothHold, Balanced, Fits;
    var first := GrantSteps(s, 0, id, node) + [Mark(0)];
    NothingHeld(s, 0, id);
    PlaceRun(s, {}, 0, id, node, strategy);
    var placed := Recorded(Granting(s, 0, id, node), 0, id, node, Scheduled);
    BothHaveRoom(s, id, other, node, strategy);
    var second := GrantSteps(placed, 0, other, node) + [Mark(0)];
    PlaceRun(placed, {id}, 0, other, node, strategy);
    var both := Recorded(Granting(placed, 0, other, node), 0, other, node, Scheduled);
    DoubleRelease(s, both, id, other, node, strategy);
    var third := [Release(id), Release(id)];
    assert {} + {id} == {id} && {id} + {other} == {id, other};
    Joined(placed, {id}, second, third, strategy);
    Joined(s, {}, first, second + third, strategy);
    schedule := first + (second + third);
  }

  lemma BothHaveRoom(s: State, id: Id, other: Id, node: NodeId, strategy: Strategy)
    requires Init(s) && id != other && Room(s, id, node, strategy) && Room(s, other, node, strategy)
    requires s.nodes[node].availGpu >= s.jobs[id].gpu + s.jobs[other].gpu
    ensures var placed := Recorded(Granting(s, 0, id, node), 0, id, node, Scheduled);
            && Room(placed, other, node, strategy) && !Held(placed, other) && CallOf(placed, 0).Idle?
            && BothHold(s, Recorded(Granting(placed, 0, other, node), 0, other, node, Scheduled), id, other, node, strategy)
  {
    var placed := Recorded(Granting(s, 0, id, node), 0, id, node, Scheduled);
    assert placed.grants == [Grant(id, node, s.jobs[id].gpu, false)];
    StillHasRoom(s, 0, id, other, node, strategy);
    RoomAfterRecord(Granting(s, 0, id, node), 0, id, other, node, strategy);
    hide Fits;
  }

  lemma RoomAfterRecord(s: State, d: nat, id: Id, other: Id, node: NodeId, strategy: Strategy)
    requires id != other && Room(s, other, node, strategy)
    ensures Room(Recorded(s, d, id, node, Scheduled), other, node, strategy)
  {
    hide Fits;
  }

  lemma DoubleRelease(s: State, both: State, id: Id, other: Id, node: NodeId, strategy: Strategy)
    requires Init(s) && id != other && Room(s, id, node, strategy) && Room(s, other, node, strategy)
    requires s.nodes[node].availGpu >= s.jobs[id].gpu + s.jobs[other].gpu && BothHold(s, both, id, other, node, strategy)
    ensures var run := [Release(id), Release(id)];
            && Legal(both, run, strategy) && !Balanced(s.nodes, Execute(both, run))
            && Throughout(Exclusive, both, {id, other}, run) && Throughout(Returned, both, {id, other}, run)
            && Throughout(Settled, both, {id, other}, run)
  {
    var once := Next(both, Release(id));
    DoubleReleaseStates(s, both, id, other, node, strategy);
    assert Enabled(both, Release(id), strategy) && Enabled(once, Release(id), strategy);
    hide Next, Balanced, Enabled, Holds, Init, Room, BothHold, Outstanding, Held, NothingToRelease, Legal, Execute, OwedAfter, Throughout;
    NoSteps(Next(once, Release(id)), Owed(once, Owed(both, {id, other}, Release(id)), Release(id)), strategy);
    var last := [Release(id)] + [];
    Prepended(once, Owed(both, {id, other}, Release(id)), Release(id), [], strategy);
    Prepended(both, {id, other}, Release(id), last, strategy);
    assert [Release(id), Release(id)] == [Release(id)] + last;
  }

  lemma DoubleReleaseStates(s: State, both: State, id: Id, other: Id, node: NodeId, strategy: Strategy)
    requires Init(s) && id != other && Room(s, id, node, strategy) && Room(s, other, node, strategy)
    requires s.nodes[node].availGpu >= s.jobs[id].gpu + s.jobs[other].gpu && BothHold(s, both, id, other, node, strategy)
    ensures var once := Next(both, Release(id));
            && id in both.jobs && id in once.jobs && !Held(both, id) && !Held(once, id)
            && !Balanced(s.nodes, Next(once, Release(id)))
  {
    hide Fits;
    FirstRelease(s, both, id, other, node, strategy);
    SecondRelease(s, both, id, other, node, strategy);
  }

  /** What the first of the two releases leaves. */
  ghost function Halfway(s: State, both: State, id: Id, other: Id, node: NodeId, strategy: Strategy): State
    requires Room(s, id, node, strategy) && Room(s, other, node, strategy)
  {
    both.(nodes := s.nodes[node := s.nodes[node].(availGpu := s.nodes[node].availGpu - s.jobs[other].gpu)],
          grants := [Grant(id, node, s.jobs[id].gpu, true), Grant(other, node, s.jobs[other].gpu, false)])
  }

  lemma FirstRelease(s: State, both: State, id: Id, other: Id, node: NodeId, strategy: Strategy)
    requires Init(s) && id != other && Room(s, id, node, strategy) && Room(s, other, node, strategy)
    requires s.nodes[node].availGpu >= s.jobs[id].gpu + s.jobs[other].gpu && BothHold(s, both, id, other, node, strategy)
    ensures Next(both, Release(id)) == Halfway(s, both, id, other, node, strategy)
  {
    hide Fits, Settle;
    assert both.nodes[node].availGpu + s.jobs[id].gpu <= both.nodes[node].totalGpu;
    FirstSettles(s, both, id, other, node, strategy);
  }

  lemma FirstSettles(s: State, both: State, id: Id, other: Id, node: NodeId, strategy: Strategy)
    requires id != other && Room(s, id, node, strategy) && Room(s, other, node, strategy) && BothHold(s, both, id, other, node, strategy)
    ensures Settle(both, id) == [Grant(id, node, s.jobs[id].gpu, true), Grant(other, node, s.jobs[other].gpu, false)]
  {
    hide Fits;
    assert Holds(both, id, 0);
    forall i: nat | Holds(both, id, i) ensures i == 0 {
      assert i < 2;
    }
  }

  lemma SecondRelease(s: State, both: State, id: Id, other: Id, node: NodeId, strategy: Strategy)
    requires Init(s) && id != other && Room(s, id, node, strategy) && Room(s, other, node, strategy)
    requires s.nodes[node].availGpu >= s.jobs[id].gpu + s.jobs[other].gpu && BothHold(s, both, id, other, node, strategy)
    ensures !Balanced(s.nodes, Next(Halfway(s, both, id, other, node, strategy), Release(id)))
  {
    hide Fits, Settle;
    var once := Halfway(s, both, id, other, node, strategy);
    var g, h := once.grants[0], once.grants[1];
    SecondSettles(s, both, id, other, node, strategy);
    OutstandingSnoc([], g, node);
    OutstandingSnoc([g], h, node);
    assert [] + [g] == [g] && [g] + [h] == [g, h];
    hide Outstanding;
    var twice := Next(once, Release(id));
    assert twice.grants == [g, h] && twice.nodes[node].availGpu > once.nodes[node].availGpu;
  }

  lemma SecondSettles(s: State, both: State, id: Id, other: Id, node: NodeId, strategy: Strategy)
    requires id != other && Room(s, id, node, strategy) && Room(s, other, node, strategy) && BothHold(s, both, id, other, node, strategy)
    ensures var once := Halfway(s, both, id, other, node, strategy); Settle(once, id) == once.grants
  {
    hide Fits;
    var once := Halfway(s, both, id, other, node, strategy);
    forall i: nat ensures !Holds(once, id, i) {
    }
  }
}
