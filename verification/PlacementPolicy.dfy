/**
  What callers must keep to for the GPU ledger to work out. They know which calls are in progress,
  and which jobs they owe a release: those whose last GPU placement has been returned to them and
  not released since. Both can be read off the run, without looking at the ledger.
 */
module PlacementPolicy {
  import opened Values
  import opened Jobs
  import opened Matcher
  import opened Store
  import opened Dispatcher
  import opened GpuLedger

  /** The jobs owed a release after one more step. */
  function Owed(s: State, owed: set<Id>, step: Step): set<Id> {
    match step
    case Mark(d) =>
      if CallOf(s, d).Marking? && CallOf(s, d).target.Some? then owed + {CallOf(s, d).job.id} else owed
    case Release(id) => owed - {id}
    case _ => owed
  }

  /** Some call is working on the job. */
  ghost predicate Held(s: State, id: Id) {
    exists d :: d in s.calls && !s.calls[d].Idle? && s.calls[d].job.id == id
  }

  /** Calls that schedule one job do not overlap. */
  ghost predicate Exclusive(s: State, owed: set<Id>, step: Step) {
    step.Pick? ==> !Held(s, step.id)
  }

  /** A job is not scheduled again before its last GPU placement is released. */
  predicate Returned(s: State, owed: set<Id>, step: Step) {
    step.Pick? ==> step.id !in owed
  }

  /** A job's resources are not released in the middle of a call that schedules it. */
  ghost predicate Settled(s: State, owed: set<Id>, step: Step) {
    step.Release? ==> NothingToRelease(s, step.id) || !Held(s, step.id)
  }

  /** A placement is released once. */
  predicate Once(s: State, owed: set<Id>, step: Step) {
    step.Release? ==> step.id in owed || NothingToRelease(s, step.id)
  }

  /** Once, or where the clamp swallows the second release. */
  predicate OnceOrFree(s: State, owed: set<Id>, step: Step) {
    step.Release? ==> step.id in owed || NothingToRelease(s, step.id) || NodeIsFree(s, step.id)
  }

  /** No release is cut by the clamp. */
  ghost predicate Unclamped(s: State, owed: set<Id>, step: Step) {
    step.Release? && !NothingToRelease(s, step.id) ==>
      var node := s.nodes[s.jobs[step.id].assignedNode];
      Give(node, s.jobs[step.id].gpu).availGpu == node.availGpu + s.jobs[step.id].gpu
  }

  type Rule = (State, set<Id>, Step) -> bool

  /** Every step of the run keeps to the rule. */
  ghost predicate Throughout(rule: Rule, s: State, owed: set<Id>, schedule: seq<Step>)
    decreases |schedule|
  {
    schedule == [] ||
    (rule(s, owed, schedule[0]) && Throughout(rule, Next(s, schedule[0]), Owed(s, owed, schedule[0]), schedule[1..]))
  }

  /** No job has two unreleased grants. */
  ghost predicate OneGrantEach(grants: seq<Grant>) {
    forall i, j | 0 <= i < j < |grants| && !grants[i].released && !grants[j].released :: grants[i].job != grants[j].job
  }

  // ----- the invariant -----

  /** The call has been granted GPUs and not recorded them yet. */
  predicate Granted(call: Call) {
    call.Marking? && call.target.Some?
  }

  ghost predicate CallsTracked(s: State, owed: set<Id>, slot: map<Id, nat>) {
    && (forall d | d in s.calls && !s.calls[d].Idle? ::
          var job := s.calls[d].job;
          && job.id in s.jobs && job.gpu == s.jobs[job.id].gpu && job.id !in owed
          && (job.id in slot ==> Granted(s.calls[d])))
    && forall d, e | d in s.calls && e in s.calls && d != e && !s.calls[d].Idle? && !s.calls[e].Idle? ::
         s.calls[d].job.id != s.calls[e].job.id
  }

  /** `slot` finds each job's unreleased grant, which is the one its record or its call names. */
  ghost predicate SlotsTracked(s: State, owed: set<Id>, slot: map<Id, nat>) {
    && (forall i | 0 <= i < |s.grants| && !s.grants[i].released ::
          s.grants[i].job in slot && slot[s.grants[i].job] == i && s.grants[i].node in s.nodes)
    && (forall id | id in slot :: slot[id] < |s.grants| && s.grants[slot[id]].job == id && !s.grants[slot[id]].released)
    && (forall id | id in slot && id in owed ::
          id in s.jobs && s.grants[slot[id]] == Grant(id, s.jobs[id].assignedNode, s.jobs[id].gpu, false))
  }

  /** Every unreleased grant is some caller's business: a call's, or a release's. */
  ghost predicate SlotsHeld(s: State, owed: set<Id>, slot: map<Id, nat>) {
    forall id | id in slot :: id in owed || Held(s, id)
  }

  ghost predicate GrantsTracked(s: State, slot: map<Id, nat>) {
    forall d | d in s.calls && Granted(s.calls[d]) ::
      && s.calls[d].target.value in s.nodes
      && var job := s.calls[d].job;
         job.id in slot ==>
           slot[job.id] < |s.grants| && s.grants[slot[job.id]] == Grant(job.id, s.calls[d].target.value, job.gpu, false)
  }

  ghost predicate Tracked(s: State, owed: set<Id>, slot: map<Id, nat>) {
    && JobsKeyed(s.jobs) && "" !in s.nodes && owed <= s.jobs.Keys
    && CallsTracked(s, owed, slot) && SlotsTracked(s, owed, slot) && SlotsHeld(s, owed, slot) && GrantsTracked(s, slot)
  }

  /** Nothing owed has been given back behind the callers' backs. */
  ghost predicate Tight(s: State, owed: set<Id>, slot: map<Id, nat>) {
    && owed <= slot.Keys
    && forall d | d in s.calls && Granted(s.calls[d]) :: s.calls[d].job.id in slot
  }

  /** Where the unreleased grants are after one more step. */
  ghost function SlotNext(s: State, slot: map<Id, nat>, step: Step): map<Id, nat> {
    match step
    case Allocate(d) =>
      if Next(s, step).grants != s.grants && CallOf(s, d).Matched? then slot[CallOf(s, d).job.id := |s.grants|] else slot
    case Release(id) =>
      if Next(s, step).grants != s.grants then slot - {id} else slot
    case _ => slot
  }

  /** A call keeps holding its job while another call moves on. */
  lemma StillHeld(s: State, s': State, d: nat, id: Id)
    requires forall e | e in s.calls && e != d :: e in s'.calls && s'.calls[e] == s.calls[e]
    ensures Held(s, id) ==> Held(s', id) || (d in s.calls && !s.calls[d].Idle? && s.calls[d].job.id == id)
  {
    if e :| e in s.calls && !s.calls[e].Idle? && s.calls[e].job.id == id && e != d {
      assert s'.calls[e].job.id == id;
    }
  }

  /** One call moves on: the grants it does not hold stay where they were, and its own grant, if
      it has one, is either still its own or owed. */
  lemma SlotsStayHeld(s: State, s': State, owed: set<Id>, owed': set<Id>, slot: map<Id, nat>, slot': map<Id, nat>, d: nat)
    requires SlotsHeld(s, owed, slot) && owed <= owed'
    requires forall e | e in s.calls && e != d :: e in s'.calls && s'.calls[e] == s.calls[e]
    requires forall id | id in slot' && id !in slot :: d in s'.calls && !s'.calls[d].Idle? && s'.calls[d].job.id == id
    requires d in s.calls && !s.calls[d].Idle? && s.calls[d].job.id in slot ==>
               s.calls[d].job.id in owed' || (d in s'.calls && !s'.calls[d].Idle? && s'.calls[d].job.id == s.calls[d].job.id)
    ensures SlotsHeld(s', owed', slot')
  {
    forall id | id in slot' ensures id in owed' || Held(s', id) {
      if id in slot {
        StillHeld(s, s', d, id);
      }
    }
  }

  lemma UnheldHasNoSlot(s: State, owed: set<Id>, slot: map<Id, nat>, id: Id)
    requires SlotsHeld(s, owed, slot) && !Held(s, id) && id !in owed
    ensures id !in slot && forall d | d in s.calls && !s.calls[d].Idle? :: s.calls[d].job.id != id
  {
  }

  /** The job may be taken up by call d: no other call has it, and nothing is granted for it. */
  ghost predicate Eligible(s: State, owed: set<Id>, slot: map<Id, nat>, d: nat, job: Job) {
    && job.id in s.jobs && job.gpu == s.jobs[job.id].gpu && job.id !in owed && job.id !in slot
    && forall e | e in s.calls && e != d && !s.calls[e].Idle? :: s.calls[e].job.id != job.id
  }

  /** A call without a grant moves on without one. */
  lemma CallMoves(s: State, owed: set<Id>, slot: map<Id, nat>, d: nat, call: Call)
    requires Tracked(s, owed, slot) && !Granted(CallOf(s, d)) && !Granted(call)
    requires call.Idle? || Eligible(s, owed, slot, d, call.job)
    ensures Tracked(s.(calls := s.calls[d := call]), owed, slot)
  {
    var s' := s.(calls := s.calls[d := call]);
    SlotsStayHeld(s, s', owed, owed, slot, slot, d);
    CallMovesCalls(s, owed, slot, d, call);
    CallMovesGrants(s, slot, d, call);
    hide SlotsHeld, Held, CallsTracked, GrantsTracked, Eligible;
  }

  lemma CallMovesCalls(s: State, owed: set<Id>, slot: map<Id, nat>, d: nat, call: Call)
    requires CallsTracked(s, owed, slot)
    requires call.Idle? || Eligible(s, owed, slot, d, call.job)
    ensures CallsTracked(s.(calls := s.calls[d := call]), owed, slot)
  {
  }

  lemma CallMovesGrants(s: State, slot: map<Id, nat>, d: nat, call: Call)
    requires GrantsTracked(s, slot) && !Granted(call)
    ensures GrantsTracked(s.(calls := s.calls[d := call]), slot)
  {
  }

  lemma CallStaysTight(s: State, owed: set<Id>, slot: map<Id, nat>, d: nat, call: Call)
    requires Tight(s, owed, slot) && !Granted(call)
    ensures Tight(s.(calls := s.calls[d := call]), owed, slot)
  {
  }

  lemma PickIsEligible(s: State, owed: set<Id>, slot: map<Id, nat>, d: nat, id: Id)
    requires Tracked(s, owed, slot) && id in s.jobs && !Held(s, id) && id !in owed
    ensures Eligible(s, owed, slot, d, s.jobs[id])
  {
    UnheldHasNoSlot(s, owed, slot, id);
    hide SlotsTracked, GrantsTracked, SlotsHeld, Held;
  }

  lemma CurrentIsEligible(s: State, owed: set<Id>, slot: map<Id, nat>, d: nat)
    requires Tracked(s, owed, slot) && !CallOf(s, d).Idle? && !Granted(CallOf(s, d))
    ensures Eligible(s, owed, slot, d, CallOf(s, d).job)
  {
    hide SlotsTracked, GrantsTracked, SlotsHeld, Held;
  }

  lemma PickTracked(s: State, owed: set<Id>, slot: map<Id, nat>, d: nat, id: Id, strategy: Strategy)
    requires Tracked(s, owed, slot) && Enabled(s, Pick(d, id), strategy) && !Held(s, id) && id !in owed
    ensures Tracked(Next(s, Pick(d, id)), owed, slot)
    ensures Tight(s, owed, slot) ==> Tight(Next(s, Pick(d, id)), owed, slot)
  {
    hide Tracked, Tight, Held, Eligible;
    var job := s.jobs[id];
    var call := if job.gpu > 0 then Chosen(job) else Marking(job, None);
    PickIsEligible(s, owed, slot, d, id);
    CallMoves(s, owed, slot, d, call);
    if Tight(s, owed, slot) {
      CallStaysTight(s, owed, slot, d, call);
    }
  }

  /** Listing, matching and a failed allocation leave the job ungranted. */
  lemma AdvanceTracked(s: State, owed: set<Id>, slot: map<Id, nat>, d: nat, call: Call)
    requires Tracked(s, owed, slot) && !CallOf(s, d).Idle? && !Granted(CallOf(s, d))
    requires call.Idle? || (!Granted(call) && call.job == CallOf(s, d).job)
    ensures Tracked(s.(calls := s.calls[d := call]), owed, slot)
    ensures Tight(s, owed, slot) ==> Tight(s.(calls := s.calls[d := call]), owed, slot)
  {
    hide Tracked, Tight, Eligible;
    CurrentIsEligible(s, owed, slot, d);
    CallMoves(s, owed, slot, d, call);
    if Tight(s, owed, slot) {
      CallStaysTight(s, owed, slot, d, call);
    }
  }

  lemma AllocateTracked(s: State, owed: set<Id>, slot: map<Id, nat>, d: nat)
    requires Tracked(s, owed, slot) && CallOf(s, d).Matched?
    ensures var step := Allocate(d);
            Tracked(Next(s, step), owed, SlotNext(s, slot, step))
  {
    var Matched(job, id) := CallOf(s, d);
    if id in s.nodes && s.nodes[id].availGpu >= job.gpu {
      AllocationEffect(s, slot, d);
      hide Next, SlotNext;
      GrantedTracked(s, owed, slot, d, Take(s.nodes[id], job.gpu));
    } else {
      AdvanceTracked(s, owed, slot, d, Idle);
    }
  }

  ghost function WithGrant(s: State, d: nat, node: Node): State
    requires CallOf(s, d).Matched?
  {
    var Matched(job, id) := CallOf(s, d);
    s.(nodes := s.nodes[id := node], calls := s.calls[d := Marking(job, Some(id))],
       grants := s.grants + [Grant(job.id, id, job.gpu, false)])
  }

  lemma AllocationEffect(s: State, slot: map<Id, nat>, d: nat)
    requires CallOf(s, d).Matched?
    requires var Matched(job, id) := CallOf(s, d); id in s.nodes && s.nodes[id].availGpu >= job.gpu
    ensures var Matched(job, id) := CallOf(s, d);
            && Next(s, Allocate(d)) == WithGrant(s, d, Take(s.nodes[id], job.gpu))
            && SlotNext(s, slot, Allocate(d)) == slot[job.id := |s.grants|]
  {
    assert |Next(s, Allocate(d)).grants| == |s.grants| + 1;
  }

  lemma GrantedTracked(s: State, owed: set<Id>, slot: map<Id, nat>, d: nat, node: Node)
    requires Tracked(s, owed, slot) && CallOf(s, d).Matched? && CallOf(s, d).node in s.nodes
    ensures Tracked(WithGrant(s, d, node), owed, slot[CallOf(s, d).job.id := |s.grants|])
  {
    var s', job := WithGrant(s, d, node), CallOf(s, d).job;
    var slot' := slot[job.id := |s.grants|];
    GrantedCalls(s, owed, slot, d, s');
    SlotsStayHeld(s, s', owed, owed, slot, slot', d);
    assert job.id !in slot && job.id !in owed;
    GrantedSlots(s, owed, slot, d, node);
    GrantedGrants(s, owed, slot, d, node);
    hide SlotsHeld, Held, CallsTracked, SlotsTracked, GrantsTracked;
  }

  lemma GrantedSlots(s: State, owed: set<Id>, slot: map<Id, nat>, d: nat, node: Node)
    requires SlotsTracked(s, owed, slot) && CallOf(s, d).Matched? && CallOf(s, d).node in s.nodes
    requires CallOf(s, d).job.id !in slot && CallOf(s, d).job.id !in owed
    ensures SlotsTracked(WithGrant(s, d, node), owed, slot[CallOf(s, d).job.id := |s.grants|])
  {
  }

  lemma GrantedGrants(s: State, owed: set<Id>, slot: map<Id, nat>, d: nat, node: Node)
    requires GrantsTracked(s, slot) && CallsTracked(s, owed, slot)
    requires CallOf(s, d).Matched? && CallOf(s, d).node in s.nodes
    ensures GrantsTracked(WithGrant(s, d, node), slot[CallOf(s, d).job.id := |s.grants|])
  {
  }

  lemma GrantedCalls(s: State, owed: set<Id>, slot: map<Id, nat>, d: nat, s': State)
    requires CallsTracked(s, owed, slot) && CallOf(s, d).Matched? && s'.jobs == s.jobs
    requires s'.calls == s.calls[d := Marking(CallOf(s, d).job, Some(CallOf(s, d).node))]
    ensures CallsTracked(s', owed, slot[CallOf(s, d).job.id := |s.grants|])
  {
  }

  lemma AllocateStaysTight(s: State, owed: set<Id>, slot: map<Id, nat>, d: nat)
    requires Tracked(s, owed, slot) && CallOf(s, d).Matched? && Tight(s, owed, slot)
    ensures var step := Allocate(d);
            Tight(Next(s, step), owed, SlotNext(s, slot, step))
  {
    var Matched(job, id) := CallOf(s, d);
    if id in s.nodes && s.nodes[id].availGpu >= job.gpu {
      assert |Next(s, Allocate(d)).grants| == |s.grants| + 1;
    }
  }

  lemma MarkTracked(s: State, owed: set<Id>, slot: map<Id, nat>, d: nat)
    requires Tracked(s, owed, slot) && CallOf(s, d).Marking?
    ensures var step := Mark(d);
            && Tracked(Next(s, step), Owed(s, owed, step), slot)
            && (Tight(s, owed, slot) ==> Tight(Next(s, step), Owed(s, owed, step), slot))
  {
    var Marking(job, target) := CallOf(s, d);
    var s', owed' := Next(s, Mark(d)), Owed(s, owed, Mark(d));
    MarkedRecord(s, owed, d);
    SlotsStayHeld(s, s', owed, owed', slot, slot, d);
    hide Next, Owed, Marked, SlotsHeld, Held;
    RecordedTracked(s, owed, slot, d, s', owed');
  }

  /** What recording a call does to the job's record. */
  ghost predicate Records(s: State, owed: set<Id>, d: nat, s': State, owed': set<Id>)
    requires CallOf(s, d).Marking?
  {
    var Marking(job, target) := CallOf(s, d);
    && s' == s.(jobs := s'.jobs, calls := s.calls[d := Idle])
    && job.id in s.jobs && job.id in s'.jobs && s'.jobs == s.jobs[job.id := s'.jobs[job.id]]
    && s'.jobs[job.id].id == job.id && s'.jobs[job.id].gpu == job.gpu
    && (target.Some? ==> s'.jobs[job.id].assignedNode == target.value && owed' == owed + {job.id})
    && (target.None? ==> owed' == owed)
  }

  lemma MarkedRecord(s: State, owed: set<Id>, d: nat)
    requires CallOf(s, d).Marking? && CallOf(s, d).job.id in s.jobs && CallOf(s, d).target != Some("")
    ensures Records(s, owed, d, Next(s, Mark(d)), Owed(s, owed, Mark(d)))
  {
  }

  lemma RecordedTracked(s: State, owed: set<Id>, slot: map<Id, nat>, d: nat, s': State, owed': set<Id>)
    requires Tracked(s, owed, slot) && CallOf(s, d).Marking? && SlotsHeld(s', owed', slot)
    requires Records(s, owed, d, s', owed')
    ensures Tracked(s', owed', slot)
    ensures Tight(s, owed, slot) ==> Tight(s', owed', slot)
  {
    hide SlotsHeld, Held;
    RecordedCalls(s, owed, slot, d, s', owed');
    CallMovesGrants(s, slot, d, Idle);
    assert GrantsTracked(s', slot);
    RecordedSlots(s, owed, slot, d, s', owed');
    if Tight(s, owed, slot) {
      RecordedStaysTight(s, owed, slot, d, s', owed');
    }
    assert JobsKeyed(s'.jobs) && owed' <= s'.jobs.Keys;
    hide CallsTracked, GrantsTracked, SlotsTracked, Tight, Records, JobsKeyed;
  }

  lemma RecordedStaysTight(s: State, owed: set<Id>, slot: map<Id, nat>, d: nat, s': State, owed': set<Id>)
    requires Tight(s, owed, slot) && CallOf(s, d).Marking? && Records(s, owed, d, s', owed')
    ensures Tight(s', owed', slot)
  {
  }

  lemma RecordedSlots(s: State, owed: set<Id>, slot: map<Id, nat>, d: nat, s': State, owed': set<Id>)
    requires CallsTracked(s, owed, slot) && SlotsTracked(s, owed, slot) && GrantsTracked(s, slot) && CallOf(s, d).Marking?
    requires Records(s, owed, d, s', owed')
    ensures SlotsTracked(s', owed', slot)
  {
    var job := CallOf(s, d).job;
    assert job.id !in owed && (job.id in slot ==> Granted(s.calls[d]));
    hide CallsTracked;
  }

  lemma RecordedCalls(s: State, owed: set<Id>, slot: map<Id, nat>, d: nat, s': State, owed': set<Id>)
    requires CallsTracked(s, owed, slot) && d in s.calls && !s.calls[d].Idle?
    requires s'.calls == s.calls[d := Idle] && s.jobs.Keys <= s'.jobs.Keys
    requires forall id | id in s.jobs :: s'.jobs[id].gpu == s.jobs[id].gpu
    requires owed <= owed' <= owed + {s.calls[d].job.id}
    ensures CallsTracked(s', owed', slot)
  {
  }

  /** A release settles the job's own unreleased grant or none. */
  lemma ReleaseSettles(s: State, owed: set<Id>, slot: map<Id, nat>, id: Id)
    requires Tracked(s, owed, slot) && Positive(s) && id in s.jobs
    ensures var s' := Next(s, Release(id));
            || s'.grants == s.grants
            || (id in slot && slot[id] < |s.grants| && s'.grants == s.grants[slot[id] := s.grants[slot[id]].(released := true)])
    ensures id in slot && id in owed ==>
              Holds(s, id, slot[id]) && !NothingToRelease(s, id) && Next(s, Release(id)).grants != s.grants
  {
    forall i: nat | Holds(s, id, i) ensures id in slot && i == slot[id] {
    }
    if id in slot && id in owed {
      assert Holds(s, id, slot[id]);
      var s' := Next(s, Release(id));
      assert s'.grants[slot[id]].released;
    }
  }

  lemma ReleaseTracked(s: State, owed: set<Id>, slot: map<Id, nat>, id: Id)
    requires Tracked(s, owed, slot) && Positive(s) && id in s.jobs
    ensures var step := Release(id);
            Tracked(Next(s, step), Owed(s, owed, step), SlotNext(s, slot, step))
  {
    ReleaseSettles(s, owed, slot, id);
    var s' := Next(s, Release(id));
    hide Settle;
    assert s' == s.(nodes := s'.nodes, grants := s'.grants) && s'.nodes.Keys == s.nodes.Keys;
    hide Next, Tracked, Positive, NothingToRelease, Holds;
    SettledTracked(s, owed, slot, id, s');
  }

  lemma SlotsStayHeldByCalls(s: State, s': State, owed: set<Id>, owed': set<Id>, slot: map<Id, nat>, slot': map<Id, nat>)
    requires SlotsHeld(s, owed, slot) && s'.calls == s.calls
    requires forall id | id in slot' :: id in slot && (id in owed ==> id in owed')
    ensures SlotsHeld(s', owed', slot')
  {
    forall id | id in slot' && Held(s, id) ensures Held(s', id) {
    }
  }

  lemma SettledTracked(s: State, owed: set<Id>, slot: map<Id, nat>, id: Id, s': State)
    requires Tracked(s, owed, slot)
    requires s' == s.(nodes := s'.nodes, grants := s'.grants) && s'.nodes.Keys == s.nodes.Keys
    requires s'.grants == s.grants
             || (id in slot && slot[id] < |s.grants|
                 && s'.grants == s.grants[slot[id] := s.grants[slot[id]].(released := true)])
    requires id in slot && id in owed ==> s'.grants != s.grants
    ensures Tracked(s', owed - {id}, if s'.grants != s.grants then slot - {id} else slot)
  {
    var slot' := if s'.grants != s.grants then slot - {id} else slot;
    SlotsStayHeldByCalls(s, s', owed, owed - {id}, slot, slot');
    SettledSlots(s, owed, slot, id, s');
    assert CallsTracked(s', owed - {id}, slot') by {
      hide SlotsTracked, GrantsTracked, SlotsHeld, Held;
    }
    SettledGrants(s, owed, slot, id, s');
    hide SlotsHeld, Held, CallsTracked, SlotsTracked, GrantsTracked;
  }

  lemma SettledSlots(s: State, owed: set<Id>, slot: map<Id, nat>, id: Id, s': State)
    requires SlotsTracked(s, owed, slot) && s' == s.(nodes := s'.nodes, grants := s'.grants) && s'.nodes.Keys == s.nodes.Keys
    requires s'.grants == s.grants
             || (id in slot && slot[id] < |s.grants|
                 && s'.grants == s.grants[slot[id] := s.grants[slot[id]].(released := true)])
    ensures SlotsTracked(s', owed - {id}, if s'.grants != s.grants then slot - {id} else slot)
  {
    if s'.grants != s.grants {
      assert forall i | 0 <= i < |s.grants| && i != slot[id] :: s'.grants[i] == s.grants[i];
    }
  }

  lemma SettledGrants(s: State, owed: set<Id>, slot: map<Id, nat>, id: Id, s': State)
    requires SlotsTracked(s, owed, slot) && GrantsTracked(s, slot)
    requires s' == s.(nodes := s'.nodes, grants := s'.grants) && s'.nodes.Keys == s.nodes.Keys
    requires s'.grants == s.grants
             || (id in slot && slot[id] < |s.grants|
                 && s'.grants == s.grants[slot[id] := s.grants[slot[id]].(released := true)])
    ensures GrantsTracked(s', if s'.grants != s.grants then slot - {id} else slot)
  {
  }

  lemma ReleaseStaysTight(s: State, owed: set<Id>, slot: map<Id, nat>, id: Id)
    requires Tracked(s, owed, slot) && Tight(s, owed, slot) && id in s.jobs
    requires NothingToRelease(s, id) || !Held(s, id)
    ensures var step := Release(id);
            Tight(Next(s, step), Owed(s, owed, step), SlotNext(s, slot, step))
  {
  }

  lemma StatusTracked(s: State, owed: set<Id>, slot: map<Id, nat>, s': State)
    requires Tracked(s, owed, slot) && s' == s.(jobs := s'.jobs) && JobsKeyed(s'.jobs) && s.jobs.Keys <= s'.jobs.Keys
    requires forall id | id in s.jobs :: s'.jobs[id].gpu == s.jobs[id].gpu && s'.jobs[id].assignedNode == s.jobs[id].assignedNode
    ensures Tracked(s', owed, slot)
    ensures Tight(s, owed, slot) ==> Tight(s', owed, slot)
  {
    SlotsStayHeldByCalls(s, s', owed, owed, slot, slot);
    StatusSlots(s, owed, slot, s');
    StatusCalls(s, owed, slot, s');
    assert GrantsTracked(s', slot);
    assert Tight(s, owed, slot) ==> Tight(s', owed, slot);
    hide SlotsHeld, Held, SlotsTracked, CallsTracked, GrantsTracked, Tight;
  }

  lemma StatusSlots(s: State, owed: set<Id>, slot: map<Id, nat>, s': State)
    requires SlotsTracked(s, owed, slot) && s' == s.(jobs := s'.jobs) && s.jobs.Keys <= s'.jobs.Keys
    requires forall id | id in s.jobs :: s'.jobs[id].gpu == s.jobs[id].gpu && s'.jobs[id].assignedNode == s.jobs[id].assignedNode
    ensures SlotsTracked(s', owed, slot)
  {
  }

  lemma StatusCalls(s: State, owed: set<Id>, slot: map<Id, nat>, s': State)
    requires CallsTracked(s, owed, slot) && s' == s.(jobs := s'.jobs) && s.jobs.Keys <= s'.jobs.Keys
    requires forall id | id in s.jobs :: s'.jobs[id].gpu == s.jobs[id].gpu
    ensures CallsTracked(s', owed, slot)
  {
  }

  lemma StepKeepsPositive(s: State, step: Step)
    requires Positive(s)
    ensures Positive(Next(s, step))
  {
  }

  /** Every step of a run in which calls on a job do not overlap and placements are returned
      before the next one keeps track of the unreleased grants. */
  lemma StepTracked(s: State, owed: set<Id>, slot: map<Id, nat>, step: Step, strategy: Strategy)
    requires Tracked(s, owed, slot) && Positive(s) && Enabled(s, step, strategy)
    requires Exclusive(s, owed, step) && Returned(s, owed, step)
    ensures Tracked(Next(s, step), Owed(s, owed, step), SlotNext(s, slot, step))
    ensures Tight(s, owed, slot) && Settled(s, owed, step) ==>
              Tight(Next(s, step), Owed(s, owed, step), SlotNext(s, slot, step))
  {
    hide Tracked, Tight, Held, MatchOn;
    match step
    case Pick(d, id) => PickTracked(s, owed, slot, d, id, strategy);
    case Drop(d) => AdvanceTracked(s, owed, slot, d, Idle);
    case List(d, items) => AdvanceTracked(s, owed, slot, d, Listed(CallOf(s, d).job, items));
    case Match(d, found) =>
      AdvanceTracked(s, owed, slot, d, if found.Some? then Matched(CallOf(s, d).job, found.value) else Idle);
    case Allocate(d) =>
      AllocateTracked(s, owed, slot, d);
      if Tight(s, owed, slot) {
        AllocateStaysTight(s, owed, slot, d);
      }
    case Mark(d) => MarkTracked(s, owed, slot, d);
    case Release(id) =>
      ReleaseTracked(s, owed, slot, id);
      if Tight(s, owed, slot) && Settled(s, owed, step) {
        ReleaseStaysTight(s, owed, slot, id);
      }
    case SetStatus(id, status) => KeyedJobs(s, owed, slot); StatusTracked(s, owed, slot, Next(s, step));
    case Submit(job) => KeyedJobs(s, owed, slot); StatusTracked(s, owed, slot, Next(s, step));
  }

  lemma KeyedJobs(s: State, owed: set<Id>, slot: map<Id, nat>)
    requires Tracked(s, owed, slot)
    ensures JobsKeyed(s.jobs)
  {
  }

  lemma TrackedMeansOneEach(s: State, owed: set<Id>, slot: map<Id, nat>)
    requires Tracked(s, owed, slot)
    ensures OneGrantEach(s.grants)
  {
  }

  lemma {:induction false} TrackedThroughout(s: State, owed: set<Id>, slot: map<Id, nat>, schedule: seq<Step>, strategy: Strategy)
    requires Tracked(s, owed, slot) && Positive(s) && Legal(s, schedule, strategy)
    requires Throughout(Exclusive, s, owed, schedule) && Throughout(Returned, s, owed, schedule)
    ensures OneGrantEach(Execute(s, schedule).grants)
    decreases |schedule|
  {
    hide Tracked, Positive, Enabled, Next, Owed, SlotNext, Exclusive, Returned;
    if schedule == [] {
      TrackedMeansOneEach(s, owed, slot);
    } else {
      StepTracked(s, owed, slot, schedule[0], strategy);
      StepKeepsPositive(s, schedule[0]);
      TrackedThroughout(Next(s, schedule[0]), Owed(s, owed, schedule[0]), SlotNext(s, slot, schedule[0]), schedule[1..], strategy);
    }
  }

  lemma InitIsTracked(s: State)
    requires Init(s)
    ensures Tracked(s, {}, map[]) && Tight(s, {}, map[]) && Positive(s) && Inv(s.nodes, s)
  {
  }

  /** Main result: in every run in which no two calls schedule one job at once and no job is
      scheduled again before its last GPU placement is released, no job ever has two unreleased
      grants. Releases may come at any time and as often as anyone likes. */
  lemma OneGrantPerJob(s: State, schedule: seq<Step>, strategy: Strategy)
    requires Init(s) && Legal(s, schedule, strategy)
    requires Throughout(Exclusive, s, {}, schedule) && Throughout(Returned, s, {}, schedule)
    ensures OneGrantEach(Execute(s, schedule).grants)
  {
    InitIsTracked(s);
    TrackedThroughout(s, {}, map[], schedule, strategy);
  }

  // ----- what the callers' rules mean for the balance -----

  /** What callers can see of a release is what the ledger says of it. */
  lemma ReleaseRuleIsExact(start: map<NodeId, Node>, s: State, owed: set<Id>, slot: map<Id, nat>, step: Step, strategy: Strategy)
    requires Inv(start, s) && Tracked(s, owed, slot) && Tight(s, owed, slot) && Settled(s, owed, step) && Enabled(s, step, strategy)
    ensures OnceOrFree(s, owed, step) <==> Benign(s, step)
    ensures Once(s, owed, step) && (forall n | n in start :: start[n].availGpu <= start[n].totalGpu) ==> Unclamped(s, owed, step)
  {
    if step.Release? {
      var id := step.id;
      forall i: nat | Holds(s, id, i) ensures id in slot && id in owed {
      }
      if id in owed {
        ReleaseSettles(s, owed, slot, id);
        if forall n | n in start :: start[n].availGpu <= start[n].totalGpu {
          ReleaseIsNotClamped(start, s, id);
        }
      }
    }
  }

  lemma {:induction false} RulesAreExact(start: map<NodeId, Node>, s: State, owed: set<Id>, slot: map<Id, nat>,
                                         schedule: seq<Step>, strategy: Strategy)
    requires Inv(start, s) && (forall n | n in start :: start[n].availGpu <= start[n].totalGpu)
    requires Tracked(s, owed, slot) && Tight(s, owed, slot) && Legal(s, schedule, strategy)
    requires Throughout(Exclusive, s, owed, schedule) && Throughout(Returned, s, owed, schedule)
    requires Throughout(Settled, s, owed, schedule)
    ensures Throughout(OnceOrFree, s, owed, schedule) <==> BenignThroughout(s, schedule)
    ensures Throughout(Once, s, owed, schedule) ==>
              BenignThroughout(s, schedule) && Throughout(Unclamped, s, owed, schedule)
    decreases |schedule|
  {
    hide Inv, Tracked, Tight, Enabled, Next, Owed, SlotNext, Exclusive, Returned, Settled, Once, OnceOrFree, Benign, Unclamped;
    if schedule != [] {
      var step := schedule[0];
      ReleaseRuleIsExact(start, s, owed, slot, step, strategy);
      OnceIsStricter(s, owed, step);
      if Benign(s, step) {
        StepKeepsInv(start, s, step, strategy);
        InvIsPositive(start, s);
        StepTracked(s, owed, slot, step, strategy);
        RulesAreExact(start, Next(s, step), Owed(s, owed, step), SlotNext(s, slot, step), schedule[1..], strategy);
      }
    }
  }

  lemma OnceIsStricter(s: State, owed: set<Id>, step: Step)
    ensures Once(s, owed, step) ==> OnceOrFree(s, owed, step)
  {
  }

  lemma InvIsPositive(start: map<NodeId, Node>, s: State)
    requires Inv(start, s)
    ensures Positive(s)
  {
  }

  /** Main result: when operations on one job do not overlap and a job is not scheduled again before
      its last placement is released, free plus outstanding grants stays constant throughout exactly
      when every release is the only one of its placement, does nothing, or goes to a free node. */
  lemma RunsBalanceExactly(s: State, schedule: seq<Step>, strategy: Strategy)
    requires Init(s) && Legal(s, schedule, strategy)
    requires Throughout(Exclusive, s, {}, schedule) && Throughout(Returned, s, {}, schedule)
    requires Throughout(Settled, s, {}, schedule)
    ensures BalancedThroughout(s.nodes, s, schedule) <==> Throughout(OnceOrFree, s, {}, schedule)
  {
    InitIsTracked(s);
    RulesAreExact(s.nodes, s, {}, map[], schedule, strategy);
    BalanceExactly(s.nodes, s, schedule, strategy);
  }

  /** Whoever releases only what is owed does not release in the middle of a call. */
  lemma {:induction false} OnceMeansSettled(s: State, owed: set<Id>, slot: map<Id, nat>, schedule: seq<Step>, strategy: Strategy)
    requires Tracked(s, owed, slot) && Positive(s) && Legal(s, schedule, strategy)
    requires Throughout(Exclusive, s, owed, schedule) && Throughout(Returned, s, owed, schedule)
    requires Throughout(Once, s, owed, schedule)
    ensures Throughout(Settled, s, owed, schedule)
    decreases |schedule|
  {
    hide Tracked, Positive, Enabled, Next, Owed, SlotNext, Exclusive, Returned, Once, Settled;
    if schedule != [] {
      OwedIsNotHeld(s, owed, slot, schedule[0]);
      StepTracked(s, owed, slot, schedule[0], strategy);
      StepKeepsPositive(s, schedule[0]);
      OnceMeansSettled(Next(s, schedule[0]), Owed(s, owed, schedule[0]), SlotNext(s, slot, schedule[0]), schedule[1..], strategy);
    }
  }

  lemma OwedIsNotHeld(s: State, owed: set<Id>, slot: map<Id, nat>, step: Step)
    requires Tracked(s, owed, slot) && Once(s, owed, step)
    ensures Settled(s, owed, step)
  {
  }

  /** Main result: if every placement is released at most once, and before the job is scheduled
      again, and calls on one job do not overlap, then every node keeps 0 <= free <= total, the
      balance holds throughout, the clamp cuts no release, and no job has two unreleased grants. */
  lemma CarefulRunsBalance(s: State, schedule: seq<Step>, strategy: Strategy)
    requires Init(s) && Legal(s, schedule, strategy)
    requires Throughout(Exclusive, s, {}, schedule) && Throughout(Returned, s, {}, schedule)
    requires Throughout(Once, s, {}, schedule)
    ensures BalancedThroughout(s.nodes, s, schedule) && Inv(s.nodes, Execute(s, schedule))
    ensures Throughout(Unclamped, s, {}, schedule) && OneGrantEach(Execute(s, schedule).grants)
  {
    InitIsTracked(s);
    OnceMeansSettled(s, {}, map[], schedule, strategy);
    RulesAreExact(s.nodes, s, {}, map[], schedule, strategy);
    BalanceExactly(s.nodes, s, schedule, strategy);
    OneGrantPerJob(s, schedule, strategy);
  }
}
