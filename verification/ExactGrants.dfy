/**
  When exactly a job never has two unreleased grants. Calls may overlap and jobs may be scheduled
  again at will: what counts is whether an allocation goes through for a job whose last grant is
  still owed a release, or is still in the hands of another call.
 */
module ExactGrants {
  import opened Values
  import opened Jobs
  import opened Matcher
  import opened Store
  import opened Dispatcher
  import opened GpuLedger
  import opened PlacementPolicy

  /** Some call has been granted GPUs for the job and not recorded them yet. */
  ghost predicate IsGranted(s: State, id: Id) {
    exists d :: d in s.calls && Granted(s.calls[d]) && s.calls[d].job.id == id
  }

  predicate Succeeds(s: State, step: Step) {
    && step.Allocate? && CallOf(s, step.d).Matched?
    && var Matched(job, id) := CallOf(s, step.d);
       id in s.nodes && s.nodes[id].availGpu >= job.gpu
  }

  /** An allocation goes through only for a job neither owed a release nor granted to another call. */
  ghost predicate Clear(s: State, owed: set<Id>, step: Step) {
    Succeeds(s, step) ==>
      var id := CallOf(s, step.d).job.id;
      id !in owed && !IsGranted(s, id)
  }

  /** No release comes between the allocation for its job and the record of it. */
  ghost predicate Undisturbed(s: State, owed: set<Id>, step: Step) {
    step.Release? ==> NothingToRelease(s, step.id) || !IsGranted(s, step.id)
  }

  /** No job has two unreleased grants at any point of the run. */
  ghost predicate OneGrantThroughout(s: State, schedule: seq<Step>)
    decreases |schedule|
  {
    OneGrantEach(s.grants) && (schedule == [] || OneGrantThroughout(Next(s, schedule[0]), schedule[1..]))
  }

  // ----- the invariant: every unreleased grant is owed, or some call's -----

  predicate CallsAccounted(s: State) {
    forall d | d in s.calls && !s.calls[d].Idle? ::
      && s.calls[d].job.id in s.jobs && s.calls[d].job.gpu == s.jobs[s.calls[d].job.id].gpu
      && (s.calls[d].Marking? && s.calls[d].target.None? ==> s.calls[d].job.gpu <= 0)
  }

  /** `slot` finds each job's unreleased grant. */
  ghost predicate SlotsAccounted(s: State, slot: map<Id, nat>) {
    && (forall i | 0 <= i < |s.grants| && !s.grants[i].released ::
          s.grants[i].job in slot && slot[s.grants[i].job] == i && s.grants[i].node in s.nodes)
    && (forall id | id in slot :: slot[id] < |s.grants| && s.grants[slot[id]].job == id && !s.grants[slot[id]].released)
  }

  predicate OwedAccounted(s: State, owed: set<Id>, slot: map<Id, nat>) {
    forall id | id in owed ::
      && id in slot && id in s.jobs && slot[id] < |s.grants|
      && s.grants[slot[id]] == Grant(id, s.jobs[id].assignedNode, s.jobs[id].gpu, false)
  }

  ghost predicate GrantedAccounted(s: State, owed: set<Id>, slot: map<Id, nat>) {
    && (forall d | d in s.calls && Granted(s.calls[d]) ::
          var job := s.calls[d].job;
          && job.id in slot && job.id !in owed && slot[job.id] < |s.grants|
          && s.grants[slot[job.id]] == Grant(job.id, s.calls[d].target.value, job.gpu, false))
    && (forall d, e | d in s.calls && e in s.calls && d != e && Granted(s.calls[d]) && Granted(s.calls[e]) ::
          s.calls[d].job.id != s.calls[e].job.id)
  }

  ghost predicate NoneStray(s: State, owed: set<Id>, slot: map<Id, nat>) {
    forall id | id in slot :: id in owed || IsGranted(s, id)
  }

  ghost predicate Accounted(s: State, owed: set<Id>, slot: map<Id, nat>) {
    && JobsKeyed(s.jobs) && "" !in s.nodes && Positive(s) && CallsAccounted(s)
    && SlotsAccounted(s, slot) && OwedAccounted(s, owed, slot) && GrantedAccounted(s, owed, slot) && NoneStray(s, owed, slot)
  }

  /** The other calls keep their grants. */
  lemma OthersStayGranted(s: State, s': State, d: nat)
    requires forall e | e in s.calls && e != d :: e in s'.calls && s'.calls[e] == s.calls[e]
    ensures forall id | IsGranted(s, id) && !(Granted(CallOf(s, d)) && CallOf(s, d).job.id == id) :: IsGranted(s', id)
  {
    forall id | IsGranted(s, id) && !(Granted(CallOf(s, d)) && CallOf(s, d).job.id == id) ensures IsGranted(s', id) {
      var e :| e in s.calls && Granted(s.calls[e]) && s.calls[e].job.id == id;
      assert s'.calls[e] == s.calls[e];
    }
  }

  /** A call without a grant moves on without one. */
  lemma UngrantedMoves(s: State, owed: set<Id>, slot: map<Id, nat>, d: nat, call: Call)
    requires Accounted(s, owed, slot) && !Granted(CallOf(s, d)) && !Granted(call)
    requires var s' := s.(calls := s.calls[d := call]); Positive(s') && CallsAccounted(s')
    ensures Accounted(s.(calls := s.calls[d := call]), owed, slot)
  {
    var s' := s.(calls := s.calls[d := call]);
    OthersStayGranted(s, s', d);
    UngrantedKeeps(s, owed, slot, d, call);
    hide Positive, CallsAccounted, SlotsAccounted, OwedAccounted, GrantedAccounted, IsGranted;
  }

  lemma UngrantedKeeps(s: State, owed: set<Id>, slot: map<Id, nat>, d: nat, call: Call)
    requires SlotsAccounted(s, slot) && OwedAccounted(s, owed, slot) && GrantedAccounted(s, owed, slot) && !Granted(call)
    ensures var s' := s.(calls := s.calls[d := call]);
            SlotsAccounted(s', slot) && OwedAccounted(s', owed, slot) && GrantedAccounted(s', owed, slot)
  {
  }

  lemma AllocateAccounted(s: State, owed: set<Id>, slot: map<Id, nat>, d: nat)
    requires Accounted(s, owed, slot) && Succeeds(s, Allocate(d)) && Clear(s, owed, Allocate(d))
    ensures Accounted(Next(s, Allocate(d)), owed, slot[CallOf(s, d).job.id := |s.grants|])
  {
    var s', job := Next(s, Allocate(d)), CallOf(s, d).job;
    StepKeepsPositive(s, Allocate(d));
    assert job.id !in slot;
    assert s'.calls == s.calls[d := Marking(job, Some(CallOf(s, d).node))] && s'.jobs == s.jobs && s'.nodes.Keys == s.nodes.Keys;
    AllocationAccounted(s, owed, slot, d);
    OthersStayGranted(s, s', d);
    assert Granted(s'.calls[d]) && IsGranted(s', job.id);
    hide Next, Positive, SlotsAccounted, OwedAccounted, GrantedAccounted, CallsAccounted, IsGranted, Clear, Succeeds;
  }

  lemma AllocationAccounted(s: State, owed: set<Id>, slot: map<Id, nat>, d: nat)
    requires CallsAccounted(s) && SlotsAccounted(s, slot) && OwedAccounted(s, owed, slot) && GrantedAccounted(s, owed, slot)
    requires Succeeds(s, Allocate(d)) && CallOf(s, d).job.id !in owed && CallOf(s, d).job.id !in slot
    ensures var s', slot' := Next(s, Allocate(d)), slot[CallOf(s, d).job.id := |s.grants|];
            CallsAccounted(s') && SlotsAccounted(s', slot') && OwedAccounted(s', owed, slot') && GrantedAccounted(s', owed, slot')
  {
    var s', slot' := Next(s, Allocate(d)), slot[CallOf(s, d).job.id := |s.grants|];
    AllocationGrants(s, owed, slot, d);
    assert CallsAccounted(s');
    hide CallsAccounted, GrantedAccounted;
  }

  lemma AllocationGrants(s: State, owed: set<Id>, slot: map<Id, nat>, d: nat)
    requires GrantedAccounted(s, owed, slot) && Succeeds(s, Allocate(d))
    requires CallOf(s, d).job.id !in owed && CallOf(s, d).job.id !in slot
    ensures GrantedAccounted(Next(s, Allocate(d)), owed, slot[CallOf(s, d).job.id := |s.grants|])
  {
  }

  /** A grant that is not clear is the job's second. */
  lemma UnclearGrantsTwice(s: State, owed: set<Id>, slot: map<Id, nat>, step: Step)
    requires Accounted(s, owed, slot) && !Clear(s, owed, step)
    ensures !OneGrantEach(Next(s, step).grants)
  {
    var id := CallOf(s, step.d).job.id;
    assert id in slot;
    var grants := Next(s, step).grants;
    assert grants[slot[id]].job == id == grants[|s.grants|].job;
  }

  lemma MarkAccounted(s: State, owed: set<Id>, slot: map<Id, nat>, d: nat)
    requires Accounted(s, owed, slot) && CallOf(s, d).Marking?
    ensures Accounted(Next(s, Mark(d)), Owed(s, owed, Mark(d)), slot)
  {
    var s', owed' := Next(s, Mark(d)), Owed(s, owed, Mark(d));
    StepKeepsPositive(s, Mark(d));
    MarkedRecord(s, owed, d);
    MarkedJob(s, owed, slot, d);
    hide Next, Owed, Accounted, Positive;
    MarkedAccounted(s, owed, slot, d, s', owed');
  }

  lemma MarkedJob(s: State, owed: set<Id>, slot: map<Id, nat>, d: nat)
    requires Accounted(s, owed, slot) && CallOf(s, d).Marking?
    ensures CallOf(s, d).job.id in s.jobs && s.jobs[CallOf(s, d).job.id].gpu == CallOf(s, d).job.gpu
    ensures CallOf(s, d).job.id !in owed && CallOf(s, d).target != Some("")
  {
    hide NoneStray;
  }

  lemma MarkedAccounted(s: State, owed: set<Id>, slot: map<Id, nat>, d: nat, s': State, owed': set<Id>)
    requires Accounted(s, owed, slot) && CallOf(s, d).Marking? && CallOf(s, d).job.id !in owed && Positive(s')
    requires CallOf(s, d).job.id in s.jobs && s.jobs[CallOf(s, d).job.id].gpu == CallOf(s, d).job.gpu
    requires Records(s, owed, d, s', owed')
    ensures Accounted(s', owed', slot)
  {
    OthersStayGranted(s, s', d);
    MarkedCalls(s, d, s');
    MarkedGrants(s, owed, slot, d, s', owed');
    assert JobsKeyed(s'.jobs);
    hide Positive, CallsAccounted, SlotsAccounted, OwedAccounted, GrantedAccounted, IsGranted, JobsKeyed;
  }

  lemma MarkedCalls(s: State, d: nat, s': State)
    requires CallsAccounted(s) && s'.calls == s.calls[d := Idle] && s.jobs.Keys <= s'.jobs.Keys
    requires forall id | id in s.jobs :: s'.jobs[id].gpu == s.jobs[id].gpu
    ensures CallsAccounted(s')
  {
  }

  lemma MarkedGrants(s: State, owed: set<Id>, slot: map<Id, nat>, d: nat, s': State, owed': set<Id>)
    requires SlotsAccounted(s, slot) && OwedAccounted(s, owed, slot) && GrantedAccounted(s, owed, slot)
    requires CallOf(s, d).Marking? && CallOf(s, d).job.id !in owed
    requires Records(s, owed, d, s', owed')
    ensures SlotsAccounted(s', slot) && OwedAccounted(s', owed', slot) && GrantedAccounted(s', owed', slot)
  {
    MarkedOwed(s, owed, slot, d, s', owed');
    hide OwedAccounted;
  }

  lemma MarkedOwed(s: State, owed: set<Id>, slot: map<Id, nat>, d: nat, s': State, owed': set<Id>)
    requires OwedAccounted(s, owed, slot) && GrantedAccounted(s, owed, slot)
    requires CallOf(s, d).Marking? && CallOf(s, d).job.id !in owed && Records(s, owed, d, s', owed')
    ensures OwedAccounted(s', owed', slot)
  {
  }

  ghost function SlotAfter(s: State, owed: set<Id>, slot: map<Id, nat>, step: Step): map<Id, nat> {
    if Succeeds(s, step) then slot[CallOf(s, step.d).job.id := |s.grants|]
    else if step.Release? && step.id in owed then slot - {step.id}
    else slot
  }

  /** A release settles what is owed, and nothing else. */
  lemma ReleaseSettlesOwed(s: State, owed: set<Id>, slot: map<Id, nat>, id: Id)
    requires Accounted(s, owed, slot) && Undisturbed(s, owed, Release(id))
    ensures id in owed ==>
              && slot[id] < |s.grants| && Holds(s, id, slot[id]) && !NothingToRelease(s, id)
              && Next(s, Release(id)).grants == s.grants[slot[id] := s.grants[slot[id]].(released := true)]
    ensures id !in owed ==> Next(s, Release(id)).grants == s.grants && (NothingToRelease(s, id) || forall i: nat :: !Holds(s, id, i))
  {
    forall i: nat | Holds(s, id, i) ensures id in slot && i == slot[id] && (id in owed || NothingToRelease(s, id)) {
    }
    if id in owed {
      assert Holds(s, id, slot[id]);
    }
  }

  lemma ReleaseAccounted(s: State, owed: set<Id>, slot: map<Id, nat>, id: Id)
    requires Accounted(s, owed, slot) && Undisturbed(s, owed, Release(id))
    ensures Accounted(Next(s, Release(id)), owed - {id}, if id in owed then slot - {id} else slot)
  {
    var s' := Next(s, Release(id));
    ReleaseSettlesOwed(s, owed, slot, id);
    StepKeepsPositive(s, Release(id));
    assert s' == s.(nodes := s'.nodes, grants := s'.grants) && s'.nodes.Keys == s.nodes.Keys;
    assert s'.grants != s.grants ==> id in owed;
    hide Next, Settle, Positive, NothingToRelease, Holds, Accounted;
    if id in owed {
      SettledAccounted(s, owed, slot, id, s');
    } else {
      assert owed - {id} == owed;
      SameGrantsAccounted(s, owed, slot, s');
    }
  }

  lemma SameGrantsAccounted(s: State, owed: set<Id>, slot: map<Id, nat>, s': State)
    requires Accounted(s, owed, slot) && s' == s.(nodes := s'.nodes) && s'.nodes.Keys == s.nodes.Keys && Positive(s')
    ensures Accounted(s', owed, slot)
  {
    CallsStayGranted(s, s');
    hide IsGranted;
  }

  lemma SettledAccounted(s: State, owed: set<Id>, slot: map<Id, nat>, id: Id, s': State)
    requires Accounted(s, owed, slot) && id in owed && slot[id] < |s.grants| && Positive(s')
    requires s' == s.(nodes := s'.nodes, grants := s.grants[slot[id] := s.grants[slot[id]].(released := true)])
    requires s'.nodes.Keys == s.nodes.Keys
    ensures Accounted(s', owed - {id}, slot - {id})
  {
    CallsStayGranted(s, s');
    SettledSlots(s, owed, slot, id, s');
    assert CallsAccounted(s');
    assert NoneStray(s', owed - {id}, slot - {id}) by {
      hide IsGranted, SlotsAccounted, OwedAccounted, GrantedAccounted;
    }
    hide Positive, CallsAccounted, IsGranted, SlotsAccounted, OwedAccounted, GrantedAccounted, NoneStray;
  }

  lemma CallsStayGranted(s: State, s': State)
    requires s'.calls == s.calls
    ensures forall id | IsGranted(s, id) :: IsGranted(s', id)
  {
  }

  lemma SettledSlots(s: State, owed: set<Id>, slot: map<Id, nat>, id: Id, s': State)
    requires SlotsAccounted(s, slot) && OwedAccounted(s, owed, slot) && GrantedAccounted(s, owed, slot)
    requires id in owed && slot[id] < |s.grants|
    requires s' == s.(nodes := s'.nodes, grants := s.grants[slot[id] := s.grants[slot[id]].(released := true)])
    requires s'.nodes.Keys == s.nodes.Keys
    ensures SlotsAccounted(s', slot - {id}) && OwedAccounted(s', owed - {id}, slot - {id})
    ensures GrantedAccounted(s', owed - {id}, slot - {id})
  {
    assert forall other | other in slot && other != id :: slot[other] != slot[id];
    assert forall i | 0 <= i < |s.grants| && i != slot[id] :: s'.grants[i] == s.grants[i];
  }

  /** Only the jobs' statuses change, or jobs are added. */
  lemma StatusAccounted(s: State, owed: set<Id>, slot: map<Id, nat>, s': State)
    requires Accounted(s, owed, slot) && s' == s.(jobs := s'.jobs) && JobsKeyed(s'.jobs) && s.jobs.Keys <= s'.jobs.Keys
    requires forall id | id in s.jobs :: s'.jobs[id].gpu == s.jobs[id].gpu && s'.jobs[id].assignedNode == s.jobs[id].assignedNode
    ensures Accounted(s', owed, slot)
  {
  }

  lemma StepAccounted(s: State, owed: set<Id>, slot: map<Id, nat>, step: Step, strategy: Strategy)
    requires Accounted(s, owed, slot) && Enabled(s, step, strategy)
    requires Undisturbed(s, owed, step) && Clear(s, owed, step)
    ensures Accounted(Next(s, step), Owed(s, owed, step), SlotAfter(s, owed, slot, step))
  {
    StepKeepsPositive(s, step);
    CallsStayAccounted(s, owed, slot, step, strategy);
    hide Accounted, Positive, CallsAccounted, Undisturbed, Clear, MatchOn;
    match step
    case Allocate(d) => AllocationStep(s, owed, slot, d);
    case Mark(d) => MarkAccounted(s, owed, slot, d);
    case Release(id) => ReleaseAccounted(s, owed, slot, id);
    case SetStatus(id, status) => AccountedJobs(s, owed, slot); StatusAccounted(s, owed, slot, Next(s, step));
    case Submit(job) => AccountedJobs(s, owed, slot); StatusAccounted(s, owed, slot, Next(s, step));
    case _ => LookingAccounted(s, owed, slot, step, strategy);
  }

  /** Picking, dropping, listing and matching grant nothing. */
  lemma LookingAccounted(s: State, owed: set<Id>, slot: map<Id, nat>, step: Step, strategy: Strategy)
    requires Accounted(s, owed, slot) && Enabled(s, step, strategy)
    requires step.Pick? || step.Drop? || step.List? || step.Match?
    requires Positive(Next(s, step)) && CallsAccounted(Next(s, step))
    ensures Accounted(Next(s, step), owed, slot)
  {
    hide Accounted, Positive, CallsAccounted, MatchOn;
    UngrantedMoves(s, owed, slot, step.d, Next(s, step).calls[step.d]);
  }

  lemma AllocationStep(s: State, owed: set<Id>, slot: map<Id, nat>, d: nat)
    requires Accounted(s, owed, slot) && CallOf(s, d).Matched? && Clear(s, owed, Allocate(d))
    requires Positive(Next(s, Allocate(d))) && CallsAccounted(Next(s, Allocate(d)))
    ensures Accounted(Next(s, Allocate(d)), owed, SlotAfter(s, owed, slot, Allocate(d)))
  {
    hide Accounted, Positive, CallsAccounted, Clear;
    if Succeeds(s, Allocate(d)) {
      AllocateAccounted(s, owed, slot, d);
    } else {
      UngrantedMoves(s, owed, slot, d, Idle);
    }
  }

  lemma AccountedJobs(s: State, owed: set<Id>, slot: map<Id, nat>)
    requires Accounted(s, owed, slot)
    ensures JobsKeyed(s.jobs)
  {
  }

  lemma CallsStayAccounted(s: State, owed: set<Id>, slot: map<Id, nat>, step: Step, strategy: Strategy)
    requires Accounted(s, owed, slot) && Enabled(s, step, strategy)
    ensures CallsAccounted(Next(s, step))
  {
    hide SlotsAccounted, OwedAccounted, GrantedAccounted, NoneStray, MatchOn;
  }

  lemma AccountedMeansOneEach(s: State, owed: set<Id>, slot: map<Id, nat>)
    requires Accounted(s, owed, slot)
    ensures OneGrantEach(s.grants)
  {
  }

  lemma {:induction false} ClearExactly(s: State, owed: set<Id>, slot: map<Id, nat>, schedule: seq<Step>, strategy: Strategy)
    requires Accounted(s, owed, slot) && Legal(s, schedule, strategy) && Throughout(Undisturbed, s, owed, schedule)
    ensures OneGrantThroughout(s, schedule) <==> Throughout(Clear, s, owed, schedule)
    decreases |schedule|
  {
    hide Accounted, Enabled, Next, Owed, SlotAfter, Clear, Undisturbed, OneGrantEach;
    AccountedMeansOneEach(s, owed, slot);
    if schedule != [] {
      var step := schedule[0];
      if Clear(s, owed, step) {
        StepAccounted(s, owed, slot, step, strategy);
        ClearExactly(Next(s, step), Owed(s, owed, step), SlotAfter(s, owed, slot, step), schedule[1..], strategy);
      } else {
        UnclearGrantsTwice(s, owed, slot, step);
      }
    }
  }

  lemma InitIsAccounted(s: State)
    requires Init(s)
    ensures Accounted(s, {}, map[])
  {
  }

  /** Main result: however calls overlap and jobs are retried, no job ever has two unreleased grants
      if and only if every allocation that goes through is for a job that is neither owed a release
      nor granted to another call. */
  lemma OneGrantExactly(s: State, schedule: seq<Step>, strategy: Strategy)
    requires Init(s) && Legal(s, schedule, strategy) && Throughout(Undisturbed, s, {}, schedule)
    ensures OneGrantThroughout(s, schedule) <==> Throughout(Clear, s, {}, schedule)
  {
    InitIsAccounted(s);
    ClearExactly(s, {}, map[], schedule, strategy);
  }

  // ----- the balance of such runs -----

  /** What callers can see of a release is what the ledger says of it. */
  lemma OwedIsBenign(s: State, owed: set<Id>, slot: map<Id, nat>, step: Step)
    requires Accounted(s, owed, slot) && Undisturbed(s, owed, step)
    ensures OnceOrFree(s, owed, step) <==> Benign(s, step)
  {
    if step.Release? {
      ReleaseSettlesOwed(s, owed, slot, step.id);
    }
  }

  lemma {:induction false} ClearRunsAreExact(s: State, owed: set<Id>, slot: map<Id, nat>, schedule: seq<Step>, strategy: Strategy)
    requires Accounted(s, owed, slot) && Legal(s, schedule, strategy)
    requires Throughout(Undisturbed, s, owed, schedule) && Throughout(Clear, s, owed, schedule)
    ensures Throughout(OnceOrFree, s, owed, schedule) <==> BenignThroughout(s, schedule)
    decreases |schedule|
  {
    hide Accounted, Enabled, Next, Owed, SlotAfter, Clear, Undisturbed, OnceOrFree, Benign;
    if schedule != [] {
      var step := schedule[0];
      OwedIsBenign(s, owed, slot, step);
      StepAccounted(s, owed, slot, step, strategy);
      ClearRunsAreExact(Next(s, step), Owed(s, owed, step), SlotAfter(s, owed, slot, step), schedule[1..], strategy);
    }
  }

  /** Main result: when no job ever has two unreleased grants, free plus outstanding grants stays
      constant throughout exactly when every release is owed, does nothing, or goes to a free node. */
  lemma OneGrantRunsBalanceExactly(s: State, schedule: seq<Step>, strategy: Strategy)
    requires Init(s) && Legal(s, schedule, strategy) && Throughout(Undisturbed, s, {}, schedule)
    requires OneGrantThroughout(s, schedule)
    ensures BalancedThroughout(s.nodes, s, schedule) <==> Throughout(OnceOrFree, s, {}, schedule)
  {
    OneGrantExactly(s, schedule, strategy);
    InitIsAccounted(s);
    ClearRunsAreExact(s, {}, map[], schedule, strategy);
    InitIsTracked(s);
    BalanceExactly(s.nodes, s, schedule, strategy);
  }
}
