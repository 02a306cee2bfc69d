/**
  The job and execution services as they run on the store, the counters and the dispatcher.
  Each call is shown to be a legal history of lifecycle events, so everything proved about all
  histories holds after every sequence of calls that do not overlap.
 */
module Services {
  import opened Values
  import opened Jobs
  import opened Matcher
  import opened Store
  import opened Telemetry
  import opened Dispatcher
  import opened Lifecycle

  /** The process-wide sequence behind nextID. */
  class IdSource {
    var sequence: nat

    constructor ()
      ensures sequence == 0
    {
      sequence := 0;
    }

    method NextId(prefix: string, nanos: int) returns (id: Id)
      modifies this
      ensures sequence == old(sequence) + 1 && id == Id(prefix, nanos, sequence)
    {
      sequence := sequence + 1;
      id := Id(prefix, nanos, sequence);
    }
  }

  datatype CreateInput = CreateInput(
    name: string,
    jobType: string,
    executor: string,
    command: seq<string>,
    priority: int,
    gpu: int,
    gpuMem: int,
    maxRetries: int,
    assignedNode: NodeId)

  datatype ServiceError =
    | NameRequired
    | UnsupportedType
    | ExecutorRequired
    | CommandRequired
    | NegativeGpu
    | NegativeRetries
    | NoSuchJob
    | WrongStatus(status: Status)
    | NotPlaced
    | RunFailed(error: string)

  datatype Reply<+T> = Good(value: T) | Bad(error: ServiceError)

  /** Validate: the first complaint, in the order the checks are made. */
  function Validate(input: CreateInput): Option<ServiceError> {
    if input.name == "" then Some(NameRequired)
    else if input.jobType !in {"training", "inference", "benchmark"} then Some(UnsupportedType)
    else if input.executor == "" then Some(ExecutorRequired)
    else if input.command == [] then Some(CommandRequired)
    else if input.gpu < 0 then Some(NegativeGpu)
    else if input.maxRetries < 0 then Some(NegativeRetries)
    else None
  }

  function JobFrom(input: CreateInput, id: Id, now: int): Job {
    Job(id, Pending, input.priority, now, input.gpu, input.gpuMem, input.maxRetries, 0, "", input.assignedNode)
  }

  /** What the executor made of a job; an unknown executor counts as a failure. */
  datatype RunOutcome = RunOk | RunError(error: string)

  function Ending(id: Id, outcome: RunOutcome): Event {
    match outcome
    case RunOk => Succeed(id)
    case RunError(error) => Fail(id, error)
  }

  class Platform {
    const repo: MemoryStore
    const metrics: Metrics
    const ids: IdSource
    const dispatch: Dispatch
    ghost var manual: seq<Id>
    ghost var requests: nat

    ghost function View(): World
      reads this, repo, metrics, ids
    {
      World(repo.jobs, repo.executions, repo.jobIndex,
            Counters(metrics.submitted, metrics.scheduled, metrics.running, metrics.succeeded,
                     metrics.failed, metrics.retried, metrics.cancelled, metrics.executionCount),
            ids.sequence, manual, requests)
    }

    ghost predicate Valid()
      reads this, repo, metrics, ids
    {
      && repo.Keyed()
      && dispatch.repo == repo
      && dispatch.metrics == metrics
      && Inv(View())
    }

    constructor (strategy: Strategy)
      ensures Valid() && View() == InitialWorld() && repo.nodes == map[]
      ensures fresh(repo) && fresh(metrics) && fresh(ids)
    {
      var store := new MemoryStore();
      var counters := new Metrics();
      repo := store;
      metrics := counters;
      ids := new IdSource();
      dispatch := new Dispatch(store, counters, strategy);
      manual := [];
      requests := 0;
      InitialInv();
    }

    method CreateJob(input: CreateInput, now: int) returns (r: Reply<Job>)
      requires Valid()
      modifies repo`jobs, metrics`submitted, ids
      ensures Valid()
      ensures Validate(input).Some? ==> r == Bad(Validate(input).value) && View() == old(View())
      ensures r.Good? <==>
                && input.name != "" && (input.jobType == "training" || input.jobType == "inference" || input.jobType == "benchmark")
                && input.executor != "" && input.command != [] && input.gpu >= 0 && input.maxRetries >= 0
      ensures r.Good? ==>
                && r.value.id in repo.jobs && repo.jobs[r.value.id] == r.value && r.value.status == Pending
                && r.value.createdAt == now && r.value.retryCount == 0 && r.value.lastError == ""
                && r.value.priority == input.priority && r.value.gpu == input.gpu && r.value.gpuMem == input.gpuMem
                && r.value.maxRetries == input.maxRetries && r.value.assignedNode == input.assignedNode
                && metrics.submitted == old(metrics.submitted) + 1
      ensures Validate(input).None? ==>
                && r.Good?
                && r.value == JobFrom(input, Id("job", now, ids.sequence), now)
                && Enabled(old(View()), Create(r.value))
                && View() == Apply(old(View()), Create(r.value))
    {
      hide Inv;
      var complaint := Validate(input);
      if complaint.Some? {
        return Bad(complaint.value);
      }
      var id := ids.NextId("job", now);
      var job := JobFrom(input, id, now);
      StepKeepsInv(old(View()), Create(job));
      repo.CreateJob(job);
      metrics.IncSubmitted();
      r := Good(job);
    }

    method CancelJob(id: Id) returns (r: Reply<Job>)
      requires Valid()
      modifies repo`jobs, metrics`cancelled
      ensures Valid()
      ensures r == if id !in old(repo.jobs) then Bad(NoSuchJob)
                   else if !old(repo.jobs)[id].CanCancel() then Bad(WrongStatus(old(repo.jobs)[id].status))
                   else Good(old(repo.jobs)[id].(status := Cancelled))
      ensures r.Bad? ==> View() == old(View())
      ensures r.Good? ==> Enabled(old(View()), Cancel(id)) && View() == Apply(old(View()), Cancel(id))
      ensures r.Good? <==>
                && id in old(repo.jobs)
                && var was := old(repo.jobs)[id].status; was == Pending || was == Scheduled || was == Retrying
      ensures r.Good? ==>
                && repo.jobs == old(repo.jobs)[id := old(repo.jobs)[id].(status := Cancelled)]
                && metrics.cancelled == old(metrics.cancelled) + 1
    {
      hide Inv;
      var found := repo.GetJob(id);
      if found.None? {
        return Bad(NoSuchJob);
      }
      var job := found.value;
      if !job.CanCancel() {
        return Bad(WrongStatus(job.status));
      }
      StepKeepsInv(View(), Cancel(id));
      OwnId(View(), id);
      job := job.(status := Cancelled);
      var stored := repo.UpdateJob(job);
      metrics.IncCancelled();
      r := Good(job);
    }

    method RetryJob(id: Id) returns (r: Reply<Job>)
      requires Valid()
      modifies this, repo`jobs, metrics`retried
      ensures Valid()
      ensures r == if id !in old(repo.jobs) then Bad(NoSuchJob)
                   else if !old(repo.jobs)[id].CanRetry() then Bad(WrongStatus(old(repo.jobs)[id].status))
                   else Good(old(repo.jobs)[id].(status := Pending, lastError := ""))
      ensures r.Bad? ==> View() == old(View())
      ensures r.Good? ==> Enabled(old(View()), Retry(id)) && View() == Apply(old(View()), Retry(id))
      ensures r.Good? <==> id in old(repo.jobs) && var was := old(repo.jobs)[id].status; was == Failed || was == Retrying
      ensures r.Good? ==>
                && repo.jobs == old(repo.jobs)[id := old(repo.jobs)[id].(status := Pending, lastError := "")]
                && metrics.retried == old(metrics.retried) + 1
    {
      hide Inv;
      var found := repo.GetJob(id);
      if found.None? {
        return Bad(NoSuchJob);
      }
      var job := found.value;
      if !job.CanRetry() {
        return Bad(WrongStatus(job.status));
      }
      StepKeepsInv(View(), Retry(id));
      OwnId(View(), id);
      if job.status == Failed {
        manual := manual + [id];
      }
      requests := requests + 1;
      job := job.(status := Pending, lastError := "");
      var stored := repo.UpdateJob(job);
      metrics.IncRetried();
      r := Good(job);
    }

    /** The first half of RunJob: record the execution and mark the job running. */
    method BeginRun(job: Job, now: int) returns (execution: Execution, running: Job)
      requires Valid() && job.id in repo.jobs && repo.jobs[job.id] == job && job.status == Scheduled
      modifies repo`jobs, repo`executions, repo`jobIndex, ids, metrics`running
      ensures Valid()
      ensures execution == Started(job, Id("exec", now, ids.sequence)) && running == job.(status := Running)
      ensures Enabled(old(View()), Start(job.id, execution.id))
      ensures View() == Apply(old(View()), Start(job.id, execution.id))
      ensures IsRunning(running, execution)
      ensures execution == Execution(execution.id, job.id, job.retryCount + 1, ExecRunning, "")
      ensures repo.jobs == old(repo.jobs)[job.id := job.(status := Running)]
      ensures repo.executions == old(repo.executions)[execution.id := execution]
      ensures metrics.running == old(metrics.running) + 1
    {
      hide Inv;
      ghost var w := View();
      var exec := ids.NextId("exec", now);
      execution := Started(job, exec);
      repo.CreateExecution(execution);
      running := job.(status := Running);
      var stored := repo.UpdateJob(running);
      metrics.IncRunning();
      assert View() == Apply(w, Start(job.id, exec));
      StepKeepsInv(w, Start(job.id, exec));
      hide Apply, JobsKeyed;
    }

    /** The job is running this execution. */
    ghost predicate IsRunning(job: Job, execution: Execution)
      reads repo
    {
      && job.id in repo.jobs && repo.jobs[job.id] == job && job.status == Running
      && IndexOf(repo.jobIndex, job.id) != []
      && execution.id in repo.executions && repo.executions[execution.id] == execution
      && IndexOf(repo.jobIndex, job.id)[|IndexOf(repo.jobIndex, job.id)| - 1] == execution.id
    }

    /** The end of RunJob when the executor succeeded. */
    method FinishSucceeded(job: Job, execution: Execution) returns (done: Execution)
      requires Valid() && IsRunning(job, execution)
      modifies repo`jobs, repo`executions, metrics`succeeded, metrics`executionCount
      ensures Valid()
      ensures done == execution.(status := ExecSucceeded, error := "")
      ensures Enabled(old(View()), Succeed(job.id)) && View() == Apply(old(View()), Succeed(job.id))
      ensures repo.jobs == old(repo.jobs)[job.id := job.(status := Succeeded, lastError := "")]
      ensures repo.executions == old(repo.executions)[execution.id := done]
      ensures metrics.succeeded == old(metrics.succeeded) + 1 && metrics.executionCount == old(metrics.executionCount) + 1
    {
      hide Inv;
      StepKeepsInv(View(), Succeed(job.id));
      done := execution.(status := ExecSucceeded, error := "");
      var stored := repo.UpdateExecution(done);
      stored := repo.UpdateJob(job.(status := Succeeded, lastError := ""));
      metrics.IncSucceeded();
      metrics.ObserveRuntime();
    }

    /** finishFailed. */
    method FinishFailed(job: Job, execution: Execution, error: string) returns (done: Execution)
      requires Valid() && IsRunning(job, execution)
      modifies repo`jobs, repo`executions, metrics`failed, metrics`retried, metrics`executionCount
      ensures Valid()
      ensures done == execution.(status := ExecFailed, error := error)
      ensures Enabled(old(View()), Fail(job.id, error)) && View() == Apply(old(View()), Fail(job.id, error))
      ensures repo.executions == old(repo.executions)[execution.id := done]
      ensures job.retryCount < job.maxRetries ==>
                && repo.jobs == old(repo.jobs)[job.id := job.(status := Retrying, retryCount := job.retryCount + 1, lastError := error)]
                && metrics.retried == old(metrics.retried) + 1 && metrics.failed == old(metrics.failed)
      ensures job.retryCount >= job.maxRetries ==>
                && repo.jobs == old(repo.jobs)[job.id := job.(status := Failed, lastError := error)]
                && metrics.failed == old(metrics.failed) + 1 && metrics.retried == old(metrics.retried)
      ensures metrics.executionCount == old(metrics.executionCount) + 1
    {
      hide Inv;
      StepKeepsInv(View(), Fail(job.id, error));
      done := execution.(status := ExecFailed, error := error);
      var stored := repo.UpdateExecution(done);
      var after := job;
      if HasRetriesLeft(job) {
        after := MarkRetrying(job, error);
        metrics.IncRetried();
      } else {
        after := job.(status := Failed, lastError := error);
        metrics.IncFailed();
      }
      stored := repo.UpdateJob(after);
      metrics.ObserveRuntime();
    }

    method FinishRun(job: Job, execution: Execution, outcome: RunOutcome) returns (done: Execution)
      requires Valid() && IsRunning(job, execution)
      modifies repo`jobs, repo`executions, metrics`succeeded, metrics`failed, metrics`retried, metrics`executionCount
      ensures Valid()
      ensures done == execution.(status := if outcome.RunOk? then ExecSucceeded else ExecFailed,
                                 error := if outcome.RunOk? then "" else outcome.error)
      ensures Enabled(old(View()), Ending(job.id, outcome)) && View() == Apply(old(View()), Ending(job.id, outcome))
      ensures job.id in repo.jobs && repo.jobs == old(repo.jobs)[job.id := repo.jobs[job.id]]
      ensures outcome.RunOk? ==> repo.jobs[job.id] == job.(status := Succeeded, lastError := "")
      ensures outcome.RunError? && job.retryCount < job.maxRetries ==>
                repo.jobs[job.id] == job.(status := Retrying, retryCount := job.retryCount + 1, lastError := outcome.error)
      ensures outcome.RunError? && job.retryCount >= job.maxRetries ==>
                repo.jobs[job.id] == job.(status := Failed, lastError := outcome.error)
    {
      hide Inv, Enabled, Apply, IndexOf;
      match outcome
      case RunOk => done := FinishSucceeded(job, execution);
      case RunError(error) => done := FinishFailed(job, execution, error);
    }

    /** RunJob for a scheduled job. */
    method RunScheduled(job: Job, outcome: RunOutcome, now: int) returns (execution: Execution, ghost events: seq<Event>)
      requires Valid() && job.id in repo.jobs && repo.jobs[job.id] == job && job.status == Scheduled
      modifies repo`jobs, repo`executions, repo`jobIndex, ids,
               metrics`running, metrics`succeeded, metrics`failed, metrics`retried, metrics`executionCount
      ensures Valid()
      ensures execution == Started(job, Id("exec", now, ids.sequence))
                           .(status := if outcome.RunOk? then ExecSucceeded else ExecFailed,
                             error := if outcome.RunOk? then "" else outcome.error)
      ensures events == [Start(job.id, execution.id), Ending(job.id, outcome)]
      ensures Legal(old(View()), events) && View() == Run(old(View()), events)
      ensures job.id in repo.jobs && repo.jobs == old(repo.jobs)[job.id := repo.jobs[job.id]]
      ensures outcome.RunOk? ==> repo.jobs[job.id] == job.(status := Succeeded, lastError := "")
      ensures outcome.RunError? && job.retryCount < job.maxRetries ==>
                repo.jobs[job.id] == job.(status := Retrying, retryCount := job.retryCount + 1, lastError := outcome.error)
      ensures outcome.RunError? && job.retryCount >= job.maxRetries ==>
                repo.jobs[job.id] == job.(status := Failed, lastError := outcome.error)
      ensures execution.attempt == job.retryCount + 1
      ensures forall other | other in old(repo.jobs) && other != job.id ::
                other in repo.jobs && repo.jobs[other] == old(repo.jobs)[other]
    {
      hide Inv, Enabled, Apply;
      ghost var w := View();
      var running;
      execution, running := BeginRun(job, now);
      events := [Start(job.id, execution.id), Ending(job.id, outcome)];
      execution := FinishRun(running, execution, outcome);
      TwoSteps(w, events[0], events[1]);
      hide Legal, Run, JobsKeyed, IndexOf;
    }

    /** ScheduleJob: one greedy turn for one job. */
    method ScheduleJob(id: Id) returns (r: Reply<Job>, ghost turn: Turn)
      requires Valid()
      modifies repo`jobs, repo`nodes, metrics`scheduled
      ensures Valid()
      ensures id !in old(repo.jobs) ==> r == Bad(NoSuchJob)
      ensures r.Bad? && id in old(repo.jobs) ==> r == Bad(NotPlaced)
      ensures id in old(repo.jobs) ==> turn.job == old(repo.jobs)[id]
      ensures id in old(repo.jobs) && !old(repo.jobs)[id].CanSchedule() ==> r == Bad(NotPlaced)
      ensures id in old(repo.jobs) && old(repo.jobs)[id].CanSchedule() ==>
                && GreedyTurn(old(repo.nodes), turn, dispatch.strategy)
                && (r.Bad? <==> turn.placement.Skipped?)
      ensures r.Bad? ==> View() == old(View()) && repo.nodes == old(repo.nodes)
      ensures r.Good? ==>
                && r.value == Marked(turn) && r.value.id == id && id in repo.jobs && repo.jobs[id] == r.value
                && r.value == old(repo.jobs)[id].(status := Scheduled, assignedNode := r.value.assignedNode)
                && (old(repo.jobs)[id].status == Pending || old(repo.jobs)[id].status == Retrying)
                && Enabled(old(View()), Place(id, PlacedNode(turn)))
                && View() == Apply(old(View()), Place(id, PlacedNode(turn)))
                && repo.nodes == if turn.placement.OnNode? && turn.placement.node in old(repo.nodes)
                                 then old(repo.nodes)[turn.placement.node := Take(old(repo.nodes)[turn.placement.node], turn.job.gpu)]
                                 else old(repo.nodes)
    {
      hide Inv, JobConsistent, GreedyTurn;
      var found := repo.GetJob(id);
      if found.None? {
        turn := Turn(Job(id, Pending, 0, 0, 0, 0, 0, 0, "", ""), Skipped);
        return Bad(NoSuchJob), turn;
      }
      ghost var w := View();
      OwnId(w, id);
      var outcome;
      outcome, turn := dispatch.PlaceJob(found.value);
      if outcome.Refused? {
        return Bad(NotPlaced), turn;
      }
      PlaceOne(w, turn);
      StepKeepsInv(w, Place(id, PlacedNode(turn)));
      r := Good(outcome.job);
    }

    /** The beginning of RunJob: the stored job, placed first if it is not scheduled yet. */
    method TakeScheduled(id: Id) returns (r: Reply<Job>, ghost placing: seq<Event>)
      requires Valid()
      modifies repo`jobs, repo`nodes, metrics`scheduled
      ensures Valid()
      ensures r.Good? ==>
                && id in repo.jobs && repo.jobs[id] == r.value && r.value.id == id && r.value.status == Scheduled
                && id in old(repo.jobs) && |placing| <= 1
                && r.value == old(repo.jobs)[id].(status := Scheduled, assignedNode := r.value.assignedNode)
                && (placing == [] <==> old(repo.jobs)[id].status == Scheduled)
      ensures if r.Good? && placing != [] then Enabled(old(View()), placing[0]) && View() == Apply(old(View()), placing[0])
              else View() == old(View())
      ensures repo.nodes == if r.Good? && placing != [] then NodesAfterEvent(old(repo.nodes), old(View()), placing[0])
                            else old(repo.nodes)
      ensures OnlyShrank(old(repo.nodes), repo.nodes)
      ensures r.Bad? ==>
                r == Bad(if id in old(repo.jobs) then NotPlaced else NoSuchJob)
                && (id in old(repo.jobs) ==> old(repo.jobs)[id].status != Scheduled)
      ensures id in old(repo.jobs) && old(repo.jobs)[id].CanSchedule() ==>
                (r.Bad? <==> old(repo.jobs)[id].gpu > 0 && !FitsSomewhere(old(repo.nodes), old(repo.jobs)[id]))
      ensures r.Good? && placing != [] ==>
                && old(repo.jobs)[id].CanSchedule() && placing[0].Place? && placing[0].id == id
                && PlacedGreedily(old(repo.nodes), repo.nodes, old(repo.jobs)[id], placing[0].node, dispatch.strategy)
      ensures forall other | other in old(repo.jobs) && other != id ::
                other in repo.jobs && repo.jobs[other] == old(repo.jobs)[other]
    {
      hide Inv, Enabled, Apply, FitsSomewhere, Marked, OnlyShrank, NodesAfterEvent, GreedyTurn, PlacedGreedily;
      ghost var w := View();
      ghost var nodes := repo.nodes;
      NoEvents(nodes, w);
      placing := [];
      var found := repo.GetJob(id);
      if found.None? {
        return Bad(NoSuchJob), [];
      }
      var job := found.value;
      OwnId(w, id);
      if job.status == Scheduled {
        return Good(job), [];
      }
      ghost var turn;
      r, turn := ScheduleJob(id);
      SkippedExactly(nodes, turn, dispatch.strategy);
      if r.Bad? {
        return;
      }
      placing := [Place(id, PlacedNode(turn))];
      MarkedIsScheduled(turn);
      OthersStay(w, placing[0]);
      TurnEffect(nodes, w, turn, dispatch.strategy);
    }

    /** RunJob: a job that is not scheduled yet is placed first. */
    method RunJob(id: Id, outcome: RunOutcome, now: int) returns (r: Reply<Execution>, ghost events: seq<Event>)
      requires Valid()
      modifies repo`jobs, repo`executions, repo`jobIndex, repo`nodes, ids, metrics
      ensures Valid()
      ensures Legal(old(View()), events) && View() == Run(old(View()), events)
      ensures id !in old(repo.jobs) ==> r == Bad(NoSuchJob) && events == []
      ensures id in old(repo.jobs) && old(repo.jobs)[id].status != Scheduled && !old(repo.jobs)[id].CanSchedule() ==>
                r == Bad(NotPlaced) && events == []
      ensures id in old(repo.jobs) && old(repo.jobs)[id].CanSchedule() ==>
                (events == [] <==> old(repo.jobs)[id].gpu > 0 && !FitsSomewhere(old(repo.nodes), old(repo.jobs)[id]))
      ensures id in old(repo.jobs) && old(repo.jobs)[id].CanSchedule() && events != [] ==>
                && |events| == 3 && events[0].Place? && events[0].id == id
                && PlacedGreedily(old(repo.nodes), repo.nodes, old(repo.jobs)[id], events[0].node, dispatch.strategy)
      ensures id in old(repo.jobs) && old(repo.jobs)[id].status == Scheduled ==> |events| == 2 && repo.nodes == old(repo.nodes)
      ensures events == [] ==> r.Bad? && repo.nodes == old(repo.nodes)
      ensures events != [] ==>
                && |events| >= 2
                && events[|events| - 1] == Ending(id, outcome)
                && events[|events| - 2].Start? && events[|events| - 2].id == id
                && (if outcome.RunOk? then r.Good? else r == Bad(RunFailed(outcome.error)))
      ensures repo.nodes == NodesAfterEvents(old(repo.nodes), old(View()), events)
      ensures OnlyShrank(old(repo.nodes), repo.nodes)
      ensures r.Good? ==> r.value.jobId == id && r.value.status == ExecSucceeded
      ensures events != [] ==>
                && id in old(repo.jobs) && id in repo.jobs
                && var was, now := old(repo.jobs)[id], repo.jobs[id];
                if outcome.RunOk? then now.status == Succeeded && now.retryCount == was.retryCount && now.lastError == ""
                else if was.retryCount < was.maxRetries then
                  now.status == Retrying && now.retryCount == was.retryCount + 1 && now.lastError == outcome.error
                else now.status == Failed && now.retryCount == was.retryCount && now.lastError == outcome.error
      ensures events == [] ==> repo.jobs == old(repo.jobs)
      ensures forall other | other in old(repo.jobs) && other != id ::
                other in repo.jobs && repo.jobs[other] == old(repo.jobs)[other]
    {
      hide Inv, Enabled, Apply, FitsSomewhere, OnlyShrank, NodesAfterEvents, NodesAfterEvent, PlacedGreedily, Legal, Run, Ending;
      ghost var w := View();
      ghost var nodes := repo.nodes;
      NoEvents(nodes, w);
      var job;
      ghost var placing;
      job, placing := TakeScheduled(id);
      if job.Bad? {
        return Bad(job.error), [];
      }
      ghost var w1 := View();
      var execution;
      execution, events := RunScheduled(job.value, outcome, now);
      JoinRun(nodes, w, placing, w1, events, id, outcome);
      events := placing + events;
      r := if outcome.RunOk? then Good(execution) else Bad(RunFailed(outcome.error));
    }

    /** One scheduling pass, as a history of placements. */
    method Schedule(limit: nat)
      returns (scheduled: seq<Job>, ghost events: seq<Event>, ghost turns: seq<Turn>, ghost left: seq<Job>)
      requires Valid()
      modifies repo`jobs, repo`nodes, metrics`scheduled
      ensures Valid() && |scheduled| <= limit
      ensures Legal(old(View()), events) && View() == Run(old(View()), events)
      ensures forall i | 0 <= i < |events| :: events[i].Place?
      ensures |events| == |scheduled| && forall i | 0 <= i < |events| :: events[i].id == scheduled[i].id
      ensures DistinctIds(scheduled)
      ensures forall i | 0 <= i < |scheduled| ::
                scheduled[i].id in repo.jobs && repo.jobs[scheduled[i].id] == scheduled[i] && scheduled[i].status == Scheduled
      ensures exists jobs :: ListsJobs(jobs, old(repo.jobs)) && RanksCandidates(FilterSchedulable(jobs), turns, left)
      ensures GreedyPass(old(repo.nodes), turns, dispatch.strategy)
      ensures scheduled == PlacedJobs(turns) && events == PlacementEvents(turns) && (left != [] ==> |scheduled| == limit)
      ensures repo.nodes == NodesAfter(old(repo.nodes), turns) == NodesAfterEvents(old(repo.nodes), old(View()), events)
      ensures OnlyShrank(old(repo.nodes), repo.nodes)
    {
      hide Inv, GreedyPass, RanksCandidates, NodesAfter, JobsAfter, PlacedJobs, FilterSchedulable, ListsJobs, Enabled, Apply,
        NodesAfterEvents, OnlyShrank;
      ghost var w := View();
      scheduled, turns, left := dispatch.SchedulePending(limit);
      events := PassIsPlacements(w, turns, left);
      InvOverHistory(w, events);
      PlacementsMatchJobs(turns);
      PlacedAreStored(w.jobs, turns);
      PassEffect(old(repo.nodes), w, turns);
      PassShrinks(old(repo.nodes), turns, dispatch.strategy);
    }

    /** DispatchPending: one scheduling pass, then the placed jobs in order until one fails. */
    method DispatchPending(limit: nat, outcomes: nat -> RunOutcome, now: int)
      returns (executions: seq<Execution>, failed: Option<ServiceError>,
               ghost placed: seq<Job>, ghost placements: seq<Event>, ghost runs: seq<Event>,
               ghost turns: seq<Turn>, ghost left: seq<Job>)
      requires Valid()
      modifies repo`jobs, repo`executions, repo`jobIndex, repo`nodes, ids, metrics
      ensures Valid()
      ensures Legal(old(View()), placements + runs) && View() == Run(old(View()), placements + runs)
      ensures |executions| <= |placed| <= limit
      ensures if failed.None? then |executions| == |placed|
              else |executions| < |placed| && outcomes(|executions|).RunError?
                   && failed.value == RunFailed(outcomes(|executions|).error)
      ensures |placements| == |placed| && forall k | 0 <= k < |placed| :: placements[k].Place? && placements[k].id == placed[k].id
      ensures |runs| == 2 * |executions| + (if failed.None? then 0 else 2) && RunsInOrder(runs, placed, outcomes)
      ensures forall k | 0 <= k < |executions| ::
                && outcomes(k).RunOk? && executions[k].jobId == placed[k].id && executions[k].status == ExecSucceeded
      ensures exists jobs :: ListsJobs(jobs, old(repo.jobs)) && RanksCandidates(FilterSchedulable(jobs), turns, left)
      ensures GreedyPass(old(repo.nodes), turns, dispatch.strategy)
      ensures placed == PlacedJobs(turns) && placements == PlacementEvents(turns) && (left != [] ==> |placed| == limit)
      ensures repo.nodes == NodesAfter(old(repo.nodes), turns) == NodesAfterEvents(old(repo.nodes), old(View()), placements + runs)
      ensures OnlyShrank(old(repo.nodes), repo.nodes)
    {
      hide *;
      ghost var w := View();
      var scheduled;
      scheduled, placements, turns, left := Schedule(limit);
      ghost var after := repo.nodes;
      placed := scheduled;
      executions, failed, runs := [], None, [];
      RunsNone(placed, outcomes);
      assert placements + [] == placements;
      SeparateIds(scheduled);
      for n := 0 to |scheduled|
        invariant Valid() && |executions| == n && |runs| == 2 * n
        invariant Legal(w, placements + runs) && View() == Run(w, placements + runs)
        invariant forall k | n <= k < |scheduled| ::
                    scheduled[k].id in repo.jobs && repo.jobs[scheduled[k].id].status == Scheduled
        invariant forall k | 0 <= k < n ::
                    outcomes(k).RunOk? && executions[k].jobId == scheduled[k].id && executions[k].status == ExecSucceeded
        invariant RunsInOrder(runs, scheduled, outcomes)
        invariant repo.nodes == after == NodesAfterEvents(old(repo.nodes), w, placements + runs)
      {
        var reply;
        ghost var more;
        reply, more := RunJob(scheduled[n].id, outcomes(n), now);
        RunAppend(w, placements + runs, more);
        EffectAppend(old(repo.nodes), w, placements + runs, more);
        RunsSnoc(runs, more, scheduled, outcomes);
        assert placements + runs + more == placements + (runs + more);
        runs := runs + more;
        if reply.Bad? {
          failed := Some(reply.error);
          return;
        }
        executions := executions + [reply.value];
      }
    }
  }

  /** Each job is started and ended before the next one, in the order of the list. */
  ghost predicate RunsInOrder(events: seq<Event>, jobs: seq<Job>, outcomes: nat -> RunOutcome) {
    && |events| % 2 == 0 && |events| <= 2 * |jobs|
    && forall k: nat | k < |events| / 2 ::
         events[2 * k].Start? && events[2 * k].id == jobs[k].id && events[2 * k + 1] == Ending(jobs[k].id, outcomes(k))
  }

  lemma SeparateIds(jobs: seq<Job>)
    requires DistinctIds(jobs)
    ensures forall i, j | 0 <= i < j < |jobs| :: jobs[i].id != jobs[j].id
  {
  }

  lemma RunsNone(jobs: seq<Job>, outcomes: nat -> RunOutcome)
    ensures RunsInOrder([], jobs, outcomes)
  {
  }

  lemma RunsSnoc(events: seq<Event>, more: seq<Event>, jobs: seq<Job>, outcomes: nat -> RunOutcome)
    requires RunsInOrder(events, jobs, outcomes) && |more| == 2 && |events| < 2 * |jobs|
    requires var k := |events| / 2;
             more[0].Start? && more[0].id == jobs[k].id && more[1] == Ending(jobs[k].id, outcomes(k))
    ensures RunsInOrder(events + more, jobs, outcomes)
  {
  }

  function PlacedNode(turn: Turn): Option<NodeId> {
    if turn.placement.OnNode? then Some(turn.placement.node) else None
  }

  lemma OwnId(w: World, id: Id)
    requires Inv(w) && id in w.jobs
    ensures w.jobs[id].id == id
  {
  }

  lemma SkippedExactly(nodes: map<NodeId, Node>, turn: Turn, strategy: Strategy)
    ensures GreedyTurn(nodes, turn, strategy) && turn.job.gpu > 0 ==>
              (turn.placement.Skipped? <==> !FitsSomewhere(nodes, turn.job))
    ensures GreedyTurn(nodes, turn, strategy) ==> (turn.placement.NoNode? <==> turn.job.gpu <= 0)
  {
    if turn.placement.OnNode? && GreedyTurn(nodes, turn, strategy) && turn.job.gpu > 0 {
      assert turn.placement.node in nodes;
    }
  }

  lemma MarkedIsScheduled(turn: Turn)
    ensures Marked(turn).status == Scheduled && Marked(turn).id == turn.job.id
  {
  }

  lemma OthersStay(w: World, e: Event)
    requires Enabled(w, e)
    ensures forall other | other in w.jobs && other != Own(e) :: other in Apply(w, e).jobs && Apply(w, e).jobs[other] == w.jobs[other]
  {
    hide Enabled;
  }

  lemma TwoSteps(w: World, first: Event, second: Event)
    requires Enabled(w, first) && Enabled(Apply(w, first), second)
    ensures Legal(w, [first, second]) && Run(w, [first, second]) == Apply(Apply(w, first), second)
  {
    hide Enabled, Apply;
    assert [first, second][1..] == [second];
    assert [second][1..] == [];
    assert Legal(Apply(w, first), [second]);
    assert Run(Apply(w, first), [second]) == Apply(Apply(w, first), second);
  }

  lemma PrependRun(w0: World, prefix: seq<Event>, w1: World, events: seq<Event>)
    requires |prefix| <= 1 && Legal(w1, events)
    requires if prefix == [] then w1 == w0 else Enabled(w0, prefix[0]) && w1 == Apply(w0, prefix[0])
    ensures Legal(w0, prefix + events) && Run(w0, prefix + events) == Run(w1, events)
  {
    hide Enabled, Apply;
    if prefix == [] {
      assert prefix + events == events;
    } else {
      assert (prefix + events)[1..] == events;
    }
  }

  lemma {:induction false} RunAppend(w: World, events: seq<Event>, more: seq<Event>)
    requires Legal(w, events) && Legal(Run(w, events), more)
    ensures Legal(w, events + more) && Run(w, events + more) == Run(Run(w, events), more)
    decreases |events|
  {
    hide Enabled, Apply;
    if events == [] {
      assert events + more == more;
    } else {
      assert (events + more)[1..] == events[1..] + more;
      RunAppend(Apply(w, events[0]), events[1..], more);
    }
  }

  // ----- what histories do to the nodes -----

  /** Only a placement touches a node, and it takes the job's GPUs. */
  function NodesAfterEvent(nodes: map<NodeId, Node>, w: World, e: Event): map<NodeId, Node> {
    if e.Place? && e.node.Some? && e.node.value in nodes && e.id in w.jobs
    then nodes[e.node.value := Take(nodes[e.node.value], w.jobs[e.id].gpu)]
    else nodes
  }

  function NodesAfterEvents(nodes: map<NodeId, Node>, w: World, events: seq<Event>): map<NodeId, Node>
    requires Legal(w, events)
    decreases |events|
  {
    if events == [] then nodes
    else NodesAfterEvents(NodesAfterEvent(nodes, w, events[0]), Apply(w, events[0]), events[1..])
  }

  /** All GPUs placed on a node over a history. */
  function PlacedOn(node: NodeId, w: World, events: seq<Event>): int
    requires Legal(w, events)
    decreases |events|
  {
    if events == [] then 0
    else GpusTaken(node, w, events[0]) + PlacedOn(node, Apply(w, events[0]), events[1..])
  }

  /** Main result: over every history of service calls a node's free count falls by all GPUs ever
      placed on it, and nothing gives any of them back, whether the jobs have ended or not. */
  lemma {:induction false} NothingIsReturned(nodes: map<NodeId, Node>, w: World, events: seq<Event>)
    requires Inv(w) && Legal(w, events)
    ensures OnlyShrank(nodes, NodesAfterEvents(nodes, w, events))
    ensures forall n | n in nodes :: NodesAfterEvents(nodes, w, events)[n].availGpu == nodes[n].availGpu - PlacedOn(n, w, events)
    decreases |events|
  {
    hide Inv, Enabled, Apply, NodesAfterEvent, OnlyShrank;
    if events == [] {
      NoEvents(nodes, w);
    } else {
      var e := events[0];
      var next, rest := NodesAfterEvent(nodes, w, e), events[1..];
      EventShrinks(nodes, w, e);
      StepKeepsInv(w, e);
      NothingIsReturned(next, Apply(w, e), rest);
      ShrinkingComposes(nodes, next, NodesAfterEvents(next, Apply(w, e), rest));
    }
  }

  function GpusTaken(node: NodeId, w: World, e: Event): int {
    if e.Place? && e.node == Some(node) && e.id in w.jobs then w.jobs[e.id].gpu else 0
  }

  lemma EventShrinks(nodes: map<NodeId, Node>, w: World, e: Event)
    requires Inv(w) && Enabled(w, e)
    ensures OnlyShrank(nodes, NodesAfterEvent(nodes, w, e)) && NodesAfterEvent(nodes, w, e).Keys == nodes.Keys
    ensures forall n | n in nodes :: NodesAfterEvent(nodes, w, e)[n].availGpu == nodes[n].availGpu - GpusTaken(n, w, e)
  {
    hide Inv;
    if e.Place? {
      GpusAreNonnegative(w, e.id);
      if e.node.Some? && e.node.value in nodes {
        hide Enabled;
        TakingShrinks(nodes, e.node.value, w.jobs[e.id].gpu);
      }
    }
  }

  lemma TakingShrinks(nodes: map<NodeId, Node>, id: NodeId, count: int)
    requires id in nodes && count >= 0
    ensures OnlyShrank(nodes, nodes[id := Take(nodes[id], count)])
  {
  }

  lemma ShrinkingComposes(a: map<NodeId, Node>, b: map<NodeId, Node>, c: map<NodeId, Node>)
    requires OnlyShrank(a, b) && OnlyShrank(b, c)
    ensures OnlyShrank(a, c) && c.Keys == a.Keys
  {
  }

  lemma GpusAreNonnegative(w: World, id: Id)
    requires Inv(w) && id in w.jobs
    ensures w.jobs[id].gpu >= 0
  {
    assert JobConsistent(w.jobs[id], History(w, id), multiset(w.manual)[id]);
  }

  lemma NoEvents(nodes: map<NodeId, Node>, w: World)
    ensures Legal(w, []) && Run(w, []) == w
    ensures NodesAfterEvents(nodes, w, []) == nodes && OnlyShrank(nodes, nodes)
    ensures forall n :: PlacedOn(n, w, []) == 0
  {
  }

  lemma {:induction false} EffectAppend(nodes: map<NodeId, Node>, w: World, events: seq<Event>, more: seq<Event>)
    requires Legal(w, events) && Legal(Run(w, events), more) && Legal(w, events + more)
    ensures NodesAfterEvents(nodes, w, events + more) == NodesAfterEvents(NodesAfterEvents(nodes, w, events), Run(w, events), more)
    decreases |events|
  {
    hide Enabled, Apply, NodesAfterEvent;
    if events == [] {
      assert events + more == more;
    } else {
      assert (events + more)[1..] == events[1..] + more;
      EffectAppend(NodesAfterEvent(nodes, w, events[0]), Apply(w, events[0]), events[1..], more);
    }
  }

  /** Starting and ending a job leaves the nodes alone. */
  lemma RunTakesNothing(nodes: map<NodeId, Node>, w: World, events: seq<Event>, id: Id, outcome: RunOutcome)
    requires |events| == 2 && events[0].Start? && events[1] == Ending(id, outcome) && Legal(w, events)
    ensures NodesAfterEvents(nodes, w, events) == nodes
  {
    hide Enabled, Apply;
    var w1 := Apply(w, events[0]);
    assert NodesAfterEvent(nodes, w, events[0]) == nodes;
    assert NodesAfterEvent(nodes, w1, events[1]) == nodes;
    assert events[1..] == [events[1]];
    OneEffect(nodes, w1, events[1]);
  }

  lemma PrependEffect(nodes: map<NodeId, Node>, w0: World, prefix: seq<Event>, w1: World, events: seq<Event>)
    requires |prefix| <= 1 && Legal(w1, events) && Legal(w0, prefix + events)
    requires if prefix == [] then w1 == w0 else Enabled(w0, prefix[0]) && w1 == Apply(w0, prefix[0])
    ensures NodesAfterEvents(nodes, w0, prefix + events)
            == NodesAfterEvents(if prefix == [] then nodes else NodesAfterEvent(nodes, w0, prefix[0]), w1, events)
  {
    hide Enabled, Apply;
    if prefix == [] {
      assert prefix + events == events;
    } else {
      assert (prefix + events)[1..] == events;
    }
  }

  /** A CPU job took nothing; a GPU job took its GPUs from the node a greedy turn chose. */
  ghost predicate PlacedGreedily(before: map<NodeId, Node>, after: map<NodeId, Node>, job: Job, node: Option<NodeId>,
                                 strategy: Strategy) {
    if job.gpu <= 0 then node.None? && after == before
    else
      && node.Some? && node.value in before
      && GreedyTurn(before, Turn(job, OnNode(node.value)), strategy)
      && after == before[node.value := Take(before[node.value], job.gpu)]
  }

  /** A placement, if there was one, and then a run. */
  lemma JoinRun(nodes: map<NodeId, Node>, w0: World, prefix: seq<Event>, w1: World, events: seq<Event>, id: Id, outcome: RunOutcome)
    requires |prefix| <= 1 && Legal(w1, events)
    requires if prefix == [] then w1 == w0 else Enabled(w0, prefix[0]) && w1 == Apply(w0, prefix[0])
    requires |events| == 2 && events[0].Start? && events[1] == Ending(id, outcome)
    ensures Legal(w0, prefix + events) && Run(w0, prefix + events) == Run(w1, events)
    ensures NodesAfterEvents(nodes, w0, prefix + events) == if prefix == [] then nodes else NodesAfterEvent(nodes, w0, prefix[0])
  {
    hide Enabled, Apply, NodesAfterEvent, NodesAfterEvents, Legal, Run;
    PrependRun(w0, prefix, w1, events);
    RunTakesNothing(if prefix == [] then nodes else NodesAfterEvent(nodes, w0, prefix[0]), w1, events, id, outcome);
    PrependEffect(nodes, w0, prefix, w1, events);
  }

  /** A greedy turn takes the GPUs its placement says, and no more. */
  lemma TurnEffect(nodes: map<NodeId, Node>, w: World, turn: Turn, strategy: Strategy)
    requires GreedyTurn(nodes, turn, strategy) && turn.job.id in w.jobs && w.jobs[turn.job.id] == turn.job
    ensures var after := NodesAfterEvent(nodes, w, Place(turn.job.id, PlacedNode(turn)));
            && OnlyShrank(nodes, after)
            && after == if turn.placement.OnNode? && turn.placement.node in nodes
                        then nodes[turn.placement.node := Take(nodes[turn.placement.node], turn.job.gpu)] else nodes
    ensures turn.placement.OnNode? ==> turn.job.gpu > 0 && turn.placement.node in nodes
    ensures !turn.placement.Skipped? ==>
              PlacedGreedily(nodes, NodesAfterEvent(nodes, w, Place(turn.job.id, PlacedNode(turn))), turn.job,
                             PlacedNode(turn), strategy)
  {
  }

  lemma PassShrinks(nodes: map<NodeId, Node>, turns: seq<Turn>, strategy: Strategy)
    requires GreedyPass(nodes, turns, strategy)
    ensures OnlyShrank(nodes, NodesAfter(nodes, turns))
  {
    PassOnlyShrinks(nodes, turns, strategy, 0);
    assert turns[..0] == [];
  }

  lemma {:induction false} PassEffect(nodes: map<NodeId, Node>, w: World, turns: seq<Turn>)
    requires TurnsOfStoredJobs(w.jobs, turns) && Legal(w, PlacementEvents(turns))
    ensures NodesAfterEvents(nodes, w, PlacementEvents(turns)) == NodesAfter(nodes, turns)
    decreases |turns|
  {
    hide Enabled, Apply, Marked;
    if turns == [] {
      assert PlacementEvents(turns) == [];
    } else {
      var shorter, last := turns[..|turns| - 1], turns[|turns| - 1];
      PlacementsRun(w, shorter);
      PassEffect(nodes, w, shorter);
      JobsAfterOther(w.jobs, shorter, last.job.id);
      if !last.placement.Skipped? {
        var e := Place(last.job.id, PlacedNode(last));
        PlaceOne(Placed(w, shorter), last);
        OneEvent(Placed(w, shorter), e);
        EffectAppend(nodes, w, PlacementEvents(shorter), [e]);
        OneEffect(NodesAfter(nodes, shorter), Placed(w, shorter), e);
      } else {
        assert PlacementEvents(turns) == PlacementEvents(shorter) + [] == PlacementEvents(shorter);
      }
    }
  }

  lemma OneEffect(nodes: map<NodeId, Node>, w: World, e: Event)
    requires Enabled(w, e) && Legal(w, [e])
    ensures NodesAfterEvents(nodes, w, [e]) == NodesAfterEvent(nodes, w, e)
  {
    hide Enabled, Apply;
    assert [e][1..] == [];
  }

  // ----- a scheduling pass is a history of placements -----

  ghost predicate DistinctIds(jobs: seq<Job>) {
    forall i, j | 0 <= i < j < |jobs| :: jobs[i].id != jobs[j].id
  }

  function PlacementEvents(turns: seq<Turn>): seq<Event> {
    if turns == [] then []
    else
      var last := turns[|turns| - 1];
      PlacementEvents(turns[..|turns| - 1]) + if last.placement.Skipped? then [] else [Place(last.job.id, PlacedNode(last))]
  }

  lemma {:induction false} PlacementsMatchJobs(turns: seq<Turn>)
    ensures var events, jobs := PlacementEvents(turns), PlacedJobs(turns);
            && |events| == |jobs|
            && forall i | 0 <= i < |events| :: events[i].Place? && events[i].id == jobs[i].id
  {
    if turns != [] {
      PlacementsMatchJobs(turns[..|turns| - 1]);
    }
  }

  /** Each turn is about a stored, schedulable job, and no job has two turns. */
  ghost predicate TurnsOfStoredJobs(jobs: map<Id, Job>, turns: seq<Turn>) {
    && (forall i | 0 <= i < |turns| ::
          turns[i].job.id in jobs && jobs[turns[i].job.id] == turns[i].job && turns[i].job.CanSchedule())
    && forall i, j | 0 <= i < j < |turns| :: turns[i].job.id != turns[j].job.id
  }

  lemma {:induction false} FilterKeepsDistinct(jobs: seq<Job>)
    requires DistinctIds(jobs)
    ensures DistinctIds(FilterSchedulable(jobs))
  {
    if jobs != [] {
      FilterKeepsDistinct(jobs[..|jobs| - 1]);
      var out := FilterSchedulable(jobs[..|jobs| - 1]);
      forall i | 0 <= i < |out| ensures out[i].id != jobs[|jobs| - 1].id {
        assert out[i] in out;
        assert out[i] in jobs[..|jobs| - 1];
      }
    }
  }

  lemma RankedTurnsAreStored(jobs: map<Id, Job>, list: seq<Job>, turns: seq<Turn>, left: seq<Job>)
    requires ListsJobs(list, jobs) && RanksCandidates(FilterSchedulable(list), turns, left)
    ensures TurnsOfStoredJobs(jobs, turns)
  {
    var candidates := FilterSchedulable(list);
    var popped := Popped(turns);
    FilterKeepsDistinct(list);
    forall i | 0 <= i < |turns|
      ensures turns[i].job.id in jobs && jobs[turns[i].job.id] == turns[i].job && turns[i].job.CanSchedule()
    {
      assert popped[i] in multiset(popped);
      assert popped[i] in multiset(candidates);
      assert popped[i] in candidates;
    }
    forall i, j | 0 <= i < j < |turns| ensures turns[i].job.id != turns[j].job.id {
      if turns[i].job == turns[j].job {
        TwoOccurrences(popped, i, j);
        OneOccurrence(candidates, popped[i]);
      }
    }
  }

  lemma {:induction false} JobsAfterOther(jobs: map<Id, Job>, turns: seq<Turn>, id: Id)
    requires id in jobs && forall i | 0 <= i < |turns| :: turns[i].job.id != id
    ensures id in JobsAfter(jobs, turns) && JobsAfter(jobs, turns)[id] == jobs[id]
  {
    if turns != [] {
      JobsAfterOther(jobs, turns[..|turns| - 1], id);
    }
  }

  lemma {:induction false} PlacedJobHasTurn(turns: seq<Turn>, i: nat) returns (k: nat)
    requires i < |PlacedJobs(turns)|
    ensures k < |turns| && turns[k].job.id == PlacedJobs(turns)[i].id
  {
    var n := |turns| - 1;
    if i < |PlacedJobs(turns[..n])| {
      k := PlacedJobHasTurn(turns[..n], i);
    } else {
      k := n;
    }
  }

  /** The placed jobs are distinct, marked, and stored as returned. */
  lemma {:induction false} PlacedAreStored(jobs: map<Id, Job>, turns: seq<Turn>)
    requires TurnsOfStoredJobs(jobs, turns)
    ensures var placed, after := PlacedJobs(turns), JobsAfter(jobs, turns);
            && DistinctIds(placed)
            && forall i | 0 <= i < |placed| ::
                 placed[i].status == Scheduled && placed[i].id in after && after[placed[i].id] == placed[i]
  {
    if turns != [] {
      var n := |turns| - 1;
      var shorter, last := turns[..n], turns[n];
      PlacedAreStored(jobs, shorter);
      var placed := PlacedJobs(shorter);
      forall i | 0 <= i < |placed| ensures placed[i].id != last.job.id {
        var k := PlacedJobHasTurn(shorter, i);
      }
      MarkedIsScheduled(last);
      hide Marked, TurnsOfStoredJobs;
    }
  }

  /** The world after the placements of a pass. */
  function Placed(w: World, turns: seq<Turn>): World {
    w.(jobs := JobsAfter(w.jobs, turns),
       counters := w.counters.(scheduled := w.counters.scheduled + |PlacedJobs(turns)|))
  }

  lemma PlaceOne(before: World, turn: Turn)
    requires turn.job.id in before.jobs && before.jobs[turn.job.id] == turn.job && turn.job.CanSchedule()
    requires !turn.placement.Skipped?
    ensures var e := Place(turn.job.id, PlacedNode(turn));
            && Enabled(before, e)
            && Apply(before, e) == before.(jobs := before.jobs[turn.job.id := Marked(turn)],
                                           counters := before.counters.(scheduled := before.counters.scheduled + 1))
  {
  }

  lemma {:induction false} PlacementsRun(w: World, turns: seq<Turn>)
    requires TurnsOfStoredJobs(w.jobs, turns)
    ensures Legal(w, PlacementEvents(turns)) && Run(w, PlacementEvents(turns)) == Placed(w, turns)
    decreases |turns|
  {
    hide Enabled, Apply, Marked;
    if turns == [] {
      assert PlacementEvents(turns) == [];
    } else {
      var shorter, last := turns[..|turns| - 1], turns[|turns| - 1];
      PlacementsRun(w, shorter);
      JobsAfterOther(w.jobs, shorter, last.job.id);
      if !last.placement.Skipped? {
        var e := Place(last.job.id, PlacedNode(last));
        PlaceOne(Placed(w, shorter), last);
        OneEvent(Placed(w, shorter), e);
        RunAppend(w, PlacementEvents(shorter), [e]);
      } else {
        assert PlacementEvents(turns) == PlacementEvents(shorter) + [] == PlacementEvents(shorter);
        assert PlacedJobs(turns) == PlacedJobs(shorter) + [] == PlacedJobs(shorter);
      }
    }
  }

  lemma OneEvent(w: World, e: Event)
    requires Enabled(w, e)
    ensures Legal(w, [e]) && Run(w, [e]) == Apply(w, e)
  {
    hide Enabled, Apply;
    assert [e][1..] == [];
  }

  lemma PassIsPlacements(w: World, turns: seq<Turn>, left: seq<Job>) returns (events: seq<Event>)
    requires exists list :: ListsJobs(list, w.jobs) && RanksCandidates(FilterSchedulable(list), turns, left)
    ensures events == PlacementEvents(turns) && TurnsOfStoredJobs(w.jobs, turns)
    ensures Legal(w, events) && Run(w, events) == Placed(w, turns)
  {
    var list :| ListsJobs(list, w.jobs) && RanksCandidates(FilterSchedulable(list), turns, left);
    RankedTurnsAreStored(w.jobs, list, turns, left);
    PlacementsRun(w, turns);
    events := PlacementEvents(turns);
  }
}
