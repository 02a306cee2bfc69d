/**
  The life of jobs and executions as a transition system: every step the services take on the
  store and the counters, in any order in which each step sees the job's current status.

  `manual` lists, in order, the jobs whose failed state a retry request cleared; `requests`
  counts all retry requests. Both are bookkeeping, not program state.
 */
module Lifecycle {
  import opened Values
  import opened Jobs
  import opened Store

  datatype Counters = Counters(
    submitted: nat,
    scheduled: nat,
    running: nat,
    succeeded: nat,
    failed: nat,
    retried: nat,
    cancelled: nat,
    finished: nat)

  datatype World = World(
    jobs: map<Id, Job>,
    executions: map<Id, Execution>,
    jobIndex: map<Id, seq<Id>>,
    counters: Counters,
    sequence: nat,
    manual: seq<Id>,
    requests: nat)

  datatype Event =
    | Create(job: Job)
    | Place(id: Id, node: Option<NodeId>)
    | Start(id: Id, exec: Id)
    | Succeed(id: Id)
    | Fail(id: Id, error: string)
    | Cancel(id: Id)
    | Retry(id: Id)

  function InitialWorld(): World {
    World(map[], map[], map[], Counters(0, 0, 0, 0, 0, 0, 0, 0), 0, [], 0)
  }

  /** A fresh identifier has the next counter value. */
  predicate Fresh(w: World, id: Id) {
    id.value == w.sequence + 1
  }

  /** What CreateJob stores for a validated input. */
  predicate NewJob(job: Job) {
    job.status == Pending && job.retryCount == 0 && job.maxRetries >= 0 && job.gpu >= 0
  }

  predicate Enabled(w: World, e: Event) {
    match e
    case Create(job) => Fresh(w, job.id) && NewJob(job)
    case Place(id, _) => id in w.jobs && w.jobs[id].CanSchedule()
    case Start(id, exec) => id in w.jobs && w.jobs[id].status == Scheduled && Fresh(w, exec)
    case Succeed(id) => id in w.jobs && w.jobs[id].status == Running && IndexOf(w.jobIndex, id) != []
    case Fail(id, _) => id in w.jobs && w.jobs[id].status == Running && IndexOf(w.jobIndex, id) != []
    case Cancel(id) => id in w.jobs && w.jobs[id].CanCancel()
    case Retry(id) => id in w.jobs && w.jobs[id].CanRetry()
  }

  /** The execution a running job works on. */
  function Current(w: World, id: Id): Id
    requires IndexOf(w.jobIndex, id) != []
  {
    var ids := IndexOf(w.jobIndex, id);
    ids[|ids| - 1]
  }

  predicate HasRetriesLeft(job: Job) {
    job.retryCount < job.maxRetries
  }

  /** MarkRetrying. */
  function MarkRetrying(job: Job, error: string): Job {
    job.(retryCount := job.retryCount + 1, status := Retrying, lastError := error)
  }

  function AfterFailure(job: Job, error: string): Job {
    if HasRetriesLeft(job) then MarkRetrying(job, error) else job.(status := Failed, lastError := error)
  }

  function Started(job: Job, exec: Id): Execution {
    Execution(exec, job.id, job.retryCount + 1, ExecRunning, "")
  }

  /** The job an event is about. */
  function Own(e: Event): Id {
    if e.Create? then e.job.id else e.id
  }

  /** The job's record after the event. */
  function OwnNext(w: World, e: Event): Job
    requires Enabled(w, e)
  {
    match e
    case Create(job) => job
    case Place(id, node) =>
      w.jobs[id].(status := Scheduled, assignedNode := if node.Some? && node.value != "" then node.value else w.jobs[id].assignedNode)
    case Start(id, exec) => w.jobs[id].(status := Running)
    case Succeed(id) => w.jobs[id].(status := Succeeded, lastError := "")
    case Fail(id, error) => AfterFailure(w.jobs[id], error)
    case Cancel(id) => w.jobs[id].(status := Cancelled)
    case Retry(id) => w.jobs[id].(status := Pending, lastError := "")
  }

  function Lookup(executions: map<Id, Execution>, e: Id): Execution {
    if e in executions then executions[e] else Execution(e, e, 0, ExecFailed, "")
  }

  function ExecutionsNext(w: World, e: Event): map<Id, Execution>
    requires Enabled(w, e)
  {
    match e
    case Start(id, exec) => w.executions[exec := Started(w.jobs[id], exec)]
    case Succeed(id) => w.executions[Current(w, id) := Finished(w, id, ExecSucceeded, "")]
    case Fail(id, error) => w.executions[Current(w, id) := Finished(w, id, ExecFailed, error)]
    case _ => w.executions
  }

  /** The current execution's record once it is over. */
  function Finished(w: World, id: Id, status: ExecutionStatus, error: string): Execution
    requires IndexOf(w.jobIndex, id) != []
  {
    Lookup(w.executions, Current(w, id)).(status := status, error := error)
  }

  function IndexNext(w: World, e: Event): map<Id, seq<Id>> {
    match e
    case Start(id, exec) => w.jobIndex[id := IndexOf(w.jobIndex, id) + [exec]]
    case _ => w.jobIndex
  }

  function CountersNext(w: World, e: Event): Counters
    requires Enabled(w, e)
  {
    var c := w.counters;
    match e
    case Create(_) => c.(submitted := c.submitted + 1)
    case Place(_, _) => c.(scheduled := c.scheduled + 1)
    case Start(_, _) => c.(running := c.running + 1)
    case Succeed(_) => c.(succeeded := c.succeeded + 1, finished := c.finished + 1)
    case Fail(id, _) =>
      if HasRetriesLeft(w.jobs[id]) then c.(retried := c.retried + 1, finished := c.finished + 1)
      else c.(failed := c.failed + 1, finished := c.finished + 1)
    case Cancel(_) => c.(cancelled := c.cancelled + 1)
    case Retry(_) => c.(retried := c.retried + 1)
  }

  function ManualNext(w: World, e: Event): seq<Id>
    requires Enabled(w, e)
  {
    if e.Retry? && w.jobs[e.id].status == Failed then w.manual + [e.id] else w.manual
  }

  function Apply(w: World, e: Event): World
    requires Enabled(w, e)
  {
    World(
      w.jobs[Own(e) := OwnNext(w, e)],
      ExecutionsNext(w, e),
      IndexNext(w, e),
      CountersNext(w, e),
      if e.Create? || e.Start? then w.sequence + 1 else w.sequence,
      ManualNext(w, e),
      if e.Retry? then w.requests + 1 else w.requests)
  }

  // ----- the invariant -----

  /** The executions of a job in creation order. */
  function Records(executions: map<Id, Execution>, ids: seq<Id>): (h: seq<Execution>)
    ensures |h| == |ids|
  {
    seq(|ids|, i requires 0 <= i < |ids| => Lookup(executions, ids[i]))
  }

  function History(w: World, id: Id): seq<Execution> {
    Records(w.executions, IndexOf(w.jobIndex, id))
  }

  predicate Busy(status: Status) {
    status == Running || status == Succeeded || status == Failed
  }

  /** The status of a job's last execution while the job is busy. */
  function LastStatus(status: Status): ExecutionStatus {
    match status
    case Running => ExecRunning
    case Succeeded => ExecSucceeded
    case _ => ExecFailed
  }

  /** The bookkeeping of one job: its executions are its automatic retries, its manual retries from
      failed, and the one it is busy with; attempts never decrease; all but a busy job's last
      execution failed; a job fails only when its retries are used up. */
  ghost predicate JobConsistent(job: Job, h: seq<Execution>, manual: nat) {
    && 0 <= job.gpu && 0 <= job.retryCount <= job.maxRetries
    && (job.status == Failed ==> job.retryCount == job.maxRetries)
    && |h| == job.retryCount + manual + (if Busy(job.status) then 1 else 0)
    && (forall i | 0 <= i < |h| :: 1 <= h[i].attempt <= job.retryCount + 1)
    && (forall i, j | 0 <= i < j < |h| :: h[i].attempt <= h[j].attempt)
    && (Busy(job.status) ==> h[|h| - 1].status == LastStatus(job.status) && h[|h| - 1].attempt == job.retryCount + 1)
    && forall i | 0 <= i < |h| - (if Busy(job.status) then 1 else 0) :: h[i].status == ExecFailed
  }

  ghost predicate JobsConsistent(w: World) {
    forall id | id in w.jobs :: JobConsistent(w.jobs[id], History(w, id), multiset(w.manual)[id])
  }

  /** The entry e of job id's index list is an execution of that job. */
  ghost predicate Indexed(executions: map<Id, Execution>, id: Id, e: Id) {
    e in executions && executions[e].jobId == id
  }

  ghost predicate NoDuplicates(ids: seq<Id>) {
    forall i, j | 0 <= i < j < |ids| :: ids[i] != ids[j]
  }

  /** The index lists every execution once, under its own job. */
  ghost predicate IndexPartitions(executions: map<Id, Execution>, jobIndex: map<Id, seq<Id>>) {
    && (forall id, e | e in IndexOf(jobIndex, id) :: Indexed(executions, id, e))
    && (forall e | e in executions :: e in IndexOf(jobIndex, executions[e].jobId))
    && (forall id :: NoDuplicates(IndexOf(jobIndex, id)))
  }

  ghost predicate IdsKnown(w: World) {
    && (forall id | id in w.jobs :: w.jobs[id].id == id && id.value <= w.sequence)
    && (forall e | e in w.executions :: w.executions[e].id == e && e.value <= w.sequence)
    && (forall id | id in w.jobIndex :: id in w.jobs)
    && (forall id | id in w.manual :: id in w.jobs)
  }

  ghost function WithStatus(jobs: map<Id, Job>, status: Status): set<Id> {
    set id | id in jobs && jobs[id].status == status
  }

  ghost function ExecsWith(executions: map<Id, Execution>, status: ExecutionStatus): set<Id> {
    set e | e in executions && executions[e].status == status
  }

  /** The counters agree with what can be recomputed from the store. */
  ghost predicate CountersAgree(w: World) {
    var c := w.counters;
    && c.submitted == |w.jobs|
    && c.running == |w.executions|
    && c.finished == |ExecsWith(w.executions, ExecSucceeded)| + |ExecsWith(w.executions, ExecFailed)|
    && c.succeeded == |WithStatus(w.jobs, Succeeded)|
    && c.cancelled == |WithStatus(w.jobs, Cancelled)|
    && c.failed == |WithStatus(w.jobs, Failed)| + |w.manual|
    && c.retried + c.failed == |ExecsWith(w.executions, ExecFailed)| + w.requests
  }

  ghost predicate Inv(w: World) {
    && IdsKnown(w)
    && IndexPartitions(w.executions, w.jobIndex)
    && JobsConsistent(w)
    && CountersAgree(w)
  }

  lemma InitialInv()
    ensures Inv(InitialWorld())
  {
    var w := InitialWorld();
    assert WithStatus(w.jobs, Succeeded) == {} && WithStatus(w.jobs, Cancelled) == {} && WithStatus(w.jobs, Failed) == {};
    assert ExecsWith(w.executions, ExecSucceeded) == {} && ExecsWith(w.executions, ExecFailed) == {};
  }

  // ----- counting -----

  lemma RemoveOne(s: set<Id>, x: Id)
    ensures |s - {x}| == |s| - if x in s then 1 else 0
  {
    if x !in s {
      assert s - {x} == s;
    }
  }

  function Toll(b: bool): int { if b then 1 else 0 }

  /** Replacing one job moves it between the status sets and moves no other. */
  lemma StatusCount(jobs: map<Id, Job>, id: Id, job: Job, status: Status)
    ensures |WithStatus(jobs[id := job], status)|
            == |WithStatus(jobs, status)| - Toll(id in jobs && jobs[id].status == status) + Toll(job.status == status)
  {
    var before, after := WithStatus(jobs, status), WithStatus(jobs[id := job], status);
    assert id in before <==> id in jobs && jobs[id].status == status;
    assert id in after <==> job.status == status;
    forall x ensures x in before - {id} <==> x in after - {id} {
    }
    hide WithStatus;
    assert before - {id} == after - {id};
    RemoveOne(before, id);
    RemoveOne(after, id);
  }

  lemma ExecCount(executions: map<Id, Execution>, e: Id, x: Execution, status: ExecutionStatus)
    ensures |ExecsWith(executions[e := x], status)|
            == |ExecsWith(executions, status)| - Toll(e in executions && executions[e].status == status) + Toll(x.status == status)
  {
    var before, after := ExecsWith(executions, status), ExecsWith(executions[e := x], status);
    assert e in before <==> e in executions && executions[e].status == status;
    assert e in after <==> x.status == status;
    forall y ensures y in before - {e} <==> y in after - {e} {
    }
    hide ExecsWith;
    assert before - {e} == after - {e};
    RemoveOne(before, e);
    RemoveOne(after, e);
  }

  lemma SizeAfter<V>(m: map<Id, V>, id: Id, v: V)
    ensures |m[id := v]| == |m| + Toll(id !in m)
  {
    RemoveOne(m[id := v].Keys, id);
    RemoveOne(m.Keys, id);
    assert m[id := v].Keys - {id} == m.Keys - {id};
    assert |m[id := v]| == |m[id := v].Keys| && |m| == |m.Keys|;
  }

  // ----- every step keeps the invariant -----

  lemma JobOk(w: World, id: Id)
    requires JobsConsistent(w) && id in w.jobs
    ensures JobConsistent(w.jobs[id], History(w, id), multiset(w.manual)[id])
  {
  }

  lemma NewIdIsNew(w: World, e: Event)
    requires IdsKnown(w) && Enabled(w, e)
    ensures e.Create? <==> Own(e) !in w.jobs
    ensures e.Start? ==> e.exec !in w.executions
  {
  }

  /** The execution a running job works on is recorded, is running, and belongs to it. */
  lemma CurrentIsRunning(w: World, id: Id)
    requires IndexPartitions(w.executions, w.jobIndex) && JobsConsistent(w)
    requires id in w.jobs && w.jobs[id].status == Running
    ensures IndexOf(w.jobIndex, id) != []
    ensures Current(w, id) in w.executions
    ensures w.executions[Current(w, id)].status == ExecRunning && w.executions[Current(w, id)].jobId == id
  {
    hide IndexOf;
    var ids, h := IndexOf(w.jobIndex, id), History(w, id);
    assert JobConsistent(w.jobs[id], h, multiset(w.manual)[id]);
    assert h[|h| - 1].status == ExecRunning;
    assert Current(w, id) in ids;
    assert Indexed(w.executions, id, Current(w, id));
  }

  lemma ExecutionsCount(w: World, e: Event)
    requires IdsKnown(w) && IndexPartitions(w.executions, w.jobIndex) && JobsConsistent(w) && Enabled(w, e)
    ensures |ExecutionsNext(w, e)| == |w.executions| + Toll(e.Start?)
    ensures |ExecsWith(ExecutionsNext(w, e), ExecSucceeded)| == |ExecsWith(w.executions, ExecSucceeded)| + Toll(e.Succeed?)
    ensures |ExecsWith(ExecutionsNext(w, e), ExecFailed)| == |ExecsWith(w.executions, ExecFailed)| + Toll(e.Fail?)
  {
    if e.Start? {
      var x := Started(w.jobs[e.id], e.exec);
      SizeAfter(w.executions, e.exec, x);
      ExecCount(w.executions, e.exec, x, ExecSucceeded);
      ExecCount(w.executions, e.exec, x, ExecFailed);
    } else if e.Succeed? || e.Fail? {
      hide JobsConsistent, IndexPartitions, IdsKnown, ExecsWith;
      CurrentIsRunning(w, e.id);
      var x := if e.Succeed? then Finished(w, e.id, ExecSucceeded, "") else Finished(w, e.id, ExecFailed, e.error);
      SizeAfter(w.executions, Current(w, e.id), x);
      ExecCount(w.executions, Current(w, e.id), x, ExecSucceeded);
      ExecCount(w.executions, Current(w, e.id), x, ExecFailed);
    }
  }

  lemma StepKeepsCounters(w: World, e: Event)
    requires Inv(w) && Enabled(w, e)
    ensures CountersAgree(Apply(w, e))
  {
    hide JobsConsistent, IndexPartitions, IdsKnown, WithStatus, ExecsWith, ExecutionsNext, OwnNext, Current;
    NewIdIsNew(w, e);
    ExecutionsCount(w, e);
    SizeAfter(w.jobs, Own(e), OwnNext(w, e));
    StatusCount(w.jobs, Own(e), OwnNext(w, e), Succeeded);
    StatusCount(w.jobs, Own(e), OwnNext(w, e), Cancelled);
    StatusCount(w.jobs, Own(e), OwnNext(w, e), Failed);
    StatusAfter(w, e);
  }

  /** How a step moves its own job between the counted statuses. */
  lemma StatusAfter(w: World, e: Event)
    requires Enabled(w, e)
    ensures OwnNext(w, e).status == Succeeded <==> e.Succeed?
    ensures OwnNext(w, e).status == Cancelled <==> e.Cancel?
    ensures OwnNext(w, e).status == Failed <==> e.Fail? && !HasRetriesLeft(w.jobs[e.id])
    ensures Own(e) in w.jobs && !e.Create? ==>
              w.jobs[Own(e)].status != Succeeded && w.jobs[Own(e)].status != Cancelled
              && (w.jobs[Own(e)].status == Failed ==> e.Retry?)
  {
  }

  lemma OwnKeepsId(w: World, e: Event)
    requires IdsKnown(w) && Enabled(w, e)
    ensures OwnNext(w, e).id == Own(e) && Own(e).value <= Apply(w, e).sequence
    ensures forall id | id in ManualNext(w, e) :: id in w.jobs
    ensures forall id | id in IndexNext(w, e) :: id in w.jobs
  {
    hide ExecutionsNext, CountersNext;
  }

  lemma ExecutionsKeepId(w: World, e: Event)
    requires Inv(w) && Enabled(w, e)
    ensures forall x | x in ExecutionsNext(w, e) :: ExecutionsNext(w, e)[x].id == x && x.value <= Apply(w, e).sequence
  {
    hide JobsConsistent, CountersAgree, IndexPartitions, OwnNext, CountersNext, ManualNext, IndexNext;
    if e.Succeed? || e.Fail? {
      CurrentIsRunning(w, e.id);
    }
  }

  lemma StepKeepsIds(w: World, e: Event)
    requires Inv(w) && Enabled(w, e)
    ensures IdsKnown(Apply(w, e))
  {
    hide JobsConsistent, CountersAgree, IndexPartitions, OwnNext, ExecutionsNext, CountersNext, ManualNext, IndexNext, Current;
    OwnKeepsId(w, e);
    ExecutionsKeepId(w, e);
  }

  lemma StepKeepsIndex(w: World, e: Event)
    requires Inv(w) && Enabled(w, e)
    ensures IndexPartitions(ExecutionsNext(w, e), IndexNext(w, e))
  {
    if e.Start? {
      StartKeepsIndex(w, e.id, e.exec);
    } else if e.Succeed? || e.Fail? {
      CurrentIsRunning(w, e.id);
      FinishKeepsIndex(w, e.id, if e.Succeed? then ExecSucceeded else ExecFailed, if e.Succeed? then "" else e.error);
    }
  }

  lemma StartKeepsIndex(w: World, id: Id, exec: Id)
    requires IdsKnown(w) && IndexPartitions(w.executions, w.jobIndex) && Enabled(w, Start(id, exec))
    ensures IndexPartitions(ExecutionsNext(w, Start(id, exec)), IndexNext(w, Start(id, exec)))
  {
    var executions, jobIndex := ExecutionsNext(w, Start(id, exec)), IndexNext(w, Start(id, exec));
    var ids := IndexOf(w.jobIndex, id);
    assert exec !in w.executions;
    assert exec !in ids by {
      assert exec in ids ==> Indexed(w.executions, id, exec);
    }
    assert NoDuplicates(ids);
    forall other ensures NoDuplicates(IndexOf(jobIndex, other)) {
      assert other != id ==> IndexOf(jobIndex, other) == IndexOf(w.jobIndex, other) && NoDuplicates(IndexOf(w.jobIndex, other));
    }
    forall other, e | e in IndexOf(jobIndex, other) ensures Indexed(executions, other, e) {
      assert e in IndexOf(w.jobIndex, other) ==> Indexed(w.executions, other, e);
    }
  }

  lemma FinishKeepsIndex(w: World, id: Id, status: ExecutionStatus, error: string)
    requires IndexPartitions(w.executions, w.jobIndex)
    requires IndexOf(w.jobIndex, id) != [] && Current(w, id) in w.executions
    ensures IndexPartitions(w.executions[Current(w, id) := Finished(w, id, status, error)], w.jobIndex)
  {
    hide IndexOf;
    var executions := w.executions[Current(w, id) := Finished(w, id, status, error)];
    forall other, e | e in IndexOf(w.jobIndex, other) ensures Indexed(executions, other, e) {
      assert Indexed(w.executions, other, e);
    }
  }

  /** Only an execution of the step's own job changes. */
  lemma OtherExecutionsKept(w: World, e: Event, x: Id)
    requires Inv(w) && Enabled(w, e) && x in w.executions && w.executions[x].jobId != Own(e)
    ensures x in ExecutionsNext(w, e) && ExecutionsNext(w, e)[x] == w.executions[x]
  {
    hide JobsConsistent, IndexPartitions, CountersAgree;
    if e.Start? {
      NewIdIsNew(w, e);
    } else if e.Succeed? || e.Fail? {
      CurrentIsRunning(w, e.id);
    }
  }

  /** A step leaves the records of every job but its own alone. */
  lemma OtherJobsUntouched(w: World, e: Event, other: Id)
    requires Inv(w) && Enabled(w, e) && other in w.jobs && other != Own(e)
    ensures History(Apply(w, e), other) == History(w, other)
    ensures multiset(Apply(w, e).manual)[other] == multiset(w.manual)[other]
  {
    hide JobsConsistent, IdsKnown, CountersAgree, ExecutionsNext, OwnNext, CountersNext;
    var ids := IndexOf(w.jobIndex, other);
    assert IndexOf(IndexNext(w, e), other) == ids;
    forall i | 0 <= i < |ids| ensures Lookup(ExecutionsNext(w, e), ids[i]) == Lookup(w.executions, ids[i]) {
      assert Indexed(w.executions, other, ids[i]);
      OtherExecutionsKept(w, e, ids[i]);
    }
  }

  lemma StartHistory(w: World, id: Id, exec: Id)
    requires Inv(w) && Enabled(w, Start(id, exec))
    ensures History(Apply(w, Start(id, exec)), id) == History(w, id) + [Started(w.jobs[id], exec)]
  {
    hide JobsConsistent, CountersAgree, OwnNext, CountersNext;
    NewIdIsNew(w, Start(id, exec));
    var ids := IndexOf(w.jobIndex, id);
    forall i | 0 <= i < |ids| ensures ids[i] != exec {
      assert Indexed(w.executions, id, ids[i]);
    }
  }

  /** Finishing a running job's current execution changes the last entry of its history. */
  lemma FinishHistory(w: World, id: Id, status: ExecutionStatus, error: string)
    requires IndexPartitions(w.executions, w.jobIndex) && IndexOf(w.jobIndex, id) != []
    ensures var h, n := History(w, id), |IndexOf(w.jobIndex, id)| - 1;
            Records(w.executions[Current(w, id) := Finished(w, id, status, error)], IndexOf(w.jobIndex, id))
            == h[n := h[n].(status := status, error := error)]
  {
    hide IndexOf;
    var ids := IndexOf(w.jobIndex, id);
    var n := |ids| - 1;
    assert NoDuplicates(ids);
    forall i | 0 <= i < n ensures ids[i] != Current(w, id) {
      assert ids[i] != ids[n];
    }
  }

  // What each kind of step does to one job's bookkeeping, on plain values.

  lemma StartIsConsistent(job: Job, h: seq<Execution>, manual: nat, x: Execution)
    requires JobConsistent(job, h, manual) && job.status == Scheduled
    requires x.status == ExecRunning && x.attempt == job.retryCount + 1
    ensures JobConsistent(job.(status := Running), h + [x], manual)
  {
  }

  lemma SuccessIsConsistent(job: Job, h: seq<Execution>, manual: nat)
    requires JobConsistent(job, h, manual) && job.status == Running
    ensures h != [] && JobConsistent(job.(status := Succeeded, lastError := ""), h[|h| - 1 := h[|h| - 1].(status := ExecSucceeded, error := "")], manual)
  {
  }

  lemma FailureIsConsistent(job: Job, h: seq<Execution>, manual: nat, error: string)
    requires JobConsistent(job, h, manual) && job.status == Running
    ensures h != [] && JobConsistent(AfterFailure(job, error), h[|h| - 1 := h[|h| - 1].(status := ExecFailed, error := error)], manual)
  {
  }

  lemma IdleIsConsistent(job: Job, h: seq<Execution>, manual: nat, next: Job)
    requires JobConsistent(job, h, manual) && !Busy(job.status) && !Busy(next.status)
    requires next.retryCount == job.retryCount && next.maxRetries == job.maxRetries && next.gpu == job.gpu
    ensures JobConsistent(next, h, manual)
  {
  }

  lemma ManualRetryIsConsistent(job: Job, h: seq<Execution>, manual: nat)
    requires JobConsistent(job, h, manual) && job.status == Failed
    ensures JobConsistent(job.(status := Pending, lastError := ""), h, manual + 1)
  {
  }

  lemma OwnJobStays(w: World, e: Event)
    requires Inv(w) && Enabled(w, e)
    ensures JobConsistent(OwnNext(w, e), History(Apply(w, e), Own(e)), multiset(ManualNext(w, e))[Own(e)])
  {
    hide IdsKnown, IndexPartitions, JobsConsistent, CountersAgree, JobConsistent, CountersNext, Current, IndexOf, Records, AfterFailure;
    if e.Create? {
      NewJobHasNoPast(w, e.job);
    } else {
      JobOk(w, e.id);
      var job, h, manual := w.jobs[e.id], History(w, e.id), multiset(w.manual)[e.id];
      HistoryLength(w, e.id);
      if e.Start? {
        StartHistory(w, e.id, e.exec);
        StartedHasOwnId(w, e.id, e.exec);
        StartIsConsistent(job, h, manual, Started(job, e.exec));
      } else if e.Succeed? {
        FinishHistory(w, e.id, ExecSucceeded, "");
        SuccessIsConsistent(job, h, manual);
      } else if e.Fail? {
        FinishHistory(w, e.id, ExecFailed, e.error);
        FailureIsConsistent(job, h, manual, e.error);
      } else if e.Retry? && job.status == Failed {
        ManualRetryIsConsistent(job, h, manual);
      } else {
        IdleIsConsistent(job, h, manual, OwnNext(w, e));
      }
    }
  }

  lemma HistoryLength(w: World, id: Id)
    ensures |History(w, id)| == |IndexOf(w.jobIndex, id)|
  {
  }

  lemma StartedHasOwnId(w: World, id: Id, exec: Id)
    requires IdsKnown(w) && id in w.jobs
    ensures Started(w.jobs[id], exec).jobId == id
  {
  }

  lemma NewJobHasNoPast(w: World, job: Job)
    requires Inv(w) && Enabled(w, Create(job))
    ensures History(Apply(w, Create(job)), job.id) == []
    ensures multiset(w.manual)[job.id] == 0
    ensures JobConsistent(job, [], 0)
  {
    assert job.id !in w.jobs;
    assert job.id !in w.manual;
  }

  lemma StepKeepsJobs(w: World, e: Event)
    requires Inv(w) && Enabled(w, e)
    ensures JobsConsistent(Apply(w, e))
  {
    hide JobConsistent, CountersAgree, IndexPartitions, IdsKnown, History, OwnNext;
    OwnJobStays(w, e);
    var w' := Apply(w, e);
    forall id | id in w'.jobs ensures JobConsistent(w'.jobs[id], History(w', id), multiset(w'.manual)[id]) {
      if id != Own(e) {
        OtherJobsUntouched(w, e, id);
      }
    }
  }

  lemma StepKeepsInv(w: World, e: Event)
    requires Inv(w) && Enabled(w, e)
    ensures Inv(Apply(w, e))
  {
    StepKeepsIds(w, e);
    StepKeepsIndex(w, e);
    StepKeepsJobs(w, e);
    StepKeepsCounters(w, e);
    hide IdsKnown, IndexPartitions, JobsConsistent, CountersAgree;
  }

  // ----- whole histories -----

  predicate Legal(w: World, events: seq<Event>)
    decreases |events|
  {
    events == [] || (Enabled(w, events[0]) && Legal(Apply(w, events[0]), events[1..]))
  }

  function Run(w: World, events: seq<Event>): World
    requires Legal(w, events)
    decreases |events|
  {
    if events == [] then w else Run(Apply(w, events[0]), events[1..])
  }

  lemma {:induction false} InvOverHistory(w: World, events: seq<Event>)
    requires Inv(w) && Legal(w, events)
    ensures Inv(Run(w, events))
    decreases |events|
  {
    hide Inv;
    if events != [] {
      StepKeepsInv(w, events[0]);
      InvOverHistory(Apply(w, events[0]), events[1..]);
    }
  }

  /** Main result: over every history from an empty store, each job's executions, retries and
      attempts add up, the index partitions the executions, and the counters agree with the store. */
  lemma EveryHistoryIsConsistent(events: seq<Event>)
    requires Legal(InitialWorld(), events)
    ensures Inv(Run(InitialWorld(), events))
  {
    InitialInv();
    InvOverHistory(InitialWorld(), events);
  }

  /** Main result: a job has exactly one succeeded execution when it succeeded, and none otherwise. */
  lemma SucceededExactlyOnce(w: World, id: Id)
    requires Inv(w) && id in w.jobs
    ensures (exists i :: 0 <= i < |History(w, id)| && History(w, id)[i].status == ExecSucceeded)
            <==> w.jobs[id].status == Succeeded
    ensures forall i, j | 0 <= i < j < |History(w, id)| ::
              !(History(w, id)[i].status == ExecSucceeded && History(w, id)[j].status == ExecSucceeded)
  {
    hide IdsKnown, IndexPartitions, CountersAgree, History;
    var h := History(w, id);
    assert JobConsistent(w.jobs[id], h, multiset(w.manual)[id]);
    if w.jobs[id].status == Succeeded {
      assert h[|h| - 1].status == ExecSucceeded;
    }
  }

  /** Main result: succeeded and cancelled jobs never change again. */
  lemma {:induction false} TerminalIsAbsorbing(w: World, events: seq<Event>, id: Id)
    requires Inv(w) && Legal(w, events) && id in w.jobs
    requires w.jobs[id].status == Succeeded || w.jobs[id].status == Cancelled
    ensures id in Run(w, events).jobs && Run(w, events).jobs[id] == w.jobs[id]
    decreases |events|
  {
    hide IdsKnown, IndexPartitions, JobsConsistent, CountersAgree, ExecutionsNext, IndexNext, CountersNext;
    if events != [] {
      StepKeepsInv(w, events[0]);
      NewIdIsNew(w, events[0]);
      assert Apply(w, events[0]).jobs[id] == w.jobs[id];
      TerminalIsAbsorbing(Apply(w, events[0]), events[1..], id);
    }
  }

  lemma ExecutionOfIdleJob(w: World, e: Id)
    requires Inv(w) && e in w.executions
    ensures w.executions[e].jobId in w.jobs
    ensures w.executions[e].status == ExecRunning ==> w.jobs[w.executions[e].jobId].status == Running
  {
    hide CountersAgree, JobsConsistent;
    var id := w.executions[e].jobId;
    var ids := IndexOf(w.jobIndex, id);
    assert e in ids;
    assert id in w.jobIndex;
    var i :| 0 <= i < |ids| && ids[i] == e;
    JobOk(w, id);
    if w.executions[e].status == ExecRunning {
      RunningEntryIsLast(w.jobs[id], History(w, id), multiset(w.manual)[id], i);
    }
  }

  lemma RunningEntryIsLast(job: Job, h: seq<Execution>, manual: nat, i: nat)
    requires JobConsistent(job, h, manual) && i < |h| && h[i].status == ExecRunning
    ensures job.status == Running && i == |h| - 1
  {
  }

  /** Main result: when nothing is running, the runtime count is the number of executions. */
  lemma QuiescentRuntimeCount(w: World)
    requires Inv(w) && forall id | id in w.jobs :: w.jobs[id].status != Running
    ensures w.counters.finished == w.counters.running == |w.executions|
  {
    hide IdsKnown, IndexPartitions, JobsConsistent;
    forall e | e in w.executions ensures w.executions[e].status != ExecRunning {
      ExecutionOfIdleJob(w, e);
    }
    AllFinished(w.executions);
  }

  lemma AllFinished(executions: map<Id, Execution>)
    requires forall e | e in executions :: executions[e].status != ExecRunning
    ensures |executions| == |ExecsWith(executions, ExecSucceeded)| + |ExecsWith(executions, ExecFailed)|
  {
    var ok, bad := ExecsWith(executions, ExecSucceeded), ExecsWith(executions, ExecFailed);
    assert executions.Keys == ok + bad && ok !! bad;
    assert |executions| == |executions.Keys|;
  }
}
