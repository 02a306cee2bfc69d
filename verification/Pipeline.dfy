/**
  The telemetry pipeline as a transition system: submitters, the workers of every shard, and the
  shutdown sequence, interleaved in any order. Trace and metric shards behave alike, so one kind
  of shard is modelled. Processors and exporters are arbitrary.

  `accepted`, `dequeued`, `finished` and `exported` record what happened to each shard's payloads,
  in order. They are bookkeeping, not program state.
 */
module Pipeline {
  import opened Sharding

  datatype Config<!P> = Config(
    shards: nat,
    capacity: nat,
    workersPerShard: nat,
    processors: nat,
    hooks: nat,
    shardOf: P -> nat)

  ghost predicate ValidConfig<P(!new)>(c: Config<P>) {
    c.shards >= 1 && c.capacity >= 1 && c.workersPerShard >= 1 && forall p :: c.shardOf(p) < c.shards
  }

  /** `Working(p, n)`: n processors have passed p on so far. */
  datatype Activity<P> = Idle | Working(item: P, passed: nat) | Exited

  datatype Worker<P> = Worker(shard: nat, activity: Activity<P>)

  /** What Shutdown has done. `Closing(i)`: shards below i are closed. `Hooks(k)`: all workers are
      gone and k hooks have run. */
  datatype Phase = Running | Closing(next: nat) | Hooks(ran: nat) | ExportersDown

  datatype State<P> = State(
    queues: seq<seq<P>>,
    workers: seq<Worker<P>>,
    phase: Phase,
    accepted: seq<seq<P>>,
    dequeued: seq<seq<P>>,
    finished: seq<seq<P>>,
    exported: seq<seq<P>>)

  datatype Step<P> =
    | Submit(item: P)
    | Dequeue(w: nat)
    | PassOn(w: nat)
    | GiveUp(w: nat)
    | Export(w: nat)
    | Exit(w: nat)
    | BeginShutdown
    | CloseNext
    | WaitDone
    | RunHook
    | ShutExporters

  ghost predicate Shape<P>(c: Config<P>, s: State<P>) {
    && |s.queues| == |s.accepted| == |s.dequeued| == |s.finished| == |s.exported| == c.shards
    && (forall i | 0 <= i < |s.workers| :: s.workers[i].shard < c.shards)
    && (s.phase.Closing? ==> s.phase.next <= c.shards)
    && (s.phase.Hooks? ==> s.phase.ran <= c.hooks)
  }

  predicate IsClosed(phase: Phase, shard: nat) {
    match phase
    case Running => false
    case Closing(next) => shard < next
    case _ => true
  }

  /** The nested loops of Start: all workers of shard 0, then all of shard 1, and so on. */
  function ShardOfWorker(i: nat, perShard: nat): nat
    requires perShard >= 1
  {
    if i < perShard then 0 else 1 + ShardOfWorker(i - perShard, perShard)
  }

  /** Start launched the same number of idle workers for every shard. */
  ghost predicate Init<P>(c: Config<P>, s: State<P>) {
    && c.workersPerShard >= 1
    && Shape(c, s)
    && s.phase == Running
    && |s.workers| == c.shards * c.workersPerShard
    && (forall i | 0 <= i < |s.workers| :: s.workers[i] == Worker(ShardOfWorker(i, c.workersPerShard), Idle))
    && (forall k | 0 <= k < c.shards ::
          s.queues[k] == [] && s.accepted[k] == [] && s.dequeued[k] == [] && s.finished[k] == [] && s.exported[k] == [])
  }

  predicate WorkerIs<P>(s: State<P>, w: nat) {
    w < |s.workers| && s.workers[w].shard < |s.queues|
  }

  /** Sending on a closed channel would panic, so a submit needs its shard open. */
  ghost predicate Enabled<P(!new)>(c: Config<P>, s: State<P>, step: Step<P>) {
    match step
    case Submit(p) => c.shardOf(p) < |s.queues| && !IsClosed(s.phase, c.shardOf(p))
    case Dequeue(w) => WorkerIs(s, w) && s.workers[w].activity.Idle? && s.queues[s.workers[w].shard] != []
    case PassOn(w) => WorkerIs(s, w) && s.workers[w].activity.Working? && s.workers[w].activity.passed < c.processors
    case GiveUp(w) => WorkerIs(s, w) && s.workers[w].activity.Working? && s.workers[w].activity.passed < c.processors
    case Export(w) => WorkerIs(s, w) && s.workers[w].activity.Working? && s.workers[w].activity.passed == c.processors
    case Exit(w) =>
      WorkerIs(s, w) && s.workers[w].activity.Idle? && s.queues[s.workers[w].shard] == []
      && IsClosed(s.phase, s.workers[w].shard)
    case BeginShutdown => s.phase == Running
    case CloseNext => s.phase.Closing? && s.phase.next < c.shards
    case WaitDone => s.phase == Closing(c.shards) && forall i | 0 <= i < |s.workers| :: s.workers[i].activity.Exited?
    case RunHook => s.phase.Hooks? && s.phase.ran < c.hooks
    case ShutExporters => s.phase == Hooks(c.hooks)
  }

  function Push<P>(lists: seq<seq<P>>, k: nat, p: P): seq<seq<P>>
    requires k < |lists|
  {
    lists[k := lists[k] + [p]]
  }

  function Become<P>(s: State<P>, w: nat, activity: Activity<P>): seq<Worker<P>>
    requires w < |s.workers|
  {
    s.workers[w := s.workers[w].(activity := activity)]
  }

  function Next<P(!new)>(c: Config<P>, s: State<P>, step: Step<P>): State<P>
    requires Shape(c, s) && Enabled(c, s, step)
  {
    match step
    case Submit(p) =>
      var k := c.shardOf(p);
      if |s.queues[k]| < c.capacity then s.(queues := Push(s.queues, k, p), accepted := Push(s.accepted, k, p)) else s
    case Dequeue(w) =>
      var k := s.workers[w].shard;
      var p := s.queues[k][0];
      s.(queues := s.queues[k := s.queues[k][1..]],
         dequeued := Push(s.dequeued, k, p),
         workers := Become(s, w, Working(p, 0)))
    case PassOn(w) =>
      var activity := s.workers[w].activity;
      s.(workers := Become(s, w, activity.(passed := activity.passed + 1)))
    case GiveUp(w) =>
      s.(workers := Become(s, w, Idle), finished := Push(s.finished, s.workers[w].shard, s.workers[w].activity.item))
    case Export(w) =>
      var k, p := s.workers[w].shard, s.workers[w].activity.item;
      s.(workers := Become(s, w, Idle), finished := Push(s.finished, k, p), exported := Push(s.exported, k, p))
    case Exit(w) => s.(workers := Become(s, w, Exited))
    case BeginShutdown => s.(phase := Closing(0))
    case CloseNext => s.(phase := Closing(s.phase.next + 1))
    case WaitDone => s.(phase := Hooks(0))
    case RunHook => s.(phase := Hooks(s.phase.ran + 1))
    case ShutExporters => s.(phase := ExportersDown)
  }

  // ----- the payloads in the workers' hands -----

  ghost function InHand<P>(w: Worker<P>, k: nat): multiset<P> {
    if w.shard == k && w.activity.Working? then multiset{w.activity.item} else multiset{}
  }

  ghost function InFlight<P>(workers: seq<Worker<P>>, k: nat): multiset<P> {
    if workers == [] then multiset{}
    else InFlight(workers[..|workers| - 1], k) + InHand(workers[|workers| - 1], k)
  }

  lemma {:induction false} InFlightUpdate<P(!new)>(workers: seq<Worker<P>>, i: nat, w: Worker<P>, k: nat)
    requires i < |workers|
    ensures forall p :: InFlight(workers[i := w], k)[p] + InHand(workers[i], k)[p]
                        == InFlight(workers, k)[p] + InHand(w, k)[p]
    decreases |workers|
  {
    hide InHand;
    var n := |workers| - 1;
    if i == n {
      assert workers[i := w][..n] == workers[..n];
    } else {
      assert workers[i := w][..n] == workers[..n][i := w];
      InFlightUpdate(workers[..n], i, w, k);
    }
  }

  lemma {:induction false} NothingInFlight<P>(workers: seq<Worker<P>>, k: nat)
    requires forall i | 0 <= i < |workers| :: !workers[i].activity.Working?
    ensures InFlight(workers, k) == multiset{}
  {
    if workers != [] {
      NothingInFlight(workers[..|workers| - 1], k);
    }
  }

  // ----- the invariant -----

  /** One shard: first in first out, bounded, nothing lost and nothing done twice. */
  ghost predicate ShardOk<P>(c: Config<P>, s: State<P>, k: nat)
    requires Shape(c, s) && k < c.shards
  {
    && s.accepted[k] == s.dequeued[k] + s.queues[k]
    && |s.queues[k]| <= c.capacity
    && multiset(s.dequeued[k]) == InFlight(s.workers, k) + multiset(s.finished[k])
    && multiset(s.exported[k]) <= multiset(s.finished[k])
  }

  /** A worker leaves only after its closed queue is empty, and nothing is queued behind it. */
  ghost predicate ExitsAreFinal<P>(c: Config<P>, s: State<P>)
    requires Shape(c, s)
  {
    forall i | 0 <= i < |s.workers| && s.workers[i].activity.Exited? ::
      IsClosed(s.phase, s.workers[i].shard) && s.queues[s.workers[i].shard] == []
  }

  /** Hooks and exporter shutdown come after the last payload. */
  ghost predicate ShutdownOrder<P>(s: State<P>) {
    s.phase.Hooks? || s.phase.ExportersDown? ==> forall i | 0 <= i < |s.workers| :: s.workers[i].activity.Exited?
  }

  /** Every shard keeps at least one worker. */
  ghost predicate Staffed<P>(c: Config<P>, s: State<P>) {
    forall k | 0 <= k < c.shards :: HasWorker(s.workers, k)
  }

  ghost predicate HasWorker<P>(workers: seq<Worker<P>>, k: nat) {
    exists i :: 0 <= i < |workers| && workers[i].shard == k
  }

  ghost predicate PassedInRange<P>(c: Config<P>, s: State<P>) {
    forall i | 0 <= i < |s.workers| && s.workers[i].activity.Working? :: s.workers[i].activity.passed <= c.processors
  }

  ghost predicate Inv<P>(c: Config<P>, s: State<P>) {
    && Shape(c, s)
    && (forall k | 0 <= k < c.shards :: ShardOk(c, s, k))
    && ExitsAreFinal(c, s)
    && ShutdownOrder(s)
    && Staffed(c, s)
    && PassedInRange(c, s)
  }

  lemma InitEstablishesInv<P(!new)>(c: Config<P>, s: State<P>)
    requires ValidConfig(c) && Init(c, s)
    ensures Inv(c, s)
  {
    forall k | 0 <= k < c.shards ensures HasWorker(s.workers, k) && ShardOk(c, s, k) {
      FirstWorkerOfShard(k, c.shards, c.workersPerShard);
      assert s.workers[k * c.workersPerShard].shard == k;
      NothingInFlight(s.workers, k);
    }
  }

  lemma {:induction false} FirstWorkerOfShard(k: nat, shards: nat, workers: nat)
    requires k < shards && workers >= 1
    ensures 0 <= k * workers < shards * workers && ShardOfWorker(k * workers, workers) == k
  {
    assert k * workers + workers == (k + 1) * workers <= shards * workers;
    if k > 0 {
      FirstWorkerOfShard(k - 1, shards, workers);
      assert k * workers == (k - 1) * workers + workers;
    }
  }

  /** A step that changes one worker moves at most its item between hand and record. */
  lemma BecomeInFlight<P(!new)>(s: State<P>, w: nat, activity: Activity<P>, k: nat)
    requires w < |s.workers|
    ensures forall p :: InFlight(Become(s, w, activity), k)[p] + InHand(s.workers[w], k)[p]
                        == InFlight(s.workers, k)[p] + InHand(s.workers[w].(activity := activity), k)[p]
  {
    InFlightUpdate(s.workers, w, s.workers[w].(activity := activity), k);
  }

  /** A worker whose hand stays as it was leaves the payloads in flight as they were. */
  lemma SameHand<P(!new)>(s: State<P>, w: nat, activity: Activity<P>, k: nat)
    requires w < |s.workers| && InHand(s.workers[w].(activity := activity), k) == InHand(s.workers[w], k)
    ensures InFlight(Become(s, w, activity), k) == InFlight(s.workers, k)
  {
    hide InFlight, InHand;
    BecomeInFlight(s, w, activity, k);
  }

  /** A worker that lays its item down takes it out of flight. */
  lemma LayDown<P(!new)>(s: State<P>, w: nat, k: nat)
    requires w < |s.workers| && s.workers[w].activity.Working?
    ensures InFlight(s.workers, k)
            == InFlight(Become(s, w, Idle), k)
               + (if s.workers[w].shard == k then multiset{s.workers[w].activity.item} else multiset{})
  {
    hide InFlight;
    BecomeInFlight(s, w, Idle, k);
  }

  lemma PickUp<P(!new)>(s: State<P>, w: nat, p: P, k: nat)
    requires w < |s.workers| && s.workers[w].activity.Idle?
    ensures InFlight(Become(s, w, Working(p, 0)), k)
            == InFlight(s.workers, k) + (if s.workers[w].shard == k then multiset{p} else multiset{})
  {
    hide InFlight;
    BecomeInFlight(s, w, Working(p, 0), k);
  }

  lemma SubmitKeepsShard<P(!new)>(c: Config<P>, s: State<P>, p: P, k: nat)
    requires Shape(c, s) && Enabled(c, s, Submit(p)) && k < c.shards && ShardOk(c, s, k)
    ensures ShardOk(c, Next(c, s, Submit(p)), k)
  {
    hide InFlight;
    var q := c.shardOf(p);
    assert s.dequeued[q] + s.queues[q] + [p] == s.dequeued[q] + (s.queues[q] + [p]);
  }

  lemma FinishKeepsShard<P(!new)>(c: Config<P>, s: State<P>, w: nat, step: Step<P>, k: nat)
    requires Shape(c, s) && Enabled(c, s, step) && k < c.shards && ShardOk(c, s, k)
    requires step == GiveUp(w) || step == Export(w)
    ensures ShardOk(c, Next(c, s, step), k)
  {
    hide InFlight;
    LayDown(s, w, k);
  }

  /** Steps that touch no payload. */
  predicate IsQuiet<P>(step: Step<P>) {
    !step.Submit? && !step.Dequeue? && !step.GiveUp? && !step.Export?
  }

  lemma QuietKeepsShard<P(!new)>(c: Config<P>, s: State<P>, step: Step<P>, k: nat)
    requires Shape(c, s) && Enabled(c, s, step) && k < c.shards && ShardOk(c, s, k) && IsQuiet(step)
    ensures ShardOk(c, Next(c, s, step), k)
  {
    hide InFlight;
    if step.PassOn? {
      SameHand(s, step.w, s.workers[step.w].activity.(passed := s.workers[step.w].activity.passed + 1), k);
    } else if step.Exit? {
      SameHand(s, step.w, Exited, k);
    }
  }

  lemma StepKeepsShard<P(!new)>(c: Config<P>, s: State<P>, step: Step<P>, k: nat)
    requires Shape(c, s) && Enabled(c, s, step) && k < c.shards && ShardOk(c, s, k)
    ensures Shape(c, Next(c, s, step)) && ShardOk(c, Next(c, s, step), k)
  {
    hide ShardOk;
    if step.Submit? {
      SubmitKeepsShard(c, s, step.item, k);
    } else if step.Dequeue? {
      DequeueKeepsShard(c, s, step.w, k);
    } else if step.GiveUp? || step.Export? {
      FinishKeepsShard(c, s, step.w, step, k);
    } else {
      QuietKeepsShard(c, s, step, k);
    }
  }

  lemma DequeueKeepsShard<P(!new)>(c: Config<P>, s: State<P>, w: nat, k: nat)
    requires Shape(c, s) && Enabled(c, s, Dequeue(w)) && k < c.shards && ShardOk(c, s, k)
    ensures ShardOk(c, Next(c, s, Dequeue(w)), k)
  {
    hide InFlight;
    var q := s.workers[w].shard;
    var p := s.queues[q][0];
    PickUp(s, w, p, k);
    assert s.queues[q] == [p] + s.queues[q][1..];
    assert s.dequeued[q] + s.queues[q] == s.dequeued[q] + [p] + s.queues[q][1..];
  }

  lemma StepKeepsOrder<P(!new)>(c: Config<P>, s: State<P>, step: Step<P>)
    requires Inv(c, s) && Enabled(c, s, step)
    ensures Shape(c, Next(c, s, step)) && ExitsAreFinal(c, Next(c, s, step)) && ShutdownOrder(Next(c, s, step))
  {
    hide ShardOk, Staffed;
  }

  lemma StepKeepsStaff<P(!new)>(c: Config<P>, s: State<P>, step: Step<P>)
    requires Inv(c, s) && Enabled(c, s, step)
    ensures Staffed(c, Next(c, s, step)) && PassedInRange(c, Next(c, s, step))
  {
    hide ShardOk, ExitsAreFinal, ShutdownOrder, InFlight;
    var workers := Next(c, s, step).workers;
    assert |workers| == |s.workers| && forall i | 0 <= i < |workers| :: workers[i].shard == s.workers[i].shard;
    forall k | 0 <= k < c.shards ensures HasWorker(workers, k) {
      assert HasWorker(s.workers, k);
      var i :| 0 <= i < |s.workers| && s.workers[i].shard == k;
      assert workers[i].shard == k;
    }
  }

  lemma StepKeepsInv<P(!new)>(c: Config<P>, s: State<P>, step: Step<P>)
    requires Inv(c, s) && Enabled(c, s, step)
    ensures Inv(c, Next(c, s, step))
  {
    StepKeepsOrder(c, s, step);
    StepKeepsStaff(c, s, step);
    forall k | 0 <= k < c.shards ensures ShardOk(c, Next(c, s, step), k) {
      StepKeepsShard(c, s, step, k);
    }
    hide ShardOk, ExitsAreFinal, ShutdownOrder, Staffed, PassedInRange, Next, Enabled;
  }

  // ----- all schedules -----

  ghost predicate Legal<P(!new)>(c: Config<P>, s: State<P>, schedule: seq<Step<P>>)
    requires Inv(c, s)
    decreases |schedule|
  {
    schedule == [] ||
    (Enabled(c, s, schedule[0]) &&
     (StepKeepsInv(c, s, schedule[0]);
      Legal(c, Next(c, s, schedule[0]), schedule[1..])))
  }

  ghost function Execute<P(!new)>(c: Config<P>, s: State<P>, schedule: seq<Step<P>>): (r: State<P>)
    requires Inv(c, s) && Legal(c, s, schedule)
    ensures Inv(c, r)
    decreases |schedule|
  {
    if schedule == [] then s
    else
      StepKeepsInv(c, s, schedule[0]);
      Execute(c, Next(c, s, schedule[0]), schedule[1..])
  }

  /** Main result: at every point of every schedule each shard has accepted exactly the submitted
      payloads that met it with room, and holds them queued, in a worker's hands, or finished; it
      has dequeued in acceptance order. */
  lemma NothingLostNothingTwice<P(!new)>(c: Config<P>, s: State<P>, schedule: seq<Step<P>>, k: nat)
    requires Inv(c, s) && Legal(c, s, schedule) && k < c.shards
    ensures var now := Execute(c, s, schedule);
            && now.accepted[k] == s.accepted[k] + MetRoom(c, s, schedule, k)
            && multiset(now.accepted[k])
               == multiset(now.queues[k]) + InFlight(now.workers, k) + multiset(now.finished[k])
            && now.dequeued[k] <= now.accepted[k]
            && multiset(now.exported[k]) <= multiset(now.accepted[k])
  {
    var now := Execute(c, s, schedule);
    AcceptsWhileThereIsRoom(c, s, schedule, k);
    assert ShardOk(c, now, k);
    assert multiset(now.accepted[k]) == multiset(now.dequeued[k]) + multiset(now.queues[k]);
  }

  // ----- what is accepted and what is dropped -----

  /** A submit is taken while its shard has room, behind everything queued there, and dropped, with
      nothing changed, exactly when the shard holds `capacity` payloads. */
  lemma SubmitIsTakenExactly<P(!new)>(c: Config<P>, s: State<P>, p: P)
    requires Inv(c, s) && Enabled(c, s, Submit(p))
    ensures var k, now := c.shardOf(p), Next(c, s, Submit(p));
            && (|s.queues[k]| < c.capacity ==>
                  && now.queues == s.queues[k := s.queues[k] + [p]]
                  && now.accepted == s.accepted[k := s.accepted[k] + [p]]
                  && now == s.(queues := now.queues, accepted := now.accepted))
            && (now == s <==> |s.queues[k]| == c.capacity)
            && (now.accepted == s.accepted <==> |s.queues[k]| == c.capacity)
  {
    hide ExitsAreFinal, ShutdownOrder, Staffed;
    var k, now := c.shardOf(p), Next(c, s, Submit(p));
    assert ShardOk(c, s, k);
    if |s.queues[k]| < c.capacity {
      assert |now.accepted[k]| == |s.accepted[k]| + 1;
    }
  }

  /** The payloads submitted to shard k, in order. */
  function SubmittedTo<P>(c: Config<P>, schedule: seq<Step<P>>, k: nat): seq<P> {
    if schedule == [] then []
    else
      var step := schedule[0];
      (if step.Submit? && c.shardOf(step.item) == k then [step.item] else []) + SubmittedTo(c, schedule[1..], k)
  }

  /** Those of them that met a shard with room. */
  ghost function MetRoom<P(!new)>(c: Config<P>, s: State<P>, schedule: seq<Step<P>>, k: nat): seq<P>
    requires Inv(c, s) && Legal(c, s, schedule) && k < c.shards
    decreases |schedule|
  {
    if schedule == [] then []
    else
      var step := schedule[0];
      StepKeepsInv(c, s, step);
      (if step.Submit? && c.shardOf(step.item) == k && |s.queues[k]| < c.capacity then [step.item] else [])
      + MetRoom(c, Next(c, s, step), schedule[1..], k)
  }

  /** How many met a full one. */
  ghost function MetFull<P(!new)>(c: Config<P>, s: State<P>, schedule: seq<Step<P>>, k: nat): nat
    requires Inv(c, s) && Legal(c, s, schedule) && k < c.shards
    decreases |schedule|
  {
    if schedule == [] then 0
    else
      var step := schedule[0];
      StepKeepsInv(c, s, step);
      (if step.Submit? && c.shardOf(step.item) == k && |s.queues[k]| == c.capacity then 1 else 0)
      + MetFull(c, Next(c, s, step), schedule[1..], k)
  }

  /** Main result: over every schedule a shard accepts exactly the submitted payloads that met it
      with room, in order; every other one was dropped at a shard holding `capacity` payloads. */
  lemma {:induction false} AcceptsWhileThereIsRoom<P(!new)>(c: Config<P>, s: State<P>, schedule: seq<Step<P>>, k: nat)
    requires Inv(c, s) && Legal(c, s, schedule) && k < c.shards
    ensures Execute(c, s, schedule).accepted[k] == s.accepted[k] + MetRoom(c, s, schedule, k)
    ensures |SubmittedTo(c, schedule, k)| == |MetRoom(c, s, schedule, k)| + MetFull(c, s, schedule, k)
    decreases |schedule|
  {
    hide ShardOk, ExitsAreFinal, ShutdownOrder, Staffed, Enabled, Next;
    if schedule != [] {
      var step := schedule[0];
      StepKeepsInv(c, s, step);
      AcceptedBy(c, s, step, k);
      AcceptsWhileThereIsRoom(c, Next(c, s, step), schedule[1..], k);
    }
  }

  lemma AcceptedBy<P(!new)>(c: Config<P>, s: State<P>, step: Step<P>, k: nat)
    requires Inv(c, s) && Enabled(c, s, step) && k < c.shards && Shape(c, Next(c, s, step))
    ensures |s.queues[k]| <= c.capacity
    ensures Next(c, s, step).accepted[k]
            == s.accepted[k] + if step.Submit? && c.shardOf(step.item) == k && |s.queues[k]| < c.capacity then [step.item] else []
  {
    hide ExitsAreFinal, ShutdownOrder, Staffed;
    assert ShardOk(c, s, k);
  }

  // ----- what reaches the exporters -----

  /** Processors that have passed on the payloads now in the workers' hands. */
  function PassedInHand<P>(workers: seq<Worker<P>>): nat {
    if workers == [] then 0
    else
      var last := workers[|workers| - 1].activity;
      PassedInHand(workers[..|workers| - 1]) + if last.Working? then last.passed else 0
  }

  lemma {:induction false} PassedInHandUpdate<P>(workers: seq<Worker<P>>, i: nat, activity: Activity<P>)
    requires i < |workers|
    ensures PassedInHand(workers[i := workers[i].(activity := activity)])
            == PassedInHand(workers) - (if workers[i].activity.Working? then workers[i].activity.passed else 0)
               + if activity.Working? then activity.passed else 0
    decreases |workers|
  {
    var n, w := |workers| - 1, workers[i].(activity := activity);
    if i == n {
      assert workers[i := w][..n] == workers[..n];
    } else {
      assert workers[i := w][..n] == workers[..n][i := w];
      PassedInHandUpdate(workers[..n], i, activity);
    }
  }

  function PassOns<P>(schedule: seq<Step<P>>): nat {
    if schedule == [] then 0 else (if schedule[0].PassOn? then 1 else 0) + PassOns(schedule[1..])
  }

  /** Processor passes an export stands for. */
  function PassesOfExports<P>(schedule: seq<Step<P>>, processors: nat): nat {
    if schedule == [] then 0 else (if schedule[0].Export? then processors else 0) + PassesOfExports(schedule[1..], processors)
  }

  /** Every exported payload has been passed on by all processors first. */
  lemma {:induction false} ExportsPassAllProcessors<P(!new)>(c: Config<P>, s: State<P>, schedule: seq<Step<P>>)
    requires Inv(c, s) && Legal(c, s, schedule)
    ensures PassedInHand(s.workers) + PassOns(schedule)
            >= PassesOfExports(schedule, c.processors) + PassedInHand(Execute(c, s, schedule).workers)
    decreases |schedule|
  {
    hide ShardOk, ExitsAreFinal, ShutdownOrder, Staffed;
    if schedule != [] {
      var step := schedule[0];
      StepKeepsInv(c, s, step);
      if step.Dequeue? || step.PassOn? || step.GiveUp? || step.Export? || step.Exit? {
        PassedInHandUpdate(s.workers, step.w, Next(c, s, step).workers[step.w].activity);
      }
      hide Inv;
      ExportsPassAllProcessors(c, Next(c, s, step), schedule[1..]);
    }
  }

  function HooksRun<P>(schedule: seq<Step<P>>): nat {
    if schedule == [] then 0 else (if schedule[0].RunHook? then 1 else 0) + HooksRun(schedule[1..])
  }

  /** The exporters go down only after every hook has run once. */
  lemma {:induction false} EveryHookRuns<P(!new)>(c: Config<P>, s: State<P>, schedule: seq<Step<P>>)
    requires Inv(c, s) && Legal(c, s, schedule)
    ensures var ran := (if s.phase.Hooks? then s.phase.ran else 0) + HooksRun(schedule);
            var now := Execute(c, s, schedule).phase;
            && (now.Hooks? ==> ran == now.ran)
            && (now.ExportersDown? && !s.phase.ExportersDown? ==> ran == c.hooks)
            && (s.phase.ExportersDown? ==> now.ExportersDown? && HooksRun(schedule) == 0)
            && (now.Running? || now.Closing? ==> ran == 0)
    decreases |schedule|
  {
    hide ShardOk, ExitsAreFinal, ShutdownOrder, Staffed;
    if schedule != [] {
      StepKeepsInv(c, s, schedule[0]);
      EveryHookRuns(c, Next(c, s, schedule[0]), schedule[1..]);
    }
  }

  /** Shard k gets exactly the workers from k * perShard up to the next multiple. */
  lemma {:induction false} WorkersAreEven(i: nat, perShard: nat)
    requires perShard >= 1
    ensures ShardOfWorker(i, perShard) * perShard <= i < (ShardOfWorker(i, perShard) + 1) * perShard
    decreases i
  {
    if i >= perShard {
      WorkersAreEven(i - perShard, perShard);
    }
  }

  // ----- shutdown drains -----

  /** All channels are closed: nobody submits any more. */
  ghost predicate Draining<P>(c: Config<P>, s: State<P>) {
    match s.phase
    case Running => false
    case Closing(next) => next == c.shards
    case _ => true
  }

  function Load<P>(c: Config<P>, w: Worker<P>): int {
    match w.activity
    case Idle => 1
    case Working(_, passed) => 2 + c.processors - passed
    case Exited => 0
  }

  function WorkersLoad<P>(c: Config<P>, workers: seq<Worker<P>>): int {
    if workers == [] then 0
    else WorkersLoad(c, workers[..|workers| - 1]) + Load(c, workers[|workers| - 1])
  }

  function QueuesLoad<P>(queues: seq<seq<P>>): nat {
    if queues == [] then 0 else QueuesLoad(queues[..|queues| - 1]) + |queues[|queues| - 1]|
  }

  function PhaseLoad<P>(c: Config<P>, phase: Phase): int {
    match phase
    case Running => c.hooks + 4
    case Closing(_) => c.hooks + 3
    case Hooks(ran) => c.hooks - ran + 1
    case ExportersDown => 0
  }

  /** A bound on the steps left: each queued payload needs one dequeue and its processing. */
  function Left<P>(c: Config<P>, s: State<P>): int {
    QueuesLoad(s.queues) * (c.processors + 3) + WorkersLoad(c, s.workers) + PhaseLoad(c, s.phase)
  }

  lemma {:induction false} WorkersLoadUpdate<P>(c: Config<P>, workers: seq<Worker<P>>, i: nat, w: Worker<P>)
    requires i < |workers|
    ensures WorkersLoad(c, workers[i := w]) == WorkersLoad(c, workers) - Load(c, workers[i]) + Load(c, w)
    decreases |workers|
  {
    hide Load;
    var n := |workers| - 1;
    if i == n {
      assert workers[i := w][..n] == workers[..n];
    } else {
      assert workers[i := w][..n] == workers[..n][i := w];
      WorkersLoadUpdate(c, workers[..n], i, w);
    }
  }

  lemma {:induction false} QueuesLoadUpdate<P>(queues: seq<seq<P>>, k: nat, q: seq<P>)
    requires k < |queues|
    ensures QueuesLoad(queues[k := q]) == QueuesLoad(queues) - |queues[k]| + |q|
    decreases |queues|
  {
    var n := |queues| - 1;
    if k == n {
      assert queues[k := q][..n] == queues[..n];
    } else {
      assert queues[k := q][..n] == queues[..n][k := q];
      QueuesLoadUpdate(queues[..n], k, q);
    }
  }

  lemma {:induction false} WorkersLoadPositive<P>(c: Config<P>, workers: seq<Worker<P>>)
    requires forall i | 0 <= i < |workers| && workers[i].activity.Working? :: workers[i].activity.passed <= c.processors
    ensures WorkersLoad(c, workers) >= 0
  {
    if workers != [] {
      WorkersLoadPositive(c, workers[..|workers| - 1]);
    }
  }

  /** While draining, every step uses up at least one unit. */
  lemma DrainStep<P(!new)>(c: Config<P>, s: State<P>, step: Step<P>)
    requires ValidConfig(c) && Inv(c, s) && Draining(c, s) && Enabled(c, s, step)
    ensures Draining(c, Next(c, s, step))
    ensures Left(c, Next(c, s, step)) < Left(c, s)
  {
    hide ShardOk, ExitsAreFinal, Staffed, InFlight, WorkersLoad, QueuesLoad;
    match step
    case Submit(p) => assert false;
    case Dequeue(w) =>
      var k := s.workers[w].shard;
      QueuesLoadUpdate(s.queues, k, s.queues[k][1..]);
      WorkersLoadUpdate(c, s.workers, w, s.workers[w].(activity := Working(s.queues[k][0], 0)));
      OneLess(QueuesLoad(s.queues), c.processors + 3);
    case PassOn(w) =>
      WorkersLoadUpdate(c, s.workers, w, s.workers[w].(activity := s.workers[w].activity.(passed := s.workers[w].activity.passed + 1)));
    case GiveUp(w) => WorkersLoadUpdate(c, s.workers, w, s.workers[w].(activity := Idle));
    case Export(w) => WorkersLoadUpdate(c, s.workers, w, s.workers[w].(activity := Idle));
    case Exit(w) => WorkersLoadUpdate(c, s.workers, w, s.workers[w].(activity := Exited));
    case BeginShutdown => assert false;
    case CloseNext => assert false;
    case WaitDone =>
    case RunHook =>
    case ShutExporters =>
  }

  lemma OneLess(n: nat, m: nat)
    ensures (n - 1) * m == n * m - m
  {
  }

  /** While draining, some step is possible until the exporters are shut down. */
  lemma DrainProgress<P(!new)>(c: Config<P>, s: State<P>) returns (step: Step<P>)
    requires Inv(c, s) && Draining(c, s) && s.phase != ExportersDown
    ensures Enabled(c, s, step)
  {
    hide ShardOk, Staffed, InFlight;
    if i :| 0 <= i < |s.workers| && !s.workers[i].activity.Exited? {
      var k := s.workers[i].shard;
      if s.workers[i].activity.Working? {
        step := if s.workers[i].activity.passed < c.processors then PassOn(i) else Export(i);
      } else if s.queues[k] != [] {
        step := Dequeue(i);
      } else {
        step := Exit(i);
      }
    } else if s.phase.Closing? {
      step := WaitDone;
    } else if s.phase.ran < c.hooks {
      step := RunHook;
    } else {
      step := ShutExporters;
    }
  }

  /** Main result: once all channels are closed every schedule is finite. */
  lemma {:induction false} DrainTerminates<P(!new)>(c: Config<P>, s: State<P>, schedule: seq<Step<P>>)
    requires ValidConfig(c) && Inv(c, s) && Draining(c, s) && Legal(c, s, schedule)
    ensures |schedule| + Left(c, Execute(c, s, schedule)) <= Left(c, s)
    ensures Left(c, Execute(c, s, schedule)) >= 0
    ensures Draining(c, Execute(c, s, schedule))
    decreases |schedule|
  {
    hide ShardOk, ExitsAreFinal, ShutdownOrder, Staffed, Enabled, Next;
    if schedule == [] {
      WorkersLoadPositive(c, s.workers);
      LeftIsNonnegative(c, s);
    } else {
      StepKeepsInv(c, s, schedule[0]);
      DrainStep(c, s, schedule[0]);
      DrainTerminates(c, Next(c, s, schedule[0]), schedule[1..]);
    }
  }

  lemma LeftIsNonnegative<P>(c: Config<P>, s: State<P>)
    requires WorkersLoad(c, s.workers) >= 0 && Inv(c, s)
    ensures Left(c, s) >= 0
  {
    hide ShardOk, ExitsAreFinal, Staffed, ShutdownOrder;
    assert QueuesLoad(s.queues) * (c.processors + 3) >= 0;
  }

  /** Main result: whenever hooks may run, every accepted payload has been finished, exactly once. */
  lemma HooksRunAfterTheLastPayload<P(!new)>(c: Config<P>, s: State<P>, schedule: seq<Step<P>>, k: nat)
    requires Inv(c, s) && Legal(c, s, schedule) && k < c.shards
    requires var now := Execute(c, s, schedule); now.phase.Hooks? || now.phase.ExportersDown?
    ensures var now := Execute(c, s, schedule);
            && now.queues[k] == [] && now.dequeued[k] == now.accepted[k]
            && multiset(now.finished[k]) == multiset(now.accepted[k])
            && forall step | Enabled(c, now, step) :: step.RunHook? || step.ShutExporters?
  {
    var now := Execute(c, s, schedule);
    ExitedShardIsDrained(c, now, k);
    hide Inv;
    assert forall i | 0 <= i < |now.workers| :: now.workers[i].activity.Exited?;
  }

  lemma ExitedShardIsDrained<P(!new)>(c: Config<P>, s: State<P>, k: nat)
    requires Inv(c, s) && k < c.shards && (s.phase.Hooks? || s.phase.ExportersDown?)
    ensures forall i | 0 <= i < |s.workers| :: s.workers[i].activity.Exited?
    ensures s.queues[k] == [] && s.dequeued[k] == s.accepted[k] && multiset(s.finished[k]) == multiset(s.accepted[k])
  {
    assert ShardOk(c, s, k);
    NothingInFlight(s.workers, k);
    assert HasWorker(s.workers, k);
    var i :| 0 <= i < |s.workers| && s.workers[i].shard == k;
    assert s.dequeued[k] + s.queues[k] == s.dequeued[k];
  }

  // ----- order of export with one worker per shard -----

  /** t can be obtained from s by leaving elements out. */
  ghost predicate IsSubsequence<P>(t: seq<P>, s: seq<P>) {
    if t == [] then true
    else if s == [] then false
    else if t[|t| - 1] == s[|s| - 1] && IsSubsequence(t[..|t| - 1], s[..|s| - 1]) then true
    else IsSubsequence(t, s[..|s| - 1])
  }

  ghost predicate SoleWorker<P>(s: State<P>, w: nat, k: nat) {
    && w < |s.workers| && s.workers[w].shard == k
    && forall i | 0 <= i < |s.workers| && s.workers[i].shard == k :: i == w
  }

  /** The shard finishes in dequeue order, and exports an ordered selection of what it finished. */
  ghost predicate InOrder<P>(s: State<P>, w: nat, k: nat)
    requires w < |s.workers| && k < |s.dequeued| == |s.finished| == |s.exported|
  {
    && s.dequeued[k] == s.finished[k] + (if s.workers[w].activity.Working? then [s.workers[w].activity.item] else [])
    && IsSubsequence(s.exported[k], s.finished[k])
  }

  lemma SubsequenceBoth<P>(t: seq<P>, s: seq<P>, p: P)
    requires IsSubsequence(t, s)
    ensures IsSubsequence(t + [p], s + [p]) && IsSubsequence(t, s + [p])
  {
    assert (t + [p])[..|t|] == t && (s + [p])[..|s|] == s;
  }

  lemma StepKeepsOrderOfExports<P(!new)>(c: Config<P>, s: State<P>, step: Step<P>, w: nat, k: nat)
    requires Shape(c, s) && k < c.shards && SoleWorker(s, w, k) && InOrder(s, w, k) && Enabled(c, s, step)
    ensures SoleWorker(Next(c, s, step), w, k) && InOrder(Next(c, s, step), w, k)
  {
    hide IsSubsequence;
    if (step.Export? || step.GiveUp?) && step.w == w {
      SubsequenceBoth(s.exported[k], s.finished[k], s.workers[w].activity.item);
      assert s.dequeued[k] == s.finished[k] + [s.workers[w].activity.item];
    }
  }

  /** Main result: with one worker per shard the exports of a shard are an ordered selection of
      what it accepted. */
  lemma {:induction false} ExportsKeepAcceptanceOrder<P(!new)>(c: Config<P>, s: State<P>, schedule: seq<Step<P>>, w: nat, k: nat)
    requires Inv(c, s) && Legal(c, s, schedule) && k < c.shards && SoleWorker(s, w, k) && InOrder(s, w, k)
    ensures SoleWorker(Execute(c, s, schedule), w, k) && InOrder(Execute(c, s, schedule), w, k)
    ensures IsSubsequence(Execute(c, s, schedule).exported[k], Execute(c, s, schedule).accepted[k])
    decreases |schedule|
  {
    hide Enabled, Next, IsSubsequence;
    if schedule == [] {
      assert ShardOk(c, s, k);
      var more := s.accepted[k][|s.finished[k]|..];
      assert s.accepted[k] == s.finished[k] + more;
      SubsequenceOfLonger(s.exported[k], s.finished[k], more);
    } else {
      StepKeepsInv(c, s, schedule[0]);
      StepKeepsOrderOfExports(c, s, schedule[0], w, k);
      ExportsKeepAcceptanceOrder(c, Next(c, s, schedule[0]), schedule[1..], w, k);
    }
  }

  lemma {:induction false} OneWorkerEach(i: nat)
    ensures ShardOfWorker(i, 1) == i
  {
    if i > 0 {
      OneWorkerEach(i - 1);
    }
  }

  /** A run of a freshly started pipeline. */
  ghost predicate LegalFromStart<P(!new)>(c: Config<P>, s: State<P>, schedule: seq<Step<P>>) {
    ValidConfig(c) && Init(c, s) && (InitEstablishesInv(c, s); Legal(c, s, schedule))
  }

  /** Main result: so in every run of a pipeline started with one worker per shard, whatever is
      submitted and whenever it is shut down. */
  lemma SoleWorkersExportInOrder<P(!new)>(c: Config<P>, s: State<P>, schedule: seq<Step<P>>, k: nat)
    requires LegalFromStart(c, s, schedule) && c.workersPerShard == 1 && k < c.shards
    ensures (InitEstablishesInv(c, s); IsSubsequence(Execute(c, s, schedule).exported[k], Execute(c, s, schedule).accepted[k]))
  {
    InitEstablishesInv(c, s);
    forall i: nat ensures ShardOfWorker(i, 1) == i {
      OneWorkerEach(i);
    }
    assert SoleWorker(s, k, k);
    assert InOrder(s, k, k);
    hide Inv, Init, Enabled, Next, IsSubsequence, SoleWorker, InOrder;
    ExportsKeepAcceptanceOrder(c, s, schedule, k, k);
  }

  lemma {:induction false} SubsequenceOfLonger<P>(t: seq<P>, s: seq<P>, more: seq<P>)
    requires IsSubsequence(t, s)
    ensures IsSubsequence(t, s + more)
    decreases |more|
  {
    hide IsSubsequence;
    if more == [] {
      assert s + more == s;
    } else {
      SubsequenceOfLonger(t, s, more[..|more| - 1]);
      SubsequenceBoth(t, s + more[..|more| - 1], more[|more| - 1]);
      assert s + more == s + more[..|more| - 1] + [more[|more| - 1]];
    }
  }

  // ----- depth -----

  /** Main result: the queues together never hold more than the shards' capacities. */
  lemma {:induction false} DepthIsBounded<P>(queues: seq<seq<P>>, capacity: nat)
    requires forall k | 0 <= k < |queues| :: |queues[k]| <= capacity
    ensures QueuesLoad(queues) <= |queues| * capacity
  {
    if queues != [] {
      DepthIsBounded(queues[..|queues| - 1], capacity);
      assert |queues| * capacity == (|queues| - 1) * capacity + capacity;
    }
  }

  /** With the capacities the manager chooses, that is the configured queue size, or one payload
      per shard when the queue size is smaller than the number of shards. */
  lemma DepthNeverExceedsQueueSize<P(!new)>(c: Config<P>, s: State<P>, schedule: seq<Step<P>>, configured: int, queueSize: int)
    requires Inv(c, s) && Legal(c, s, schedule)
    requires c.shards == Shards(configured) && c.capacity == ShardCapacity(queueSize, c.shards)
    ensures QueuesLoad(Execute(c, s, schedule).queues) <= if queueSize >= c.shards then queueSize else c.shards
  {
    hide ExitsAreFinal, ShutdownOrder, Staffed, PassedInRange, QueuesLoad, ShardCapacity;
    var now := Execute(c, s, schedule);
    forall k | 0 <= k < |now.queues| ensures |now.queues[k]| <= c.capacity {
      assert ShardOk(c, now, k);
    }
    DepthIsBounded(now.queues, c.capacity);
    TotalCapacity(queueSize, c.shards);
  }
}
