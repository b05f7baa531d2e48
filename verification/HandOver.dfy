/** The hand-over protocol of one capability.

    Every region of the source that runs under `cap->lock` (or under `task->lock` alone) is one
    atomic event; a run is any interleaving of events of any number of tasks. */
module HandOver {
  import opened Options

  type Task = nat

  /** Where a task is with respect to this capability.  The `Woken` states are between clearing
      the wakeup flag under the task's lock and looking at the capability under its lock. */
  datatype Pc = Outside | Holding | Yielding | WaitReturn | WokenReturn | WaitYield | WokenYield | Stopped

  const MAX_SPARE_WORKERS := 6

  /** `runQueue` lists the runnable Haskell threads by the task they are bound to, if any.
      `bound` holds the tasks with a bound thread; all others are workers.  `sync` is a pending
      synchronisation other than a parallel collection. */
  datatype State = State(
    running: Option<Task>,
    returning: seq<Task>,
    spare: seq<Task>,
    nSpare: nat,
    wakeup: set<Task>,
    pc: map<Task, Pc>,
    bound: set<Task>,
    runQueue: seq<Option<Task>>,
    inbox: nat,
    sync: bool,
    shutdown: bool)

  function PcOf(s: State, t: Task): Pc {
    if t in s.pc then s.pc[t] else Outside
  }

  function At(s: State, t: Task, pc: Pc): State {
    s.(pc := s.pc[t := pc])
  }

  /** What the code looks at beyond the capability: whether there are sparks or global work to do,
      and the identity of a task that does not exist yet. */
  datatype Env = Env(otherWork: bool, newcomer: Task)

  // ---------------------------------------------------------------------------------------
  // The locked regions
  // ---------------------------------------------------------------------------------------

  /** giveCapabilityToTask: a sticky wakeup. */
  function Give(s: State, t: Task): State {
    s.(wakeup := s.wakeup + {t})
  }

  function Work(s: State): bool {
    s.runQueue != [] || s.inbox > 0
  }

  /** releaseCapability_ */
  function Release(s: State, always: bool, env: Env): (s': State)
    ensures s'.returning == s.returning
  {
    var s := s.(running := None);
    if s.returning != [] then Give(s, s.returning[0])
    else if s.sync then s
    else if s.runQueue != [] && s.runQueue[0].Some? then Give(s, s.runQueue[0].value)
    else if s.spare == [] && (!s.shutdown || s.runQueue != []) then
      // startWorkerTask hands the capability to a new worker
      At(s.(running := Some(env.newcomer)), env.newcomer, Holding)
    else if (always || Work(s) || env.otherWork) && s.spare != [] then Give(s, s.spare[0])
    else s
  }

  /** The first half of releaseCapabilityAndQueueWorker: a worker goes to the front of the spare
      list or, if that is full, stops; a bound task just waits. */
  function QueueWorker(s: State, t: Task): State {
    if t in s.bound then At(s, t, WaitYield)
    else if s.nSpare < MAX_SPARE_WORKERS then
      At(s.(spare := [t] + s.spare, nSpare := s.nSpare + 1), t, WaitYield)
    else At(s, t, Stopped)
  }

  datatype Event =
    | Arrive(t: Task)
    | ReturnWake(t: Task)
    | ReturnRecheck(t: Task)
    | ReleaseCap(t: Task, always: bool, env: Env)
    | YieldClear(t: Task)
    | YieldQueue(t: Task, env: Env)
    | YieldWake(t: Task)
    | YieldRecheck(t: Task)
    | Prod(t: Task, env: Env)
    | TryGrab(t: Task)
    | SendMessage(t: Task, env: Env)
    | RunHaskell(t: Task, runQueue: seq<Option<Task>>, inbox: nat)
    | Bind(t: Task)
    | Unbind(t: Task)
    | RequestSync
    | ClearSync
    | ShutDown

  function EnvOf(e: Event): Option<Env> {
    match e
    case ReleaseCap(_, _, env) => Some(env)
    case YieldQueue(_, env) => Some(env)
    case Prod(_, env) => Some(env)
    case SendMessage(_, env) => Some(env)
    case _ => None
  }

  predicate New(s: State, t: Task) {
    PcOf(s, t) == Outside && t !in s.wakeup && t !in s.bound
  }

  predicate InYield(s: State, t: Task) {
    PcOf(s, t) == WaitYield || PcOf(s, t) == WokenYield
  }

  /** A bound thread is at the head of the run queue only while its task waits in
      `yieldCapability` here or holds the capability. */
  predicate HeadIsHere(s: State, runQueue: seq<Option<Task>>) {
    runQueue != [] && runQueue[0].Some? ==>
      var b := runQueue[0].value; b in s.bound && (InYield(s, b) || s.running == Some(b))
  }

  /** Which events can happen.  A task can only do what its position in the code allows.  The
      holder may change the run queue and take messages out of the inbox.  A task that leaves on
      a foreign call has taken its own thread off the run queue, and a task is unbound when its
      thread is done.  A new worker is a new task. */
  predicate Enabled(s: State, e: Event) {
    && (EnvOf(e).Some? ==> New(s, EnvOf(e).value.newcomer))
    && match e
       case Arrive(t) => PcOf(s, t) == Outside
       case ReturnWake(t) => PcOf(s, t) == WaitReturn
       case ReturnRecheck(t) => PcOf(s, t) == WokenReturn
       case ReleaseCap(t, _, env) =>
         PcOf(s, t) == Holding && t != env.newcomer && (s.runQueue != [] ==> s.runQueue[0] != Some(t))
       case YieldClear(t) => PcOf(s, t) == Holding
       case YieldQueue(t, env) => PcOf(s, t) == Yielding && t != env.newcomer
       case YieldWake(t) => PcOf(s, t) == WaitYield
       case YieldRecheck(t) => PcOf(s, t) == WokenYield
       case Prod(t, env) => PcOf(s, t) == Outside && t != env.newcomer
       case TryGrab(t) => PcOf(s, t) == Outside
       case SendMessage(t, env) => PcOf(s, t) == Outside && t != env.newcomer
       case RunHaskell(t, runQueue, inbox) => PcOf(s, t) == Holding && inbox <= s.inbox && HeadIsHere(s, runQueue)
       case Bind(t) => PcOf(s, t) == Holding
       case Unbind(t) => PcOf(s, t) == Holding && Some(t) !in s.runQueue
       case RequestSync => true
       case ClearSync => s.running.Some?
       case ShutDown => true
  }

  function Step(s: State, e: Event): State
    requires Enabled(s, e)
  {
    match e
    // waitForReturnCapability
    case Arrive(t) =>
      if s.running.None? then At(s.(running := Some(t)), t, Holding)
      else At(s.(returning := s.returning + [t]), t, WaitReturn)
    case ReturnWake(t) => At(s.(wakeup := s.wakeup - {t}), t, WokenReturn)
    case ReturnRecheck(t) =>
      if s.running.Some? then At(s, t, WaitReturn)
      else if s.returning == [] || s.returning[0] != t then
        At(if s.returning == [] then s else Give(s, s.returning[0]), t, WaitReturn)
      else At(s.(running := Some(t), returning := s.returning[1..]), t, Holding)
    // releaseCapability, releaseAndWakeupCapability
    case ReleaseCap(t, always, env) => Release(At(s, t, Outside), always, env)
    // yieldCapability
    case YieldClear(t) => At(s.(wakeup := s.wakeup - {t}), t, Yielding)
    case YieldQueue(t, env) => Release(QueueWorker(s, t), false, env)
    case YieldWake(t) => At(s.(wakeup := s.wakeup - {t}), t, WokenYield)
    case YieldRecheck(t) =>
      if s.running.Some? then At(s, t, WaitYield)
      else if t in s.bound then At(s.(running := Some(t)), t, Holding)
      else if s.spare == [] || s.spare[0] != t then
        At(if s.spare == [] then s else Give(s, s.spare[0]), t, WaitYield)
      else At(s.(running := Some(t), spare := s.spare[1..], nSpare := if s.nSpare > 0 then s.nSpare - 1 else 0), t, Holding)
    // prodCapability
    case Prod(t, env) => if s.running.None? then Release(s.(running := Some(t)), true, env) else s
    // tryGrabCapability
    case TryGrab(t) => if s.running.None? then At(s.(running := Some(t)), t, Holding) else s
    // sendMessage
    case SendMessage(t, env) =>
      var s := s.(inbox := s.inbox + 1);
      if s.running.None? then Release(s.(running := Some(t)), false, env) else s
    // the holder runs Haskell threads and executes messages
    case RunHaskell(t, runQueue, inbox) => s.(runQueue := runQueue, inbox := inbox)
    // scheduleWaitThread gives the holder a bound thread, scheduleHandleThreadFinished takes it away
    case Bind(t) => s.(bound := s.bound + {t})
    case Unbind(t) => s.(bound := s.bound - {t})
    case RequestSync => s.(sync := true)
    case ClearSync => s.(sync := false)
    case ShutDown => s.(shutdown := true)
  }

  // ---------------------------------------------------------------------------------------
  // The invariant
  // ---------------------------------------------------------------------------------------

  ghost predicate Distinct(q: seq<Task>) {
    forall i, j | 0 <= i < j < |q| :: q[i] != q[j]
  }

  /** A capability has one holder at a time. */
  ghost predicate OneHolder(s: State) {
    forall t: Task :: (PcOf(s, t) == Holding || PcOf(s, t) == Yielding) <==> s.running == Some(t)
  }

  /** The returning queue holds exactly the tasks in the waiting loop of
      `waitForReturnCapability`, the spare list exactly the workers waiting in `yieldCapability`. */
  ghost predicate QueuesOk(s: State) {
    && Distinct(s.returning) && Distinct(s.spare)
    && (forall t: Task :: t in s.returning <==> PcOf(s, t) == WaitReturn || PcOf(s, t) == WokenReturn)
    && (forall t: Task :: t in s.spare <==> (PcOf(s, t) == WaitYield || PcOf(s, t) == WokenYield) && t !in s.bound)
    && s.nSpare == |s.spare| <= MAX_SPARE_WORKERS
  }

  /** No lost hand-over: a free capability with returning tasks has the first of them awake. */
  ghost predicate HeadAwake(s: State) {
    s.running.None? && s.returning != [] ==>
      s.returning[0] in s.wakeup || PcOf(s, s.returning[0]) == WokenReturn
  }

  ghost predicate AwakeYield(s: State, t: Task) {
    (PcOf(s, t) == WaitYield && t in s.wakeup) || PcOf(s, t) == WokenYield
  }

  /** No lost work: a free capability with threads to run or messages to handle has some task
      that is awake and will take it, unless a synchronisation is pending or the system is
      shutting down without a worker to spare. */
  ghost predicate WorkSeen(s: State) {
    s.running.None? && Work(s) ==>
      || s.returning != []
      || s.sync
      || (s.runQueue != [] && s.runQueue[0].Some? && AwakeYield(s, s.runQueue[0].value))
      || (s.spare != [] && AwakeYield(s, s.spare[0]))
      || (s.spare == [] && s.shutdown && s.runQueue == [])
  }

  ghost predicate Inv(s: State) {
    OneHolder(s) && QueuesOk(s) && HeadIsHere(s, s.runQueue) && HeadAwake(s) && WorkSeen(s)
  }

  /** initCapability: free, with empty queues and no task about. */
  ghost predicate Initial(s: State) {
    && s.running.None? && s.returning == [] && s.spare == [] && s.nSpare == 0
    && s.pc == map[] && s.runQueue == [] && s.inbox == 0
  }

  lemma InitialInv(s: State)
    requires Initial(s)
    ensures Inv(s)
  {}

  lemma ReleaseHolder(s: State, always: bool, env: Env)
    requires OneHolder(s.(running := None)) && New(s, env.newcomer)
    ensures OneHolder(Release(s, always, env))
  {}

  lemma ReleaseQueues(s: State, always: bool, env: Env)
    requires QueuesOk(s) && New(s, env.newcomer)
    ensures QueuesOk(Release(s, always, env))
  {
    var s' := Release(s, always, env);
    assert s'.returning == s.returning && s'.spare == s.spare;
    assert forall t: Task | t != env.newcomer :: PcOf(s', t) == PcOf(s, t);
  }

  /** Whoever the capability is offered to is asleep with its wakeup flag set, or awake. */
  lemma ReleaseWakes(s: State, always: bool, env: Env)
    requires QueuesOk(s) && HeadIsHere(s.(running := None), s.runQueue)
    ensures HeadAwake(Release(s, always, env)) && WorkSeen(Release(s, always, env))
  {
    assert s.spare != [] ==> s.spare[0] in s.spare;
  }

  /** Somebody has been told of a free capability, or has it. */
  ghost predicate Told(s: State) {
    || s.running.Some?
    || (s.returning != [] && s.returning[0] in s.wakeup)
    || (s.runQueue != [] && s.runQueue[0].Some? && s.runQueue[0].value in s.wakeup)
    || (s.spare != [] && s.spare[0] in s.wakeup)
  }

  /** Who is told of a released capability: the first returner, or else (unless a synchronisation is
      pending) the task of a bound thread that is next to run, or else a worker, a new one if none is
      spare. With a spare worker it depends on whether there is something to do, or the caller insists:
      then the first of them is told, otherwise nobody. In a shutdown no worker is made for nothing. */
  lemma ReleaseTells(s: State, always: bool, env: Env)
    ensures var s', bound := Release(s, always, env), s.runQueue != [] && s.runQueue[0].Some?;
      var busy := always || env.otherWork || s.runQueue != [] || s.inbox > 0;
      && s'.runQueue == s.runQueue && s'.inbox == s.inbox && s'.returning == s.returning && s'.spare == s.spare
      && (s.returning != [] ==> s'.wakeup == s.wakeup + {s.returning[0]} && s'.running.None?)
      && (s.returning == [] && s.sync ==> s'.wakeup == s.wakeup && s'.running.None?)
      && (s.returning == [] && !s.sync && bound ==> s'.wakeup == s.wakeup + {s.runQueue[0].value} && s'.running.None?)
      && (s.returning == [] && !s.sync && !bound && s.spare != [] ==>
            s'.wakeup == (if busy then s.wakeup + {s.spare[0]} else s.wakeup) && s'.running.None?)
      && (s.returning == [] && !s.sync && !bound && s.spare == [] ==>
            && s'.wakeup == s.wakeup
            && s'.running == if s.shutdown && s.runQueue == [] then None else Some(env.newcomer))
  {
  }

  /** Prodding a free capability tells somebody of it, unless a synchronisation is pending or the
      system is shutting down with no worker to spare. */
  lemma ProdTells(s: State, t: Task, env: Env)
    requires Inv(s) && Enabled(s, Prod(t, env)) && s.running.None? && !s.sync
    requires s.spare != [] || !s.shutdown || s.runQueue != [] || s.returning != []
    ensures Told(Step(s, Prod(t, env)))
  {
  }

  lemma ReleaseKeeps(s: State, always: bool, env: Env)
    requires OneHolder(s.(running := None)) && QueuesOk(s) && New(s, env.newcomer)
    requires HeadIsHere(s.(running := None), s.runQueue)
    ensures Inv(Release(s, always, env))
  {
    assert HeadIsHere(Release(s, always, env), Release(s, always, env).runQueue);
    hide Release;
    ReleaseHolder(s, always, env);
    ReleaseQueues(s, always, env);
    ReleaseWakes(s, always, env);
  }

  lemma ArriveKeeps(s: State, t: Task)
    requires Inv(s) && Enabled(s, Arrive(t))
    ensures Inv(Step(s, Arrive(t)))
  {
    var s' := Step(s, Arrive(t));
    assert t !in s.returning;
    assert s.running.Some? ==> s'.returning == s.returning + [t];
    assert forall u | u != t :: PcOf(s', u) == PcOf(s, u);
  }

  lemma ReturnWakeKeeps(s: State, t: Task)
    requires Inv(s) && Enabled(s, ReturnWake(t))
    ensures Inv(Step(s, ReturnWake(t)))
  {
    var s' := Step(s, ReturnWake(t));
    assert t in s.returning;
    assert forall u | u != t :: PcOf(s', u) == PcOf(s, u);
  }

  lemma ReturnRecheckKeeps(s: State, t: Task)
    requires Inv(s) && Enabled(s, ReturnRecheck(t))
    ensures Inv(Step(s, ReturnRecheck(t)))
  {
    var s' := Step(s, ReturnRecheck(t));
    assert t in s.returning;
    assert forall u | u != t :: PcOf(s', u) == PcOf(s, u);
    if s.running.None? && s.returning[0] == t {
      ReturnTakes(s, t);
    }
  }

  lemma ReturnTakes(s: State, t: Task)
    requires Inv(s) && s.running.None? && PcOf(s, t) == WokenReturn
    requires s.returning != [] && s.returning[0] == t
    ensures Inv(Step(s, ReturnRecheck(t)))
  {
    var s' := Step(s, ReturnRecheck(t));
    assert s.returning == [t] + s'.returning;
    assert forall u | u != t :: PcOf(s', u) == PcOf(s, u);
  }

  lemma YieldClearKeeps(s: State, t: Task)
    requires Inv(s) && Enabled(s, YieldClear(t))
    ensures Inv(Step(s, YieldClear(t)))
  {
    assert forall u | u != t :: PcOf(Step(s, YieldClear(t)), u) == PcOf(s, u);
  }

  lemma YieldWakeKeeps(s: State, t: Task)
    requires Inv(s) && Enabled(s, YieldWake(t))
    ensures Inv(Step(s, YieldWake(t)))
  {
    assert forall u | u != t :: PcOf(Step(s, YieldWake(t)), u) == PcOf(s, u);
  }

  lemma YieldRecheckKeeps(s: State, t: Task)
    requires Inv(s) && Enabled(s, YieldRecheck(t))
    ensures Inv(Step(s, YieldRecheck(t)))
  {
    var s' := Step(s, YieldRecheck(t));
    assert forall u | u != t :: PcOf(s', u) == PcOf(s, u);
    if s'.running == Some(t) {
      YieldTakes(s, t);
    } else {
      assert s'.spare == s.spare && s'.running == s.running;
      assert s.running.None? ==> s.spare[0] in s.spare && s'.wakeup == s.wakeup + {s.spare[0]};
    }
  }

  lemma YieldTakes(s: State, t: Task)
    requires Inv(s) && PcOf(s, t) == WokenYield && s.running.None?
    requires t in s.bound || (s.spare != [] && s.spare[0] == t)
    ensures Inv(Step(s, YieldRecheck(t)))
  {
    var s' := Step(s, YieldRecheck(t));
    assert forall u | u != t :: PcOf(s', u) == PcOf(s, u);
    if t !in s.bound {
      assert s.spare == [t] + s'.spare;
    }
  }

  lemma TryGrabKeeps(s: State, t: Task)
    requires Inv(s) && Enabled(s, TryGrab(t))
    ensures Inv(Step(s, TryGrab(t)))
  {
    assert forall u | u != t :: PcOf(Step(s, TryGrab(t)), u) == PcOf(s, u);
  }

  lemma OthersKeep(s: State, e: Event)
    requires Inv(s) && Enabled(s, e)
    requires e.RunHaskell? || e.RequestSync? || e.ClearSync? || e.ShutDown?
    ensures Inv(Step(s, e))
  {}

  /** The holder waits in no queue, so it makes no difference to them what it is. */
  lemma BindingKeeps(s: State, e: Event)
    requires Inv(s) && Enabled(s, e) && (e.Bind? || e.Unbind?)
    ensures Inv(Step(s, e))
  {
    var s' := Step(s, e);
    assert s'.pc == s.pc && forall u | u != e.t :: u in s'.bound <==> u in s.bound;
    assert forall u :: PcOf(s', u) == PcOf(s, u);
  }

  lemma QueueWorkerQueues(s: State, t: Task)
    requires QueuesOk(s) && PcOf(s, t) == Yielding
    ensures QueuesOk(QueueWorker(s, t))
  {
    var s1 := QueueWorker(s, t);
    assert t !in s.spare && t !in s.returning;
    assert forall u | u != t :: PcOf(s1, u) == PcOf(s, u);
    assert s1.spare == s.spare || s1.spare == [t] + s.spare;
  }

  lemma QueueWorkerKeeps(s: State, t: Task)
    requires Inv(s) && PcOf(s, t) == Yielding
    ensures var s1 := QueueWorker(s, t);
      OneHolder(s1.(running := None)) && QueuesOk(s1) && HeadIsHere(s1.(running := None), s1.runQueue)
  {
    QueueWorkerQueues(s, t);
    hide QueuesOk, HeadAwake, WorkSeen;
    assert forall u | u != t :: PcOf(QueueWorker(s, t), u) == PcOf(s, u);
  }

  lemma YieldQueueKeeps(s: State, t: Task, env: Env)
    requires Inv(s) && Enabled(s, YieldQueue(t, env))
    ensures Inv(Step(s, YieldQueue(t, env)))
  {
    QueueWorkerKeeps(s, t);
    assert New(QueueWorker(s, t), env.newcomer);
    hide Release, QueueWorker, Inv;
    ReleaseKeeps(QueueWorker(s, t), false, env);
  }

  lemma ReleaseCapKeeps(s: State, t: Task, always: bool, env: Env)
    requires Inv(s) && Enabled(s, ReleaseCap(t, always, env))
    ensures Inv(Step(s, ReleaseCap(t, always, env)))
  {
    hide Release, WorkSeen, HeadAwake;
    assert forall u | u != t :: PcOf(At(s, t, Outside), u) == PcOf(s, u);
    ReleaseKeeps(At(s, t, Outside), always, env);
  }

  lemma ProdKeeps(s: State, t: Task, env: Env)
    requires Inv(s) && Enabled(s, Prod(t, env))
    ensures Inv(Step(s, Prod(t, env)))
  {
    hide Release, WorkSeen, HeadAwake;
    if s.running.None? { ReleaseKeeps(s.(running := Some(t)), true, env); }
  }

  lemma SendKeeps(s: State, t: Task, env: Env)
    requires Inv(s) && Enabled(s, SendMessage(t, env))
    ensures Inv(Step(s, SendMessage(t, env)))
  {
    hide Release;
    if s.running.None? { ReleaseKeeps(s.(running := Some(t), inbox := s.inbox + 1), false, env); }
  }

  /** Every step keeps the invariant. */
  lemma StepKeeps(s: State, e: Event)
    requires Inv(s) && Enabled(s, e)
    ensures Inv(Step(s, e))
  {
    hide Inv, Step, Enabled;
    match e
    case Arrive(t) => ArriveKeeps(s, t);
    case ReturnWake(t) => ReturnWakeKeeps(s, t);
    case ReturnRecheck(t) => ReturnRecheckKeeps(s, t);
    case YieldClear(t) => YieldClearKeeps(s, t);
    case YieldQueue(t, env) => YieldQueueKeeps(s, t, env);
    case YieldWake(t) => YieldWakeKeeps(s, t);
    case YieldRecheck(t) => YieldRecheckKeeps(s, t);
    case ReleaseCap(t, always, env) => ReleaseCapKeeps(s, t, always, env);
    case Prod(t, env) => ProdKeeps(s, t, env);
    case TryGrab(t) => TryGrabKeeps(s, t);
    case SendMessage(t, env) => SendKeeps(s, t, env);
    case Bind(_) => BindingKeeps(s, e);
    case Unbind(_) => BindingKeeps(s, e);
    case _ => OthersKeep(s, e);
  }

  // ---------------------------------------------------------------------------------------
  // Whole runs
  // ---------------------------------------------------------------------------------------

  predicate Possible(s: State, es: seq<Event>)
    decreases |es|
  {
    es == [] || (Enabled(s, es[0]) && Possible(Step(s, es[0]), es[1..]))
  }

  function Final(s: State, es: seq<Event>): State
    requires Possible(s, es)
    decreases |es|
  {
    if es == [] then s else Final(Step(s, es[0]), es[1..])
  }

  /** The task that joins the returning queue in this event, and the one that acquires the
      capability from it. */
  function Queued(s: State, e: Event): seq<Task> {
    if e.Arrive? && s.running.Some? then [e.t] else []
  }

  function Served(s: State, e: Event): seq<Task> {
    if e.ReturnRecheck? && s.running.None? && s.returning != [] && s.returning[0] == e.t then [e.t] else []
  }

  function AllQueued(s: State, es: seq<Event>): seq<Task>
    requires Possible(s, es)
    decreases |es|
  {
    if es == [] then [] else Queued(s, es[0]) + AllQueued(Step(s, es[0]), es[1..])
  }

  function AllServed(s: State, es: seq<Event>): seq<Task>
    requires Possible(s, es)
    decreases |es|
  {
    if es == [] then [] else Served(s, es[0]) + AllServed(Step(s, es[0]), es[1..])
  }

  /** Safety over whole runs: one holder, no lost hand-over, no lost work, bounded spare list. */
  lemma {:induction false} RunKeeps(s: State, es: seq<Event>)
    requires Inv(s) && Possible(s, es)
    ensures Inv(Final(s, es))
    decreases |es|
  {
    hide Inv, Enabled, Step;
    if es != [] {
      StepKeeps(s, es[0]);
      RunKeeps(Step(s, es[0]), es[1..]);
    }
  }

  /** Only arriving returners and returners that acquire the capability change the queue. */
  lemma OthersLeaveQueue(s: State, e: Event)
    requires Enabled(s, e) && !e.Arrive? && !e.ReturnRecheck?
    ensures Step(s, e).returning == s.returning
  {
    hide Enabled, Release;
  }

  lemma StepIsFifo(s: State, e: Event)
    requires Enabled(s, e)
    ensures s.returning + Queued(s, e) == Served(s, e) + Step(s, e).returning
  {
    var s' := Step(s, e);
    if e.Arrive? {
      assert s'.returning == s.returning + Queued(s, e);
    } else if e.ReturnRecheck? {
      assert s.returning == Served(s, e) + s'.returning;
    } else {
      OthersLeaveQueue(s, e);
    }
  }

  /** Queued returners acquire the capability in the order in which they queued up, whoever else
      takes it in between. */
  lemma {:induction false} ReturnersAreFifo(s: State, es: seq<Event>)
    requires Possible(s, es)
    ensures s.returning + AllQueued(s, es) == AllServed(s, es) + Final(s, es).returning
    decreases |es|
  {
    hide Enabled, Step, Queued, Served;
    if es == [] {
      assert s.returning + [] == [] + s.returning;
    } else {
      var s' := Step(s, es[0]);
      StepIsFifo(s, es[0]);
      ReturnersAreFifo(s', es[1..]);
      Joined(s.returning, Queued(s, es[0]), AllQueued(s', es[1..]), Served(s, es[0]), s'.returning,
             AllServed(s', es[1..]), Final(s', es[1..]).returning);
    }
  }

  lemma Joined(r: seq<Task>, q: seq<Task>, qs: seq<Task>, a: seq<Task>, r': seq<Task>, more: seq<Task>, f: seq<Task>)
    requires r + q == a + r' && r' + qs == more + f
    ensures r + (q + qs) == (a + more) + f
  {
    assert r + (q + qs) == (r + q) + qs;
    assert (a + r') + qs == a + (r' + qs);
  }

  /** From an idle start, the returners served so far are a prefix of those who queued up. */
  lemma ServedInOrder(s: State, es: seq<Event>)
    requires Initial(s) && Possible(s, es)
    ensures AllServed(s, es) <= AllQueued(s, es)
    ensures Inv(Final(s, es))
  {
    InitialInv(s);
    RunKeeps(s, es);
    ReturnersAreFifo(s, es);
    assert [] + AllQueued(s, es) == AllQueued(s, es);
  }

  /** Messages that arrive in this event, and messages that the holder takes out. */
  function Sent(e: Event): nat {
    if e.SendMessage? then 1 else 0
  }

  function Taken(s: State, e: Event): nat
    requires Enabled(s, e)
  {
    if e.RunHaskell? then s.inbox - e.inbox else 0
  }

  function AllSent(es: seq<Event>): nat {
    if es == [] then 0 else Sent(es[0]) + AllSent(es[1..])
  }

  function AllTaken(s: State, es: seq<Event>): nat
    requires Possible(s, es)
    decreases |es|
  {
    if es == [] then 0 else Taken(s, es[0]) + AllTaken(Step(s, es[0]), es[1..])
  }

  lemma InboxStep(s: State, e: Event)
    requires Enabled(s, e)
    ensures s.inbox + Sent(e) == Taken(s, e) + Step(s, e).inbox
  {
    match e
    case ReleaseCap(t, always, env) => ReleaseInbox(At(s, t, Outside), always, env);
    case YieldQueue(t, env) => ReleaseInbox(QueueWorker(s, t), false, env);
    case Prod(t, env) => ReleaseInbox(s.(running := Some(t)), true, env);
    case SendMessage(t, env) => ReleaseInbox(s.(inbox := s.inbox + 1).(running := Some(t)), false, env);
    case _ =>
  }

  lemma ReleaseInbox(s: State, always: bool, env: Env)
    ensures Release(s, always, env).inbox == s.inbox
  {
  }

  /** No message gets lost: in every run those sent are those taken out by a holder and those still in
      the inbox. */
  lemma {:induction false} NoMessageLost(s: State, es: seq<Event>)
    requires Possible(s, es)
    ensures s.inbox + AllSent(es) == AllTaken(s, es) + Final(s, es).inbox
    decreases |es|
  {
    hide Enabled, Step, Sent, Taken;
    if es != [] {
      InboxStep(s, es[0]);
      NoMessageLost(Step(s, es[0]), es[1..]);
    }
  }

  /** A hand-over in progress completes: the first returner of a free capability, woken if it
      still sleeps, acquires the capability and leaves the queue. */
  lemma HeadAcquires(s: State)
    requires Inv(s) && s.running.None? && s.returning != []
    ensures var t := s.returning[0];
      var s1 := if PcOf(s, t) == WokenReturn then s else Step(s, ReturnWake(t));
      && (PcOf(s, t) == WaitReturn ==> t in s.wakeup)
      && Enabled(s1, ReturnRecheck(t))
      && Step(s1, ReturnRecheck(t)).running == Some(t)
      && Step(s1, ReturnRecheck(t)).returning == s.returning[1..]
  {
    assert s.returning[0] in s.returning;
  }

  /** A task that finds itself in front of the wrong queue head always finds a head: the code
      never passes the capability to a null task. */
  lemma QueuesNotEmpty(s: State, t: Task)
    requires Inv(s)
    ensures PcOf(s, t) == WokenReturn ==> s.returning != []
    ensures PcOf(s, t) == WokenYield && t !in s.bound ==> s.spare != []
  {
    assert PcOf(s, t) == WokenReturn ==> t in s.returning;
    assert PcOf(s, t) == WokenYield && t !in s.bound ==> t in s.spare;
  }
}
