/** The locked regions of `rts/Capability.c` and `sendMessage` as code over the fields of a
    capability and of its tasks, each proved to be one event of `HandOver`.  The returning queue
    and the spare list are linked through the tasks' `next` fields. */
module CapabilityCode {
  import opened Options

  import opened HandOver

  /** The pointers of the two lists.  `next` has an entry for each task whose `next` is not NULL. */
  datatype Links = Links(hd: Option<Task>, tl: Option<Task>, spare: Option<Task>, next: map<Task, Task>)

  function First(q: seq<Task>): Option<Task> {
    if q == [] then None else Some(q[0])
  }

  function Last(q: seq<Task>): Option<Task> {
    if q == [] then None else Some(q[|q| - 1])
  }

  /** Following `next` from `hd` visits the tasks of `q` in order and ends there. */
  ghost predicate Linked(hd: Option<Task>, q: seq<Task>, next: map<Task, Task>) {
    && hd == First(q)
    && (forall i :: 0 <= i < |q| - 1 ==> q[i] in next && next[q[i]] == q[i + 1])
    && (q != [] ==> q[|q| - 1] !in next)
  }

  /** The pointers make up the two lists of `s`, and tasks on neither have a NULL `next`. */
  ghost predicate LinksOk(s: State, l: Links) {
    && Linked(l.hd, s.returning, l.next) && l.tl == Last(s.returning)
    && Linked(l.spare, s.spare, l.next)
    && (forall t :: t in l.next ==> t in s.returning || t in s.spare)
  }

  lemma OtherListStays(hd: Option<Task>, q: seq<Task>, next: map<Task, Task>, next': map<Task, Task>)
    requires Linked(hd, q, next)
    requires forall t <- q :: (t in next <==> t in next') && (t in next ==> next'[t] == next[t])
    ensures Linked(hd, q, next')
  {
  }

  lemma Appended(q: seq<Task>, next: map<Task, Task>, t: Task)
    requires Linked(First(q), q, next) && Distinct(q) && t !in q && t !in next
    ensures q == [] ==> Linked(Some(t), q + [t], next)
    ensures q != [] ==> Linked(First(q), q + [t], next[q[|q| - 1] := t])
  {
  }

  lemma Prepended(q: seq<Task>, next: map<Task, Task>, t: Task)
    requires Linked(First(q), q, next) && t !in q && t !in next
    ensures Linked(Some(t), [t] + q, if q == [] then next else next[t := q[0]])
  {
    assert forall i :: 1 <= i < |q| ==> ([t] + q)[i] == q[i - 1];
  }

  lemma Popped(q: seq<Task>, next: map<Task, Task>)
    requires q != [] && Linked(First(q), q, next) && Distinct(q)
    ensures (if q[0] in next then Some(next[q[0]]) else None) == First(q[1..])
    ensures Linked(First(q[1..]), q[1..], next - {q[0]})
  {
  }

  /** No task is on both lists, and one that is outside or has the capability is on neither. */
  lemma ListsApart(s: State)
    requires Inv(s)
    ensures Distinct(s.returning) && Distinct(s.spare)
    ensures forall t <- s.returning :: t !in s.spare
    ensures forall t :: PcOf(s, t) == Outside || PcOf(s, t) == Yielding ==> t !in s.returning && t !in s.spare
  {
  }

  lemma JoinsReturning(s: State, l: Links, t: Task)
    requires Inv(s) && LinksOk(s, l) && PcOf(s, t) == Outside
    ensures t !in l.next && (l.hd.Some? ==> l.tl.Some? && l.tl.value !in l.next)
    ensures LinksOk(s.(returning := s.returning + [t]),
                    Links(if l.hd.Some? then l.hd else Some(t), Some(t), l.spare,
                          if l.hd.Some? then l.next[l.tl.value := t] else l.next))
  {
    hide Inv;
    ListsApart(s);
    Appended(s.returning, l.next, t);
    if l.hd.Some? {
      assert l.tl.value in s.returning;
      OtherListStays(l.spare, s.spare, l.next, l.next[l.tl.value := t]);
    }
  }

  lemma LeavesReturning(s: State, l: Links)
    requires Inv(s) && LinksOk(s, l) && s.returning != []
    ensures l.hd == Some(s.returning[0])
    ensures var t := s.returning[0];
      var hd := if t in l.next then Some(l.next[t]) else None;
      LinksOk(s.(returning := s.returning[1..]), Links(hd, if hd.None? then None else l.tl, l.spare, l.next - {t}))
  {
    hide Inv;
    ListsApart(s);
    Popped(s.returning, l.next);
    OtherListStays(l.spare, s.spare, l.next, l.next - {s.returning[0]});
    assert s.returning == [s.returning[0]] + s.returning[1..];
  }

  lemma JoinsSpare(s: State, l: Links, t: Task)
    requires Inv(s) && LinksOk(s, l) && PcOf(s, t) == Yielding
    ensures LinksOk(s.(spare := [t] + s.spare),
                    l.(spare := Some(t), next := if l.spare.Some? then l.next[t := l.spare.value] else l.next))
  {
    hide Inv;
    ListsApart(s);
    Prepended(s.spare, l.next, t);
    if l.spare.Some? {
      OtherListStays(l.hd, s.returning, l.next, l.next[t := l.spare.value]);
    }
  }

  lemma LeavesSpare(s: State, l: Links)
    requires Inv(s) && LinksOk(s, l) && s.spare != []
    ensures var t := s.spare[0];
      var spare := if t in l.next then Some(l.next[t]) else None;
      LinksOk(s.(spare := s.spare[1..]), l.(spare := spare, next := l.next - {t}))
  {
    hide Inv;
    ListsApart(s);
    Popped(s.spare, l.next);
    OtherListStays(l.hd, s.returning, l.next, l.next - {s.spare[0]});
    assert s.spare == [s.spare[0]] + s.spare[1..];
  }

  lemma ListsStay(s: State, s': State, l: Links)
    requires LinksOk(s, l) && s'.returning == s.returning && s'.spare == s.spare
    ensures LinksOk(s', l)
  {
  }

  lemma HeadsRight(s: State, l: Links)
    requires LinksOk(s, l)
    ensures l.hd == First(s.returning) && l.spare == First(s.spare)
  {
  }

  /** A release leaves the lists alone: those woken take themselves off. */
  lemma ReleaseLinks(s: State, s1: State, l: Links, always: bool, env: Env)
    requires LinksOk(s, l) && s1.returning == s.returning && s1.spare == s.spare
    ensures LinksOk(Release(s1, always, env), l)
  {
    ListsStay(s, Release(s1, always, env), l);
  }

  /** What a task finds when it looks at the capability: it is not the holder, its list is not
      empty, and the assertion on the spare list holds. */
  lemma LooksAgain(s: State, l: Links, t: Task)
    requires Inv(s) && LinksOk(s, l) && (Enabled(s, ReturnRecheck(t)) || Enabled(s, YieldRecheck(t)))
    ensures s.running != Some(t)
    ensures Enabled(s, ReturnRecheck(t)) ==> s.returning != [] && l.hd == Some(s.returning[0])
    ensures Enabled(s, YieldRecheck(t)) && t !in s.bound ==> s.spare != [] && l.spare == Some(s.spare[0])
    ensures s.nSpare == |s.spare|
  {
    QueuesNotEmpty(s, t);
    SpareCounted(s);
  }

  lemma SpareCounted(s: State)
    requires Inv(s)
    ensures s.nSpare == |s.spare|
  {
  }

  /** initCapability: free, with empty lists. */
  const NEW_CAPABILITY := State(None, [], [], 0, {}, map[], {}, [], 0, false, false)

  class Capability {
    var runningTask: Option<Task>
    var returningTasksHd: Option<Task>
    var returningTasksTl: Option<Task>
    var spareWorkers: Option<Task>
    var nSpareWorkers: nat
    /** The `next` fields of the tasks. */
    var next: map<Task, Task>
    var wakeup: set<Task>
    var boundTasks: set<Task>
    var runQueue: seq<Option<Task>>
    var inbox: nat
    var pendingSync: bool
    var shuttingDown: bool
    /** Where each task's control is; the program counters of the operating system threads. */
    ghost var pc: map<Task, Pc>
    /** The tasks on the two lists. */
    ghost var returning: seq<Task>
    ghost var spare: seq<Task>

    ghost function S(): State
      reads this
    {
      State(runningTask, returning, spare, nSpareWorkers, wakeup, pc, boundTasks,
            runQueue, inbox, pendingSync, shuttingDown)
    }

    ghost function L(): Links
      reads this
    {
      Links(returningTasksHd, returningTasksTl, spareWorkers, next)
    }

    ghost predicate Valid()
      reads this
    {
      Inv(S()) && LinksOk(S(), L())
    }

    constructor ()
      ensures S() == NEW_CAPABILITY && Valid()
    {
      runningTask, nSpareWorkers := None, 0;
      returningTasksHd, returningTasksTl, spareWorkers, next := None, None, None, map[];
      wakeup, boundTasks, runQueue, inbox := {}, {}, [], 0;
      pendingSync, shuttingDown, pc, returning, spare := false, false, map[], [], [];
      new;
      InitialInv(S());
    }

    method GiveCapabilityToTask(task: Task)
      modifies this
      ensures S() == Give(old(S()), task) && L() == old(L())
    {
      if task !in wakeup {
        wakeup := wakeup + {task};
      }
    }

    method NewReturningTask(task: Task)
      requires Valid() && PcOf(S(), task) == Outside
      modifies this
      ensures S() == old(S()).(returning := old(returning) + [task]) && LinksOk(S(), L())
    {
      hide Inv, LinksOk;
      JoinsReturning(S(), L(), task);
      assert task !in next;
      if returningTasksHd.Some? {
        assert returningTasksTl.value !in next;
        next := next[returningTasksTl.value := task];
      } else {
        returningTasksHd := Some(task);
      }
      returningTasksTl := Some(task);
      returning := returning + [task];
    }

    method PopReturningTask() returns (task: Task)
      requires Valid() && returning != []
      modifies this
      ensures task == old(returning[0])
      ensures S() == old(S()).(returning := old(returning)[1..]) && LinksOk(S(), L())
    {
      hide Inv, LinksOk;
      LeavesReturning(S(), L());
      task := returningTasksHd.value;
      returningTasksHd := if task in next then Some(next[task]) else None;
      if returningTasksHd.None? {
        returningTasksTl := None;
      }
      next := next - {task};
      returning := returning[1..];
    }

    method ReleaseCapability_(alwaysWakeup: bool, env: Env)
      requires returningTasksHd == First(returning) && spareWorkers == First(spare)
      modifies this
      ensures S() == Release(old(S()), alwaysWakeup, env) && L() == old(L())
    {
      runningTask := None;
      if returningTasksHd.Some? {
        GiveCapabilityToTask(returningTasksHd.value);
        return;
      }
      if pendingSync {
        return;
      }
      if runQueue != [] && runQueue[0].Some? {
        GiveCapabilityToTask(runQueue[0].value);
        return;
      }
      if spareWorkers.None? {
        if !shuttingDown || runQueue != [] {
          runningTask := Some(env.newcomer);
          pc := pc[env.newcomer := Holding];
          return;
        }
      }
      if alwaysWakeup || runQueue != [] || inbox != 0 || env.otherWork {
        if spareWorkers.Some? {
          GiveCapabilityToTask(spareWorkers.value);
        }
      }
    }

    method ReleaseCapability(task: Task, alwaysWakeup: bool, env: Env)
      requires Valid() && Enabled(S(), ReleaseCap(task, alwaysWakeup, env))
      modifies this
      ensures Valid() && S() == Step(old(S()), ReleaseCap(task, alwaysWakeup, env))
    {
      hide Inv, Enabled, Release, LinksOk;
      ghost var s, l := S(), L();
      StepKeeps(s, ReleaseCap(task, alwaysWakeup, env));
      HeadsRight(s, l);
      pc := pc[task := Outside];
      ReleaseCapability_(alwaysWakeup, env);
      ReleaseLinks(s, At(s, task, Outside), l, alwaysWakeup, env);
    }

    /** A worker goes to the front of the spare list. */
    method PushSpareWorker(task: Task)
      requires Valid() && PcOf(S(), task) == Yielding
      modifies this
      ensures S() == old(S()).(spare := [task] + old(spare), nSpare := old(nSpareWorkers) + 1) && LinksOk(S(), L())
    {
      hide Inv, LinksOk;
      ghost var s := S();
      JoinsSpare(s, L(), task);
      if spareWorkers.Some? {
        next := next[task := spareWorkers.value];
      }
      spareWorkers, spare := Some(task), [task] + spare;
      nSpareWorkers := nSpareWorkers + 1;
      ListsStay(s.(spare := [task] + s.spare), S(), L());
    }

    /** A worker is saved on the spare list, or stops if that is full; a bound task just waits. */
    method QueueWorkerTask(task: Task)
      requires Valid() && PcOf(S(), task) == Yielding
      modifies this
      ensures S() == QueueWorker(old(S()), task) && LinksOk(S(), L())
    {
      hide Inv, LinksOk, PcOf;
      var stops := task !in boundTasks && nSpareWorkers >= MAX_SPARE_WORKERS;
      if task !in boundTasks && !stops {
        PushSpareWorker(task);
      }
      ghost var s := S();
      pc := pc[task := if stops then Stopped else WaitYield];
      ListsStay(s, S(), L());
    }

    method ReleaseCapabilityAndQueueWorker(task: Task, env: Env)
      requires Valid() && Enabled(S(), YieldQueue(task, env))
      modifies this
      ensures Valid() && S() == Step(old(S()), YieldQueue(task, env))
    {
      hide Inv, Release, QueueWorker, LinksOk;
      StepKeeps(S(), YieldQueue(task, env));
      QueueWorkerTask(task);
      ghost var s, l := S(), L();
      HeadsRight(s, l);
      ReleaseCapability_(false, env);
      ReleaseLinks(s, s, l, false, env);
    }

    /** waitForReturnCapability up to the waiting loop; the result tells whether the capability
        was free. */
    method WaitForReturnCapability(task: Task) returns (grabbed: bool)
      requires Valid() && Enabled(S(), Arrive(task))
      modifies this
      ensures Valid() && S() == Step(old(S()), Arrive(task))
      ensures grabbed <==> runningTask == Some(task) && old(runningTask).None?
    {
      hide Inv, Release, QueueWorker, LinksOk;
      StepKeeps(S(), Arrive(task));
      grabbed := runningTask.None?;
      if grabbed {
        runningTask := Some(task);
      } else {
        NewReturningTask(task);
      }
      ghost var s := S();
      pc := pc[task := if grabbed then Holding else WaitReturn];
      ListsStay(if grabbed then old(S()) else s, S(), L());
    }

    /** The part of both waiting loops that runs under the task's lock. */
    method AwaitCapability(task: Task)
      requires Valid() && (PcOf(S(), task) == WaitReturn || PcOf(S(), task) == WaitYield)
      modifies this
      ensures Valid()
      ensures S() == Step(old(S()), if old(PcOf(S(), task)) == WaitReturn then ReturnWake(task) else YieldWake(task))
    {
      hide Inv, Release, QueueWorker, LinksOk;
      StepKeeps(S(), if PcOf(S(), task) == WaitReturn then ReturnWake(task) else YieldWake(task));
      wakeup := wakeup - {task};
      pc := pc[task := if PcOf(S(), task) == WaitReturn then WokenReturn else WokenYield];
      ListsStay(old(S()), S(), L());
    }

    /** The part of the returner's loop that runs under the capability's lock. */
    method RecheckReturn(task: Task) returns (acquired: bool)
      requires Valid() && Enabled(S(), ReturnRecheck(task))
      modifies this
      ensures Valid() && S() == Step(old(S()), ReturnRecheck(task))
      ensures acquired <==> runningTask == Some(task)
    {
      hide Inv, Enabled, Release, QueueWorker, LinksOk;
      LooksAgain(S(), L(), task);
      StepKeeps(S(), ReturnRecheck(task));
      acquired := false;
      if runningTask.None? {
        if returningTasksHd != Some(task) {
          GiveCapabilityToTask(returningTasksHd.value);
        } else {
          var first := PopReturningTask();
          runningTask := Some(task);
          acquired := true;
        }
      }
      ghost var s := S();
      pc := pc[task := if acquired then Holding else WaitReturn];
      ListsStay(if acquired then s.(running := None) else old(S()), S(), L());
    }

    /** yieldCapability before the release. */
    method ClearWakeup(task: Task)
      requires Valid() && Enabled(S(), YieldClear(task))
      modifies this
      ensures Valid() && S() == Step(old(S()), YieldClear(task))
    {
      hide Inv, Enabled, Release, QueueWorker, LinksOk;
      StepKeeps(S(), YieldClear(task));
      wakeup := wakeup - {task};
      pc := pc[task := Yielding];
      ListsStay(old(S()), S(), L());
    }

    /** The first spare worker takes itself off the list. */
    method PopSpareWorker(task: Task)
      requires Valid() && spare != [] && spare[0] == task
      modifies this
      ensures S() == old(S()).(spare := old(spare)[1..], nSpare := old(nSpareWorkers) - 1) && LinksOk(S(), L())
    {
      hide Inv, Enabled, Release, QueueWorker, LinksOk;
      ghost var s := S();
      SpareCounted(s);
      LeavesSpare(s, L());
      spareWorkers := if task in next then Some(next[task]) else None;
      next := next - {task};
      nSpareWorkers := nSpareWorkers - 1;
      spare := spare[1..];
      ListsStay(s.(spare := s.spare[1..]), S(), L());
    }

    /** The part of yieldCapability's loop that runs under the capability's lock. */
    method RecheckYield(task: Task) returns (acquired: bool)
      requires Valid() && Enabled(S(), YieldRecheck(task))
      modifies this
      ensures Valid() && S() == Step(old(S()), YieldRecheck(task))
      ensures acquired <==> runningTask == Some(task)
    {
      hide Inv, Enabled, Release, QueueWorker, LinksOk;
      LooksAgain(S(), L(), task);
      StepKeeps(S(), YieldRecheck(task));
      acquired := false;
      if runningTask.None? {
        if task !in boundTasks && spareWorkers != Some(task) {
          GiveCapabilityToTask(spareWorkers.value);
        } else {
          if task !in boundTasks {
            PopSpareWorker(task);
          }
          acquired := true;
        }
      }
      ghost var s := S();
      if acquired {
        runningTask := Some(task);
      }
      pc := pc[task := if acquired then Holding else WaitYield];
      ListsStay(if acquired then s else old(S()), S(), L());
    }

    /** The holder gets a Haskell thread bound to it (task->incall->tso in scheduleWaitThread). */
    method BindTask(task: Task)
      requires Valid() && Enabled(S(), Bind(task))
      modifies this
      ensures Valid() && S() == Step(old(S()), Bind(task))
    {
      hide Inv, Enabled, Release, QueueWorker, LinksOk;
      StepKeeps(S(), Bind(task));
      boundTasks := boundTasks + {task};
      ListsStay(old(S()), S(), L());
    }

    /** The bound thread is done (scheduleHandleThreadFinished). */
    method UnbindTask(task: Task)
      requires Valid() && Enabled(S(), Unbind(task))
      modifies this
      ensures Valid() && S() == Step(old(S()), Unbind(task))
    {
      hide Inv, Enabled, Release, QueueWorker, LinksOk;
      StepKeeps(S(), Unbind(task));
      boundTasks := boundTasks - {task};
      ListsStay(old(S()), S(), L());
    }

    method ProdCapability(task: Task, env: Env)
      requires Valid() && Enabled(S(), Event.Prod(task, env))
      modifies this
      ensures Valid() && S() == Step(old(S()), Event.Prod(task, env))
    {
      hide Inv, Enabled, Release, LinksOk;
      ghost var s, l := S(), L();
      StepKeeps(s, Event.Prod(task, env));
      HeadsRight(s, l);
      if runningTask.None? {
        runningTask := Some(task);
        ReleaseCapability_(true, env);
        ReleaseLinks(s, s.(running := Some(task)), l, true, env);
      }
    }

    method TryGrabCapability(task: Task) returns (grabbed: bool)
      requires Valid() && Enabled(S(), TryGrab(task))
      modifies this
      ensures Valid() && S() == Step(old(S()), TryGrab(task))
      ensures grabbed <==> old(runningTask).None?
    {
      hide Inv, Enabled, Release, QueueWorker, LinksOk;
      StepKeeps(S(), TryGrab(task));
      if runningTask.Some? { return false; }
      runningTask := Some(task);
      pc := pc[task := Holding];
      ListsStay(old(S()), S(), L());
      return true;
    }

    /** sendMessage; the result tells whether the running task was interrupted instead. */
    method Send(sender: Task, env: Env) returns (interrupted: bool)
      requires Valid() && Enabled(S(), SendMessage(sender, env))
      modifies this
      ensures Valid() && S() == Step(old(S()), SendMessage(sender, env))
      ensures interrupted <==> old(runningTask).Some?
    {
      hide Inv, Enabled, Release, LinksOk;
      ghost var s, l := S(), L();
      StepKeeps(s, SendMessage(sender, env));
      HeadsRight(s, l);
      inbox := inbox + 1;
      interrupted := runningTask.Some?;
      if interrupted {
        ListsStay(s, S(), L());
      } else {
        runningTask := Some(sender);
        ReleaseCapability_(false, env);
        ReleaseLinks(s, s.(inbox := s.inbox + 1, running := Some(sender)), l, false, env);
      }
    }

    /** What else may happen: the holder runs Haskell threads and executes messages, and the
        system asks for a synchronisation or shuts down. */
    method HappenElsewhere(e: Event)
      requires Valid() && Enabled(S(), e)
      requires e.RunHaskell? || e.RequestSync? || e.ClearSync? || e.ShutDown?
      modifies this
      ensures Valid() && S() == Step(old(S()), e)
    {
      hide Inv, Enabled, Release, QueueWorker, LinksOk;
      StepKeeps(S(), e);
      match e {
        case RunHaskell(_, q, n) => runQueue, inbox := q, n;
        case RequestSync => pendingSync := true;
        case ClearSync => pendingSync := false;
        case ShutDown => shuttingDown := true;
      }
      ListsStay(old(S()), S(), L());
    }

    /** Any event that can happen is one of the regions above. */
    method Happen(e: Event)
      requires Valid() && Enabled(S(), e)
      modifies this
      ensures Valid() && S() == Step(old(S()), e)
    {
      hide Valid, Step;
      match e
      case Arrive(t) => var _ := WaitForReturnCapability(t);
      case ReturnWake(t) => AwaitCapability(t);
      case ReturnRecheck(t) => var _ := RecheckReturn(t);
      case ReleaseCap(t, always, env) => ReleaseCapability(t, always, env);
      case YieldClear(t) => ClearWakeup(t);
      case YieldQueue(t, env) => ReleaseCapabilityAndQueueWorker(t, env);
      case YieldWake(t) => AwaitCapability(t);
      case YieldRecheck(t) => var _ := RecheckYield(t);
      case Prod(t, env) => ProdCapability(t, env);
      case TryGrab(t) => var _ := TryGrabCapability(t);
      case SendMessage(t, env) => var _ := Send(t, env);
      case Bind(t) => BindTask(t);
      case Unbind(t) => UnbindTask(t);
      case _ => HappenElsewhere(e);
    }
  }

  /** Any run of the code, from a new capability on, is a run of the protocol; no assertion about the
      lists fails in it, and returners acquire the capability in the order in which they queued up. */
  method AnyRun(es: seq<Event>) returns (cap: Capability)
    requires Possible(NEW_CAPABILITY, es)
    ensures fresh(cap) && cap.Valid() && cap.S() == Final(NEW_CAPABILITY, es)
    ensures AllServed(NEW_CAPABILITY, es) <= AllQueued(NEW_CAPABILITY, es)
  {
    hide Enabled, Step;
    cap := new Capability();
    ServedInOrder(NEW_CAPABILITY, es);
    assert es[0..] == es;
    for k := 0 to |es|
      invariant fresh(cap) && cap.Valid()
      invariant Possible(cap.S(), es[k..]) && Final(cap.S(), es[k..]) == Final(NEW_CAPABILITY, es)
    {
      assert es[k..][1..] == es[k + 1..];
      cap.Happen(es[k]);
    }
  }
}
