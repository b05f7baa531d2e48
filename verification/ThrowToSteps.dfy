/** The operations on throwTo messages (rts/RaiseAsync.c, rts/Messages.c, rts/Threads.c,
    rts/Schedule.c), each as one step of the capability that performs it. A step that finds a closure
    locked by somebody else spins, that is, it does not happen yet. */
module ThrowToSteps {
  import opened ThrowToState

  /** The innermost handler on a thread's stack, with the masking state it restores. */
  datatype Handler = Nobody | Catches(interruptible: bool)

  /** A thread in which an exception was raised: it runs its handler with exceptions masked, or is dead. */
  function Raised(th: Thread, h: Handler): (r: Thread)
    ensures r.cap == th.cap && r.why == NotBlocked
    ensures h.Nobody? ==> r.next == Killed
    ensures h.Catches? ==> r.next == th.next && r.blockEx && r.interruptible == h.interruptible
  {
    match h
    case Nobody => th.(why := NotBlocked, next := Killed)
    case Catches(i) => th.(why := NotBlocked, blockEx := true, interruptible := i)
  }

  datatype Outcome = Success | Blocked | Spin

  /** What maybePerformBlockedException() did: nothing, raise the exception of one message, or wake all
      senders without raising anything. */
  datatype Performed = No | Yes(msg: nat) | All | Spins

  /** Thread t's changes apart, nothing has happened to messages and threads. */
  ghost predicate OnlyThread(s: State, s': State, t: nat) {
    && s'.msgs == s.msgs && s'.place == s.place && s'.raised == s.raised
    && |s'.threads| == |s.threads| && (forall u :: 0 <= u < |s.threads| && u != t ==> s'.threads[u] == s.threads[u])
    && s'.queues.Keys == s.queues.Keys
  }

  /** The messages, the threads and the queues of the runtime system. */
  class Rts {
    var msgs: seq<Message>
    var threads: seq<Thread>
    var queues: map<Place, seq<Entry>>
    ghost var place: seq<Place>
    ghost var raised: seq<nat>

    ghost function S(): State
      reads this
    {
      State(msgs, threads, queues, place, raised)
    }

    /** Between steps nothing is in hand and everybody who has to be woken is being woken. */
    ghost predicate Valid()
      reads this
    {
      Inv(S(), NOBODY, NOBODY) && forall m :: 0 <= m < |place| ==> place[m] != InHand
    }

    /** At the start there are no messages, and the threads run on `caps` capabilities. */
    constructor (caps: nat, ts: seq<Thread>)
      requires forall t :: 0 <= t < |ts| ==> ts[t].cap < caps && !ts[t].why.OnThrowTo?
      ensures Valid() && msgs == [] && threads == ts && fresh(this)
    {
      msgs, place, raised, threads := [], [], [], ts;
      queues := map p: Place | p in Places(caps, |ts|) :: [];
      new;
      StartInv(caps, ts);
      hide Inv;
    }

    /** A thread runs on or blocks on something that is no message, with its masking, interruptibility and
        state changed, or it is moved to the run queue of another capability (schedulePushWork()). */
    method ThreadStep(t: nat, th: Thread)
      requires Valid() && t < |threads| && InInbox(th.cap) in queues && !th.why.OnThrowTo? && !threads[t].why.OnThrowTo?
      modifies this
      ensures Valid() && Onward(old(S()), S()) && threads == old(threads)[t := th] && queues == old(queues)
    {
      hide Inv;
      ThreadKeeps(S(), t, th, NOBODY, NOBODY);
      threads := threads[t := th];
    }

    /** migrateThread(): a runnable thread changes its capability, and a request to wake it goes there. */
    method MigrateThread(from: nat, t: nat, to: nat)
      requires Valid() && t < |threads| && threads[t].cap == from && threads[t].why == NotBlocked && InInbox(to) in queues
      modifies this
      ensures Valid() && Onward(old(S()), S())
      ensures threads == old(threads)[t := old(threads[t]).(cap := to, why := if to == from then NotBlocked else Migrating)]
      ensures queues == if to == from then old(queues)
                        else old(queues)[InInbox(to) := [Wakeup(t)] + old(queues)[InInbox(to)]]
    {
      hide Inv;
      ghost var s := S();
      var th := threads[t].(cap := to, why := Migrating);
      ThreadKeeps(s, t, th, NOBODY, NOBODY);
      threads := threads[t := th];
      var ok := TryWakeup(from, t, NOBODY, NOBODY);
      OnwardSame(s, s, S());
    }

    /** Somebody wakes a thread, for whatever reason. */
    method Wake(cap: nat, t: nat)
      requires Valid() && t < |threads|
      modifies this
      ensures Valid() && Onward(old(S()), S()) && OnlyThread(old(S()), S(), t)
    {
      hide Inv, Onward, Wakeable;
      ghost var s := S();
      var ok := TryWakeup(cap, t, NOBODY, NOBODY);
      OnwardSame(s, s, S());
    }

    /** tryWakeupThread(): a thread of another capability is woken there. A thread blocked in throwTo
        becomes runnable only if its message is done with. */
    method TryWakeup(cap: nat, t: nat, ghost x: int, ghost y: int) returns (ok: bool)
      requires Inv(S(), x, y) && t < |threads| && (y == NOBODY || y == t)
      modifies this
      ensures ok ==> Inv(S(), x, NOBODY)
      ensures !ok ==> S() == old(S()) && old(threads[t].why).OnThrowTo? && msgs[threads[t].why.msg].info == Locked
      ensures OnlyThread(old(S()), S(), t)
      ensures forall p :: p in queues && !p.InInbox? ==> queues[p] == old(queues)[p]
      ensures old(threads[t].cap) != cap ==>
                var p := InInbox(old(threads[t].cap));
                threads == old(threads) && p in old(queues) && queues == old(queues)[p := [Wakeup(t)] + old(queues)[p]]
      ensures threads[t] == old(threads[t]) || threads[t] == old(threads[t]).(why := NotBlocked)
      ensures ok && old(threads[t].cap) == cap ==>
                (threads[t] != old(threads[t]) <==>
                 match old(threads[t].why)
                 case OnMVar(completed) => completed
                 case OnThrowTo(m) => m < |msgs| && msgs[m].info == Revoked
                 case OnBlackHole => true
                 case OnSTM => true
                 case Migrating => true
                 case _ => false)
      ensures threads[t] != old(threads[t]) && old(threads[t].why).OnThrowTo? ==>
                msgs[old(threads[t].why.msg)].info == Revoked
      ensures old(threads[t].cap) == cap && Wakeable(old(S()), t) ==>
                ok && threads[t].why == NotBlocked && queues == old(queues)
    {
      hide QueuesOk, Furnished, SendersWait, MessagesOk, WakePending;
      NobodyToWakeOr(S(), x, y, t);
      if threads[t].cap != cap {
        WakeupKeeps(S(), t, x, y);
        var p := InInbox(threads[t].cap);
        queues := queues[p := [Wakeup(t)] + queues[p]];
        return true;
      }
      ok := true;
      match threads[t].why {
        case OnMVar(completed) =>
          if !completed {
            return;
          }
        case OnThrowTo(m) =>
          if msgs[m].info == Locked {
            return false;
          }
          if msgs[m].info != Revoked {
            return;
          }
        case OnBlackHole =>
        case OnSTM =>
        case Migrating =>
        case _ =>
          return;
      }
      UnblockKeeps(S(), t, x, y);
      threads := threads[t := threads[t].(why := NotBlocked)];
    }

    /** throwToSendMsg(): the message goes to the inbox of a capability (what becomes of the
        capability is part of the hand-over protocol). */
    method SendMessage(cap: nat, m: nat, ghost x: int)
      requires Inv(S(), x, NOBODY) && InInbox(cap) in queues && Movable(S(), m, x)
      modifies this
      ensures Inv(S(), x, NOBODY) && S() == Put(old(S()), InInbox(cap), m)
    {
      hide Inv;
      PutKeeps(S(), InInbox(cap), m, x, NOBODY);
      queues := queues[InInbox(cap) := [Throw(m)] + queues[InInbox(cap)]];
      place := place[m := InInbox(cap)];
    }

    /** blockedThrowTo(): the message goes to the target's blocked_exceptions. */
    method BlockedThrowTo(t: nat, m: nat, ghost x: int)
      requires Inv(S(), x, NOBODY) && InBlocked(t) in queues && Movable(S(), m, x) && msgs[m].target == t
      modifies this
      ensures Inv(S(), x, NOBODY) && S() == Put(old(S()), InBlocked(t), m)
    {
      hide Inv;
      PutKeeps(S(), InBlocked(t), m, x, NOBODY);
      queues := queues[InBlocked(t) := [Throw(m)] + queues[InBlocked(t)]];
      place := place[m := InBlocked(t)];
    }

    /** doneWithMsgThrowTo(): a live message becomes MSG_NULL. */
    method DoneWith(m: nat, ghost x: int)
      requires Inv(S(), x, NOBODY) && m < |msgs| && msgs[m].info != Revoked
      modifies this
      ensures Inv(S(), x, old(msgs[m].source)) && S() == SetInfo(old(S()), m, Revoked)
    {
      hide Inv;
      RevokeKeeps(S(), m, x);
      msgs := msgs[m := msgs[m].(info := Revoked)];
    }

    /** raiseAsync(): thread t gets the exception of message m and is runnable again. */
    method RaiseAsync(t: nat, ghost m: nat, h: Handler, ghost x: int, ghost y: int)
      requires Inv(S(), x, y) && (y == NOBODY || y == t) && t < |threads|
      requires m < |msgs| && m < |place| && m < |raised| && place[m] == InHand && raised[m] == 0
      requires threads[t].why.OnThrowTo? ==> threads[t].why.msg < |msgs| && msgs[threads[t].why.msg].info == Revoked
      modifies this
      ensures Inv(S(), x, NOBODY)
      ensures msgs == old(msgs) && queues == old(queues) && place == old(place) && raised == old(raised)[m := 1]
      ensures threads == old(threads)[t := Raised(old(threads[t]), h)]
      ensures threads[t].why == NotBlocked && threads[t].cap == old(threads[t]).cap
      ensures h.Catches? ==>
        && threads[t].next == old(threads[t]).next && threads[t].blockEx && threads[t].interruptible == h.interruptible
        && !Receptive(S(), threads[t]) && !CanTake(threads[t])
      ensures h.Nobody? ==> threads[t].next == Killed
    {
      hide Inv;
      Bounds(S(), x, y, t, m);
      UnblockKeeps(S(), t, x, y);
      threads := threads[t := threads[t].(why := NotBlocked)];
      assert S() == SetWhy(old(S()), t, NotBlocked);
      RaiseKeeps(S(), m, x, NOBODY);
      raised := raised[m := 1];
      var th := Raised(threads[t], h);
      ThreadKeeps(S(), t, th, x, NOBODY);
      threads := threads[t := th];
    }

    /** The message waits at the target, which takes no exception now. */
    method Defer(cap: nat, t: nat, m: nat, h: Handler, lower: bool, ghost x: int, ghost s0: State)
      requires Inv(S(), x, NOBODY) && Movable(S(), m, x) && msgs[m].target == t < |threads|
      requires |s0.msgs| == |s0.place| == |s0.raised| && m < |s0.msgs| && s0.msgs[m].target == t < |s0.threads|
      requires OnlyThread(s0, S(), t) && queues == s0.queues && Settled(s0, s0.threads[t], threads[t])
      requires Route(S(), cap, t, threads[t], lower, InBlocked(t))
      modifies this
      ensures Inv(S(), x, NOBODY) && Thrown(s0, S(), m, Blocked) && Judged(s0, S(), cap, m, h, lower, Blocked)
    {
      hide Inv, Thrown, Judged, Route, Settled;
      ghost var s := S();
      Bounds(s, x, NOBODY, t, m);
      BlockedThrowTo(t, m, x);
      ThrownByPut(s0, s, cap, InBlocked(t), m, h, lower);
    }

    /** The exception is raised in the target, which does not wait for a message. */
    method RaiseNow(cap: nat, t: nat, m: nat, h: Handler, lower: bool, ghost x: int, ghost s0: State)
      requires Inv(S(), x, NOBODY) && Movable(S(), m, x) && msgs[m].target == t < |threads| && !threads[t].why.OnThrowTo?
      requires |s0.msgs| == |s0.place| == |s0.raised| && m < |s0.msgs| && s0.msgs[m].target == t < |s0.threads|
      requires OnlyThread(s0, S(), t) && queues == s0.queues && Settled(s0, s0.threads[t], threads[t])
      requires threads[t].next == Alive && threads[t].cap == cap && Receptive(S(), threads[t])
      modifies this
      ensures Inv(S(), x, NOBODY) && Thrown(s0, S(), m, Success) && Judged(s0, S(), cap, m, h, lower, Success)
    {
      hide Inv, Thrown, Judged, Receptive, Settled;
      ghost var s := S();
      Bounds(s, x, NOBODY, t, m);
      RaiseAsync(t, m, h, x, NOBODY);
      ThrownByRaise(s0, s, S(), cap, m, h, lower);
    }

    /** The switch in throwToMsg(), for a live target of our own; s0 is the state at the start of the
        call, and `lower` says whether a message that the target itself waits for has the lower address
        of the two. `retry` says that the target has been woken and is to be looked at again. */
    method ThrowLocal(cap: nat, t: nat, m: nat, h: Handler, lower: bool, ghost x: int, ghost s0: State) returns (retry: bool, r: Outcome)
      requires Inv(S(), x, NOBODY) && Movable(S(), m, x) && msgs[m].info == Locked && msgs[m].target == t < |threads|
      requires threads[t].next == Alive && threads[t].cap == cap
      requires |s0.msgs| == |s0.place| == |s0.raised| && m < |s0.msgs| && s0.msgs[m].target == t < |s0.threads|
      requires OnlyThread(s0, S(), t) && queues == s0.queues && Settled(s0, s0.threads[t], threads[t])
      modifies this
      ensures Inv(S(), x, NOBODY)
      ensures retry ==> OnlyThread(s0, S(), t) && queues == s0.queues && Settled(s0, s0.threads[t], threads[t])
      ensures retry ==> old(threads[t]).why != NotBlocked && threads[t].why == NotBlocked
      ensures !retry ==> Thrown(s0, S(), m, r) && Judged(s0, S(), cap, m, h, lower, r)
    {
      hide Inv, Thrown, Judged;
      Bounds(S(), x, NOBODY, t, m);
      ghost var s := S();
      var masked := threads[t].blockEx && !threads[t].interruptible;
      match threads[t].why {
        case NotBlocked =>
          if !threads[t].blockEx {
            RaiseNow(cap, t, m, h, lower, x, s0);
            return false, Success;
          }
          Defer(cap, t, m, h, lower, x, s0);
          return false, Blocked;
        case OnThrowTo(k) =>
          if msgs[k].info == Locked {
            if lower {
              assert s.threads == s0.threads;
              NothingThrown(s, cap, m, h, lower);
              return false, Spin;
            }
            SendMessage(threads[t].cap, m, x);
            ThrownByPut(s0, s, cap, InInbox(threads[t].cap), m, h, lower);
            return false, Blocked;
          }
          if msgs[k].info == Ready {
            if masked {
              Defer(cap, t, m, h, lower, x, s0);
              return false, Blocked;
            }
            DoneWith(k, x);
            RaiseAsync(t, m, h, x, t);
            ThrownByRaise(s0, s, S(), cap, m, h, lower);
            return false, Success;
          }
          var ok := TryWakeup(cap, t, x, NOBODY);
        case OnMVar(completed) =>
          if !completed {
            if masked {
              Defer(cap, t, m, h, lower, x, s0);
              return false, Blocked;
            }
            RaiseNow(cap, t, m, h, lower, x, s0);
            return false, Success;
          }
          var ok := TryWakeup(cap, t, x, NOBODY);
        case OnBlackHole =>
          if threads[t].blockEx {
            Defer(cap, t, m, h, lower, x, s0);
            return false, Blocked;
          }
          RaiseNow(cap, t, m, h, lower, x, s0);
          return false, Success;
        case OnSTM =>
          if masked {
            Defer(cap, t, m, h, lower, x, s0);
            return false, Blocked;
          }
          RaiseNow(cap, t, m, h, lower, x, s0);
          return false, Success;
        case OnIO =>
          if masked {
            Defer(cap, t, m, h, lower, x, s0);
            return false, Blocked;
          }
          RaiseNow(cap, t, m, h, lower, x, s0);
          return false, Success;
        case OnCCallInterruptible =>
          Defer(cap, t, m, h, lower, x, s0);
          return false, Blocked;
        case OnCCall =>
          Defer(cap, t, m, h, lower, x, s0);
          return false, Blocked;
        case Migrating =>
          var ok := TryWakeup(cap, t, x, NOBODY);
      }
      retry, r := true, Spin;
    }

    /** throwToMsg(): message m is in hand and locked by us. It is either put on exactly one queue, or
        on none because its exception was raised or its target is dead. The loop is the code's retry,
        once the target has been found to be about to wake up. */
    method ThrowToMsg(cap: nat, m: nat, h: Handler, lower: bool, ghost x: int) returns (r: Outcome)
      requires Inv(S(), x, NOBODY) && Movable(S(), m, x) && msgs[m].info == Locked && msgs[m].target < |threads|
      modifies this
      ensures Inv(S(), x, NOBODY)
      ensures Thrown(old(S()), S(), m, r) && Judged(old(S()), S(), cap, m, h, lower, r)
      ensures Meets(old(S()), S(), cap, m, h, r)
    {
      hide Inv, Thrown, Judged, Meets;
      var t := msgs[m].target;
      ghost var s0 := S();
      Bounds(S(), x, NOBODY, t, m);
      while true
        invariant Inv(S(), x, NOBODY) && OnlyThread(s0, S(), t) && queues == old(queues)
        invariant Settled(s0, old(threads[t]), threads[t])
        decreases threads[t].why != NotBlocked
      {
        Bounds(S(), x, NOBODY, t, m);
        ghost var s := S();
        if threads[t].next != Alive {
          ThrownAtDead(s0, s, cap, m, h, lower);
          JudgedMeets(s0, S(), cap, m, h, lower, Success);
          return Success;
        }
        if threads[t].cap != cap {
          SendMessage(threads[t].cap, m, x);
          ThrownByPut(s0, s, cap, InInbox(threads[t].cap), m, h, lower);
          JudgedMeets(s0, S(), cap, m, h, lower, Blocked);
          return Blocked;
        }
        var retry;
        retry, r := ThrowLocal(cap, t, m, h, lower, x, s0);
        if !retry {
          JudgedMeets(s0, S(), cap, m, h, lower, r);
          return;
        }
      }
    }

    /** throwTo() from a running thread: a new message, and if that had to be queued the thread goes to
        sleep on it, still locked (stg_killThread). */
    method ThrowNew(source: nat, target: nat, h: Handler, lower: bool) returns (r: Outcome)
      requires Valid() && source < |threads| && target < |threads| && source != target
      requires threads[source].why == NotBlocked
      modifies this
      ensures Valid() && Onward(old(S()), S())
      ensures r == Spin ==> S() == old(S())
      ensures r != Spin ==> |msgs| == |old(msgs)| + 1 && msgs[|old(msgs)|] == Message(Locked, source, target)
      ensures r == Blocked ==> threads[source].why == OnThrowTo(|old(msgs)|) && place[|old(msgs)|] in queues
      ensures r == Success ==> place[|old(msgs)|] == Nowhere && threads[source] == old(threads[source])
                               && (raised[|old(msgs)|] == 1 || old(threads[target].next) != Alive)
      ensures r == Blocked ==>
        && threads[source] == old(threads[source]).(why := OnThrowTo(|old(msgs)|))
        && |place| == |msgs| && place[|old(msgs)|] in old(queues)
        && queues == old(queues)[place[|old(msgs)|] := [Throw(|old(msgs)|)] + old(queues)[place[|old(msgs)|]]]
      ensures |threads| == |old(threads)|
      ensures forall u :: 0 <= u < |threads| && u != source && u != target ==> threads[u] == old(threads[u])
      ensures ThrownRightly(old(S()), S(), source, target, h, r)
    {
      hide Inv, Thrown, Judged, Onward, ThrownRightly;
      var m := |msgs|;
      SizesOk(S(), NOBODY, NOBODY);
      CreateKeeps(S(), source, target, NOBODY);
      ghost var s0 := S();
      msgs, place, raised := msgs + [Message(Locked, source, target)], place + [InHand], raised + [0];
      ghost var s1 := S();
      assert s1 == Create(s0, source, target);
      ExemptInHand(s1, m, NOBODY);
      r := ThrowToMsg(threads[source].cap, m, h, lower, m);
      ghost var s2 := S();
      SizesOk(s2, m, NOBODY);
      ThrownOnward(s1, s2, m, r);
      ThrownFacts(s1, s2, m, r);
      CreateOnward(s0, source, target);
      OnwardOn(s0, s1, s2);
      match r {
        case Spin =>
          msgs, place, raised := msgs[..m], place[..m], raised[..m];
          assert S() == s0 by {
            assert msgs == s0.msgs && place == s0.place && raised == s0.raised;
          }
          OnwardSame(s0, s0, S());
          RightForNew(s0, s1, s2, S(), source, target, h, lower, r);
        case Blocked =>
          SleepKeeps(s2, m, NOBODY);
          ThrownQueued(s1, s2, m);
          threads := threads[source := threads[source].(why := OnThrowTo(m))];
          OnwardSame(s0, s2, S());
          RightForNew(s0, s1, s2, S(), source, target, h, lower, r);
        case Success =>
          ExemptInHand(s2, m, NOBODY);
          DropKeeps(s2, m, NOBODY, NOBODY);
          place := place[m := Nowhere];
          OnwardSame(s0, s2, S());
          RightForNew(s0, s1, s2, S(), source, target, h, lower, r);
      }
    }

    /** stg_block_throwto_finally: the sender, now asleep, unlocks its message, unless that was revoked
        in the meantime. */
    method BlockFinally(t: nat)
      requires Valid() && t < |threads| && threads[t].why.OnThrowTo? && threads[t].why.msg < |msgs|
      modifies this
      ensures Valid() && Onward(old(S()), S())
      ensures threads == old(threads)
      ensures var m := threads[t].why.msg;
        m < |old(msgs)| && msgs == old(msgs)[m := old(msgs[m]).(info := if old(msgs[m]).info == Locked then Ready else old(msgs[m]).info)]
    {
      hide Inv, Onward;
      ghost var s := S();
      var m := threads[t].why.msg;
      Bounds(s, NOBODY, NOBODY, t, m);
      WaitsForLive(s, NOBODY, NOBODY, t);
      OnwardSame(s, s, s);
      if msgs[m].info == Locked {
        RelockKeeps(s, m, Ready, NOBODY, NOBODY);
        InfoOnward(s, s, m, Ready);
        msgs := msgs[m := msgs[m].(info := Ready)];
      }
    }

    /** The start of scheduleProcessInbox(): the whole inbox is taken. */
    method TakeInbox(c: nat)
      requires Valid() && InInbox(c) in queues && InTodo(c) in queues && queues[InTodo(c)] == []
      modifies this
      ensures Valid() && Onward(old(S()), S())
      ensures queues == old(queues)[InTodo(c) := old(queues)[InInbox(c)]][InInbox(c) := []]
    {
      hide Inv;
      TakeAllKeeps(S(), c, NOBODY, NOBODY);
      MovedPlaces(place, c);
      hide Moved;
      queues := queues[InTodo(c) := queues[InInbox(c)]][InInbox(c) := []];
      place := Moved(place, c);
    }

    /** executeMessage() on the first entry of the list that scheduleProcessInbox() goes through. With
        `done` false the message or a message it depends on is locked by somebody else, and nothing
        has happened. */
    method ExecuteMessage(cap: nat, h: Handler, lower: bool) returns (done: bool)
      requires Valid() && InTodo(cap) in queues && queues[InTodo(cap)] != []
      modifies this
      ensures Valid() && Onward(old(S()), S())
      ensures !done ==> S() == old(S())
      ensures done ==> InTodo(cap) in queues && queues[InTodo(cap)] == old(queues)[InTodo(cap)][1..]
      ensures done && old(queues)[InTodo(cap)][0].Throw? ==>
                var m := old(queues)[InTodo(cap)][0].msg;
                && m < |msgs| && old(msgs[m]).info != Locked
                && if place[m] == Nowhere then msgs[m].info == Revoked else msgs[m].info == Ready && place[m] in queues
      ensures old(queues)[InTodo(cap)][0].Wakeup? ==> raised == old(raised)
      ensures old(queues)[InTodo(cap)][0].Throw? ==> RaisedRightly(old(S()), S(), cap, old(queues)[InTodo(cap)][0].msg)
    {
      hide Inv, Thrown, Onward, Take, Wakeable, RaisedRightly;
      ghost var s0 := S();
      var todo := queues[InTodo(cap)];
      SizesOk(s0, NOBODY, NOBODY);
      TakeKeeps(s0, InTodo(cap), NOBODY);
      TakeFacts(s0, InTodo(cap));
      match todo[0] {
        case Wakeup(t) =>
          queues := queues[InTodo(cap) := todo[1..]];
          done := TryWakeup(cap, t, NOBODY, t);
          if !done {
            queues := queues[InTodo(cap) := todo];
            assert queues == s0.queues;
          }
          OnwardSame(s0, s0, S());
        case Throw(m) =>
          NothingRaised(s0, cap, m);
          if msgs[m].info == Locked {
            OnwardSame(s0, s0, S());
            RightSame(s0, s0, s0, S(), cap, m);
            return false;
          }
          QueuedFacts(s0, m);
          queues := queues[InTodo(cap) := todo[1..]];
          place := place[m := InHand];
          ghost var s1 := S();
          OnwardSame(s0, s0, s1);
          if msgs[m].info == Revoked {
            DropKeeps(S(), m, NOBODY, NOBODY);
            place := place[m := Nowhere];
            OnwardSame(s0, s0, S());
            RightSame(s0, s0, s0, S(), cap, m);
            return true;
          }
          done := ExecuteThrow(cap, m, h, lower);
          OnwardOn(s0, s1, S());
          RightSame(s1, S(), s0, S(), cap, m);
          if !done {
            queues := queues[InTodo(cap) := todo];
            place := place[m := InTodo(cap)];
            assert queues == s0.queues && place == s0.place;
            OnwardSame(s0, s0, S());
            RightSame(s0, s0, s0, S(), cap, m);
          }
      }
    }

    /** executeMessage() for a live message that is in hand. */
    method ExecuteThrow(cap: nat, m: nat, h: Handler, lower: bool) returns (done: bool)
      requires Inv(S(), NOBODY, NOBODY) && Movable(S(), m, NOBODY) && msgs[m].info == Ready
      requires forall k :: 0 <= k < |place| && k != m ==> place[k] != InHand
      modifies this
      ensures Inv(S(), NOBODY, NOBODY) && Onward(old(S()), S())
      ensures !done ==> S() == old(S())
      ensures |place| == |old(place)| && |msgs| == |old(msgs)| && queues.Keys == old(queues).Keys
      ensures forall c: nat :: InTodo(c) in queues ==> queues[InTodo(c)] == old(queues)[InTodo(c)]
      ensures done ==> forall k :: 0 <= k < |place| ==> place[k] != InHand
      ensures done ==> if place[m] == Nowhere then msgs[m].info == Revoked else msgs[m].info == Ready && place[m] in queues
      ensures RaisedRightly(old(S()), S(), cap, m)
    {
      hide RaisedRightly;
      hide Inv, Thrown, Judged, Onward, Wakeable;
      ghost var s0 := S();
      SizesOk(s0, NOBODY, NOBODY);
      Bounds(s0, NOBODY, NOBODY, msgs[m].source, m);
      RelockKeeps(s0, m, Locked, NOBODY, NOBODY);
      msgs := msgs[m := msgs[m].(info := Locked)];
      ghost var s1 := S();
      var r := ThrowToMsg(cap, m, h, lower, NOBODY);
      ghost var s2 := S();
      ThrownFacts(s1, s2, m, r);
      ThrownOnward(s1, s2, m, r);
      RelockOnward(s0, m, s2);
      RightAfterRelock(s0, s1, s2, cap, m, h, lower, r);
      SizesOk(s2, NOBODY, NOBODY);
      match r {
        case Spin =>
          msgs := msgs[m := msgs[m].(info := Ready)];
          assert msgs == s0.msgs;
          OnwardSame(s0, s0, S());
          RightSame(s0, s2, s0, S(), cap, m);
          return false;
        case Blocked =>
          RelockKeeps(s2, m, Ready, NOBODY, NOBODY);
          msgs := msgs[m := msgs[m].(info := Ready)];
          InfoOnward(s0, s2, m, Ready);
          RightSame(s0, s2, s0, S(), cap, m);
          return true;
        case Success =>
          Finish(cap, m);
          InfoOnward(s0, s2, m, Revoked);
          OnwardSame(s0, SetInfo(s2, m, Revoked), S());
          RightSame(s0, s2, s0, S(), cap, m);
          return true;
      }
    }

    /** A message in hand is done with, and then its sender is woken. */
    method Finish(cap: nat, m: nat)
      requires Inv(S(), NOBODY, NOBODY) && m < |msgs| && m < |place| && place[m] == InHand
      requires msgs[m].info != Revoked && msgs[m].source < |threads|
      requires threads[msgs[m].source].why == OnThrowTo(m)
      modifies this
      ensures Inv(S(), NOBODY, NOBODY)
      ensures msgs == old(msgs)[m := old(msgs[m]).(info := Revoked)] && raised == old(raised)
      ensures place == old(place)[m := Nowhere] && queues.Keys == old(queues).Keys
      ensures forall p :: p in queues && !p.InInbox? ==> queues[p] == old(queues)[p]
      ensures |threads| == |old(threads)|
      ensures forall u :: 0 <= u < |threads| && u != old(msgs[m]).source ==> threads[u] == old(threads[u])
      ensures Woken(S(), old(msgs[m]).source)
    {
      hide Inv, Wakeable, Woken;
      var source := msgs[m].source;
      DoneWith(m, NOBODY);
      var ok := TryWakeup(cap, source, NOBODY, source);
      DropKeeps(S(), m, NOBODY, NOBODY);
      place := place[m := Nowhere];
      StillWaiting(S(), source, m);
    }

    /** awakenBlockedExceptionQueue(): every live message of thread t is done with, without raising
        its exception, and its sender is woken. (The entries are taken off one by one; the code
        empties the queue, which only this capability looks at, at the end.) */
    method AwakenBlocked(cap: nat, t: nat) returns (done: bool)
      requires Valid() && InBlocked(t) in queues
      modifies this
      ensures Valid() && Onward(old(S()), S()) && raised == old(raised)
      ensures InBlocked(t) in queues && (done ==> queues[InBlocked(t)] == [])
      ensures |msgs| == |old(msgs)|
      ensures forall m :: 0 <= m < |msgs| && msgs[m] != old(msgs[m]) ==> place[m] == Nowhere
    {
      hide Inv, Onward, Wakeable, Take;
      ghost var s0 := S();
      OnwardSame(s0, s0, s0);
      SizesOk(s0, NOBODY, NOBODY);
      while queues[InBlocked(t)] != []
        invariant Valid() && Onward(s0, S()) && raised == s0.raised && InBlocked(t) in queues
        invariant |msgs| == |s0.msgs| == |place| == |raised|
        invariant forall m :: 0 <= m < |msgs| && msgs[m] != s0.msgs[m] ==> place[m] == Nowhere
        decreases |queues[InBlocked(t)]|
      {
        ghost var s := S();
        done := PopBlocked(cap, t);
        OnwardOn(s0, s, S());
        if !done {
          return;
        }
      }
      done := true;
    }

    /** One round of the loop of awakenBlockedExceptionQueue(). */
    method PopBlocked(cap: nat, t: nat) returns (done: bool)
      requires Valid() && InBlocked(t) in queues && queues[InBlocked(t)] != []
      modifies this
      ensures Valid() && Onward(old(S()), S()) && raised == old(raised)
      ensures !done ==> S() == old(S())
      ensures InBlocked(t) in queues && (done ==> queues[InBlocked(t)] == old(queues)[InBlocked(t)][1..])
      ensures |msgs| == |old(msgs)| == |place| == |old(place)|
      ensures forall m :: 0 <= m < |msgs| ==> old(place[m]) == Nowhere ==> place[m] == Nowhere
      ensures forall m :: 0 <= m < |msgs| && msgs[m] != old(msgs[m]) ==> place[m] == Nowhere
    {
      hide Inv, Onward, Wakeable, Take;
      ghost var s0 := S();
      var q := queues[InBlocked(t)];
      SizesOk(s0, NOBODY, NOBODY);
      TakeKeeps(s0, InBlocked(t), NOBODY);
      TakeFacts(s0, InBlocked(t));
      var m := q[0].msg;
      if msgs[m].info == Locked {
        OnwardSame(s0, s0, S());
        return false;
      }
      QueuedFacts(s0, m);
      queues := queues[InBlocked(t) := q[1..]];
      place := place[m := InHand];
      OnwardSame(s0, s0, S());
      done := true;
      if msgs[m].info == Revoked {
        DropKeeps(S(), m, NOBODY, NOBODY);
        place := place[m := Nowhere];
        OnwardSame(s0, s0, S());
      } else {
        ghost var s1 := S();
        Finish(cap, m);
        InfoOnward(s0, s1, m, Revoked);
        OnwardSame(s0, SetInfo(s1, m, Revoked), S());
      }
    }

    /** maybePerformBlockedException(): a thread of ours that can take an exception now gets that of
        the first live message on its queue, whose sender is then woken; the rest of the queue stays. */
    method MaybePerformBlocked(cap: nat, t: nat, h: Handler) returns (r: Performed)
      requires Valid() && t < |threads| && threads[t].cap == cap && !threads[t].why.OnCCall? && !threads[t].why.OnCCallInterruptible?
      requires forall k: nat :: threads[t].why == OnThrowTo(k) && k < |msgs| ==> msgs[k].info != Revoked
      modifies this
      ensures Valid() && Onward(old(S()), S()) && InBlocked(t) in old(queues) && InBlocked(t) in queues
      ensures r != Spins && old(threads[t]).next == Complete ==> queues[InBlocked(t)] == [] && raised == old(raised)
      ensures old(threads[t]).next != Complete ==>
                match r
                case Spins => raised == old(raised) && threads == old(threads)
                case All => false
                case No => raised == old(raised) && threads == old(threads)
                           && (CanTake(old(threads[t])) ==> NoneLive(old(msgs), old(queues)[InBlocked(t)]) && queues[InBlocked(t)] == [])
                case Yes(m) => CanTake(old(threads[t])) && FirstLive(old(msgs), old(queues)[InBlocked(t)], queues[InBlocked(t)], m)
                               && GetsException(old(S()), S(), t, m, h)
    {
      hide Inv, Onward, Wakeable, Take, NoneLive, FirstLive, GetsException;
      ghost var s0 := S();
      SizesOk(s0, NOBODY, NOBODY);
      OwnQueue(s0, NOBODY, NOBODY, t);
      OnwardSame(s0, s0, s0);
      if threads[t].next == Complete {
        if queues[InBlocked(t)] == [] {
          return No;
        }
        var done := AwakenBlocked(cap, t);
        return if done then All else Spins;
      }
      if queues[InBlocked(t)] == [] || !CanTake(threads[t]) {
        NoneLiveAtEnd(msgs, queues[InBlocked(t)]);
        return No;
      }
      ghost var gone := 0;
      StartDrop(s0, t);
      while queues[InBlocked(t)] != []
        invariant Valid() && Dropped(s0, S(), t, gone) && InBlocked(t) in queues
        decreases |queues[InBlocked(t)]|
      {
        var q := queues[InBlocked(t)];
        ghost var s := S();
        SizesOk(s, NOBODY, NOBODY);
        TakeKeeps(s, InBlocked(t), NOBODY);
        TakeFacts(s, InBlocked(t));
        var m := q[0].msg;
        DropOnward(s0, s, t, gone);
        if msgs[m].info == Locked {
          return Spins;
        }
        QueuedFacts(s, m);
        queues := queues[InBlocked(t) := q[1..]];
        place := place[m := InHand];
        if msgs[m].info != Revoked {
          ghost var s1 := S();
          InTarget(s, t, m);
          PerformHead(cap, t, m, h);
          FoundLive(s0, s, s1, S(), t, gone, m, h);
          return Yes(m);
        }
        DropKeeps(S(), m, NOBODY, NOBODY);
        place := place[m := Nowhere];
        DropOne(s0, s, S(), t, gone, m);
        gone := gone + 1;
      }
      DropOnward(s0, S(), t, gone);
      DroppedAll(s0, S(), t, gone);
      r := No;
    }

    /** throwToSingleThreaded() for a message in hand, and then its sender is woken. */
    method PerformHead(cap: nat, t: nat, m: nat, h: Handler)
      requires Inv(S(), NOBODY, NOBODY) && Movable(S(), m, NOBODY) && msgs[m].target == t != msgs[m].source && t < |threads|
      requires forall k :: 0 <= k < |place| && k != m ==> place[k] != InHand
      requires forall k: nat :: threads[t].why == OnThrowTo(k) && k < |msgs| ==> msgs[k].info != Revoked
      modifies this
      ensures Valid() && Onward(old(S()), S()) && InBlocked(t) in queues && InBlocked(t) in old(queues)
      ensures queues[InBlocked(t)] == old(queues)[InBlocked(t)] && GetsException(old(S()), S(), t, m, h)
    {
      hide Inv, Onward, Wakeable;
      ghost var s0 := S();
      SizesOk(s0, NOBODY, NOBODY);
      Bounds(s0, NOBODY, NOBODY, t, m);
      OnwardSame(s0, s0, s0);
      if threads[t].next == Alive {
        if threads[t].why.OnThrowTo? {
          var k := threads[t].why.msg;
          DoneWith(k, NOBODY);
          InfoOnward(s0, s0, k, Revoked);
          OnwardSame(s0, SetInfo(s0, k, Revoked), S());
          ghost var s1 := S();
          RaiseAsync(t, m, h, NOBODY, t);
          RaisedOnward(s0, s1, S(), m);
        } else {
          RaiseAsync(t, m, h, NOBODY, NOBODY);
          RaisedOnward(s0, s0, S(), m);
        }
      }
      ghost var s1 := S();
      Finish(cap, m);
      InfoOnward(s0, s1, m, Revoked);
      OnwardSame(s0, SetInfo(s1, m, Revoked), S());
    }

    /** One event, if it is possible. */
    method Happen(e: Event)
      requires Valid()
      modifies this
      ensures Valid() && Onward(old(S()), S())
    {
      hide Inv, Onward;
      ghost var s := S();
      OnwardSame(s, s, s);
      match e
      case ThrowTo(source, target, h, lower) =>
        if source < |threads| && target < |threads| && source != target && threads[source].why == NotBlocked {
          var r := ThrowNew(source, target, h, lower);
        }
      case Unlock(t) =>
        if t < |threads| && threads[t].why.OnThrowTo? && threads[t].why.msg < |msgs| {
          BlockFinally(t);
        }
      case TakeIn(c) =>
        if InInbox(c) in queues && InTodo(c) in queues && queues[InTodo(c)] == [] {
          TakeInbox(c);
        }
      case WorkOn(c, h, lower) =>
        if InTodo(c) in queues && queues[InTodo(c)] != [] {
          var done := ExecuteMessage(c, h, lower);
        }
      case PerformBlocked(t, h) =>
        if t < |threads| && !threads[t].why.OnCCall? && !threads[t].why.OnCCallInterruptible? {
          if !threads[t].why.OnThrowTo? || (threads[t].why.msg < |msgs| && msgs[threads[t].why.msg].info != Revoked) {
            var r := MaybePerformBlocked(threads[t].cap, t, h);
          }
        }
      case Abandon(c, t) =>
        if InBlocked(t) in queues {
          var done := AwakenBlocked(c, t);
        }
      case GoOn(t, th) =>
        if t < |threads| && InInbox(th.cap) in queues && !th.why.OnThrowTo? && !threads[t].why.OnThrowTo? {
          ThreadStep(t, th);
        }
      case MoveTo(t, c) =>
        if t < |threads| && threads[t].why == NotBlocked && InInbox(c) in queues {
          MigrateThread(threads[t].cap, t, c);
        }
      case WakeUp(c, t) =>
        if t < |threads| {
          Wake(c, t);
        }
    }
  }

  function Places(caps: nat, threads: nat): set<Place> {
    (set c: nat | c < caps :: InInbox(c)) + (set c: nat | c < caps :: InTodo(c)) + (set t: nat | t < threads :: InBlocked(t))
  }

  lemma StartInv(caps: nat, ts: seq<Thread>)
    requires forall t :: 0 <= t < |ts| ==> ts[t].cap < caps && !ts[t].why.OnThrowTo?
    ensures Inv(State([], ts, map p: Place | p in Places(caps, |ts|) :: [], [], []), NOBODY, NOBODY)
  {
  }

  /** A message is on at most one queue, at one place. */
  ghost predicate EachOnOneQueue(s: State) {
    forall p, i, q, j :: InBoth(s, p, i, q, j) ==> p == q && i == j
  }

  /** The same message is entry i of queue p and entry j of queue q. */
  ghost predicate InBoth(s: State, p: Place, i: nat, q: Place, j: nat) {
    && p in s.queues && q in s.queues && i < |s.queues[p]| && j < |s.queues[q]|
    && s.queues[p][i].Throw? && s.queues[p][i] == s.queues[q][j]
  }

  /** A thread that is blocked in throwTo has its message on a queue, live and with its exception not
      raised, or a request to wake it on the way. */
  ghost predicate NobodyForgotten(s: State) {
    forall t :: 0 <= t < |s.threads| && s.threads[t].why.OnThrowTo? ==> Remembered(s, t, s.threads[t].why.msg)
  }

  ghost predicate Remembered(s: State, t: nat, m: nat)
    requires t < |s.threads|
  {
    && m < |s.msgs| && m < |s.place| && m < |s.raised| && s.msgs[m].source == t
    && if s.msgs[m].info == Revoked then WakePending(s, t)
       else s.raised[m] == 0 && s.place[m] in s.queues && Throw(m) in s.queues[s.place[m]]
  }

  /** No exception is raised twice. */
  ghost predicate RaisedOnce(s: State) {
    forall m :: 0 <= m < |s.raised| ==> s.raised[m] <= 1
  }

  lemma OneQueue(s: State, x: int, y: int, p: Place, i: nat, q: Place, j: nat)
    requires Inv(s, x, y) && InBoth(s, p, i, q, j)
    ensures p == q && i == j
  {
    assert Holds(s.queues[p], p, s.place, |s.threads|) && Holds(s.queues[q], q, s.place, |s.threads|);
    hide Furnished, SendersWait, WaitersOk, MessagesOk;
  }

  lemma NoSenderForgotten(s: State, t: nat)
    requires Inv(s, NOBODY, NOBODY) && (forall m :: 0 <= m < |s.place| ==> s.place[m] != InHand)
    requires t < |s.threads| && s.threads[t].why.OnThrowTo?
    ensures Remembered(s, t, s.threads[t].why.msg)
  {
    hide WakePending;
    var m := s.threads[t].why.msg;
    if s.msgs[m].info != Revoked {
      assert Holds(s.queues[s.place[m]], s.place[m], s.place, |s.threads|);
    }
  }

  lemma InvMeans(s: State)
    requires Inv(s, NOBODY, NOBODY) && forall m :: 0 <= m < |s.place| ==> s.place[m] != InHand
    ensures EachOnOneQueue(s) && NobodyForgotten(s) && RaisedOnce(s)
  {
    forall p, i, q, j | InBoth(s, p, i, q, j) ensures p == q && i == j {
      OneQueue(s, NOBODY, NOBODY, p, i, q, j);
    }
    forall t | 0 <= t < |s.threads| && s.threads[t].why.OnThrowTo? ensures Remembered(s, t, s.threads[t].why.msg) {
      NoSenderForgotten(s, t);
    }
    hide AllHold, WakePending;
  }

  /** What can happen next: a throwTo, the unlocking of its message, the taking of an inbox and work on
      its entries, the delivery or the abandoning of exceptions that wait, a thread going on, moving or
      being woken. */
  datatype Event =
    | ThrowTo(source: nat, target: nat, h: Handler, lower: bool)
    | Unlock(thread: nat)
    | TakeIn(cap: nat)
    | WorkOn(cap: nat, h: Handler, lower: bool)
    | PerformBlocked(thread: nat, h: Handler)
    | Abandon(cap: nat, thread: nat)
    | GoOn(thread: nat, to: Thread)
    | MoveTo(thread: nat, cap: nat)
    | WakeUp(cap: nat, thread: nat)

  /** Any run of the runtime system from its start: of the events given, in whatever order, those that
      are possible happen. At the end, and so at any time, each message is on at most one queue, no
      sender is forgotten, and no exception has been raised twice. */
  method AnyRun(caps: nat, ts: seq<Thread>, events: seq<Event>) returns (rts: Rts)
    requires forall t :: 0 <= t < |ts| ==> ts[t].cap < caps && !ts[t].why.OnThrowTo?
    ensures rts.Valid() && EachOnOneQueue(rts.S()) && NobodyForgotten(rts.S()) && RaisedOnce(rts.S())
  {
    hide Inv, EachOnOneQueue, NobodyForgotten, RaisedOnce;
    rts := new Rts(caps, ts);
    for i := 0 to |events|
      invariant rts.Valid() && fresh(rts)
    {
      rts.Happen(events[i]);
    }
    InvMeans(rts.S());
  }

  /** The thread does not mask asynchronous exceptions, or is blocked interruptibly. */
  predicate CanTake(th: Thread) {
    !th.blockEx || (th.interruptible && (th.why.OnMVar? || th.why.OnThrowTo? || th.why.OnIO?))
  }

  /** The first n entries of a thread's queue are messages that were done with already. */
  ghost predicate RevokedUpTo(msgs: seq<Message>, q: seq<Entry>, n: nat) {
    n <= |q| && forall i :: 0 <= i < n ==> q[i].Throw? && q[i].msg < |msgs| && msgs[q[i].msg].info == Revoked
  }

  ghost predicate NoneLive(msgs: seq<Message>, q: seq<Entry>) {
    RevokedUpTo(msgs, q, |q|)
  }

  /** m is the first live message of q, and `rest` is what follows it. */
  ghost predicate FirstLive(msgs: seq<Message>, q: seq<Entry>, rest: seq<Entry>, m: nat) {
    exists n: nat :: LiveAt(msgs, q, rest, m, n)
  }

  ghost predicate LiveAt(msgs: seq<Message>, q: seq<Entry>, rest: seq<Entry>, m: nat, n: nat) {
    && n < |q| && RevokedUpTo(msgs, q, n) && q[n] == Throw(m) && rest == q[n + 1..]
    && m < |msgs| && msgs[m].info != Revoked
  }

  /** Thread u runs again, or somebody is on the way to see to it. */
  ghost predicate Woken(s: State, u: nat) {
    u < |s.threads| && (s.threads[u].why == NotBlocked || WakePending(s, u))
  }

  /** t, if alive, has the exception of m raised in it; m is done with and its sender woken;
      no other message is touched but the one that t itself was waiting for. */
  ghost predicate GetsException(s: State, s': State, t: nat, m: nat, h: Handler) {
    && m < |s.msgs| == |s'.msgs| && m < |s'.place| && m < |s.raised| && t < |s.threads| == |s'.threads|
    && (if s.threads[t].next == Alive then s'.raised == s.raised[m := 1] && s'.threads[t] == Raised(s.threads[t], h)
        else s'.raised == s.raised && s'.threads[t] == s.threads[t])
    && s'.msgs[m] == s.msgs[m].(info := Revoked) && s'.place[m] == Nowhere && Woken(s', s.msgs[m].source)
    && forall k :: 0 <= k < |s.msgs| && k != m ==>
         s'.msgs[k] == s.msgs[k] || (s.threads[t].why == OnThrowTo(k) && s'.msgs[k] == s.msgs[k].(info := Revoked))
  }

  /** The loop of maybePerformBlockedException() has passed `gone` messages that were done with. */
  ghost predicate Dropped(s0: State, s: State, t: nat, gone: nat) {
    && s.msgs == s0.msgs && s.threads == s0.threads && s.raised == s0.raised
    && InBlocked(t) in s0.queues && InBlocked(t) in s.queues && RevokedUpTo(s0.msgs, s0.queues[InBlocked(t)], gone)
    && s.queues[InBlocked(t)] == s0.queues[InBlocked(t)][gone..]
  }

  lemma NoneLiveAtEnd(msgs: seq<Message>, q: seq<Entry>)
    ensures q == [] ==> NoneLive(msgs, q)
  {
  }

  lemma StartDrop(s: State, t: nat)
    requires InBlocked(t) in s.queues
    ensures Dropped(s, s, t, 0)
  {
  }

  lemma DropOne(s0: State, s: State, s': State, t: nat, gone: nat, m: nat)
    requires Dropped(s0, s, t, gone) && s.queues[InBlocked(t)] != [] && s.queues[InBlocked(t)][0] == Throw(m)
    requires m < |s.msgs| && s.msgs[m].info == Revoked
    requires s'.msgs == s.msgs && s'.threads == s.threads && s'.raised == s.raised
    requires s'.queues == s.queues[InBlocked(t) := s.queues[InBlocked(t)][1..]]
    ensures Dropped(s0, s', t, gone + 1)
  {
  }

  lemma DropOnward(s0: State, s: State, t: nat, gone: nat)
    requires Dropped(s0, s, t, gone)
    ensures Onward(s0, s) && s.raised == s0.raised && s.threads == s0.threads
  {
  }

  lemma DroppedAll(s0: State, s: State, t: nat, gone: nat)
    requires Dropped(s0, s, t, gone) && s.queues[InBlocked(t)] == []
    ensures NoneLive(s0.msgs, s0.queues[InBlocked(t)])
  {
    assert |s0.queues[InBlocked(t)][gone..]| == 0;
  }

  lemma FoundLive(s0: State, s: State, s1: State, u: State, t: nat, gone: nat, m: nat, h: Handler)
    requires Dropped(s0, s, t, gone) && s.queues[InBlocked(t)] != [] && s.queues[InBlocked(t)][0] == Throw(m)
    requires s1.msgs == s.msgs && s1.threads == s.threads && s1.raised == s.raised
    requires InBlocked(t) in u.queues && u.queues[InBlocked(t)] == s.queues[InBlocked(t)][1..]
    requires m < |s.msgs| && s.msgs[m].info != Revoked && GetsException(s1, u, t, m, h) && Onward(s1, u)
    ensures FirstLive(s0.msgs, s0.queues[InBlocked(t)], u.queues[InBlocked(t)], m)
    ensures GetsException(s0, u, t, m, h) && Onward(s0, u)
  {
    hide Woken;
    assert LiveAt(s0.msgs, s0.queues[InBlocked(t)], u.queues[InBlocked(t)], m, gone);
  }

  lemma OwnQueue(s: State, x: int, y: int, t: nat)
    requires Inv(s, x, y) && t < |s.threads|
    ensures InBlocked(t) in s.queues
  {
  }

  lemma InTarget(s: State, t: nat, m: nat)
    requires Inv(s, NOBODY, NOBODY) && m < |s.msgs| && m < |s.place| && s.place[m] == InBlocked(t)
    ensures s.msgs[m].target == t
  {
    hide AllHold, WakePending;
  }

  lemma RaisedOnward(s: State, t: State, u: State, m: nat)
    requires Onward(s, t) && m < |t.raised| && t.raised[m] == 0 && u.msgs == t.msgs && u.raised == t.raised[m := 1]
    ensures Onward(s, u)
  {
  }

  /** Who still waits for a message that is done with has a wakeup on the way. */
  lemma StillWaiting(s: State, u: nat, m: nat)
    requires Inv(s, NOBODY, NOBODY) && u < |s.threads| && m < |s.msgs| && s.msgs[m].info == Revoked
    requires s.threads[u].why == NotBlocked || s.threads[u].why == OnThrowTo(m)
    ensures Woken(s, u)
  {
    hide AllHold, WakePending;
  }

  /** Nothing that is done with becomes live again, and no exception is taken back. */
  ghost predicate Onward(s: State, s': State) {
    && |s.msgs| <= |s'.msgs| && |s.raised| <= |s'.raised|
    && (forall m :: 0 <= m < |s.msgs| ==>
          && s'.msgs[m].source == s.msgs[m].source && s'.msgs[m].target == s.msgs[m].target
          && (s.msgs[m].info == Revoked ==> s'.msgs[m].info == Revoked))
    && (forall m :: 0 <= m < |s.raised| ==> s.raised[m] <= s'.raised[m])
  }

  /** Whether message m is exempt does not matter while it is not on a queue. */
  lemma ExemptInHand(s: State, m: nat, y: int)
    requires Inv(s, m, y) || Inv(s, NOBODY, y)
    requires m < |s.place| && s.place[m] == InHand
    ensures Inv(s, m, y) && Inv(s, NOBODY, y)
  {
    hide AllHold, WakePending;
  }

  lemma ThrownFacts(s: State, s': State, m: nat, r: Outcome)
    requires Thrown(s, s', m, r)
    ensures m < |s.msgs| == |s'.msgs| && |s'.place| == |s.place| == |s'.raised| == |s.raised| && m < |s.place|
    ensures s.msgs[m].target < |s.threads| == |s'.threads| && s'.msgs[m] == s.msgs[m]
    ensures forall u :: 0 <= u < |s.threads| && u != s.msgs[m].target ==> s'.threads[u] == s.threads[u]
    ensures forall k :: 0 <= k < |s.place| && k != m ==> s'.place[k] == s.place[k]
    ensures r == Spin ==> s' == s
    ensures r == Blocked ==> s'.place[m] in s.queues && s'.place[m] in s'.queues && s'.raised == s.raised
    ensures s'.queues.Keys == s.queues.Keys
    ensures forall c: nat :: InTodo(c) in s.queues ==> s'.queues[InTodo(c)] == s.queues[InTodo(c)]
    ensures r == Success ==> s'.place == s.place && s'.queues == s.queues
    ensures r == Success ==> (s'.raised[m] == 1 || (s.threads[s.msgs[m].target].next != Alive && s'.raised == s.raised))
  {
  }

  lemma ThrownQueued(s: State, s': State, m: nat)
    requires Thrown(s, s', m, Outcome.Blocked)
    ensures m < |s'.place| && s'.place[m] in s.queues
    ensures s'.queues == s.queues[s'.place[m] := [Throw(m)] + s.queues[s'.place[m]]]
  {
  }

  lemma ThrownOnward(s: State, s': State, m: nat, r: Outcome)
    requires Thrown(s, s', m, r) && s.raised[m] == 0
    ensures Onward(s, s')
  {
  }

  lemma CreateOnward(s: State, source: nat, target: nat)
    ensures Onward(s, Create(s, source, target))
  {
  }

  lemma OnwardSame(s: State, t: State, u: State)
    requires u.msgs == t.msgs && u.raised == t.raised && (Onward(s, t) || s == t)
    ensures Onward(s, u)
  {
  }

  lemma OnwardOn(s: State, t: State, u: State)
    requires Onward(s, t) && Onward(t, u)
    ensures Onward(s, u)
  {
  }

  lemma WaitsForLive(s: State, x: int, y: int, t: nat)
    requires Inv(s, x, y) && t < |s.threads| && s.threads[t].why.OnThrowTo?
    ensures var m := s.threads[t].why.msg;
      m < |s.msgs| && m < |s.place| && (s.msgs[m].info != Revoked ==> s.place[m] != Nowhere)
  {
    hide AllHold, WakePending;
  }

  /** A live message on a queue: its exception was not raised, and its sender waits. */
  lemma QueuedFacts(s: State, m: nat)
    requires Inv(s, NOBODY, NOBODY) && m < |s.msgs| && m < |s.place| && s.place[m] in s.queues
    ensures m < |s.raised| && EndsOk(s.msgs[m], |s.threads|)
    ensures s.msgs[m].info != Revoked ==> s.raised[m] == 0 && s.threads[s.msgs[m].source].why == OnThrowTo(m)
  {
    hide AllHold, WakePending;
  }

  lemma RelockOnward(s: State, m: nat, s': State)
    requires m < |s.msgs| && s.msgs[m].info != Revoked && Onward(SetInfo(s, m, Locked), s')
    ensures Onward(s, s')
  {
  }

  lemma InfoOnward(s: State, s': State, m: nat, i: Info)
    requires Onward(s, s') && m < |s.msgs| && m < |s'.msgs| && (s.msgs[m].info == Revoked ==> i == Revoked)
    ensures Onward(s, SetInfo(s', m, i))
  {
  }

  lemma TakeFacts(s: State, p: Place)
    requires p in s.queues && s.queues[p] != []
    ensures var e := s.queues[p][0]; var s' := Take(s, p);
      && s'.msgs == s.msgs && s'.threads == s.threads && s'.raised == s.raised
      && s'.queues == s.queues[p := s.queues[p][1..]]
      && (e.Wakeup? ==> s'.place == s.place)
      && (e.Throw? && e.msg < |s.place| ==> s'.place == s.place[e.msg := InHand])
  {
  }

  lemma SizesOk(s: State, x: int, y: int)
    requires Inv(s, x, y)
    ensures |s.msgs| == |s.place| == |s.raised| && Nowhere !in s.queues && InHand !in s.queues
  {
  }

  /** What one call of throwToMsg() amounts to. */
  ghost predicate Thrown(s: State, s': State, m: nat, r: Outcome) {
    && m < |s.msgs| && |s'.msgs| == |s.msgs| && |s'.place| == |s.place| && |s'.raised| == |s.raised| == |s.place|
    && m < |s.place| && m < |s.raised| && |s'.threads| == |s.threads| && s'.queues.Keys == s.queues.Keys
    && s.msgs[m].target < |s.threads|
    && var t := s.msgs[m].target;
    // nothing happens to other messages, except that the target's own may be revoked
    && s'.msgs[m] == s.msgs[m]
    && (forall k :: 0 <= k < |s.msgs| && k != m ==>
          s'.msgs[k] == s.msgs[k] || (s.threads[t].why == OnThrowTo(k) && s'.msgs[k] == s.msgs[k].(info := Revoked)))
    && (forall k :: 0 <= k < |s.place| && k != m ==> s'.place[k] == s.place[k] && s'.raised[k] == s.raised[k])
    && (forall u :: 0 <= u < |s.threads| && u != t ==> s'.threads[u] == s.threads[u])
    && match r
       case Spin => s' == s
       case Blocked => s'.raised == s.raised && QueuedAt(s, s', s'.place[m], m)
       case Success => s'.place == s.place && s'.queues == s.queues
                       && (s'.raised[m] == 1 || (s.threads[t].next != Alive && s'.raised == s.raised))
  }

  /** m was put at the front of queue p, an inbox or a thread's blocked_exceptions. */
  ghost predicate QueuedAt(s: State, s': State, p: Place, m: nat) {
    && p in s.queues && (p.InInbox? || p.InBlocked?)
    && s'.queues == s.queues[p := [Throw(m)] + s.queues[p]]
  }

  /** What thread th is blocked on, not counting what has come to an end already: the wakeup for that is
      on its way. */
  function Effective(s: State, th: Thread): Why {
    if th.why == OnMVar(true) || th.why == Migrating
       || (th.why.OnThrowTo? && th.why.msg < |s.msgs| && s.msgs[th.why.msg].info == Revoked)
    then NotBlocked else th.why
  }

  /** Thread th takes an asynchronous exception now: it is not in a foreign call, and it either does not
      mask exceptions or is blocked in an operation that can be interrupted. */
  predicate Receptive(s: State, th: Thread) {
    var w := Effective(s, th);
    && !w.OnCCall? && !w.OnCCallInterruptible?
    && (!th.blockEx || (th.interruptible && (w.OnMVar? || w.OnThrowTo? || w.OnSTM? || w.OnIO?)))
  }

  /** throwToMsg() and maybePerformBlockedException() judge a thread alike but for one in a foreign call
      that does not mask exceptions, which only the latter would let through (it is never called for
      one), and one that masks them interruptibly: in STM it takes an exception only by the former, and
      with what it waited for at an end only by the latter. */
  lemma WhereTheyDiffer(s: State, th: Thread)
    ensures (Receptive(s, th) <==> CanTake(th)) <==>
            !(|| ((th.why.OnCCall? || th.why.OnCCallInterruptible?) && !th.blockEx)
              || (th.blockEx && th.interruptible && th.why.OnSTM?)
              || (th.blockEx && th.interruptible && (th.why.OnMVar? || th.why.OnThrowTo?) && Effective(s, th) == NotBlocked))
  {
  }

  /** Somebody holds the message that th waits for. */
  predicate WaitLocked(s: State, th: Thread) {
    th.why.OnThrowTo? && th.why.msg < |s.msgs| && s.msgs[th.why.msg].info == Locked
  }

  /** The thread is as it was, or was woken up that had nothing to wait for any more. */
  predicate Settled(s: State, th0: Thread, th: Thread) {
    th == th0 || (Effective(s, th0) == NotBlocked && th == th0.(why := NotBlocked))
  }

  /** Where message m for thread t, in state th, goes that is not raised: to the thread's capability
      if that is another one, back to our own inbox if we have to let go of m, and else to the thread's
      own queue because it takes no exception now. */
  predicate Route(s: State, cap: nat, t: nat, th: Thread, lower: bool, p: Place) {
    && th.next == Alive
    && if th.cap != cap then p == InInbox(th.cap)
       else if WaitLocked(s, th) then !lower && p == InInbox(cap)
       else !Receptive(s, th) && p == InBlocked(t)
  }

  /** throwToMsg() decides rightly: an exception is raised exactly in threads of ours that take it. */
  ghost predicate Judged(s: State, s': State, cap: nat, m: nat, h: Handler, lower: bool, r: Outcome) {
    && m < |s.msgs| && m < |s'.place| && m < |s.raised| && s.msgs[m].target < |s.threads| == |s'.threads|
    && var t := s.msgs[m].target;
    && var th := s.threads[t];
    && match r
       case Success => if th.next != Alive then Settled(s, th, s'.threads[t]) && s'.raised == s.raised
                       else th.cap == cap && !WaitLocked(s, th) && Receptive(s, th)
                            && s'.threads[t] == Raised(th, h) && s'.raised == s.raised[m := 1]
       case Blocked => Route(s, cap, t, th, lower, s'.place[m]) && Settled(s, th, s'.threads[t]) && s'.raised == s.raised
       case Spin => th.next == Alive && th.cap == cap && WaitLocked(s, th) && lower
  }

  /** What a message meets in a live thread of ours, by the thread's own flags: one that runs or waits
      for memory takes the exception unless it masks exceptions, one in a foreign call never, one in an
      operation that can be interrupted unless it masks them uninterruptibly. A thread that takes it is
      as it was but for running its handler, masked as the handler says, or being dead; with one that
      does not the message waits. */
  ghost predicate Meets(s: State, s': State, cap: nat, m: nat, h: Handler, r: Outcome) {
    && m < |s.msgs| && m < |s'.place| && s.msgs[m].target < |s.threads| == |s'.threads|
    && var t := s.msgs[m].target;
    && var th, th' := s.threads[t], s'.threads[t];
    th.next == Alive && th.cap == cap ==>
      && (th.why == NotBlocked || th.why == OnBlackHole || th.why == Migrating || th.why == OnMVar(true) ==>
            r == if th.blockEx then Blocked else Success)
      && (th.why.OnThrowTo? && th.why.msg < |s.msgs| && s.msgs[th.why.msg].info == Revoked ==>
            r == if th.blockEx then Blocked else Success)
      && (th.why.OnThrowTo? && th.why.msg < |s.msgs| && s.msgs[th.why.msg].info == Ready ==>
            r == if th.blockEx && !th.interruptible then Blocked else Success)
      && (th.why == OnCCall || th.why == OnCCallInterruptible ==> r == Blocked)
      && (th.why == OnMVar(false) || th.why == OnSTM || th.why == OnIO ==>
            r == if th.blockEx && !th.interruptible then Blocked else Success)
      && (r == Blocked && !th.why.OnThrowTo? ==> s'.place[m] == InBlocked(t))
      && (r == Success ==> th'.cap == cap && th'.why == NotBlocked)
      && (r == Success && h.Nobody? ==> th'.next == Killed)
      && (r == Success && h.Catches? ==> th'.next == Alive && th'.blockEx && th'.interruptible == h.interruptible)
  }

  lemma JudgedMeets(s: State, s': State, cap: nat, m: nat, h: Handler, lower: bool, r: Outcome)
    requires Judged(s, s', cap, m, h, lower, r)
    ensures Meets(s, s', cap, m, h, r)
  {
  }

  /** Masking holds: who masks exceptions uninterruptibly takes none, and who masks them interruptibly
      none while it is not blocked. In particular nobody is interrupted who was just given an
      exception. */
  lemma MaskedTakesNone(s: State, th: Thread)
    requires th.blockEx && (!th.interruptible || Effective(s, th) == NotBlocked)
    ensures !Receptive(s, th) && (th.why == Effective(s, th) ==> !CanTake(th))
  {
  }

  lemma JustRaisedTakesNone(s: State, th: Thread, i: bool)
    ensures !Receptive(s, Raised(th, Catches(i))) && !CanTake(Raised(th, Catches(i)))
  {
  }

  /** A second exception for a thread in which one was just raised and caught does not hit it: it waits on
      the thread's queue, and the thread goes on with its handler. */
  method SecondExceptionWaits(rts: Rts, first: nat, second: nat, target: nat, i: bool, h: Handler, lower: bool)
    returns (r1: Outcome, r2: Outcome)
    requires rts.Valid() && first < |rts.threads| && second < |rts.threads| && target < |rts.threads|
    requires first != second && first != target && second != target
    requires rts.threads[first].why == NotBlocked && rts.threads[second].why == NotBlocked
    requires rts.threads[target].next == Alive && rts.threads[target].cap == rts.threads[second].cap
    modifies rts
    ensures rts.Valid() && |rts.threads| == |old(rts.threads)|
    ensures r1 == Success ==> r2 == Blocked && rts.threads[target] == old(rts.threads[target]).(
      why := NotBlocked, blockEx := true, interruptible := i)
    ensures r1 == Success ==> |rts.place| > 0 && rts.place[|rts.place| - 1] == InBlocked(target)
  {
    hide Inv, Onward, Receptive;
    r1 := rts.ThrowNew(first, target, Catches(i), lower);
    r2 := Spin;
    if r1 == Success {
      JustRaisedTakesNone(rts.S(), old(rts.threads[target]), i);
      r2 := rts.ThrowNew(second, target, h, lower);
    }
  }

  /** throwTo() from `source`: the exception is raised at once exactly if the target is on the same
      capability and takes it; the message for a target elsewhere goes there. */
  ghost predicate ThrownRightly(s: State, s': State, source: nat, target: nat, h: Handler, r: Outcome) {
    && source < |s.threads| == |s'.threads| && target < |s.threads| && source != target
    && var th := s.threads[target];
    && (r == Success && th.next == Alive ==>
          th.cap == s.threads[source].cap && Receptive(s, th) && s'.threads[target] == Raised(th, h))
    && (r == Spin ==> th.next == Alive && th.cap == s.threads[source].cap && WaitLocked(s, th))
    && (r == Blocked ==> th.next == Alive && |s.msgs| < |s'.place| && Settled(s, th, s'.threads[target]))
    && (r == Blocked && th.cap != s.threads[source].cap ==> s'.place[|s.msgs|] == InInbox(th.cap))
    && (r == Blocked && th.cap == s.threads[source].cap ==>
          WaitLocked(s, th) || (!Receptive(s, th) && s'.place[|s.msgs|] == InBlocked(target)))
  }

  /** The new message is none that the target waits for. */
  lemma RightForNew(s: State, s1: State, s': State, u: State, source: nat, target: nat, h: Handler, lower: bool, r: Outcome)
    requires Inv(s, NOBODY, NOBODY) && source < |s.threads| && target < |s.threads| && source != target
    requires s1 == Create(s, source, target) && Judged(s1, s', s.threads[source].cap, |s.msgs|, h, lower, r)
    requires |u.threads| == |s.threads| && (r != Spin ==> u.threads[target] == s'.threads[target])
    requires r == Blocked ==> u.place == s'.place
    ensures ThrownRightly(s, u, source, target, h, r)
  {
    hide QueuesOk, Furnished, SendersWait, MessagesOk, WakePending;
    var th := s.threads[target];
    assert th.why.OnThrowTo? ==> th.why.msg < |s.msgs|;
    assert Effective(s1, th) == Effective(s, th) && WaitLocked(s1, th) == WaitLocked(s, th);
  }

  /** No exception is raised but that of m, and that only in a live thread of ours that takes it. */
  ghost predicate RaisedRightly(s: State, s': State, cap: nat, m: nat) {
    s'.raised == s.raised ||
      (&& m < |s.raised| && s'.raised == s.raised[m := 1] && m < |s.msgs| && s.msgs[m].target < |s.threads|
       && var th := s.threads[s.msgs[m].target]; th.next == Alive && th.cap == cap && Receptive(s, th))
  }

  lemma NothingRaised(s: State, cap: nat, m: nat)
    ensures RaisedRightly(s, s, cap, m)
  {
  }

  lemma RightSame(s: State, s': State, t: State, t': State, cap: nat, m: nat)
    requires RaisedRightly(s, s', cap, m) && t.msgs == s.msgs && t.threads == s.threads && t.raised == s.raised
    requires t'.raised == s'.raised
    ensures RaisedRightly(t, t', cap, m)
  {
  }

  lemma RightAfterRelock(s: State, s1: State, s': State, cap: nat, m: nat, h: Handler, lower: bool, r: Outcome)
    requires m < |s.msgs| && s.msgs[m].info == Ready && s1 == SetInfo(s, m, Locked)
    requires Thrown(s1, s', m, r) && Judged(s1, s', cap, m, h, lower, r)
    ensures RaisedRightly(s, s', cap, m)
  {
    var th := s.threads[s.msgs[m].target];
    assert Effective(s1, th) == Effective(s, th);
  }

  lemma NothingThrown(s: State, cap: nat, m: nat, h: Handler, lower: bool)
    requires m < |s.msgs| == |s.place| == |s.raised| && s.msgs[m].target < |s.threads|
    requires var th := s.threads[s.msgs[m].target]; th.next == Alive && th.cap == cap && WaitLocked(s, th) && lower
    ensures Thrown(s, s, m, Spin) && Judged(s, s, cap, m, h, lower, Spin)
  {
  }

  lemma ThrownAtDead(s0: State, s: State, cap: nat, m: nat, h: Handler, lower: bool)
    requires m < |s0.msgs| == |s0.place| == |s0.raised| && s0.msgs[m].target < |s0.threads|
    requires OnlyThread(s0, s, s0.msgs[m].target) && s.queues == s0.queues && s0.threads[s0.msgs[m].target].next != Alive
    requires Settled(s0, s0.threads[s0.msgs[m].target], s.threads[s0.msgs[m].target])
    ensures Thrown(s0, s, m, Success) && Judged(s0, s, cap, m, h, lower, Success)
  {
  }

  lemma ThrownByPut(s0: State, s: State, cap: nat, p: Place, m: nat, h: Handler, lower: bool)
    requires m < |s0.msgs| == |s0.place| == |s0.raised| && s0.msgs[m].target < |s0.threads|
    requires OnlyThread(s0, s, s0.msgs[m].target) && s.queues == s0.queues && p in s.queues
    requires var t := s0.msgs[m].target; Settled(s0, s0.threads[t], s.threads[t]) && Route(s, cap, t, s.threads[t], lower, p)
    ensures Thrown(s0, Put(s, p, m), m, Blocked) && Judged(s0, Put(s, p, m), cap, m, h, lower, Blocked)
  {
  }

  /** The target's own message may have been revoked before. */
  lemma ThrownByRaise(s0: State, s: State, s': State, cap: nat, m: nat, h: Handler, lower: bool)
    requires m < |s0.msgs| == |s0.place| == |s0.raised| && s0.msgs[m].target < |s0.threads|
    requires OnlyThread(s0, s, s0.msgs[m].target) && s.queues == s0.queues
    requires var t := s0.msgs[m].target;
      && Settled(s0, s0.threads[t], s.threads[t])
      && s.threads[t].next == Alive && s.threads[t].cap == cap && Receptive(s, s.threads[t]) && !WaitLocked(s, s.threads[t])
    requires var t := s0.msgs[m].target;
      && s'.threads == s.threads[t := Raised(s.threads[t], h)]
      && s'.queues == s.queues && s'.place == s.place && s'.raised == s.raised[m := 1]
      && (s'.msgs == s.msgs ||
           (s.threads[t].why.OnThrowTo? && s.threads[t].why.msg < |s.msgs| && s.threads[t].why.msg != m
            && s.threads[t].why == s0.threads[t].why
            && s'.msgs == s.msgs[s.threads[t].why.msg := s.msgs[s.threads[t].why.msg].(info := Revoked)]))
    ensures Thrown(s0, s', m, Success) && Judged(s0, s', cap, m, h, lower, Success)
  {
  }

  lemma Bounds(s: State, x: int, y: int, t: nat, m: nat)
    requires Inv(s, x, y) && t < |s.threads| && m < |s.msgs|
    ensures |s.msgs| == |s.place| == |s.raised| && EndsOk(s.msgs[m], |s.threads|)
    ensures InBlocked(t) in s.queues && InInbox(s.threads[t].cap) in s.queues
    ensures s.threads[t].why.OnThrowTo? ==> s.threads[t].why.msg < |s.msgs| && s.msgs[s.threads[t].why.msg].source == t
  {
    hide AllHold, WakePending;
  }

  /** A live message in hand whose sender waits for it, or is about to. */
  ghost predicate Movable(s: State, m: nat, x: int) {
    && m < |s.msgs| && m < |s.place| && m < |s.raised| && s.place[m] == InHand
    && s.msgs[m].info != Revoked && s.raised[m] == 0 && s.msgs[m].source < |s.threads|
    && (x == m || s.threads[s.msgs[m].source].why == OnThrowTo(m))
  }

  /** tryWakeupThread() would make t runnable. */
  predicate Wakeable(s: State, t: nat)
    requires t < |s.threads|
  {
    var w := s.threads[t].why;
    || w == OnMVar(true) || w == OnBlackHole || w == OnSTM || w == Migrating
    || (w.OnThrowTo? && w.msg < |s.msgs| && s.msgs[w.msg].info == Revoked)
  }

  lemma NobodyToWakeOr(s: State, x: int, y: int, t: nat)
    requires Inv(s, x, y) && t < |s.threads| && (y == NOBODY || y == t)
    ensures s.threads[t].why.OnThrowTo? ==> s.threads[t].why.msg < |s.msgs|
    ensures !(s.threads[t].why.OnThrowTo? && s.msgs[s.threads[t].why.msg].info == Revoked) ==> Inv(s, x, NOBODY)
    ensures InInbox(s.threads[t].cap) in s.queues
  {
    assert InBlocked(t) in s.queues;
    hide AllHold, WakePending;
  }
}
